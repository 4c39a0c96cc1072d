/** Whole runs over the master device list: hardware comes and goes, clients add and remove their own controllers. */
module DeviceRuns {
  import opened DeviceList
  import opened Sequences

  /** A registration is a Push, which appends to the hardware list, and later a Finish; clients may act in between. */
  datatype Action = Push(c: Id) | Finish | Remove(c: Id) | Clear | ClientAdd(x: Id) | ClientErase(x: Id)

  /** `others` is what the clients have made of their part of the list; `pushed` and `gone` count the controllers
      registered since the last Finish, and those unregistered since the recorded size was last right. */
  datatype State = State(l: Lists, others: seq<Id>, pushed: nat, gone: nat)

  const INIT := State(Lists([], [], 0, []), [], 0, 0)

  /** What the callers owe: controllers that are added are new objects, clients erase their own, and only hardware
      controllers are unregistered. */
  predicate Enabled(s: State, a: Action) {
    match a
    case Push(c) => c !in s.l.controllers && c !in s.l.hardware
    case Finish => Distinct(s.l.hardware)
    case Remove(c) => Distinct(s.l.hardware) && (c in s.l.hardware || c !in s.l.controllers)
    case Clear => true
    case ClientAdd(x) => x !in s.l.controllers && x !in s.l.hardware
    case ClientErase(x) => x !in s.l.hardware
  }

  function Step(s: State, a: Action): State
    requires Enabled(s, a)
  {
    match a
    case Push(c) => s.(l := DeviceList.Push(s.l, c), pushed := s.pushed + 1)
    case Finish => s.(l := Refresh(s.l), pushed := 0, gone := 0)
    case Remove(c) => s.(l := Unregister(s.l, c), gone := s.gone + if c in s.l.hardware then 1 else 0)
    case Clear => s.(l := CleanUp(s.l), pushed := 0, gone := 0)
    case ClientAdd(x) => s.(l := s.l.(controllers := s.l.controllers + [x]), others := s.others + [x])
    case ClientErase(x) => s.(l := s.l.(controllers := Erase(s.l.controllers, x)), others := Erase(s.others, x))
  }

  /** Actions whose callers do not keep their side are skipped. */
  function Exec(s: State, run: seq<Action>): State
    decreases |run|
  {
    if run == [] then s else Exec(if Enabled(s, run[0]) then Step(s, run[0]) else s, run[1..])
  }

  /** How many hardware controllers are in the master list. */
  function Listed(s: State): int { |s.l.controllers| - |s.others| }

  predicate Prefixed(l: Lists, others: seq<Id>, p: int) {
    && 0 <= p <= |l.hardware| && l.controllers == l.hardware[..p] + others
    && Distinct(l.hardware) && Distinct(others)
    && forall i :: 0 <= i < |others| ==> others[i] !in l.hardware
  }

  predicate Inv(s: State) {
    Prefixed(s.l, s.others, Listed(s)) && |s.l.hardware| + s.gone == s.l.prevSize + s.pushed
  }

  // ---------------------------------------------------------------- prefixes are ordered

  lemma {:induction false} KeptAll(hw: seq<Id>, s: seq<Id>)
    requires forall i :: 0 <= i < |hw| ==> hw[i] in s
    ensures Kept(hw, s) == hw
  {
    if hw != [] {
      var n := |hw| - 1;
      KeptAll(hw[..n], s);
      assert hw == hw[..n] + [hw[n]] && hw[n] in s;
    }
  }

  lemma {:induction false} KeptNoneOf(hw: seq<Id>, s: seq<Id>)
    requires forall i :: 0 <= i < |hw| ==> hw[i] !in s
    ensures Kept(hw, s) == []
  {
    if hw != [] { KeptNoneOf(hw[..|hw| - 1], s); }
  }

  lemma PrefixOrdered(l: Lists, others: seq<Id>, p: int)
    requires Prefixed(l, others, p)
    ensures Ordered(l.controllers, l.hardware) && Distinct(l.controllers) && Rest(l.controllers, l.hardware) == others
  {
    hide Kept, Rest;
    var hw, s := l.hardware, l.controllers;
    assert hw == hw[..p] + hw[p..];
    KeptConcat(hw[..p], hw[p..], s);
    forall i | 0 <= i < p ensures hw[..p][i] in s { assert s[i] == hw[i]; }
    KeptAll(hw[..p], s);
    forall i | 0 <= i < |hw| - p ensures hw[p..][i] !in s { assert hw[p..][i] !in hw[..p]; }
    KeptNoneOf(hw[p..], s);
    forall i | 0 <= i < p ensures hw[..p][i] in hw { assert hw[..p][i] == hw[i]; }
    RestConcat(hw[..p], others, hw);
    forall i | 0 <= i < |others| ensures others[i] !in hw[..p] { assert others[i] !in hw; }
    JoinDistinct(hw[..p], others);
  }

  /** After an update the whole hardware list comes first and the others follow unchanged; nothing was moved. */
  lemma UpdatePrefixed(l: Lists, others: seq<Id>, p: int)
    requires Prefixed(l, others, p)
    ensures NeverMoves(l.controllers, l.hardware)
    ensures Update(l.controllers, l.hardware, |l.hardware|) == l.hardware + others
  {
    hide Prefixed, Ordered, NeverMoves, Update;
    PrefixOrdered(l, others, p);
    PrefixedDistinct(l, others, p);
    UpdateIsCleanIff(l.controllers, l.hardware);
  }

  lemma PrefixedDistinct(l: Lists, others: seq<Id>, p: int)
    requires Prefixed(l, others, p)
    ensures Distinct(l.hardware)
  {
  }

  // ---------------------------------------------------------------- every action keeps the prefix

  lemma UnregisterPrefixed(l: Lists, others: seq<Id>, p: int, c: Id, t: Lists)
    requires Prefixed(l, others, p) && (c in l.hardware || c !in l.controllers)
    requires t == l.(controllers := Erase(l.controllers, c), hardware := Erase(l.hardware, c))
    ensures Prefixed(t, others, p - if c in l.hardware[..p] then 1 else 0)
    ensures |t.hardware| == |l.hardware| - if c in l.hardware then 1 else 0
  {
    hide Erase;
    var hw := l.hardware;
    EraseDistinct(hw, c);
    if c in hw {
      var i := EraseSplit(hw, c);
      if i < p {
        assert hw[..p][i] == c;
        EraseFromFront(hw[..p], others, c);
        EraseSplitPrefix(hw, p, i, c);
      } else {
        assert c !in l.controllers by { NotInPrefix(l, others, p, i); }
        EraseAbsent(l.controllers, c);
        assert t.hardware[..p] == hw[..p];
        assert c !in hw[..p];
      }
    } else {
      EraseAbsent(hw, c);
      EraseAbsent(l.controllers, c);
      assert c !in hw[..p];
    }
  }

  lemma EraseSplitPrefix(hw: seq<Id>, p: int, i: nat, c: Id)
    requires Distinct(hw) && i < p <= |hw| && hw[i] == c
    ensures Erase(hw[..p], c) == Erase(hw, c)[..p - 1]
  {
    assert hw[..p][i] == c && hw[..p][..i] == hw[..i] && hw[..p][i + 1..] == hw[i + 1..p];
    EraseAt(hw[..p], i, c);
    EraseAt(hw, i, c);
  }

  lemma NotInPrefix(l: Lists, others: seq<Id>, p: int, i: nat)
    requires Prefixed(l, others, p) && p <= i < |l.hardware|
    ensures l.hardware[i] !in l.controllers
  {
    assert l.hardware[i] !in l.hardware[..p];
    assert l.hardware[i] !in others;
  }

  lemma EraseAllLast(s: seq<Id>, hw: seq<Id>, n: nat)
    requires 0 < n <= |hw|
    ensures EraseAll(s, hw[..n]) == Erase(EraseAll(s, hw[..n - 1]), hw[n - 1])
  {
    assert hw[..n][..n - 1] == hw[..n - 1];
  }

  lemma {:induction false} EraseAllPrefixed(s: seq<Id>, hw: seq<Id>, others: seq<Id>, p: nat, n: nat)
    requires p <= |hw| && s == hw[..p] + others && n <= |hw|
    requires forall i :: 0 <= i < |hw| ==> hw[i] !in others
    ensures EraseAll(s, hw[..n]) == if n <= p then hw[n..p] + others else others
  {
    hide Erase, EraseAll;
    if n > 0 {
      EraseAllPrefixed(s, hw, others, p, n - 1);
      EraseAllLast(s, hw, n);
      if n <= p {
        assert hw[n - 1..p] + others == [hw[n - 1]] + (hw[n..p] + others);
        EraseHead(hw[n - 1], hw[n..p] + others);
      } else {
        if n - 1 == p { assert hw[n - 1..p] + others == others; }
        EraseAbsent(others, hw[n - 1]);
      }
    } else {
      EraseAllNone(s, hw[..0]);
      assert hw[0..p] == hw[..p];
    }
  }

  lemma EraseAllNone(s: seq<Id>, hw: seq<Id>)
    requires hw == []
    ensures EraseAll(s, hw) == s
  {
  }

  lemma FinishKeepsInv(s: State)
    requires Inv(s)
    ensures Enabled(s, Finish) && Inv(Step(s, Finish)) && Step(s, Finish).l.controllers == s.l.hardware + s.others
  {
    hide Update;
    UpdatePrefixed(s.l, s.others, Listed(s));
    assert s.l.hardware[..|s.l.hardware|] == s.l.hardware;
  }

  lemma RemoveKeepsInv(s: State, c: Id)
    requires Inv(s) && Enabled(s, Remove(c))
    ensures var t := Step(s, Remove(c)); Inv(t) && t.l.controllers == t.l.hardware + t.others
  {
    hide Update, Erase;
    var p := Listed(s);
    var mid := s.l.(controllers := Erase(s.l.controllers, c), hardware := Erase(s.l.hardware, c));
    UnregisterPrefixed(s.l, s.others, p, c, mid);
    UpdatePrefixed(mid, s.others, p - if c in s.l.hardware[..p] then 1 else 0);
    assert mid.hardware[..|mid.hardware|] == mid.hardware;
  }

  lemma ClearKeepsInv(s: State)
    requires Inv(s)
    ensures var t := Step(s, Clear); Inv(t) && t.l.controllers == t.others
  {
    hide EraseAll;
    assert s.l.hardware[..|s.l.hardware|] == s.l.hardware;
    var hw := s.l.hardware;
    forall i | 0 <= i < |hw| ensures hw[i] !in s.others {
      assert forall k :: 0 <= k < |s.others| ==> s.others[k] != hw[i];
    }
    EraseAllPrefixed(s.l.controllers, hw, s.others, Listed(s), |hw|);
    var t := Step(s, Clear);
    if Listed(s) == |hw| { assert hw[|hw|..Listed(s)] + s.others == s.others; }
    assert t.l.controllers == s.others;
    assert t.l.hardware[..0] == [];
  }

  lemma PushKeepsInv(s: State, c: Id)
    requires Inv(s) && Enabled(s, Action.Push(c))
    ensures Inv(Step(s, Action.Push(c)))
  {
    var p, hw := Listed(s), s.l.hardware;
    assert (hw + [c])[..p] == hw[..p];
    forall i | 0 <= i < |s.others| ensures s.others[i] != c { assert s.others[i] == s.l.controllers[p + i]; }
  }

  lemma ClientKeepsInv(s: State, a: Action)
    requires Inv(s) && (a.ClientAdd? || a.ClientErase?) && Enabled(s, a)
    ensures Inv(Step(s, a))
  {
    var p, hw := Listed(s), s.l.hardware;
    if a.ClientAdd? {
      assert a.x !in s.others;
    } else {
      assert a.x !in hw[..p];
      EraseConcat(hw[..p], s.others, a.x);
      EraseDistinct(s.others, a.x);
      if a.x in s.others { var i := EraseSplit(s.others, a.x); } else { EraseAbsent(s.others, a.x); }
    }
  }

  lemma StepKeepsInv(s: State, a: Action)
    requires Inv(s) && Enabled(s, a)
    ensures Inv(Step(s, a))
  {
    hide Inv, Step, Enabled;
    match a
    case Push(c) => PushKeepsInv(s, c);
    case Finish => FinishKeepsInv(s);
    case Remove(c) => RemoveKeepsInv(s, c);
    case Clear => ClearKeepsInv(s);
    case _ => ClientKeepsInv(s, a);
  }

  lemma {:induction false} ExecKeepsInv(s: State, run: seq<Action>)
    requires Inv(s)
    ensures Inv(Exec(s, run))
    decreases |run|
  {
    hide Inv, Step, Enabled;
    if run != [] {
      if Enabled(s, run[0]) {
        StepKeepsInv(s, run[0]);
        ExecKeepsInv(Step(s, run[0]), run[1..]);
      } else {
        ExecKeepsInv(s, run[1..]);
      }
    }
  }

  // ---------------------------------------------------------------- main results, for every run

  /** The master list is always a prefix of the hardware list followed by the clients' controllers in their order,
      without duplicates. */
  lemma PrefixAlways(run: seq<Action>)
    ensures var s := Exec(INIT, run);
            && 0 <= Listed(s) <= |s.l.hardware| && s.l.controllers == s.l.hardware[..Listed(s)] + s.others
            && Distinct(s.l.controllers)
            && (forall i :: 0 <= i < |s.others| ==> s.others[i] !in s.l.hardware)
  {
    hide Exec;
    ExecKeepsInv(INIT, run);
    var s := Exec(INIT, run);
    PrefixOrdered(s.l, s.others, Listed(s));
  }

  /** Whenever a registration ends or a controller is unregistered, the update takes no move, and afterwards the whole
      hardware list comes first and the clients' controllers follow in unchanged order. */
  lemma UpdatesAreClean(run: seq<Action>, a: Action)
    requires (a.Finish? || a.Remove?) && Enabled(Exec(INIT, run), a)
    ensures var s := Exec(INIT, run); var t := Step(s, a);
            && t.l.controllers == t.l.hardware + s.others && t.others == s.others
            && (a.Finish? ==> NeverMoves(s.l.controllers, s.l.hardware))
            && (a.Remove? ==> Distinct(t.l.hardware) && NeverMoves(Erase(s.l.controllers, a.c), t.l.hardware))
  {
    hide Exec, Erase, Update, NeverMoves;
    ExecKeepsInv(INIT, run);
    var s := Exec(INIT, run);
    if a.Finish? {
      FinishKeepsInv(s);
      UpdatePrefixed(s.l, s.others, Listed(s));
    } else {
      RemoveKeepsInv(s, a.c);
      var mid := s.l.(controllers := Erase(s.l.controllers, a.c), hardware := Erase(s.l.hardware, a.c));
      UnregisterPrefixed(s.l, s.others, Listed(s), a.c, mid);
      UpdatePrefixed(mid, s.others, Listed(s) - if a.c in s.l.hardware[..Listed(s)] then 1 else 0);
    }
  }

  /** A registration looks up the saved sizes of the new controller if and only if no controller has been unregistered
      since the last registration or clean-up, because unregistering leaves the recorded size as it is. */
  lemma SizesLookedUpIff(run: seq<Action>, c: Id)
    requires Exec(INIT, run).pushed == 0 && Enabled(Exec(INIT, run), Action.Push(c))
    ensures var s := Exec(INIT, run); var t := Step(s, Action.Push(c));
            && Enabled(t, Finish)
            && Step(t, Finish).l.sized == s.l.sized + if s.gone == 0 then [c] else []
  {
    hide Exec, Update;
    ExecKeepsInv(INIT, run);
    var s := Exec(INIT, run);
    PushKeepsInv(s, c);
  }

  lemma Next(s: State, a: Action, rest: seq<Action>)
    requires Enabled(s, a)
    ensures Exec(s, [a] + rest) == Exec(Step(s, a), rest)
  {
    hide Step, Enabled;
    assert ([a] + rest)[1..] == rest;
  }

  const ONE_KNOWN := State(Lists([1], [1], 1, [1]), [], 0, 0)
  const ONE_GONE := State(Lists([], [], 1, [1]), [], 0, 1)

  lemma OneComes()
    ensures Exec(INIT, [Action.Push(1), Finish, Remove(1)]) == Exec(ONE_KNOWN, [Remove(1)])
  {
    var s := Step(INIT, Action.Push(1));
    assert s.l.hardware == [1];
    assert Step(s, Finish) == ONE_KNOWN;
    hide *;
    Next(s, Finish, [Remove(1)]);
    Next(INIT, Action.Push(1), [Finish, Remove(1)]);
    assert [Finish] + [Remove(1)] == [Finish, Remove(1)];
    assert [Action.Push(1)] + [Finish, Remove(1)] == [Action.Push(1), Finish, Remove(1)];
  }

  lemma OneGoes()
    ensures Exec(ONE_KNOWN, [Remove(1)]) == ONE_GONE
  {
    assert Step(ONE_KNOWN, Remove(1)) == ONE_GONE;
    hide *;
    Next(ONE_KNOWN, Remove(1), []);
    assert [Remove(1)] + [] == [Remove(1)];
    ExecNothing(ONE_GONE);
  }

  /** One controller comes and goes; the sizes of the next one are not looked up. */
  lemma SizesMissed()
    ensures var s := Exec(INIT, [Action.Push(1), Finish, Remove(1)]);
            && s.pushed == 0 && Enabled(s, Action.Push(2)) && Enabled(Step(s, Action.Push(2)), Finish)
            && Step(Step(s, Action.Push(2)), Finish).l.sized == [1]
  {
    hide Exec, Step;
    OneComes();
    OneGoes();
    SizesLookedUpIff([Action.Push(1), Finish, Remove(1)], 2);
    assert [1] + [] == [1];
  }

  lemma ExecNothing(s: State)
    ensures Exec(s, []) == s
  {
  }
}
