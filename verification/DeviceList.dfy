/** The master device list of the resource manager: hardware controllers in front, everybody else's behind. */
module DeviceList {
  import opened Sequences

  /** Identity of a controller object. */
  type Id = nat

  function EraseAll(s: seq<Id>, cs: seq<Id>): seq<Id> {
    if cs == [] then s else Erase(EraseAll(s, cs[..|cs| - 1]), cs[|cs| - 1])
  }

  function Insert(s: seq<Id>, i: nat, c: Id): seq<Id>
    requires i <= |s|
  {
    s[..i] + [c] + s[i..]
  }

  /** One iteration of UpdateDeviceList. A controller found at another index is moved to `i`, and then inserted again:
      the insertion after the search loop is not guarded by its outcome. */
  function Place(s: seq<Id>, i: nat, c: Id): (r: seq<Id>)
    requires i <= |s| && c !in s[..i]
    ensures |r| > i && r[..i] == s[..i] && r[i] == c
  {
    if i < |s| && s[i] == c then s
    else if c in s then Insert(Moved(s, i, c), i, c)
    else Insert(s, i, c)
  }

  function Moved(s: seq<Id>, i: nat, c: Id): (r: seq<Id>)
    requires i <= |s| && c !in s[..i] && c in s
    ensures |r| == |s| && r[..i] == s[..i]
  {
    ErasePast(s, i, c);
    Insert(Erase(s, c), i, c)
  }

  /** The master list after the first `n` hardware controllers. */
  function Update(s: seq<Id>, hw: seq<Id>, n: nat): (r: seq<Id>)
    requires n <= |hw| && Distinct(hw)
    ensures |r| >= n && r[..n] == hw[..n]
  {
    if n == 0 then s else
      var t := Update(s, hw, n - 1);
      assert forall k :: 0 <= k < n - 1 ==> t[..n - 1][k] == hw[k];
      Place(t, n - 1, hw[n - 1])
  }

  lemma {:induction false} ErasePast(s: seq<Id>, i: nat, c: Id)
    requires i <= |s| && c !in s[..i]
    ensures |Erase(s, c)| >= i && Erase(s, c)[..i] == s[..i]
    ensures c in s ==> |s| > i
  {
    if i > 0 {
      assert s[0] == s[..i][0] && s[1..][..i - 1] == s[..i][1..];
      ErasePast(s[1..], i - 1, c);
    }
  }

  datatype Lists = Lists(controllers: seq<Id>, hardware: seq<Id>, prevSize: nat, sized: seq<Id>)

  function Unsized(hw: seq<Id>, prevSize: nat): seq<Id> { if prevSize <= |hw| then hw[prevSize..] else [] }

  function Push(l: Lists, c: Id): Lists { l.(hardware := l.hardware + [c]) }

  /** The second half of a registration. */
  function Refresh(l: Lists): Lists
    requires Distinct(l.hardware)
  {
    Lists(Update(l.controllers, l.hardware, |l.hardware|), l.hardware, |l.hardware|,
          l.sized + Unsized(l.hardware, l.prevSize))
  }

  function Unregister(l: Lists, c: Id): Lists
    requires Distinct(l.hardware)
  {
    EraseDistinct(l.hardware, c);
    var hw := Erase(l.hardware, c);
    l.(controllers := Update(Erase(l.controllers, c), hw, |hw|), hardware := hw)
  }

  function CleanUp(l: Lists): Lists { Lists(EraseAll(l.controllers, l.hardware), [], 0, l.sized) }

  /** Updating a list that has just been updated changes nothing. */
  lemma UpdateTwice(s: seq<Id>, hw: seq<Id>)
    requires Distinct(hw)
    ensures Update(Update(s, hw, |hw|), hw, |hw|) == Update(s, hw, |hw|)
  {
    UpdateInPlace(Update(s, hw, |hw|), hw, |hw|);
  }

  lemma {:induction false} UpdateInPlace(s: seq<Id>, hw: seq<Id>, n: nat)
    requires Distinct(hw) && |s| >= |hw| && s[..|hw|] == hw && n <= |hw|
    ensures Update(s, hw, n) == s
  {
    if n > 0 {
      UpdateInPlace(s, hw, n - 1);
      assert s[n - 1] == s[..|hw|][n - 1];
    }
  }

  /** The part of the resource manager that keeps the lists. `sized` records for which controllers it has looked for
      saved zone sizes. */
  class ResourceManager {
    var controllers: seq<Id>
    var hardware: seq<Id>
    var prevSize: nat
    var sized: seq<Id>

    constructor ()
      ensures controllers == hardware == sized == [] && prevSize == 0
    {
      controllers, hardware, sized, prevSize := [], [], [], 0;
    }

    function Value(): Lists
      reads this
    {
      Lists(controllers, hardware, prevSize, sized)
    }

    /** The loop over the controllers past the previous size; it does not run when that size is larger. */
    method LookUpSizes()
      modifies this`sized
      ensures sized == old(sized) + Unsized(hardware, prevSize)
    {
      var idx := prevSize;
      while idx < |hardware|
        invariant prevSize <= |hardware| ==>
                    prevSize <= idx <= |hardware| && sized == old(sized) + hardware[prevSize..idx]
        invariant prevSize > |hardware| ==> idx == prevSize && sized == old(sized)
      {
        sized := sized + [hardware[idx]];
        idx := idx + 1;
      }
      assert prevSize <= |hardware| ==> hardware[prevSize..idx] == hardware[prevSize..];
    }

    /** RegisterRGBController: the saved sizes are looked up for the controllers past the previous size. */
    method RegisterRGBController(c: Id)
      requires Distinct(hardware) && c !in hardware
      modifies this
      ensures Value() == Refresh(Push(old(Value()), c))
    {
      hardware := hardware + [c];
      assert Distinct(hardware);
      if |hardware| != prevSize {
        LookUpSizes();
        UpdateDeviceList();
        UpdateTwice(old(controllers), hardware);
      }
      prevSize := |hardware|;
      UpdateDeviceList();
    }

    method UnregisterRGBController(c: Id)
      requires Distinct(hardware)
      modifies this
      ensures Value() == Unregister(old(Value()), c)
    {
      EraseDistinct(hardware, c);
      hardware := Erase(hardware, c);
      controllers := Erase(controllers, c);
      UpdateDeviceList();
    }

    method Cleanup()
      modifies this
      ensures Value() == CleanUp(old(Value()))
    {
      for i := 0 to |hardware|
        invariant hardware == old(hardware) && sized == old(sized)
        invariant controllers == EraseAll(old(controllers), hardware[..i])
      {
        ghost var was := controllers;
        var idx := 0;
        while idx < |controllers|
          invariant idx <= |controllers| && controllers == was && hardware[i] !in was[..idx]
          invariant hardware == old(hardware) && sized == old(sized)
        {
          if controllers[idx] == hardware[i] {
            EraseAt(was, idx, hardware[i]);
            controllers := controllers[..idx] + controllers[idx + 1..];
            break;
          }
          idx := idx + 1;
        }
        if idx == |was| {
          assert was[..idx] == was;
          EraseAbsent(was, hardware[i]);
        }
        assert hardware[..i + 1][..i] == hardware[..i];
      }
      assert hardware[..|hardware|] == hardware;
      hardware := [];
      prevSize := 0;
    }

    method UpdateDeviceList()
      requires Distinct(hardware)
      modifies this`controllers
      ensures controllers == Update(old(controllers), hardware, |hardware|)
    {
      ghost var was := controllers;
      for i := 0 to |hardware|
        invariant controllers == Update(was, hardware, i)
      {
        if i < |controllers| && controllers[i] == hardware[i] { continue; }
        assert forall k :: 0 <= k < i ==> controllers[..i][k] == hardware[k];
        FindAndMove(i, hardware[i]);
        controllers := controllers[..i] + [hardware[i]] + controllers[i..];
      }
    }

    /** The search loop, with the erase and the insert of the branch that finds the controller. */
    method FindAndMove(i: nat, c: Id)
      requires i <= |controllers| && c !in controllers[..i]
      modifies this`controllers
      ensures controllers == if c in old(controllers) then Moved(old(controllers), i, c) else old(controllers)
    {
      ghost var was := controllers;
      var idx := 0;
      while idx < |controllers|
        invariant idx <= |controllers| && controllers == was && c !in was[..idx]
      {
        if controllers[idx] == c {
          EraseAt(was, idx, c);
          ErasePast(was, i, c);
          controllers := controllers[..idx] + controllers[idx + 1..];
          controllers := controllers[..i] + [c] + controllers[i..];
          return;
        }
        idx := idx + 1;
      }
    }
  }

  // ---------------------------------------------------------------- when an update leaves no duplicates

  function Kept(hw: seq<Id>, s: seq<Id>): seq<Id> {
    if hw == [] then [] else Kept(hw[..|hw| - 1], s) + if hw[|hw| - 1] in s then [hw[|hw| - 1]] else []
  }

  function Rest(s: seq<Id>, hw: seq<Id>): seq<Id> {
    if s == [] then [] else Rest(s[..|s| - 1], hw) + if s[|s| - 1] in hw then [] else [s[|s| - 1]]
  }

  /** The hardware controllers that are listed come first and in hardware order. */
  predicate Ordered(s: seq<Id>, hw: seq<Id>) { s == Kept(hw, s) + Rest(s, hw) }

  /** The branch that moves a controller is never taken. */
  predicate NeverMoves(s: seq<Id>, hw: seq<Id>)
    requires Distinct(hw)
  {
    forall n :: 0 <= n < |hw| ==> Settled(Update(s, hw, n), n, hw[n])
  }

  predicate Settled(t: seq<Id>, n: nat, c: Id) { (n < |t| && t[n] == c) || c !in t }

  lemma {:induction false} KeptIn(hw: seq<Id>, s: seq<Id>, x: Id)
    ensures x in Kept(hw, s) <==> x in hw && x in s
  {
    if hw != [] {
      KeptIn(hw[..|hw| - 1], s, x);
      assert hw == hw[..|hw| - 1] + [hw[|hw| - 1]];
    }
  }

  lemma {:induction false} RestIn(s: seq<Id>, hw: seq<Id>, x: Id)
    ensures x in Rest(s, hw) <==> x in s && x !in hw
  {
    if s != [] {
      RestIn(s[..|s| - 1], hw, x);
      assert s == s[..|s| - 1] + [s[|s| - 1]];
    }
  }

  lemma {:induction false} RestDistinct(s: seq<Id>, hw: seq<Id>)
    requires Distinct(s)
    ensures Distinct(Rest(s, hw))
  {
    if s != [] {
      var last := s[|s| - 1];
      RestDistinct(s[..|s| - 1], hw);
      RestIn(s[..|s| - 1], hw, last);
    }
  }

  lemma {:induction false} RestConcat(a: seq<Id>, b: seq<Id>, hw: seq<Id>)
    requires (forall i :: 0 <= i < |a| ==> a[i] in hw) && (forall i :: 0 <= i < |b| ==> b[i] !in hw)
    ensures Rest(a + b, hw) == b
  {
    if b != [] {
      var n := |b| - 1;
      RestConcat(a, b[..n], hw);
      assert (a + b)[..|a + b| - 1] == a + b[..n];
    } else if a != [] {
      RestConcat(a[..|a| - 1], b, hw);
      assert (a + b)[..|a + b| - 1] == a[..|a| - 1] + b;
    }
  }

  lemma NotBefore(hw: seq<Id>, n: nat)
    requires Distinct(hw) && n < |hw|
    ensures hw[n] !in hw[..n]
  {
  }

  lemma NeverMovesAt(s: seq<Id>, hw: seq<Id>, n: nat)
    requires Distinct(hw) && NeverMoves(s, hw) && n < |hw|
    ensures Settled(Update(s, hw, n), n, hw[n])
  {
    hide Settled, Update, Distinct;
  }

  lemma KeptLast(hw: seq<Id>, s: seq<Id>, n: nat)
    requires 0 < n <= |hw|
    ensures Kept(hw[..n], s) == Kept(hw[..n - 1], s) + if hw[n - 1] in s then [hw[n - 1]] else []
  {
    assert hw[..n][..n - 1] == hw[..n - 1];
  }

  /** An update without moves inserts the missing hardware controllers and nothing else. */
  lemma {:induction false} UpdateWithoutMoves(s: seq<Id>, hw: seq<Id>, n: nat)
    requires Distinct(hw) && NeverMoves(s, hw) && n <= |hw|
    ensures s == Kept(hw[..n], s) + Update(s, hw, n)[n..]
  {
    hide Kept, Update, Distinct, NeverMoves, Insert;
    if n == 0 {
      UpdateNone(s, hw);
      KeptNone(hw[..0], s);
    } else {
      var t, c := Update(s, hw, n - 1), hw[n - 1];
      UpdateWithoutMoves(s, hw, n - 1);
      KeptLast(hw, s, n);
      NeverMovesAt(s, hw, n - 1);
      UpdateOne(s, hw, n);
      KeptIn(hw[..n - 1], s, c);
      NotBefore(hw, n - 1);
      var kept := Kept(hw[..n - 1], s);
      if n - 1 < |t| && t[n - 1] == c {
        assert t[n - 1..] == [c] + t[n..];
        Assoc(kept, [c], t[n..]);
        assert c in s;
      } else {
        assert c !in t[n - 1..] && c !in s;
        assert kept + [] == kept;
        InsertDrop(t, n - 1, c);
      }
    }
  }

  lemma InsertDrop(t: seq<Id>, i: nat, c: Id)
    requires i <= |t|
    ensures Insert(t, i, c)[i + 1..] == t[i..]
  {
  }

  lemma KeptNone(hw: seq<Id>, s: seq<Id>)
    requires hw == []
    ensures Kept(hw, s) == []
  {
  }

  lemma {:induction false} KeptConcat(a: seq<Id>, b: seq<Id>, s: seq<Id>)
    ensures Kept(a + b, s) == Kept(a, s) + Kept(b, s)
  {
    if b == [] {
      assert a + b == a;
    } else {
      var n := |b| - 1;
      KeptConcat(a, b[..n], s);
      assert (a + b)[..|a + b| - 1] == a + b[..n];
    }
  }

  lemma KeptFront(hw: seq<Id>, s: seq<Id>, n: nat)
    requires n < |hw|
    ensures Kept(hw[n..], s) == (if hw[n] in s then [hw[n]] else []) + Kept(hw[n + 1..], s)
  {
    assert hw[n..] == [hw[n]] + hw[n + 1..];
    KeptConcat([hw[n]], hw[n + 1..], s);
    assert [hw[n]][..0] == [];
  }

  /** What comes next is at its place or not listed. */
  lemma SettledNext(s: seq<Id>, hw: seq<Id>, n: nat, t: seq<Id>)
    requires Distinct(hw) && n < |hw| && t == hw[..n] + (Kept(hw[n..], s) + Rest(s, hw))
    ensures Settled(t, n, hw[n])
    ensures hw[n] in s ==> n < |t| && t[n] == hw[n]
  {
    hide Kept, Rest, Distinct;
    NotBefore(hw, n);
    KeptFront(hw, s, n);
    KeptIn(hw[n + 1..], s, hw[n]);
    RestIn(s, hw, hw[n]);
    if hw[n] in s { assert t[n] == (Kept(hw[n..], s) + Rest(s, hw))[0]; }
  }

  lemma {:induction false} UpdateOrdered(s: seq<Id>, hw: seq<Id>, n: nat)
    requires Distinct(hw) && Ordered(s, hw) && n <= |hw|
    ensures Update(s, hw, n) == hw[..n] + (Kept(hw[n..], s) + Rest(s, hw))
  {
    hide Kept, Rest, Update, Distinct, Insert;
    if n == 0 {
      UpdateNone(s, hw);
      assert hw[0..] == hw;
    } else {
      var t, c, tail := Update(s, hw, n - 1), hw[n - 1], Kept(hw[n..], s) + Rest(s, hw);
      UpdateOrdered(s, hw, n - 1);
      SettledNext(s, hw, n - 1, t);
      KeptFront(hw, s, n - 1);
      UpdateOne(s, hw, n);
      assert hw[..n] == hw[..n - 1] + [c];
      if c in s {
        Assoc([c], Kept(hw[n..], s), Rest(s, hw));
        Assoc(hw[..n - 1], [c], tail);
      } else {
        assert [] + Kept(hw[n..], s) == Kept(hw[n..], s);
        InsertBetween(hw[..n - 1], tail, c);
        NotListed(s, hw, n, t);
      }
    }
  }

  lemma InsertBetween(a: seq<Id>, b: seq<Id>, c: Id)
    ensures Insert(a + b, |a|, c) == a + [c] + b
  {
  }

  lemma NotListed(s: seq<Id>, hw: seq<Id>, n: nat, t: seq<Id>)
    requires Distinct(hw) && 0 < n <= |hw| && hw[n - 1] !in s
    requires t == hw[..n - 1] + (Kept(hw[n..], s) + Rest(s, hw))
    ensures hw[n - 1] !in t
  {
    hide Kept, Rest, Distinct;
    NotBefore(hw, n - 1);
    KeptIn(hw[n..], s, hw[n - 1]);
    RestIn(s, hw, hw[n - 1]);
  }

  lemma UpdateNone(s: seq<Id>, hw: seq<Id>)
    requires Distinct(hw)
    ensures Update(s, hw, 0) == s
  {
  }

  lemma UpdateOne(s: seq<Id>, hw: seq<Id>, n: nat)
    requires Distinct(hw) && 0 < n <= |hw| && Settled(Update(s, hw, n - 1), n - 1, hw[n - 1])
    ensures var t, c := Update(s, hw, n - 1), hw[n - 1];
            Update(s, hw, n) == if n - 1 < |t| && t[n - 1] == c then t else Insert(t, n - 1, c)
  {
  }

  lemma InsertCounts(s: seq<Id>, i: nat, c: Id)
    requires i <= |s|
    ensures multiset(Insert(s, i, c)) == multiset(s) + multiset{c}
  {
    assert s == s[..i] + s[i..];
  }

  lemma PlaceCounts(s: seq<Id>, i: nat, c: Id, x: Id)
    requires i <= |s| && c !in s[..i]
    ensures multiset(Place(s, i, c))[x] >= multiset(s)[x]
    ensures !Settled(s, i, c) ==> multiset(Place(s, i, c))[c] >= 2
  {
    if i < |s| && s[i] == c {
    } else if c in s {
      ErasePast(s, i, c);
      EraseCounts(s, c);
      InsertCounts(Erase(s, c), i, c);
      InsertCounts(Moved(s, i, c), i, c);
    } else {
      InsertCounts(s, i, c);
    }
  }

  lemma {:induction false} UpdateCounts(s: seq<Id>, hw: seq<Id>, m: nat, n: nat, x: Id)
    requires Distinct(hw) && m <= n <= |hw|
    ensures multiset(Update(s, hw, n))[x] >= multiset(Update(s, hw, m))[x]
    decreases n
  {
    hide Place;
    if m < n {
      UpdateCounts(s, hw, m, n - 1, x);
      var t := Update(s, hw, n - 1);
      assert forall k :: 0 <= k < n - 1 ==> t[..n - 1][k] == hw[k];
      PlaceCounts(t, n - 1, hw[n - 1], x);
    }
  }

  lemma TwiceNotDistinct(s: seq<Id>, x: Id)
    requires multiset(s)[x] >= 2
    ensures !Distinct(s)
  {
    var i :| 0 <= i < |s| && s[i] == x;
    assert s == s[..i] + [x] + s[i + 1..];
    assert x in s[..i] || x in s[i + 1..];
  }

  lemma DistinctNeverMoves(s: seq<Id>, hw: seq<Id>)
    requires Distinct(hw) && Distinct(Update(s, hw, |hw|))
    ensures NeverMoves(s, hw)
  {
    hide Settled, Distinct, Update;
    if n :| 0 <= n < |hw| && !Settled(Update(s, hw, n), n, hw[n]) {
      var t := Update(s, hw, n);
      MoveDoubles(s, hw, n);
      UpdateCounts(s, hw, n + 1, |hw|, hw[n]);
      TwiceNotDistinct(Update(s, hw, |hw|), hw[n]);
    }
  }

  lemma MoveDoubles(s: seq<Id>, hw: seq<Id>, n: nat)
    requires Distinct(hw) && n < |hw| && !Settled(Update(s, hw, n), n, hw[n])
    ensures multiset(Update(s, hw, n + 1))[hw[n]] >= 2
  {
    hide Place, Settled;
    var t := Update(s, hw, n);
    assert forall k :: 0 <= k < n ==> t[..n][k] == hw[k];
    PlaceCounts(t, n, hw[n], hw[n]);
  }

  lemma CleanIfOrdered(s: seq<Id>, hw: seq<Id>)
    requires Distinct(s) && Distinct(hw) && Ordered(s, hw)
    ensures NeverMoves(s, hw) && Update(s, hw, |hw|) == hw + Rest(s, hw) && Distinct(Update(s, hw, |hw|))
  {
    hide Ordered, Kept, Rest, Update, Settled, Distinct;
    forall n | 0 <= n < |hw| ensures Settled(Update(s, hw, n), n, hw[n]) {
      UpdateOrdered(s, hw, n);
      SettledNext(s, hw, n, Update(s, hw, n));
    }
    UpdateOrdered(s, hw, |hw|);
    KeptNone(hw[|hw|..], s);
    assert hw[..|hw|] == hw && [] + Rest(s, hw) == Rest(s, hw);
    RestDistinct(s, hw);
    forall i | 0 <= i < |Rest(s, hw)| ensures Rest(s, hw)[i] !in hw { RestIn(s, hw, Rest(s, hw)[i]); }
    JoinDistinct(hw, Rest(s, hw));
  }

  lemma OrderedIfClean(s: seq<Id>, hw: seq<Id>)
    requires Distinct(hw) && Distinct(Update(s, hw, |hw|))
    ensures Ordered(s, hw)
  {
    hide Kept, Rest, Update, NeverMoves;
    var t := Update(s, hw, |hw|);
    assert hw[..|hw|] == hw;
    DistinctNeverMoves(s, hw);
    UpdateWithoutMoves(s, hw, |hw|);
    forall i | 0 <= i < |Kept(hw, s)| ensures Kept(hw, s)[i] in hw { KeptIn(hw, s, Kept(hw, s)[i]); }
    assert forall k :: 0 <= k < |hw| ==> t[k] == t[..|hw|][k] == hw[k];
    RestConcat(Kept(hw, s), t[|hw|..], hw);
  }

  /** From a list without duplicates, an update leaves none if and only if the hardware controllers that are listed
      come first and in hardware order; then nothing is moved, and the result is the hardware list followed by the
      other entries in their order. */
  lemma UpdateIsCleanIff(s: seq<Id>, hw: seq<Id>)
    requires Distinct(s) && Distinct(hw)
    ensures Distinct(Update(s, hw, |hw|)) <==> Ordered(s, hw)
    ensures Ordered(s, hw) ==> NeverMoves(s, hw) && Update(s, hw, |hw|) == hw + Rest(s, hw)
  {
    hide Ordered, Distinct, Update, NeverMoves;
    if Ordered(s, hw) { CleanIfOrdered(s, hw); }
    if Distinct(Update(s, hw, |hw|)) { OrderedIfClean(s, hw); }
  }

  /** A client's controller in front of a hardware controller: the update lists the latter twice. */
  lemma MovedAndInserted()
    ensures Update([5, 6], [6], 1) == [6, 6, 5]
  {
    UpdateNone([5, 6], [6]);
    EraseAt([5, 6], 1, 6);
    assert Erase([5, 6], 6) == [5];
    assert Moved([5, 6], 0, 6) == [6, 5];
    assert Place([5, 6], 0, 6) == [6, 6, 5];
  }
}
