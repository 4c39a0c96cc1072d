/** The list of controllers that all owners share, and how one client's connection thread and listener threads put its
    own controllers in and take them out. One action is one critical section, or one write to a flag. */
module ClientLists {
  import opened Sequences

  /** An entry of the shared list: one of this client's controllers, by serial number, or somebody else's. */
  datatype Id = Mine(serial: nat) | Other(key: int)

  /** Where the connection thread is: at the top of its loop, in a round, or with the controllers published and
      `server_initialized` not yet set. */
  datatype Conn = Top | Round | Published

  /** The listener of the current connection: none; between messages; with the lists cleared for a device list change
      and `server_initialized` not yet reset; or past the loss of the connection with `server_connected` still set. */
  datatype Listener = NoListener | Listening | Cleared | Losing

  /** The lists under the lock, with the serial numbers of deleted controllers, and the next serial number. */
  datatype Lists = Lists(controllers: seq<Id>, server: seq<nat>, freed: set<nat>, next: nat)

  /** `pending` counts listener threads that have reset both flags and not yet taken the lock; `others` is what the
      other owners have made of their part of the list. */
  datatype State = State(conn: Conn, listener: Listener, connected: bool, initialized: bool, countReceived: bool,
                         pending: nat, lists: Lists, others: seq<int>)

  datatype Action =
    | Connect | StartRound | Publish | SetInitialized          // connection thread
    | CountReply | DataReply(idx: nat) | ListChanged | ResetInitialized | Lose | ResetConnected     // listener
    | CleanUp                                                   // a listener that has ended
    | OtherInsert(at: nat, key: int) | OtherErase(at: nat)      // another owner, under the same lock

  // ---------------------------------------------------------------- the critical sections

  function AllMine(serials: seq<nat>): seq<Id> { seq(|serials|, i requires 0 <= i < |serials| => Mine(serials[i])) }

  function EraseEach(list: seq<Id>, serials: seq<nat>): seq<Id>
    decreases |serials|
  {
    if serials == [] then list else EraseEach(Erase(list, Mine(serials[0])), serials[1..])
  }

  /** Takes every own controller out of the shared list once, forgets them all and deletes them. */
  function Drop(l: Lists): Lists {
    Lists(EraseEach(l.controllers, l.server), [], l.freed + (set x | x in l.server), l.next)
  }

  function Add(l: Lists, idx: nat): Lists {
    if idx >= |l.server| then l.(server := l.server + [l.next], next := l.next + 1)
    else l.(freed := l.freed + {l.next}, next := l.next + 1)
  }

  function PublishAll(l: Lists): Lists { l.(controllers := l.controllers + AllMine(l.server)) }

  /** The client's share of the object that holds the lists; `freed` and `next` stand for the heap. */
  class NetworkClient {
    var controllers: seq<Id>
    var serverControllers: seq<nat>
    var freed: set<nat>
    var next: nat

    function Value(): Lists
      reads this
    {
      Lists(controllers, serverControllers, freed, next)
    }

    /** The inner loop: erases the first occurrence. */
    method EraseController(serial: nat)
      modifies this`controllers
      ensures controllers == Erase(old(controllers), Mine(serial))
    {
      ghost var before := controllers;
      var idx := 0;
      while idx < |controllers|
        invariant idx <= |controllers| && controllers == before && Mine(serial) !in before[..idx]
      {
        if controllers[idx] == Mine(serial) {
          EraseAt(before, idx, Mine(serial));
          controllers := controllers[..idx] + controllers[idx + 1..];
          return;
        }
        idx := idx + 1;
      }
      assert before[..idx] == before;
      EraseAbsent(before, Mine(serial));
    }

    /** The part under the lock of ProcessRequest_DeviceListChanged, and of the end of ListenThreadFunction. */
    method DropControllers()
      modifies this
      ensures Value() == Drop(old(Value()))
    {
      hide Erase;
      var serverIdx := 0;
      while serverIdx < |serverControllers|
        invariant serverIdx <= |serverControllers|
        invariant serverControllers == old(serverControllers) && freed == old(freed) && next == old(next)
        invariant EraseEach(controllers, serverControllers[serverIdx..])
                  == EraseEach(old(controllers), serverControllers)
      {
        EraseController(serverControllers[serverIdx]);
        assert serverControllers[serverIdx..][1..] == serverControllers[serverIdx + 1..];
        serverIdx := serverIdx + 1;
      }
      var copy := serverControllers;
      serverControllers := [];
      var copyIdx := 0;
      while copyIdx < |copy|
        invariant copyIdx <= |copy|
        invariant controllers == EraseEach(old(controllers), copy) && serverControllers == [] && next == old(next)
        invariant freed == old(freed) + (set x | x in copy[..copyIdx])
      {
        freed := freed + {copy[copyIdx]};
        assert copy[..copyIdx + 1] == copy[..copyIdx] + [copy[copyIdx]];
        copyIdx := copyIdx + 1;
      }
      assert copy[..|copy|] == copy;
    }

    /** The part under the lock of ProcessReply_ControllerData: a new controller is kept, or copied over the one it
        updates and deleted. */
    method AddController(devIdx: nat)
      modifies this
      ensures Value() == Add(old(Value()), devIdx)
    {
      var newController := next;
      next := next + 1;
      if devIdx >= |serverControllers| {
        serverControllers := serverControllers + [newController];
      } else {
        freed := freed + {newController};
      }
    }

    /** The part under the lock of ConnectionThreadFunction. */
    method PublishControllers()
      modifies this
      ensures Value() == PublishAll(old(Value()))
    {
      var idx := 0;
      while idx < |serverControllers|
        invariant idx <= |serverControllers|
        invariant controllers == old(controllers) + AllMine(serverControllers[..idx])
        invariant serverControllers == old(serverControllers) && freed == old(freed) && next == old(next)
      {
        controllers := controllers + [Mine(serverControllers[idx])];
        assert AllMine(serverControllers[..idx + 1])
               == AllMine(serverControllers[..idx]) + [Mine(serverControllers[idx])];
        idx := idx + 1;
      }
      assert serverControllers[..|serverControllers|] == serverControllers;
    }
  }

  // ---------------------------------------------------------------- the transition system

  function Init(others: seq<int>): State {
    var list := seq(|others|, i requires 0 <= i < |others| => Other(others[i]));
    State(Top, NoListener, false, false, false, 0, Lists(list, [], {}, 0), others)
  }

  function StepConn(s: State, a: Action): State {
    match a
    case Connect =>
      if s.conn == Top && !s.connected then s.(connected := true, initialized := false, listener := Listening) else s
    case StartRound =>
      if s.conn == Top && s.connected && !s.initialized then s.(conn := Round, countReceived := false) else s
    case Publish =>
      if s.conn == Round && s.countReceived then s.(conn := Published, lists := PublishAll(s.lists)) else s
    case _ => if s.conn == Published then s.(conn := Top, initialized := true) else s
  }

  function StepListener(s: State, a: Action): State {
    match a
    case CountReply => if s.listener == Listening then s.(countReceived := true) else s
    case DataReply(idx) => if s.listener == Listening then s.(lists := Add(s.lists, idx)) else s
    case ListChanged => if s.listener == Listening then s.(listener := Cleared, lists := Drop(s.lists)) else s
    case ResetInitialized => if s.listener == Cleared then s.(listener := Listening, initialized := false) else s
    case Lose => if s.listener == Listening then s.(listener := Losing, initialized := false) else s
    case ResetConnected =>
      if s.listener == Losing then s.(listener := NoListener, connected := false, pending := s.pending + 1) else s
    case _ => if s.pending > 0 then s.(pending := s.pending - 1, lists := Drop(s.lists)) else s
  }

  function Others(list: seq<Id>): seq<int> {
    if list == [] then [] else (if list[0].Other? then [list[0].key] else []) + Others(list[1..])
  }

  function StepOther(s: State, a: Action): State {
    var list := s.lists.controllers;
    match a
    case OtherInsert(at, key) =>
      if at > |list| then s else
        var k := |Others(list[..at])|;
        if k > |s.others| then s else
          s.(lists := s.lists.(controllers := list[..at] + [Other(key)] + list[at..]),
             others := s.others[..k] + [key] + s.others[k..])
    case OtherErase(at) =>
      if at >= |list| || !list[at].Other? then s else
        var k := |Others(list[..at])|;
        if k >= |s.others| then s else
          s.(lists := s.lists.(controllers := list[..at] + list[at + 1..]), others := s.others[..k] + s.others[k + 1..])
    case _ => s
  }

  function Step(s: State, a: Action): State {
    if a.Connect? || a.StartRound? || a.Publish? || a.SetInitialized? then StepConn(s, a)
    else if a.OtherInsert? || a.OtherErase? then StepOther(s, a)
    else StepListener(s, a)
  }

  function Exec(s: State, run: seq<Action>): State
    decreases |run|
  {
    if run == [] then s else Exec(Step(s, run[0]), run[1..])
  }

  // ---------------------------------------------------------------- what is promised

  predicate NoMine(list: seq<Id>) { forall k :: 0 <= k < |list| ==> list[k].Other? }

  /** Each of the client's controllers is listed at most once, and only while the client still has it. */
  ghost predicate ListedOnce(list: seq<Id>, server: seq<nat>) {
    forall x: nat :: multiset(list)[Mine(x)] <= if x in server then 1 else 0
  }

  predicate Fresh(l: Lists) {
    && Distinct(l.server)
    && (forall x :: x in l.server ==> x < l.next && x !in l.freed)
    && (forall x :: x in l.freed ==> x < l.next)
  }

  /** No deleted controller is listed. */
  predicate NoneDeleted(l: Lists) {
    forall k :: 0 <= k < |l.controllers| && l.controllers[k].Mine? ==> l.controllers[k].serial !in l.freed
  }

  ghost predicate Safe(s: State) {
    NoneDeleted(s.lists) && ListedOnce(s.lists.controllers, s.lists.server) && Others(s.lists.controllers) == s.others
  }

  predicate Connecting(s: State, a: Action) { a == Connect && s.conn == Top && !s.connected }

  /** Connections are made only while none of the client's own controllers is listed. */
  predicate Orderly(s: State, run: seq<Action>)
    decreases |run|
  {
    run == [] ||
    (&& (Connecting(s, run[0]) ==> NoMine(s.lists.controllers))
     && Orderly(Step(s, run[0]), run[1..]))
  }

  /** A round that can still publish has nothing of the client's in the list. */
  predicate Phases(s: State) {
    var listening := s.listener == Listening || s.listener == Cleared;
    && (s.listener == Cleared ==> s.lists.server == [])
    && (s.conn == Round && (s.countReceived || listening) ==> NoMine(s.lists.controllers))
    && (s.conn == Top && !s.initialized && listening ==> NoMine(s.lists.controllers))
    && (s.connected <==> s.listener != NoListener)
    && (s.listener == NoListener && s.pending == 0 ==> s.lists.server == [])
  }

  ghost predicate Inv(s: State) {
    && Phases(s) && Fresh(s.lists) && ListedOnce(s.lists.controllers, s.lists.server)
    && Others(s.lists.controllers) == s.others
  }

  // ---------------------------------------------------------------- the critical sections keep it

  lemma {:induction false} OthersErase(list: seq<Id>, x: nat)
    ensures Others(Erase(list, Mine(x))) == Others(list)
  {
    if list != [] && list[0] != Mine(x) {
      OthersErase(list[1..], x);
      assert Erase(list, Mine(x))[1..] == Erase(list[1..], Mine(x));
    }
  }

  lemma {:induction false} OthersConcat(a: seq<Id>, b: seq<Id>)
    ensures Others(a + b) == Others(a) + Others(b)
  {
    if a == [] {
      assert a + b == b;
    } else {
      OthersConcat(a[1..], b);
      assert (a + b)[1..] == a[1..] + b && (a + b)[0] == a[0];
      var head := if a[0].Other? then [a[0].key] else [];
      assert head + (Others(a[1..]) + Others(b)) == head + Others(a[1..]) + Others(b);
    }
  }

  lemma {:induction false} OthersNone(list: seq<Id>)
    requires forall k :: 0 <= k < |list| ==> list[k].Mine?
    ensures Others(list) == []
  {
    if list != [] { OthersNone(list[1..]); }
  }

  lemma NoneListed(list: seq<Id>)
    requires ListedOnce(list, [])
    ensures NoMine(list)
  {
    assert forall x: nat :: multiset(list)[Mine(x)] == 0;
    assert forall x: nat :: Mine(x) !in list;
  }

  lemma EraseFirstListed(list: seq<Id>, server: seq<nat>)
    requires server != [] && ListedOnce(list, server) && Distinct(server)
    ensures ListedOnce(Erase(list, Mine(server[0])), server[1..]) && Distinct(server[1..])
  {
    var rest := Erase(list, Mine(server[0]));
    EraseCounts(list, Mine(server[0]));
    forall x: nat ensures multiset(rest)[Mine(x)] <= if x in server[1..] then 1 else 0 {
      assert server == [server[0]] + server[1..];
      assert multiset(list)[Mine(x)] <= if x in server then 1 else 0;
    }
  }

  lemma {:induction false} EraseEachClears(list: seq<Id>, server: seq<nat>)
    requires ListedOnce(list, server) && Distinct(server)
    ensures NoMine(EraseEach(list, server)) && Others(EraseEach(list, server)) == Others(list)
    decreases |server|
  {
    if server == [] {
      NoneListed(list);
    } else {
      hide ListedOnce, NoMine, Distinct;
      EraseFirstListed(list, server);
      OthersErase(list, server[0]);
      EraseEachClears(Erase(list, Mine(server[0])), server[1..]);
    }
  }

  lemma NoMineCounts(list: seq<Id>, server: seq<nat>)
    requires NoMine(list)
    ensures ListedOnce(list, server)
  {
    forall x: nat ensures multiset(list)[Mine(x)] == 0 {
      assert Mine(x) !in list;
    }
  }

  lemma {:induction false} AllMineCounts(server: seq<nat>)
    requires Distinct(server)
    ensures forall x: nat :: multiset(AllMine(server))[Mine(x)] == if x in server then 1 else 0
  {
    if server != [] {
      var last := |server| - 1;
      AllMineCounts(server[..last]);
      assert AllMine(server) == AllMine(server[..last]) + [Mine(server[last])];
      assert server == server[..last] + [server[last]];
    }
  }

  lemma DropKeeps(l: Lists)
    requires Fresh(l) && ListedOnce(l.controllers, l.server)
    ensures var t := Drop(l);
            && t.server == [] && Fresh(t) && ListedOnce(t.controllers, t.server) && NoMine(t.controllers)
            && Others(t.controllers) == Others(l.controllers)
  {
    EraseEachClears(l.controllers, l.server);
    NoMineCounts(Drop(l).controllers, []);
  }

  lemma AddKeeps(l: Lists, idx: nat)
    requires Fresh(l) && ListedOnce(l.controllers, l.server)
    ensures Add(l, idx).controllers == l.controllers && Fresh(Add(l, idx))
    ensures ListedOnce(l.controllers, Add(l, idx).server)
  {
    forall k | 0 <= k < |l.server| ensures l.server[k] < l.next { assert l.server[k] in l.server; }
  }

  lemma PublishKeeps(l: Lists)
    requires Fresh(l) && NoMine(l.controllers)
    ensures var t := PublishAll(l);
            && t.server == l.server && Fresh(t) && ListedOnce(t.controllers, t.server)
            && Others(t.controllers) == Others(l.controllers)
  {
    AllMineCounts(l.server);
    NoMineCounts(l.controllers, []);
    OthersConcat(l.controllers, AllMine(l.server));
    OthersNone(AllMine(l.server));
  }

  lemma ListenerKeepsInv(s: State, a: Action, t: State)
    requires Inv(s) && t == StepListener(s, a)
    ensures Inv(t)
  {
    hide Fresh, ListedOnce, Drop, Add, Others;
    DropKeeps(s.lists);
    if s.listener == Cleared { NoneListed(s.lists.controllers); }
    if a.DataReply? { AddKeeps(s.lists, a.idx); }
  }

  lemma ConnKeepsInv(s: State, a: Action, t: State)
    requires Inv(s) && (Connecting(s, a) ==> NoMine(s.lists.controllers)) && t == StepConn(s, a)
    ensures Inv(t)
  {
    hide Fresh, ListedOnce, PublishAll, Others;
    if a == Publish && s.conn == Round && s.countReceived { PublishKeeps(s.lists); }
  }

  lemma SplitAt(list: seq<Id>, at: nat)
    requires at <= |list|
    ensures Others(list) == Others(list[..at]) + Others(list[at..])
  {
    OthersConcat(list[..at], list[at..]);
    assert list[..at] + list[at..] == list;
  }

  lemma OthersOne(id: Id)
    ensures Others([id]) == if id.Other? then [id.key] else []
  {
    assert [id][1..] == [];
  }

  lemma InsertOther(list: seq<Id>, server: seq<nat>, at: nat, key: int)
    requires at <= |list| && ListedOnce(list, server)
    ensures var t := list[..at] + [Other(key)] + list[at..]; var k := |Others(list[..at])|;
            && k <= |Others(list)| && Others(t) == Others(list)[..k] + [key] + Others(list)[k..]
            && ListedOnce(t, server) && (NoMine(list) ==> NoMine(t))
  {
    hide Others;
    var a, b := list[..at], list[at..];
    SplitAt(list, at);
    OthersConcat(a + [Other(key)], b);
    OthersConcat(a, [Other(key)]);
    OthersOne(Other(key));
    assert list == a + b;
    assert multiset(a + [Other(key)] + b) == multiset(list) + multiset{Other(key)};
  }

  lemma WithoutOther(a: seq<Id>, id: Id, b: seq<Id>, server: seq<nat>)
    requires id.Other? && ListedOnce(a + [id] + b, server)
    ensures ListedOnce(a + b, server)
  {
    forall x: nat ensures multiset(a + b)[Mine(x)] <= if x in server then 1 else 0 {
      assert multiset(a + [id] + b)[Mine(x)] == multiset(a + b)[Mine(x)];
    }
  }

  lemma EraseOther(list: seq<Id>, server: seq<nat>, at: nat)
    requires at < |list| && list[at].Other? && ListedOnce(list, server)
    ensures var t := list[..at] + list[at + 1..]; var k := |Others(list[..at])|;
            && k < |Others(list)| && Others(t) == Others(list)[..k] + Others(list)[k + 1..]
            && ListedOnce(t, server) && (NoMine(list) ==> NoMine(t))
  {
    hide Others, ListedOnce;
    var a, b := list[..at], list[at + 1..];
    SplitAt(list, at);
    assert list[at..] == [list[at]] + b;
    OthersConcat([list[at]], b);
    OthersConcat(a, b);
    OthersOne(list[at]);
    assert list == a + [list[at]] + b;
    WithoutOther(a, list[at], b, server);
  }

  lemma OtherKeepsInv(s: State, a: Action, t: State)
    requires Inv(s) && t == StepOther(s, a)
    ensures Inv(t)
  {
    hide Others, NoMine, ListedOnce;
    var list := s.lists.controllers;
    match a
    case OtherInsert(at, key) => if at <= |list| { InsertOther(list, s.lists.server, at, key); }
    case OtherErase(at) => if at < |list| && list[at].Other? { EraseOther(list, s.lists.server, at); }
    case _ =>
  }

  lemma StepKeepsInv(s: State, a: Action)
    requires Inv(s) && (Connecting(s, a) ==> NoMine(s.lists.controllers))
    ensures Inv(Step(s, a))
  {
    hide Inv, StepConn, StepListener, StepOther, NoMine;
    if a.Connect? || a.StartRound? || a.Publish? || a.SetInitialized? {
      ConnKeepsInv(s, a, Step(s, a));
    } else if a.OtherInsert? || a.OtherErase? {
      OtherKeepsInv(s, a, Step(s, a));
    } else {
      ListenerKeepsInv(s, a, Step(s, a));
    }
  }

  lemma {:induction false} ExecKeepsInv(s: State, run: seq<Action>)
    requires Inv(s) && Orderly(s, run)
    ensures Inv(Exec(s, run))
    decreases |run|
  {
    hide Inv, Step;
    if run != [] {
      StepKeepsInv(s, run[0]);
      ExecKeepsInv(Step(s, run[0]), run[1..]);
    }
  }

  lemma InvIsSafe(s: State)
    requires Inv(s)
    ensures Safe(s)
  {
    var l := s.lists;
    forall k | 0 <= k < |l.controllers| && l.controllers[k].Mine? ensures l.controllers[k].serial !in l.freed {
      assert multiset(l.controllers)[l.controllers[k]] > 0;
      assert l.controllers[k] == Mine(l.controllers[k].serial);
    }
  }

  lemma InitInv(others: seq<int>)
    ensures Inv(Init(others))
  {
    var s := Init(others);
    NoMineCounts(s.lists.controllers, []);
    OthersAll(others, s.lists.controllers);
  }

  lemma {:induction false} OthersAll(others: seq<int>, list: seq<Id>)
    requires |list| == |others| && forall k :: 0 <= k < |list| ==> list[k] == Other(others[k])
    ensures Others(list) == others
  {
    if list != [] { OthersAll(others[1..], list[1..]); }
  }

  // ---------------------------------------------------------------- main results

  /** In every run in which connections are made only while none of the client's controllers is listed, no deleted
      controller is ever listed, none is listed twice, and the other owners' entries are exactly what they made them,
      in their order. */
  lemma ListsStaySafe(others: seq<int>, run: seq<Action>)
    requires Orderly(Init(others), run)
    ensures Safe(Exec(Init(others), run))
  {
    hide Inv, Exec, Orderly, Safe;
    InitInv(others);
    ExecKeepsInv(Init(others), run);
    InvIsSafe(Exec(Init(others), run));
  }

  // ---------------------------------------------------------------- in which order the own controllers are listed

  /** The client's own entries of the shared list. */
  function Owned(list: seq<Id>): seq<nat> {
    if list == [] then [] else (if list[0].Mine? then [list[0].serial] else []) + Owned(list[1..])
  }

  lemma {:induction false} OwnedConcat(a: seq<Id>, b: seq<Id>)
    ensures Owned(a + b) == Owned(a) + Owned(b)
  {
    if a == [] {
      assert a + b == b;
    } else {
      OwnedConcat(a[1..], b);
      assert (a + b)[1..] == a[1..] + b && (a + b)[0] == a[0];
      var head := if a[0].Mine? then [a[0].serial] else [];
      assert head + (Owned(a[1..]) + Owned(b)) == head + Owned(a[1..]) + Owned(b);
    }
  }

  lemma {:induction false} OwnedNone(list: seq<Id>)
    requires NoMine(list)
    ensures Owned(list) == []
  {
    if list != [] { OwnedNone(list[1..]); }
  }

  lemma {:induction false} OwnedAll(server: seq<nat>)
    ensures Owned(AllMine(server)) == server
  {
    if server != [] {
      OwnedAll(server[1..]);
      assert AllMine(server)[1..] == AllMine(server[1..]);
    }
  }

  lemma OwnedWithOther(a: seq<Id>, id: Id, b: seq<Id>)
    requires id.Other?
    ensures Owned(a + [id] + b) == Owned(a + b)
  {
    OwnedConcat(a + [id], b);
    OwnedConcat(a, [id]);
    OwnedConcat(a, b);
    assert [id][1..] == [] && Owned([id]) == [];
  }

  /** The own controllers are listed in the order in which they came, the oldest of those there are now first. */
  ghost predicate InOrder(l: Lists) {
    && Owned(l.controllers) <= l.server
    && (forall i, j :: 0 <= i < j < |l.server| ==> l.server[i] < l.server[j])
  }

  lemma ListenerKeepsOrder(s: State, a: Action)
    requires Inv(s) && InOrder(s.lists)
    ensures InOrder(StepListener(s, a).lists)
  {
    hide ListedOnce, Owned, Others;
    var dropped := Drop(s.lists);
    DropKeeps(s.lists);
    OwnedNone(dropped.controllers);
    if a.DataReply? {
      forall k | 0 <= k < |s.lists.server| ensures s.lists.server[k] < s.lists.next {
        assert s.lists.server[k] in s.lists.server;
      }
    }
    hide Drop;
  }

  lemma OtherKeepsOrder(s: State, a: Action)
    requires InOrder(s.lists)
    ensures InOrder(StepOther(s, a).lists)
  {
    hide Owned, Others;
    var list := s.lists.controllers;
    match a
    case OtherInsert(at, key) =>
      if at <= |list| {
        OwnedWithOther(list[..at], Other(key), list[at..]);
        assert list == list[..at] + list[at..];
      }
    case OtherErase(at) =>
      if at < |list| && list[at].Other? {
        OwnedWithOther(list[..at], list[at], list[at + 1..]);
        assert list == list[..at] + [list[at]] + list[at + 1..];
      }
    case _ =>
  }

  lemma ConnKeepsOrder(s: State, a: Action)
    requires Inv(s) && InOrder(s.lists)
    ensures InOrder(StepConn(s, a).lists)
  {
    hide ListedOnce, Owned, Others, Fresh;
    if a == Publish && s.conn == Round && s.countReceived {
      OwnedConcat(s.lists.controllers, AllMine(s.lists.server));
      OwnedNone(s.lists.controllers);
      OwnedAll(s.lists.server);
      assert [] + s.lists.server == s.lists.server;
    }
  }

  lemma {:induction false} ExecKeepsOrder(s: State, run: seq<Action>)
    requires Inv(s) && InOrder(s.lists) && Orderly(s, run)
    ensures InOrder(Exec(s, run).lists)
    decreases |run|
  {
    hide Inv, InOrder, StepConn, StepListener, StepOther, NoMine;
    if run != [] {
      StepKeepsInv(s, run[0]);
      ConnKeepsOrder(s, run[0]);
      ListenerKeepsOrder(s, run[0]);
      OtherKeepsOrder(s, run[0]);
      ExecKeepsOrder(Step(s, run[0]), run[1..]);
    }
  }

  /** In the same runs the client's entries of the shared list are, in order, the first ones of its own list, which is
      in the order of arrival. */
  lemma ListedInOrder(others: seq<int>, run: seq<Action>)
    requires Orderly(Init(others), run)
    ensures var l := Exec(Init(others), run).lists;
            && Owned(l.controllers) <= l.server
            && (forall i, j :: 0 <= i < j < |l.server| ==> l.server[i] < l.server[j])
  {
    hide Inv, Exec, Orderly, Owned;
    InitInv(others);
    OwnedNone(Init(others).lists.controllers);
    ExecKeepsOrder(Init(others), run);
  }

  /** The replies of a round and its end. */
  function Replies(n: nat): seq<Action> { seq(n, i requires 0 <= i < n => DataReply(i)) }

  function Serials(first: nat, n: nat): seq<nat> { seq(n, i requires 0 <= i < n => first + i) }

  lemma {:induction false} ExecThen(s: State, a: seq<Action>, b: seq<Action>)
    ensures Exec(s, a + b) == Exec(Exec(s, a), b)
    decreases |a|
  {
    hide Step;
    if a == [] {
      assert a + b == b;
    } else {
      assert (a + b)[0] == a[0] && (a + b)[1..] == a[1..] + b;
      ExecThen(Step(s, a[0]), a[1..], b);
    }
  }

  lemma ExecOne(s: State, a: Action)
    ensures Exec(s, [a]) == Step(s, a)
  {
    hide Step;
    assert [a][1..] == [];
  }

  lemma {:induction false} RepliesStore(s: State, n: nat)
    requires s.listener == Listening && s.lists.server == []
    ensures Exec(s, Replies(n)) == s.(lists := s.lists.(server := Serials(s.lists.next, n), next := s.lists.next + n))
  {
    if n > 0 {
      RepliesStore(s, n - 1);
      var t := Exec(s, Replies(n - 1));
      assert Replies(n) == Replies(n - 1) + [DataReply(n - 1)];
      ExecThen(s, Replies(n - 1), [DataReply(n - 1)]);
      ExecOne(t, DataReply(n - 1));
      assert Serials(s.lists.next, n) == Serials(s.lists.next, n - 1) + [s.lists.next + n - 1];
    } else {
      assert Replies(0) == [] && Serials(s.lists.next, 0) == [];
    }
  }

  /** A round that gets the records of `n` new controllers puts exactly them, in the order of their records, behind
      everything that is listed already; a further record for one of them adds nothing. */
  lemma RoundPublishes(s: State, n: nat, again: nat)
    requires s.conn == Round && s.countReceived && s.listener == Listening && s.lists.server == [] && again < n
    ensures var new_ := Serials(s.lists.next, n);
            && Exec(s, Replies(n) + [Publish]).lists
               == Lists(s.lists.controllers + AllMine(new_), new_, s.lists.freed, s.lists.next + n)
            && Exec(s, Replies(n) + [DataReply(again), Publish]).lists
               == Lists(s.lists.controllers + AllMine(new_), new_, s.lists.freed + {s.lists.next + n},
                        s.lists.next + n + 1)
  {
    hide Exec;
    RepliesStore(s, n);
    var t := Exec(s, Replies(n));
    ExecThen(s, Replies(n), [Publish]);
    ExecOne(t, Publish);
    var u := Step(t, DataReply(again));
    assert [DataReply(again), Publish] == [DataReply(again)] + [Publish];
    ExecThen(s, Replies(n), [DataReply(again), Publish]);
    ExecThen(t, [DataReply(again)], [Publish]);
    ExecOne(t, DataReply(again));
    ExecOne(u, Publish);
  }

  /** The state after a step and the steps that follow it. */
  lemma Then(s: State, run: seq<Action>, t: State, a: Action, u: State)
    requires Exec(s, run) == t && Step(t, a) == u
    ensures Exec(s, run + [a]) == u
  {
    hide Exec, Step;
    ExecThen(s, run, [a]);
    ExecOne(t, a);
  }

  /** A round, from its beginning to `server_initialized`. */
  function RoundOf(n: nat): seq<Action> { [StartRound, CountReply] + Replies(n) + [Publish] + [SetInitialized] }

  lemma RoundRuns(s: State, n: nat)
    requires s.conn == Top && s.connected && !s.initialized && s.listener == Listening && s.lists.server == []
    ensures var new_ := Serials(s.lists.next, n);
            Exec(s, RoundOf(n)) == s.(initialized := true, countReceived := true,
              lists := Lists(s.lists.controllers + AllMine(new_), new_, s.lists.freed, s.lists.next + n))
  {
    hide Exec;
    var s1 := s.(conn := Round, countReceived := false);
    var s2 := s1.(countReceived := true);
    var s3 := s2.(lists := s.lists.(server := Serials(s.lists.next, n), next := s.lists.next + n));
    var s4 := s3.(conn := Published, lists := PublishAll(s3.lists));
    ExecOne(s, StartRound);
    Then(s, [StartRound], s1, CountReply, s2);
    assert [StartRound] + [CountReply] == [StartRound, CountReply];
    RepliesStore(s2, n);
    ExecThen(s, [StartRound, CountReply], Replies(n));
    Then(s, [StartRound, CountReply] + Replies(n), s3, Publish, s4);
    var t := s4.(conn := Top, initialized := true);
    Then(s, [StartRound, CountReply] + Replies(n) + [Publish], s4, SetInitialized, t);
  }

  /** The client is online with exactly `n` new controllers listed, and has deleted the ones before. */
  ghost predicate Renewed(s: State, n: nat, t: State) {
    && t.conn == Top && t.connected && t.initialized && t.listener == Listening && t.pending == s.pending
    && t.lists.server == Serials(s.lists.next, n) && Owned(t.lists.controllers) == t.lists.server
    && Others(t.lists.controllers) == Others(s.lists.controllers)
    && t.lists.freed == s.lists.freed + set x | x in s.lists.server
  }

  lemma RoundRenews(s: State, d: State, n: nat)
    requires Inv(s) && d.conn == Top && d.connected && !d.initialized && d.listener == Listening
    requires d.lists == Drop(s.lists) && d.pending == s.pending
    ensures Renewed(s, n, Exec(d, RoundOf(n)))
  {
    hide Exec, ListedOnce, Owned, Others, EraseEach, NoMine;
    var new_ := Serials(s.lists.next, n);
    DropKeeps(s.lists);
    RoundRuns(d, n);
    OwnedConcat(d.lists.controllers, AllMine(new_));
    OwnedNone(d.lists.controllers);
    OwnedAll(new_);
    OthersConcat(d.lists.controllers, AllMine(new_));
    OthersNone(AllMine(new_));
    assert [] + new_ == new_;
    assert Others(s.lists.controllers) + [] == Others(s.lists.controllers);
  }

  /** Whatever has happened in an orderly run, when the server's device list changes the client can go on: its old
      controllers are taken out and deleted, and a new round lists the new ones. */
  lemma ListChangeRenews(others: seq<int>, run: seq<Action>, s: State, n: nat)
    requires Orderly(Init(others), run) && s == Exec(Init(others), run)
    requires s.conn == Top && s.connected && s.listener == Listening
    ensures Renewed(s, n, Exec(s, [ListChanged, ResetInitialized] + RoundOf(n)))
  {
    hide Exec, Orderly, Inv, Drop, Renewed;
    InitInv(others);
    ExecKeepsInv(Init(others), run);
    var s1 := s.(listener := Cleared, lists := Drop(s.lists));
    var s2 := s1.(listener := Listening, initialized := false);
    ExecOne(s, ListChanged);
    Then(s, [ListChanged], s1, ResetInitialized, s2);
    assert [ListChanged] + [ResetInitialized] == [ListChanged, ResetInitialized];
    ExecThen(s, [ListChanged, ResetInitialized], RoundOf(n));
    RoundRenews(s, s2, n);
  }

  const RECONNECTING := [Lose, ResetConnected, CleanUp, Connect]

  lemma Reconnecting(s: State)
    requires s.conn == Top && s.connected && s.listener == Listening
    ensures Exec(s, RECONNECTING) == s.(initialized := false, lists := Drop(s.lists))
  {
    hide Exec, Drop;
    var s1 := s.(listener := Losing, initialized := false);
    var s2 := s1.(listener := NoListener, connected := false, pending := s.pending + 1);
    var s3 := s2.(pending := s.pending, lists := Drop(s.lists));
    ExecOne(s, Lose);
    Then(s, [Lose], s1, ResetConnected, s2);
    assert [Lose] + [ResetConnected] == [Lose, ResetConnected];
    Then(s, [Lose, ResetConnected], s2, CleanUp, s3);
    assert [Lose, ResetConnected] + [CleanUp] == [Lose, ResetConnected, CleanUp];
    Then(s, [Lose, ResetConnected, CleanUp], s3, Connect, s3.(connected := true, listener := Listening));
    assert [Lose, ResetConnected, CleanUp] + [Connect] == RECONNECTING;
  }

  /** The same when the connection is lost between rounds and made again. */
  lemma LossRenews(others: seq<int>, run: seq<Action>, s: State, n: nat)
    requires Orderly(Init(others), run) && s == Exec(Init(others), run)
    requires s.conn == Top && s.connected && s.listener == Listening
    ensures Renewed(s, n, Exec(s, RECONNECTING + RoundOf(n)))
  {
    hide Exec, Orderly, Inv, Drop, Renewed;
    InitInv(others);
    ExecKeepsInv(Init(others), run);
    Reconnecting(s);
    ExecThen(s, RECONNECTING, RoundOf(n));
    RoundRenews(s, s.(initialized := false, lists := Drop(s.lists)), n);
  }

  /** Who may do what when: any other step changes nothing. */
  lemma StepsOnlyWhen(s: State, a: Action)
    requires Step(s, a) != s
    ensures a == Connect ==> s.conn == Top && !s.connected
    ensures a == StartRound ==> s.conn == Top && s.connected && !s.initialized
    ensures a == Publish ==> s.conn == Round && s.countReceived
    ensures a == SetInitialized ==> s.conn == Published
    ensures a.CountReply? || a.DataReply? || a == ListChanged || a == Lose ==> s.listener == Listening
    ensures a == ResetInitialized ==> s.listener == Cleared
    ensures a == ResetConnected ==> s.listener == Losing
    ensures a == CleanUp ==> s.pending > 0
  {
  }

  /** The other owners may insert an entry anywhere, and erase any entry that is not the client's. */
  lemma OthersAct(others: seq<int>, run: seq<Action>, at: nat, key: int)
    requires Orderly(Init(others), run)
    ensures var s := Exec(Init(others), run); var list := s.lists.controllers;
            && (at <= |list| ==>
                  Step(s, OtherInsert(at, key)).lists.controllers == list[..at] + [Other(key)] + list[at..])
            && (at < |list| ==> Step(s, OtherErase(at)).lists.controllers ==
                                if list[at].Other? then list[..at] + list[at + 1..] else list)
  {
    hide Exec, Orderly, Others, ListedOnce;
    InitInv(others);
    ExecKeepsInv(Init(others), run);
    var s := Exec(Init(others), run);
    var list := s.lists.controllers;
    if at <= |list| { InsertOther(list, s.lists.server, at, key); }
    if at < |list| && list[at].Other? { EraseOther(list, s.lists.server, at); }
  }

  /** No listener thread is between resetting the flags and taking the lock when a connection is made. */
  predicate Prompt(s: State, run: seq<Action>)
    decreases |run|
  {
    run == [] || ((Connecting(s, run[0]) ==> s.pending == 0) && Prompt(Step(s, run[0]), run[1..]))
  }

  lemma {:induction false} PromptIsOrderly(s: State, run: seq<Action>)
    requires Inv(s) && Prompt(s, run)
    ensures Orderly(s, run)
    decreases |run|
  {
    hide Step, Fresh, Others, ListedOnce, NoMine;
    if run != [] {
      if run[0] == Connect && s.conn == Top && !s.connected { NoneListed(s.lists.controllers); }
      StepKeepsInv(s, run[0]);
      PromptIsOrderly(Step(s, run[0]), run[1..]);
    }
  }

  /** In particular when the loss of a connection and the clean-up that follows it count as one step. */
  lemma PromptRunsStaySafe(others: seq<int>, run: seq<Action>)
    requires Prompt(Init(others), run)
    ensures Safe(Exec(Init(others), run))
  {
    hide Inv, Exec, Orderly, Safe, Prompt;
    InitInv(others);
    PromptIsOrderly(Init(others), run);
    ListsStaySafe(others, run);
  }

  lemma {:induction false} EraseEachCounts(list: seq<Id>, server: seq<nat>, id: Id)
    ensures multiset(EraseEach(list, server))[id] + multiset(AllMine(server))[id] >= multiset(list)[id]
    decreases |server|
  {
    hide Erase;
    if server != [] {
      var rest := Erase(list, Mine(server[0]));
      EraseCounts(list, Mine(server[0]));
      EraseEachCounts(rest, server[1..], id);
      assert AllMine(server) == [Mine(server[0])] + AllMine(server[1..]);
      assert multiset(AllMine(server)) == multiset{Mine(server[0])} + multiset(AllMine(server[1..]));
    }
  }

  /** Publishing a controller that is listed already lists it twice, and the clean-up takes one of the two. */
  lemma ListedTwiceDangles(l: Lists, k: nat)
    requires Distinct(l.server) && ListedOnce(l.controllers, l.server) && k < |l.controllers| && l.controllers[k].Mine?
    ensures !NoneDeleted(Drop(PublishAll(l)))
  {
    hide EraseEach, AllMine, Distinct;
    var x := l.controllers[k].serial;
    var twice := PublishAll(l).controllers;
    AllMineCounts(l.server);
    EraseEachCounts(twice, l.server, Mine(x));
    assert l.controllers[k] == Mine(x) && multiset(l.controllers)[Mine(x)] > 0;
    assert multiset(twice)[Mine(x)] == multiset(l.controllers)[Mine(x)] + multiset(AllMine(l.server))[Mine(x)];
    assert Mine(x) in multiset(EraseEach(twice, l.server));
    var i :| 0 <= i < |EraseEach(twice, l.server)| && EraseEach(twice, l.server)[i] == Mine(x);
    assert x in Drop(PublishAll(l)).freed;
  }

  const EARLY := [StartRound, CountReply, Publish, CleanUp]

  lemma EarlyRun(s: State)
    requires s.conn == Top && s.connected && !s.initialized && s.listener == Listening && s.pending > 0
    ensures Orderly(s, EARLY) && Exec(s, EARLY).lists == Drop(PublishAll(s.lists))
  {
    hide Drop, PublishAll;
    var s1 := s.(conn := Round, countReceived := false);
    var s2 := s1.(countReceived := true);
    var s3 := s2.(conn := Published, lists := PublishAll(s.lists));
    var s4 := s3.(pending := s.pending - 1, lists := Drop(PublishAll(s.lists)));
    assert Step(s, StartRound) == s1 && Step(s1, CountReply) == s2;
    assert Step(s2, Publish) == s3 && Step(s3, CleanUp) == s4;
    hide Step;
    assert EARLY[1..] == [CountReply, Publish, CleanUp] && [CountReply, Publish, CleanUp][1..] == [Publish, CleanUp];
    assert [Publish, CleanUp][1..] == [CleanUp] && [CleanUp][1..] == [];
    assert Exec(s3, [CleanUp]) == s4 && Exec(s2, [Publish, CleanUp]) == s4;
    assert Exec(s1, [CountReply, Publish, CleanUp]) == s4;
    assert Orderly(s3, [CleanUp]) && Orderly(s2, [Publish, CleanUp]) && Orderly(s1, [CountReply, Publish, CleanUp]);
  }

  /** The condition is exact: from any state an orderly run can reach, a connection may be made without ever losing
      safety if and only if none of the client's controllers is listed. Otherwise the listener thread that is still
      to clean up leaves a deleted controller in the list. */
  lemma ConnectSafeIff(others: seq<int>, run: seq<Action>, s: State)
    requires Orderly(Init(others), run) && s == Exec(Init(others), run) && s.conn == Top && !s.connected
    ensures NoMine(s.lists.controllers) <==>
            (forall rest :: Orderly(Step(s, Connect), rest) ==> Safe(Exec(Step(s, Connect), rest)))
  {
    hide Exec, Orderly, Others, Drop, PublishAll, Safe;
    InitInv(others);
    ExecKeepsInv(Init(others), run);
    var t := Step(s, Connect);
    if NoMine(s.lists.controllers) {
      StepKeepsInv(s, Connect);
      forall rest | Orderly(t, rest) ensures Safe(Exec(t, rest)) {
        ExecKeepsInv(t, rest);
        InvIsSafe(Exec(t, rest));
      }
    } else {
      if s.pending == 0 { NoneListed(s.lists.controllers); }
      EarlyRun(t);
      var k :| 0 <= k < |s.lists.controllers| && !s.lists.controllers[k].Other?;
      ListedTwiceDangles(s.lists, k);
      UnsafeIf(Exec(t, EARLY));
    }
  }

  lemma UnsafeIf(s: State)
    requires !NoneDeleted(s.lists)
    ensures !Safe(s)
  {
  }

  lemma Next(s: State, run: seq<Action>, t: State, rest: seq<Action>)
    requires run != [] && run[1..] == rest && Step(s, run[0]) == t && run[0] != Connect && Orderly(t, rest)
    ensures Orderly(s, run) && Exec(s, run) == Exec(t, rest)
  {
    hide Step;
  }

  const FRESH := State(Top, NoListener, false, false, false, 0, Lists([], [], {}, 0), [])
  const COUNTED := State(Round, Listening, true, false, true, 0, Lists([], [0], {}, 1), [])
  const LOST := State(Top, NoListener, false, false, true, 1, Lists([Mine(0)], [0], {}, 1), [])
  const STORING := [StartRound, CountReply, DataReply(0)]
  const PUBLISHING := [Publish, SetInitialized, Lose, ResetConnected]
  const LOSING := [Connect] + (STORING + PUBLISHING)

  lemma PublishAndLose()
    ensures Orderly(COUNTED, PUBLISHING) && Exec(COUNTED, PUBLISHING) == LOST
  {
    hide Orderly, Exec;
    var s5 := COUNTED.(conn := Published, lists := Lists([Mine(0)], [0], {}, 1));
    var s6 := s5.(conn := Top, initialized := true);
    var s7 := s6.(listener := Losing, initialized := false);
    assert s5.lists == PublishAll(COUNTED.lists);
    Ends(LOST);
    Next(s7, [ResetConnected], LOST, []);
    Next(s6, [Lose, ResetConnected], s7, [ResetConnected]);
    Next(s5, [SetInitialized, Lose, ResetConnected], s6, [Lose, ResetConnected]);
    Next(COUNTED, PUBLISHING, s5, [SetInitialized, Lose, ResetConnected]);
  }

  lemma Ends(s: State)
    ensures Orderly(s, []) && Exec(s, []) == s
  {
  }

  lemma StoreOne(s: State)
    requires s == FRESH.(connected := true, listener := Listening)
    ensures Orderly(s, STORING + PUBLISHING) && Exec(s, STORING + PUBLISHING) == LOST
  {
    hide Orderly, Exec;
    PublishAndLose();
    var s2 := s.(conn := Round);
    var s3 := s2.(countReceived := true);
    assert Step(s, StartRound) == s2 && Step(s2, CountReply) == s3 && Step(s3, DataReply(0)) == COUNTED;
    hide Step;
    Next(s3, [DataReply(0)] + PUBLISHING, COUNTED, PUBLISHING);
    Next(s2, [CountReply, DataReply(0)] + PUBLISHING, s3, [DataReply(0)] + PUBLISHING);
    Next(s, STORING + PUBLISHING, s2, [CountReply, DataReply(0)] + PUBLISHING);
  }

  /** The losing half of ConnectSafeIff is reached: one controller published, the connection lost, the clean-up not
      done. */
  lemma ListedConnectHappens()
    ensures Orderly(Init([]), LOSING) && Exec(Init([]), LOSING) == LOST
  {
    var s := FRESH.(connected := true, listener := Listening);
    assert Init([]) == FRESH && Step(FRESH, Connect) == s;
    hide Step;
    StoreOne(s);
    assert LOSING[1..] == STORING + PUBLISHING;
  }
}
