/** The hand-over of bus transfers to one worker thread: any number of callers, the request fields they share, three
    mutexes and two flags with their condition variables. One action is one access to shared state. */
module I2cWorker {

  /** The two kinds of transfer, with the arguments the caller passes. */
  datatype Request =
    | Smbus(addr: int, readWrite: int, command: int, size: int, data: int)
    | I2c(addr: int, readWrite: int, size: int, data: int)

  /** The fields of the interface object. */
  datatype Fields = Fields(addr: int, readWrite: int, command: int, sizeSmbus: int, dataSmbus: int, size: int,
                           data: int, smbusXfer: bool)

  /** Where a caller is inside i2c_smbus_xfer_call or i2c_xfer_call. `k` counts the transfers executed when it took
      `done`; the done lock is held until the function has returned its value. */
  datatype Call =
    | Idle
    | WantXfer(req: Request)
    | Fill(req: Request, written: nat)
    | WantStart(req: Request)
    | RaiseStart(req: Request)
    | NotifyStart(req: Request)
    | DropStart(req: Request)
    | WantDone(req: Request)
    | TestDone(req: Request)
    | Asleep(req: Request, woken: bool)
    | TakeDone(req: Request)
    | DropXfer(req: Request, k: nat)
    | ReadRet(req: Request, k: nat)
    | Leave(req: Request, k: nat, ret: int)

  /** Where the worker is in its loop; the start lock is held from the wait to the end of the iteration. */
  datatype Worker = WantsStart | TestsStart | Sleeps(woken: bool) | ClearsStart | Executes | WantsDone | RaisesDone
                  | NotifiesDone | DropsDone | DropsStart

  datatype Holder = Free | ByCaller(i: nat) | ByWorker

  /** `issued`, `executed` and `returned` record the requests in the order in which their callers got the transfer
      mutex, the transfers with their results, and what each call returned. */
  datatype Shared = Shared(
    worker: Worker, fields: Fields, start: bool, done: bool, ret: int,
    xfer: Holder, startM: Holder, doneM: Holder,
    issued: seq<Request>, executed: seq<(Request, int)>, returned: seq<(Request, int)>)

  datatype State = State(calls: seq<Call>, g: Shared)

  /** A caller enters with a request; a thread takes its next step (the worker's transfer yields `result`); or a
      waiting thread wakes for no reason. */
  datatype Action = Begin(i: nat, req: Request) | CallStep(i: nat) | WorkerStep(result: int)
                  | SpuriousCall(i: nat) | SpuriousWorker

  function NumFields(r: Request): nat { if r.Smbus? then 6 else 5 }

  /** The assignments before the start flag, in program order. */
  function WriteField(f: Fields, r: Request, n: nat): Fields {
    match r
    case Smbus(addr, readWrite, command, size, data) => (
      if n == 0 then f.(addr := addr)
      else if n == 1 then f.(readWrite := readWrite)
      else if n == 2 then f.(command := command)
      else if n == 3 then f.(sizeSmbus := size)
      else if n == 4 then f.(dataSmbus := data)
      else f.(smbusXfer := true))
    case I2c(addr, readWrite, size, data) => (
      if n == 0 then f.(addr := addr)
      else if n == 1 then f.(readWrite := readWrite)
      else if n == 2 then f.(size := size)
      else if n == 3 then f.(data := data)
      else f.(smbusXfer := false))
  }

  /** The transfer the worker performs from the fields. */
  function Requested(f: Fields): Request {
    if f.smbusXfer then Smbus(f.addr, f.readWrite, f.command, f.sizeSmbus, f.dataSmbus)
    else I2c(f.addr, f.readWrite, f.size, f.data)
  }

  function Init(n: nat, fields: Fields): State {
    State(seq(n, _ => Idle), Shared(WantsStart, fields, false, false, 0, Free, Free, Free, [], [], []))
  }

  /** A caller's next step is possible: it is not idle, and the mutex or wake-up it needs is there. */
  predicate CallEnabled(g: Shared, c: Call) {
    match c
    case Idle => false
    case WantXfer(_) => g.xfer == Free
    case WantStart(_) => g.startM == Free
    case WantDone(_) => g.doneM == Free
    case Asleep(_, woken) => woken && g.doneM == Free
    case _ => true
  }

  predicate WorkerEnabled(g: Shared) {
    match g.worker
    case WantsStart => g.startM == Free
    case Sleeps(woken) => woken && g.startM == Free
    case WantsDone => g.doneM == Free
    case _ => true
  }

  /** The caller's place after its step. */
  function NextCall(g: Shared, c: Call): Call {
    match c
    case Idle => Idle
    case WantXfer(r) => Fill(r, 0)
    case Fill(r, n) => if n + 1 >= NumFields(r) then WantStart(r) else Fill(r, n + 1)
    case WantStart(r) => RaiseStart(r)
    case RaiseStart(r) => NotifyStart(r)
    case NotifyStart(r) => DropStart(r)
    case DropStart(r) => WantDone(r)
    case WantDone(r) => TestDone(r)
    case TestDone(r) => if g.done then TakeDone(r) else Asleep(r, false)
    case Asleep(r, _) => TestDone(r)
    case TakeDone(r) => DropXfer(r, |g.executed|)
    case DropXfer(r, k) => ReadRet(r, k)
    case ReadRet(r, k) => Leave(r, k, g.ret)
    case Leave(_, _, _) => Idle
  }

  /** What the step of caller `i` does to the shared state. */
  function CallEffect(g: Shared, i: nat, c: Call): Shared {
    match c
    case WantXfer(r) => g.(xfer := ByCaller(i), issued := g.issued + [r])
    case Fill(r, n) => g.(fields := WriteField(g.fields, r, n))
    case WantStart(_) => g.(startM := ByCaller(i))
    case RaiseStart(_) => g.(start := true)
    case NotifyStart(_) => g.(worker := if g.worker.Sleeps? then Sleeps(true) else g.worker)
    case DropStart(_) => g.(startM := Free)
    case WantDone(_) => g.(doneM := ByCaller(i))
    case TestDone(_) => if g.done then g else g.(doneM := Free)
    case Asleep(_, _) => g.(doneM := ByCaller(i))
    case TakeDone(_) => g.(done := false)
    case DropXfer(_, _) => g.(xfer := Free)
    case Leave(r, _, ret) => g.(doneM := Free, returned := g.returned + [(r, ret)])
    case _ => g
  }

  /** notify_all on the done condition. */
  function Woken(c: Call): Call { if c.Asleep? then c.(woken := true) else c }

  function WorkerEffect(g: Shared, result: int): Shared {
    match g.worker
    case WantsStart => g.(worker := TestsStart, startM := ByWorker)
    case TestsStart => if g.start then g.(worker := ClearsStart) else g.(worker := Sleeps(false), startM := Free)
    case Sleeps(_) => g.(worker := TestsStart, startM := ByWorker)
    case ClearsStart => g.(worker := Executes, start := false)
    case Executes => g.(worker := WantsDone, ret := result, executed := g.executed + [(Requested(g.fields), result)])
    case WantsDone => g.(worker := RaisesDone, doneM := ByWorker)
    case RaisesDone => g.(worker := NotifiesDone, done := true)
    case NotifiesDone => g.(worker := DropsDone)
    case DropsDone => g.(worker := DropsStart, doneM := Free)
    case DropsStart => g.(worker := WantsStart, startM := Free)
  }

  function StepCall(s: State, i: nat): State
    requires i < |s.calls|
  {
    State(s.calls[i := NextCall(s.g, s.calls[i])], CallEffect(s.g, i, s.calls[i]))
  }

  function StepWorker(s: State, result: int): (t: State)
    ensures |t.calls| == |s.calls|
  {
    State(if s.g.worker.NotifiesDone?
          then seq(|s.calls|, i requires 0 <= i < |s.calls| => Woken(s.calls[i])) else s.calls,
          WorkerEffect(s.g, result))
  }

  predicate Enabled(s: State, a: Action) {
    match a
    case Begin(i, _) => i < |s.calls| && s.calls[i].Idle?
    case CallStep(i) => i < |s.calls| && CallEnabled(s.g, s.calls[i])
    case WorkerStep(_) => WorkerEnabled(s.g)
    case SpuriousCall(i) => i < |s.calls| && s.calls[i].Asleep?
    case SpuriousWorker => s.g.worker.Sleeps?
  }

  /** An action that is not enabled changes nothing. */
  function Step(s: State, a: Action): State {
    if !Enabled(s, a) then s else
    match a
    case Begin(i, r) => s.(calls := s.calls[i := WantXfer(r)])
    case CallStep(i) => StepCall(s, i)
    case WorkerStep(result) => StepWorker(s, result)
    case SpuriousCall(i) => s.(calls := s.calls[i := Woken(s.calls[i])])
    case SpuriousWorker => s.(g := s.g.(worker := Sleeps(true)))
  }

  function Exec(s: State, run: seq<Action>): State
    decreases |run|
  {
    if run == [] then s else Exec(Step(s, run[0]), run[1..])
  }

  // ---------------------------------------------------------------- the invariant

  predicate HoldsXfer(c: Call) { !(c.Idle? || c.WantXfer? || c.ReadRet? || c.Leave?) }
  predicate HoldsStart(c: Call) { c.RaiseStart? || c.NotifyStart? || c.DropStart? }
  predicate HoldsDone(c: Call) { c.TestDone? || c.TakeDone? || c.DropXfer? || c.ReadRet? || c.Leave? }

  predicate WorkerHoldsStart(w: Worker) { !(w.WantsStart? || w.Sleeps?) }
  predicate WorkerHoldsDone(w: Worker) { w.RaisesDone? || w.NotifiesDone? || w.DropsDone? }

  predicate CallLocks(g: Shared, i: nat, c: Call) {
    && (HoldsXfer(c) <==> g.xfer == ByCaller(i))
    && (HoldsStart(c) <==> g.startM == ByCaller(i))
    && (HoldsDone(c) <==> g.doneM == ByCaller(i))
  }

  predicate WorkerLocks(g: Shared) {
    && g.xfer != ByWorker
    && (WorkerHoldsStart(g.worker) <==> g.startM == ByWorker)
    && (WorkerHoldsDone(g.worker) <==> g.doneM == ByWorker)
  }

  /** The first `n` fields of `r` are in place. */
  predicate FieldsWritten(f: Fields, r: Request, n: nat) {
    match r
    case Smbus(addr, readWrite, command, size, data) =>
      (n > 0 ==> f.addr == addr) && (n > 1 ==> f.readWrite == readWrite) && (n > 2 ==> f.command == command)
      && (n > 3 ==> f.sizeSmbus == size) && (n > 4 ==> f.dataSmbus == data) && (n > 5 ==> f.smbusXfer)
    case I2c(addr, readWrite, size, data) =>
      (n > 0 ==> f.addr == addr) && (n > 1 ==> f.readWrite == readWrite) && (n > 2 ==> f.size == size)
      && (n > 3 ==> f.data == data) && (n > 4 ==> !f.smbusXfer)
  }

  function Requests(executed: seq<(Request, int)>): (r: seq<Request>)
    ensures |r| == |executed|
  {
    seq(|executed|, i requires 0 <= i < |executed| => executed[i].0)
  }

  /** The owner's request is written to the fields but not executed yet. */
  predicate Pending(g: Shared, r: Request) {
    FieldsWritten(g.fields, r, NumFields(r)) && g.issued == Requests(g.executed) + [r]
  }

  /** The owner's request is the last one executed and `ret` is its result. */
  predicate Served(g: Shared, r: Request) {
    g.issued == Requests(g.executed) && g.executed != [] && g.executed[|g.executed| - 1] == (r, g.ret)
  }

  predicate WorkerQuiet(w: Worker) { w.DropsStart? || w.WantsStart? || w.TestsStart? || w.Sleeps? }

  /** Requested, being executed, executed, or announced as done. */
  predicate Waiting(g: Shared, r: Request) {
    || (g.start && !g.done && Pending(g, r) && g.worker != Sleeps(false)
        && (g.worker.WantsStart? || g.worker.TestsStart? || g.worker.Sleeps? || g.worker.ClearsStart?))
    || (!g.start && !g.done && Pending(g, r) && g.worker.Executes?)
    || (!g.start && !g.done && Served(g, r) && (g.worker.WantsDone? || g.worker.RaisesDone?))
    || (!g.start && g.done && Served(g, r) && (g.worker.NotifiesDone? || g.worker.DropsDone? || WorkerQuiet(g.worker)))
  }

  /** What the transfer mutex protects, by the place of its owner. */
  predicate OwnerPhase(g: Shared, c: Call) {
    match c
    case Fill(r, n) =>
      !g.start && !g.done && WorkerQuiet(g.worker) && g.issued == Requests(g.executed) + [r]
      && n < NumFields(r) && FieldsWritten(g.fields, r, n)
    case WantStart(r) => !g.start && !g.done && WorkerQuiet(g.worker) && Pending(g, r)
    case RaiseStart(r) => !g.start && !g.done && WorkerQuiet(g.worker) && Pending(g, r)
    case NotifyStart(r) => g.start && !g.done && (g.worker.WantsStart? || g.worker.Sleeps?) && Pending(g, r)
    case DropStart(r) =>
      g.start && !g.done && (g.worker.WantsStart? || g.worker == Sleeps(true)) && Pending(g, r)
    case WantDone(r) => Waiting(g, r)
    case TestDone(r) => Waiting(g, r)
    case Asleep(r, woken) => Waiting(g, r) && (!woken && g.done ==> g.worker.NotifiesDone?)
    case TakeDone(r) => !g.start && g.done && WorkerQuiet(g.worker) && Served(g, r)
    case DropXfer(r, k) => !g.start && !g.done && WorkerQuiet(g.worker) && Served(g, r) && k == |g.executed|
    case _ => true
  }

  /** A caller past the transfer mutex still knows its own transfer; at most one more has been executed since, and
      that one's announcement waits for the done lock the caller holds. */
  predicate TailPhase(g: Shared, c: Call) {
    (c.DropXfer? || c.ReadRet? || c.Leave?) ==>
      && 0 < c.k <= |g.executed| && g.executed[c.k - 1].0 == c.req
      && (c.k == |g.executed| || (c.k + 1 == |g.executed| && g.worker.WantsDone?))
      && (c.Leave? ==> c.ret == g.executed[c.k - 1].1 || (c.k < |g.executed| && c.ret == g.executed[c.k].1))
  }

  /** What holds of the shared state whoever runs. */
  predicate SharedInv(g: Shared) {
    && WorkerLocks(g)
    && (g.xfer == Free ==> !g.start && !g.done && WorkerQuiet(g.worker) && g.issued == Requests(g.executed))
    && (g.executed != [] ==> g.ret == g.executed[|g.executed| - 1].1)
  }

  /** What holds of caller `i` at `c`. */
  predicate CallInv(g: Shared, i: nat, c: Call) {
    CallLocks(g, i, c) && TailPhase(g, c) && (g.xfer == ByCaller(i) ==> OwnerPhase(g, c))
  }

  predicate Known(s: State, h: Holder) { h.ByCaller? ==> h.i < |s.calls| }

  predicate Inv(s: State) {
    && SharedInv(s.g) && Known(s, s.g.xfer) && Known(s, s.g.startM) && Known(s, s.g.doneM)
    && forall i: nat :: i < |s.calls| ==> CallInv(s.g, i, s.calls[i])
  }

  lemma InvInit(n: nat, fields: Fields)
    ensures Inv(Init(n, fields))
  {
    assert Requests([]) == [];
  }

  lemma RequestsAppend(e: seq<(Request, int)>, r: Request, result: int)
    ensures Requests(e + [(r, result)]) == Requests(e) + [r]
  {
  }

  lemma FieldsComplete(f: Fields, r: Request)
    requires FieldsWritten(f, r, NumFields(r))
    ensures Requested(f) == r
  {
  }

  lemma WriteFieldStep(f: Fields, r: Request, n: nat)
    requires n < NumFields(r) && FieldsWritten(f, r, n)
    ensures FieldsWritten(WriteField(f, r, n), r, n + 1)
  {
  }

  lemma NothingWritten(f: Fields, r: Request)
    ensures FieldsWritten(f, r, 0)
  {
  }

  /** A caller's step keeps its own invariant and the shared one. */
  lemma CallKeepsOwn(g: Shared, i: nat, c: Call)
    requires SharedInv(g) && CallInv(g, i, c) && CallEnabled(g, c)
    ensures SharedInv(CallEffect(g, i, c)) && CallInv(CallEffect(g, i, c), i, NextCall(g, c))
  {
    hide FieldsWritten, WriteField, Requests;
    match c
    case WantXfer(r) => NothingWritten(g.fields, r);
    case Fill(r, n) => WriteFieldStep(g.fields, r, n);
    case _ =>
  }

  /** A caller's step keeps every other caller's invariant. */
  lemma CallKeepsOthers(g: Shared, i: nat, c: Call, j: nat, d: Call)
    requires SharedInv(g) && CallInv(g, i, c) && CallEnabled(g, c) && CallInv(g, j, d) && i != j
    ensures CallInv(CallEffect(g, i, c), j, d)
  {
    hide FieldsWritten, WriteField, Requests;
  }

  lemma WorkerKeepsShared(g: Shared, result: int)
    requires SharedInv(g) && WorkerEnabled(g)
    requires g.xfer.ByCaller? ==> exists c :: CallInv(g, g.xfer.i, c)
    ensures SharedInv(WorkerEffect(g, result))
  {
    hide FieldsWritten, Requests, Requested;
  }

  lemma WorkerKeepsTail(g: Shared, result: int, i: nat, c: Call)
    requires SharedInv(g) && WorkerEnabled(g) && CallLocks(g, i, c) && TailPhase(g, c)
    ensures TailPhase(WorkerEffect(g, result), c) && TailPhase(WorkerEffect(g, result), Woken(c))
  {
    hide Requested, Requests;
  }

  lemma WorkerKeepsOwner(g: Shared, result: int, i: nat, c: Call)
    requires SharedInv(g) && WorkerEnabled(g) && CallLocks(g, i, c) && g.xfer == ByCaller(i) && OwnerPhase(g, c)
    ensures OwnerPhase(WorkerEffect(g, result), if g.worker.NotifiesDone? then Woken(c) else c)
  {
    hide FieldsWritten, Requests, Requested;
    if g.worker.Executes? {
      FieldsComplete(g.fields, c.req);
      RequestsAppend(g.executed, c.req, result);
    }
  }

  lemma WorkerKeepsCall(g: Shared, result: int, i: nat, c: Call)
    requires SharedInv(g) && WorkerEnabled(g) && CallInv(g, i, c)
    ensures CallInv(WorkerEffect(g, result), i, if g.worker.NotifiesDone? then Woken(c) else c)
  {
    WorkerKeepsTail(g, result, i, c);
    hide CallLocks, TailPhase, OwnerPhase, SharedInv, Woken;
    if g.xfer == ByCaller(i) { WorkerKeepsOwner(g, result, i, c); }
  }

  lemma StepKeepsInv(s: State, a: Action)
    requires Inv(s)
    ensures Inv(Step(s, a))
  {
    hide CallInv, SharedInv, CallEffect, WorkerEffect, NextCall, CallEnabled, WorkerEnabled;
    if Enabled(s, a) {
      match a
      case CallStep(i) => CallStepKeepsInv(s, i);
      case WorkerStep(result) => WorkerStepKeepsInv(s, result);
      case _ => OtherStepKeepsInv(s, a);
    }
  }

  lemma CallStepKeepsInv(s: State, i: nat)
    requires Inv(s) && i < |s.calls| && CallEnabled(s.g, s.calls[i])
    ensures Inv(StepCall(s, i))
  {
    hide CallInv, SharedInv, NextCall, CallEnabled;
    var c := s.calls[i];
    CallKeepsOwn(s.g, i, c);
    forall j: nat | j < |s.calls| && j != i ensures CallInv(CallEffect(s.g, i, c), j, s.calls[j]) {
      CallKeepsOthers(s.g, i, c, j, s.calls[j]);
    }
  }

  lemma WorkerStepKeepsInv(s: State, result: int)
    requires Inv(s) && WorkerEnabled(s.g)
    ensures Inv(StepWorker(s, result))
  {
    hide CallInv, WorkerEnabled;
    if s.g.xfer.ByCaller? {
      assert CallInv(s.g, s.g.xfer.i, s.calls[s.g.xfer.i]);
    }
    WorkerKeepsShared(s.g, result);
    var t := StepWorker(s, result);
    forall j: nat | j < |s.calls| ensures CallInv(t.g, j, t.calls[j]) {
      WorkerKeepsCall(s.g, result, j, s.calls[j]);
    }
  }

  lemma OtherStepKeepsInv(s: State, a: Action)
    requires Inv(s) && Enabled(s, a) && !a.CallStep? && !a.WorkerStep?
    ensures Inv(Step(s, a))
  {
    hide FieldsWritten, Requests;
    var t := Step(s, a);
    forall j: nat | j < |t.calls| ensures CallInv(t.g, j, t.calls[j]) {
      assert CallInv(s.g, j, s.calls[j]);
    }
  }

  lemma {:induction false} ExecKeepsInv(s: State, run: seq<Action>)
    requires Inv(s)
    ensures Inv(Exec(s, run))
    decreases |run|
  {
    hide Inv, Step;
    if run == [] {
    } else {
      StepKeepsInv(s, run[0]);
      ExecKeepsInv(Step(s, run[0]), run[1..]);
    }
  }

  lemma InvAlways(n: nat, fields: Fields, run: seq<Action>)
    ensures Inv(Exec(Init(n, fields), run))
  {
    InvInit(n, fields);
    ExecKeepsInv(Init(n, fields), run);
  }

  // ---------------------------------------------------------------- safety over every run

  /** In every interleaving: the transfers performed are the requests in mutex order, each once, with their own kind
      and parameters, at most one request ahead of them; the two flags are never both raised; and a caller that takes
      `done` finds its own transfer as the last one and its result in `ret`. */
  lemma ExactlyOnce(n: nat, fields: Fields, run: seq<Action>)
    ensures var s := Exec(Init(n, fields), run);
            && !(s.g.start && s.g.done)
            && |s.g.executed| <= |s.g.issued| <= |s.g.executed| + 1
            && Requests(s.g.executed) == s.g.issued[..|s.g.executed|]
            && forall i: nat :: i < |s.calls| && s.calls[i].TakeDone? ==>
                 s.g.executed != [] && s.g.executed[|s.g.executed| - 1] == (s.calls[i].req, s.g.ret)
  {
    hide Exec, FieldsWritten, Requests;
    var s := Exec(Init(n, fields), run);
    InvAlways(n, fields, run);
    if s.g.xfer.ByCaller? {
      var c := s.calls[s.g.xfer.i];
      assert CallInv(s.g, s.g.xfer.i, c);
      PhaseBounds(s.g, c);
    }
    forall i: nat | i < |s.calls| && s.calls[i].TakeDone?
      ensures s.g.executed != [] && s.g.executed[|s.g.executed| - 1] == (s.calls[i].req, s.g.ret)
    {
      assert CallInv(s.g, i, s.calls[i]);
    }
  }

  lemma PhaseBounds(g: Shared, c: Call)
    requires OwnerPhase(g, c) && HoldsXfer(c)
    ensures !(g.start && g.done)
    ensures |g.executed| <= |g.issued| <= |g.executed| + 1 && Requests(g.executed) == g.issued[..|g.executed|]
  {
    hide FieldsWritten, Requests;
    assert g.issued == Requests(g.executed) || g.issued == Requests(g.executed) + [c.req];
  }

  /** `ret` is read after the transfer mutex has been released. What is read is the caller's own result exactly when no
      transfer has been executed since it took `done`, or the next one happened to give the same value. */
  lemma LateReadIff(n: nat, fields: Fields, run: seq<Action>, i: nat)
    requires i < |Exec(Init(n, fields), run).calls| && Exec(Init(n, fields), run).calls[i].ReadRet?
    ensures var g, c := Exec(Init(n, fields), run).g, Exec(Init(n, fields), run).calls[i];
            && 0 < c.k <= |g.executed| && g.executed[c.k - 1].0 == c.req
            && (g.ret == g.executed[c.k - 1].1 <==> c.k == |g.executed| || g.executed[c.k].1 == g.executed[c.k - 1].1)
  {
    hide Exec, FieldsWritten, Requests;
    InvAlways(n, fields, run);
    var s := Exec(Init(n, fields), run);
    assert CallInv(s.g, i, s.calls[i]);
  }

  lemma {:induction false} ExecConcat(s: State, a: seq<Action>, b: seq<Action>)
    ensures Exec(s, a + b) == Exec(Exec(s, a), b)
    decreases |a|
  {
    hide Step;
    if a == [] {
      assert a + b == b;
    } else {
      assert (a + b)[1..] == a[1..] + b;
      ExecConcat(Step(s, a[0]), a[1..], b);
    }
  }

  /** Nobody in a critical section and the worker asleep. */
  predicate Resting(g: Shared) {
    g.worker == Sleeps(false) && !g.start && !g.done && g.xfer == Free && g.startM == Free
  }

  /** Caller `i` issues `r` up to the point where it wants the done lock. */
  lemma IssueRun(s: State, i: nat, r: Request) returns (run: seq<Action>)
    requires i < |s.calls| && s.calls[i].Idle? && Resting(s.g) && r.I2c?
    ensures Exec(s, run) == State(s.calls[i := WantDone(r)],
              s.g.(worker := Sleeps(true), start := true, xfer := ByCaller(i), issued := s.g.issued + [r],
                   fields := s.g.fields.(addr := r.addr, readWrite := r.readWrite, size := r.size, data := r.data,
                                         smbusXfer := false)))
  {
    var t;
    run, t := Then(s, [], Begin(i, r));
    run, t := Then(s, run, CallStep(i));
    run, t := Then(s, run, CallStep(i));
    run, t := Then(s, run, CallStep(i));
    run, t := Then(s, run, CallStep(i));
    assert t.calls == s.calls[i := Fill(r, 3)];
    run, t := Then(s, run, CallStep(i));
    run, t := Then(s, run, CallStep(i));
    run, t := Then(s, run, CallStep(i));
    run, t := Then(s, run, CallStep(i));
    assert t.calls == s.calls[i := NotifyStart(r)];
    run, t := Then(s, run, CallStep(i));
    run, t := Then(s, run, CallStep(i));
    assert t.calls == s.calls[i := WantDone(r)];
  }

  /** One more action at the end of a run. */
  lemma Then(s: State, run: seq<Action>, a: Action) returns (longer: seq<Action>, t: State)
    ensures longer == run + [a] && t == Exec(s, longer) == Step(Exec(s, run), a)
  {
    longer := run + [a];
    ExecConcat(s, run, [a]);
    t := Exec(s, longer);
  }

  /** The worker performs the transfer and wants the done lock. */
  lemma TransferRun(s: State, result: int) returns (run: seq<Action>)
    requires s.g.worker == Sleeps(true) && s.g.start && s.g.startM == Free
    ensures Exec(s, run) == State(s.calls, s.g.(worker := WantsDone, start := false, startM := ByWorker, ret := result,
                                                executed := s.g.executed + [(Requested(s.g.fields), result)]))
  {
    var t;
    run, t := Then(s, [], WorkerStep(result));
    run, t := Then(s, run, WorkerStep(result));
    run, t := Then(s, run, WorkerStep(result));
    run, t := Then(s, run, WorkerStep(result));
  }

  /** The worker announces the transfer and goes back to sleep; nobody is asleep on the done condition. */
  lemma AnnounceRun(s: State) returns (run: seq<Action>)
    requires s.g.worker == WantsDone && s.g.doneM == Free && s.g.startM == ByWorker && !s.g.start
    requires forall j :: 0 <= j < |s.calls| ==> !s.calls[j].Asleep?
    ensures Exec(s, run) == State(s.calls, s.g.(worker := Sleeps(false), done := true, startM := Free))
  {
    var t;
    run, t := Then(s, [], WorkerStep(0));
    run, t := Then(s, run, WorkerStep(0));
    run, t := Then(s, run, WorkerStep(0));
    assert t.calls == s.calls;
    run, t := Then(s, run, WorkerStep(0));
    run, t := Then(s, run, WorkerStep(0));
    run, t := Then(s, run, WorkerStep(0));
    run, t := Then(s, run, WorkerStep(0));
  }

  /** Two of the callers, two transfers with the given results: the first caller is about to read the second one's. */
  lemma LateRead(n: nat, fields: Fields, mine: int, other: int) returns (run: seq<Action>, s: State)
    requires n >= 2
    ensures s == Exec(Init(n, fields), run) && |s.calls| == n
    ensures s.calls[0] == ReadRet(I2c(1, 0, 0, 0), 1) && s.g.ret == other && s.g.returned == []
    ensures s.g.executed == [(I2c(1, 0, 0, 0), mine), (I2c(2, 0, 0, 0), other)]
  {
    hide Exec;
    s := Init(n, fields);
    var r0, r1 := I2c(1, 0, 0, 0), I2c(2, 0, 0, 0);
    run := SleepRun(s);
    s := Exec(s, run);
    var part := IssueRun(s, 0, r0);
    run, s := Continue(Init(n, fields), run, part);
    part := TransferRun(s, mine);
    run, s := Continue(Init(n, fields), run, part);
    part := AnnounceRun(s);
    run, s := Continue(Init(n, fields), run, part);
    part := TakeRun(s, 0);
    run, s := Continue(Init(n, fields), run, part);
    part := IssueRun(s, 1, r1);
    run, s := Continue(Init(n, fields), run, part);
    part := TransferRun(s, other);
    run, s := Continue(Init(n, fields), run, part);
  }

  /** The first caller then returns the second one's result. */
  lemma LateReadHappens(fields: Fields, mine: int, other: int) returns (run: seq<Action>)
    ensures var g := Exec(Init(2, fields), run).g;
            && g.executed == [(I2c(1, 0, 0, 0), mine), (I2c(2, 0, 0, 0), other)]
            && g.returned == [(I2c(1, 0, 0, 0), other)]
  {
    hide Exec;
    var s;
    run, s := LateRead(2, fields, mine, other);
    var part := ReturnRun(s, 0);
    run, s := Continue(Init(2, fields), run, part);
  }

  lemma Continue(s: State, run: seq<Action>, part: seq<Action>) returns (longer: seq<Action>, t: State)
    ensures longer == run + part && t == Exec(s, longer) == Exec(Exec(s, run), part)
  {
    longer, t := run + part, Exec(s, run + part);
    ExecConcat(s, run, part);
  }

  lemma SleepRun(s: State) returns (run: seq<Action>)
    requires s.g.worker == WantsStart && s.g.startM == Free && !s.g.start
    ensures Exec(s, run) == State(s.calls, s.g.(worker := Sleeps(false)))
  {
    var t;
    run, t := Then(s, [], WorkerStep(0));
    run, t := Then(s, run, WorkerStep(0));
  }

  /** Caller `i` takes `done`, releases the transfer mutex and is about to read `ret`. */
  lemma TakeRun(s: State, i: nat) returns (run: seq<Action>)
    requires i < |s.calls| && s.calls[i].WantDone? && s.g.done && s.g.doneM == Free
    ensures Exec(s, run) == State(s.calls[i := ReadRet(s.calls[i].req, |s.g.executed|)],
                                  s.g.(done := false, doneM := ByCaller(i), xfer := Free))
  {
    var t;
    run, t := Then(s, [], CallStep(i));
    run, t := Then(s, run, CallStep(i));
    run, t := Then(s, run, CallStep(i));
    run, t := Then(s, run, CallStep(i));
    assert t.calls == s.calls[i := ReadRet(s.calls[i].req, |s.g.executed|)];
  }

  lemma ReturnRun(s: State, i: nat) returns (run: seq<Action>)
    requires i < |s.calls| && s.calls[i].ReadRet?
    ensures Exec(s, run) == State(s.calls[i := Idle],
                                  s.g.(doneM := Free, returned := s.g.returned + [(s.calls[i].req, s.g.ret)]))
  {
    var t;
    run, t := Then(s, [], CallStep(i));
    run, t := Then(s, run, CallStep(i));
    assert t.calls == s.calls[i := Idle];
  }

  /** What caller `i` is about to return, once it reads `ret`, is the result of its own transfer. */
  predicate ReadsOwn(s: State, i: nat) {
    i < |s.calls| && s.calls[i].ReadRet? ==>
      0 < s.calls[i].k <= |s.g.executed| && s.g.executed[s.calls[i].k - 1] == (s.calls[i].req, s.g.ret)
  }

  /** No transfer has been executed since the caller took `done`. */
  predicate NoneSince(s: State) {
    forall i: nat :: i < |s.calls| && (s.calls[i].DropXfer? || s.calls[i].ReadRet? || s.calls[i].Leave?) ==>
      s.calls[i].k == |s.g.executed|
  }

  lemma AloneKeepsNoneSince(s: State, a: Action)
    requires Inv(s) && NoneSince(s) && |s.calls| <= 1
    ensures NoneSince(Step(s, a))
  {
    hide FieldsWritten, Requests, WriteField, Requested;
    if Enabled(s, a) && a.WorkerStep? && s.g.worker.Executes? {
      assert s.g.xfer == ByCaller(0);
      assert CallInv(s.g, 0, s.calls[0]);
    }
  }

  lemma {:induction false} AloneNoneSince(s: State, run: seq<Action>)
    requires Inv(s) && NoneSince(s) && |s.calls| <= 1
    ensures NoneSince(Exec(s, run))
    decreases |run|
  {
    hide Inv, Step, NoneSince;
    if run != [] {
      StepKeepsInv(s, run[0]);
      AloneKeepsNoneSince(s, run[0]);
      StepKeepsCallers(s, run[0]);
      AloneNoneSince(Step(s, run[0]), run[1..]);
    }
  }

  lemma StepKeepsCallers(s: State, a: Action)
    ensures |Step(s, a).calls| == |s.calls|
  {
    hide CallEffect, WorkerEffect, NextCall;
  }

  lemma AloneReadsOwn(n: nat, fields: Fields, run: seq<Action>, i: nat)
    requires n <= 1
    ensures ReadsOwn(Exec(Init(n, fields), run), i)
  {
    hide Exec, FieldsWritten, Requests;
    var s := Exec(Init(n, fields), run);
    InvAlways(n, fields, run);
    InvInit(n, fields);
    AloneNoneSince(Init(n, fields), run);
    if i < |s.calls| && s.calls[i].ReadRet? { assert CallInv(s.g, i, s.calls[i]); }
  }

  /** Every caller always gets its own result, in every run and whatever the transfers yield, if and only if there are
      fewer than two callers. */
  lemma ReadsOwnIff(n: nat, fields: Fields)
    ensures (forall run, i: nat :: ReadsOwn(Exec(Init(n, fields), run), i)) <==> n <= 1
  {
    hide Exec, ReadsOwn;
    if n <= 1 {
      forall run, i: nat ensures ReadsOwn(Exec(Init(n, fields), run), i) { AloneReadsOwn(n, fields, run, i); }
    } else {
      var run, s := LateRead(n, fields, 0, 1);
      NotOwn(s);
    }
  }

  lemma NotOwn(s: State)
    requires |s.calls| > 0 && s.calls[0] == ReadRet(I2c(1, 0, 0, 0), 1) && s.g.ret == 1
    requires |s.g.executed| == 2 && s.g.executed[0] == (I2c(1, 0, 0, 0), 0)
    ensures !ReadsOwn(s, 0)
  {
  }

  // ---------------------------------------------------------------- no request is stuck

  /** Every waiting thread may wake at any time; a notification wakes exactly those that wait on its condition. */
  lemma WakeUps(s: State, i: nat, result: int)
    requires i < |s.calls|
    ensures s.calls[i].Asleep? ==> Step(s, SpuriousCall(i)) == State(s.calls[i := Asleep(s.calls[i].req, true)], s.g)
    ensures s.g.worker.Sleeps? ==>
              var t := Step(s, SpuriousWorker);
              t.calls == s.calls && t.g.worker == Sleeps(true) && t.g == s.g.(worker := Sleeps(true))
    ensures s.calls[i].NotifyStart? ==>
              Step(s, CallStep(i)).g == if s.g.worker.Sleeps? then s.g.(worker := Sleeps(true)) else s.g
    ensures s.g.worker.NotifiesDone? ==>
              var t := Step(s, WorkerStep(result));
              t.calls[i] == if s.calls[i].Asleep? then Asleep(s.calls[i].req, true) else s.calls[i]
  {
  }

  /** While a caller is inside a call, some thread can take a step without a new call or a spurious wake-up. */
  lemma NotStuck(n: nat, fields: Fields, run: seq<Action>, i: nat)
    requires i < |Exec(Init(n, fields), run).calls| && !Exec(Init(n, fields), run).calls[i].Idle?
    ensures var s := Exec(Init(n, fields), run);
            WorkerEnabled(s.g) || exists j: nat :: j < |s.calls| && CallEnabled(s.g, s.calls[j])
  {
    hide Exec, FieldsWritten, Requests;
    InvAlways(n, fields, run);
    SomeoneRuns(Exec(Init(n, fields), run), i);
  }

  lemma SomeoneRuns(s: State, i: nat)
    requires Inv(s) && i < |s.calls| && !s.calls[i].Idle?
    ensures WorkerEnabled(s.g) || exists j: nat :: j < |s.calls| && CallEnabled(s.g, s.calls[j])
  {
    hide FieldsWritten, Requests;
    assert CallInv(s.g, i, s.calls[i]);
    var j := if s.g.doneM.ByCaller? then s.g.doneM.i
             else if s.g.startM.ByCaller? then s.g.startM.i
             else if s.g.xfer.ByCaller? then s.g.xfer.i
             else i;
    assert CallInv(s.g, j, s.calls[j]);
    if !WorkerEnabled(s.g) {
      assert CallEnabled(s.g, s.calls[j]);
    }
  }

  /** Steps a caller has left, counted so that a wake-up by the worker is not an increase. */
  function CallRank(done: bool, c: Call): nat {
    match c
    case Idle => 0
    case WantXfer(_) => 40
    case Fill(_, n) => if n < 10 then 39 - n else 29
    case WantStart(_) => 29
    case RaiseStart(_) => 28
    case NotifyStart(_) => 27
    case DropStart(_) => 26
    case WantDone(_) => if done then 13 else 25
    case TestDone(_) => if done then 11 else 23
    case Asleep(_, woken) => if done then (if woken then 12 else 13) else if woken then 24 else 22
    case TakeDone(_) => 10
    case DropXfer(_, _) => 9
    case ReadRet(_, _) => 8
    case Leave(_, _, _) => 7
  }

  function WorkerRank(g: Shared): nat {
    match g.worker
    case WantsStart => if g.start then 22 else 13
    case TestsStart => if g.start then 21 else 12
    case Sleeps(woken) => if g.start then 22 else if woken then 13 else 10
    case ClearsStart => 20
    case Executes => 19
    case WantsDone => 18
    case RaisesDone => 17
    case NotifiesDone => 16
    case DropsDone => 15
    case DropsStart => 14
  }

  function CallRanks(done: bool, calls: seq<Call>): nat {
    if calls == [] then 0 else CallRanks(done, calls[..|calls| - 1]) + CallRank(done, calls[|calls| - 1])
  }

  function Rank(s: State): nat { 100 * CallRanks(s.g.done, s.calls) + WorkerRank(s.g) }

  lemma {:induction false} RankOfUpdate(done: bool, calls: seq<Call>, i: nat, c: Call)
    requires i < |calls|
    ensures CallRanks(done, calls[i := c]) == CallRanks(done, calls) - CallRank(done, calls[i]) + CallRank(done, c)
  {
    hide CallRank;
    var n := |calls| - 1;
    if i == n {
      assert calls[i := c][..n] == calls[..n];
    } else {
      assert calls[i := c][..n] == calls[..n][i := c];
      RankOfUpdate(done, calls[..n], i, c);
    }
  }

  lemma {:induction false} RanksMonotone(before: bool, after: bool, calls: seq<Call>, then_: seq<Call>)
    requires |calls| == |then_|
    requires forall i :: 0 <= i < |calls| ==> CallRank(after, then_[i]) <= CallRank(before, calls[i])
    ensures CallRanks(after, then_) <= CallRanks(before, calls)
  {
    hide CallRank;
    if calls != [] {
      RanksMonotone(before, after, calls[..|calls| - 1], then_[..|calls| - 1]);
    }
  }

  lemma OwnStepLowersRank(g: Shared, i: nat, c: Call)
    requires SharedInv(g) && CallInv(g, i, c) && CallEnabled(g, c)
    ensures CallRank(g.done, NextCall(g, c)) < CallRank(g.done, c)
    ensures WorkerRank(CallEffect(g, i, c)) <= WorkerRank(g) + 12
    ensures !c.TakeDone? ==> CallEffect(g, i, c).done == g.done
    ensures c.TakeDone? ==> CallRank(false, NextCall(g, c)) == 9
  {
    hide FieldsWritten, Requests, WriteField;
  }

  /** When the owner takes `done`, nobody else's rank depends on it. */
  lemma OthersUnmovedByTake(g: Shared, i: nat, j: nat, d: Call)
    requires g.xfer == ByCaller(i) && CallInv(g, j, d) && i != j
    ensures CallRank(false, d) == CallRank(true, d)
  {
  }

  lemma CallStepLowersRank(s: State, i: nat)
    requires Inv(s) && i < |s.calls| && CallEnabled(s.g, s.calls[i])
    ensures Rank(StepCall(s, i)) < Rank(s)
  {
    hide CallInv, SharedInv, CallEnabled, CallRank, WorkerRank;
    var c, g := s.calls[i], s.g;
    assert CallInv(g, i, c);
    OwnStepLowersRank(g, i, c);
    RankOfUpdate(g.done, s.calls, i, NextCall(g, c));
    if c.TakeDone? {
      assert g.xfer == ByCaller(i) by { TakerIsOwner(g, i, c); }
      var t := s.calls[i := NextCall(g, c)];
      forall j | 0 <= j < |t| ensures CallRank(false, t[j]) <= CallRank(g.done, t[j]) {
        assert CallInv(g, j, s.calls[j]);
        if j != i {
          OthersUnmovedByTake(g, i, j, s.calls[j]);
        } else {
          TakenRank(g, c);
        }
      }
      RanksMonotone(g.done, false, t, t);
    }
  }

  lemma TakerIsOwner(g: Shared, i: nat, c: Call)
    requires CallInv(g, i, c) && c.TakeDone?
    ensures g.xfer == ByCaller(i)
  {
  }

  lemma TakenRank(g: Shared, c: Call)
    requires c.TakeDone?
    ensures CallRank(false, NextCall(g, c)) == CallRank(g.done, NextCall(g, c))
  {
  }

  lemma WorkerStepLowersRank(s: State, result: int)
    requires Inv(s) && WorkerEnabled(s.g)
    ensures Rank(StepWorker(s, result)) < Rank(s)
  {
    hide FieldsWritten, Requests;
    var t := StepWorker(s, result);
    assert WorkerRank(t.g) < WorkerRank(s.g) by {
      if s.g.xfer.ByCaller? {
        assert CallInv(s.g, s.g.xfer.i, s.calls[s.g.xfer.i]);
      }
    }
    forall j | 0 <= j < |s.calls| ensures CallRank(t.g.done, t.calls[j]) <= CallRank(s.g.done, s.calls[j]) {
      assert CallInv(s.g, j, s.calls[j]);
      if s.g.worker.NotifiesDone? && s.calls[j].Asleep? {
      }
    }
    RanksMonotone(s.g.done, t.g.done, s.calls, t.calls);
  }

  predicate Quiet(a: Action) { a.CallStep? || a.WorkerStep? }

  /** Every action of the run is possible where it happens. */
  predicate Effective(s: State, run: seq<Action>)
    decreases |run|
  {
    run == [] || (Enabled(s, run[0]) && Effective(Step(s, run[0]), run[1..]))
  }

  /** Once no new call begins and no thread wakes for no reason, only boundedly many steps remain. */
  lemma {:induction false} QuietRunsEnd(s: State, run: seq<Action>)
    requires Inv(s) && Effective(s, run) && forall k :: 0 <= k < |run| ==> Quiet(run[k])
    ensures Inv(Exec(s, run)) && |run| + Rank(Exec(s, run)) <= Rank(s)
    decreases |run|
  {
    hide Inv, Rank, Enabled, Step;
    if run != [] {
      StepKeepsInv(s, run[0]);
      QuietStepLowersRank(s, run[0]);
      QuietRunsEnd(Step(s, run[0]), run[1..]);
    }
  }

  lemma QuietStepLowersRank(s: State, a: Action)
    requires Inv(s) && Enabled(s, a) && Quiet(a)
    ensures Rank(Step(s, a)) < Rank(s)
  {
    hide Inv, Rank, CallEnabled, WorkerEnabled, StepCall, StepWorker;
    if a.CallStep? {
      CallStepLowersRank(s, a.i);
    } else {
      WorkerStepLowersRank(s, a.result);
    }
  }

  /** No thread can go on without a new call or a spurious wake-up. */
  ghost predicate Quiescent(s: State) { forall a | Quiet(a) :: !Enabled(s, a) }

  lemma AllIdle(s: State)
    requires Inv(s) && Quiescent(s)
    ensures forall i :: 0 <= i < |s.calls| ==> s.calls[i].Idle?
  {
    hide Inv, Enabled;
    forall i | 0 <= i < |s.calls| ensures s.calls[i].Idle? {
      if !s.calls[i].Idle? { var a := QuietStep(s, i); }
    }
  }

  lemma QuietStep(s: State, i: nat) returns (a: Action)
    requires Inv(s) && i < |s.calls| && !s.calls[i].Idle?
    ensures Quiet(a) && Enabled(s, a)
  {
    hide Inv, CallEnabled, WorkerEnabled;
    SomeoneRuns(s, i);
    if WorkerEnabled(s.g) {
      a := WorkerStep(0);
    } else {
      var j: nat :| j < |s.calls| && CallEnabled(s.g, s.calls[j]);
      a := CallStep(j);
    }
  }

  /** From every reachable state, steps of the threads alone lead, in boundedly many steps and however they are taken,
      to where no thread can go on; and there every call has returned. */
  lemma EveryCallEnds(n: nat, fields: Fields, run: seq<Action>, more: seq<Action>)
    requires Effective(Exec(Init(n, fields), run), more) && forall k :: 0 <= k < |more| ==> Quiet(more[k])
    ensures var s := Exec(Init(n, fields), run); var t := Exec(s, more);
            && |more| <= Rank(s)
            && (Quiescent(t) ==> forall i :: 0 <= i < |t.calls| ==> t.calls[i].Idle?)
            && (!Quiescent(t) ==> exists a :: Quiet(a) && Enabled(t, a) && Effective(s, more + [a]))
  {
    hide Exec, Inv, Rank, Enabled, Step, Effective;
    InvAlways(n, fields, run);
    var s := Exec(Init(n, fields), run);
    QuietRunsEnd(s, more);
    var t := Exec(s, more);
    if Quiescent(t) {
      AllIdle(t);
    } else {
      var a :| Quiet(a) && Enabled(t, a);
      EffectiveAppend(s, more, a);
    }
  }

  lemma {:induction false} EffectiveAppend(s: State, run: seq<Action>, a: Action)
    requires Effective(s, run) && Enabled(Exec(s, run), a)
    ensures Effective(s, run + [a])
    decreases |run|
  {
    hide Step, Enabled;
    if run == [] {
      assert ([] + [a])[1..] == [] && ([] + [a])[0] == a;
    } else {
      EffectiveAppend(Step(s, run[0]), run[1..], a);
      assert (run + [a])[1..] == run[1..] + [a] && (run + [a])[0] == run[0];
    }
  }
}
