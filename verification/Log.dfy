/** The log manager: messages wait in a buffer until the log file is open, and are tested against the log level of the
    moment at which they are flushed. */
module Log {
  import opened Bytes

  const FATAL := 0
  const WARNING := 2
  const INFO := 3
  const DEBUG := 5
  const TRACE := 6
  const DIALOG := 7

  datatype Message = Message(level: nat, text: string)

  /** A line of output, with or without the source position, or the header of a new log file. */
  datatype Line = Line(message: Message, source: bool) | Banner

  /** The settings configure finds in the configuration, and whether the file can be opened. */
  datatype Config = Config(opens: bool, loglevel: Option<int>, console: Option<bool>)

  /** `appended` and `examined` record all messages, and those that a flush has examined with the level and the source
      setting of that moment. */
  datatype State = State(buffer: seq<Message>, all: seq<Message>, printSource: bool, loglevel: nat, verbosity: nat,
                         console: bool, open: bool, file: seq<Line>, screen: seq<Line>,
                         appended: seq<Message>, examined: seq<Exam>)

  datatype Exam = Exam(message: Message, loglevel: nat, source: bool)

  predicate Passes(level: nat, limit: nat) { level <= limit || level == DIALOG }

  /** The lines a flush writes for its messages. */
  function Written(exams: seq<Exam>): seq<Line> {
    if exams == [] then [] else
      var e := exams[|exams| - 1];
      Written(exams[..|exams| - 1]) + if Passes(e.message.level, e.loglevel) then [Line(e.message, e.source)] else []
  }

  function Exams(messages: seq<Message>, loglevel: nat, source: bool): (r: seq<Exam>)
    ensures |r| == |messages|
    ensures forall k :: 0 <= k < |r| ==> r[k] == Exam(messages[k], loglevel, source)
  {
    seq(|messages|, k requires 0 <= k < |messages| => Exam(messages[k], loglevel, source))
  }

  function Flush(s: State): State {
    if !s.open then s else
      var exams := Exams(s.buffer, s.loglevel, s.printSource);
      s.(buffer := [], file := s.file + Written(exams), examined := s.examined + exams)
  }

  function Append(s: State, m: Message): State {
    var t := if m.level == FATAL then s.(printSource := true, loglevel := DEBUG, verbosity := DEBUG) else s;
    Flush(t.(screen := if Passes(m.level, t.verbosity) then t.screen + [Line(m, t.printSource)] else t.screen,
             buffer := t.buffer + [m], all := if t.console then t.all + [m] else t.all, appended := t.appended + [m]))
  }

  /** A stored value becomes an `unsigned int`. */
  function Configured(s: State, c: Config): State {
    Flush(Opened(s, c))
  }

  /** The settings, and the header if this call opens the file. */
  function Opened(s: State, c: Config): State {
    s.(open := s.open || c.opens, file := if !s.open && c.opens then s.file + [Banner] else s.file,
       loglevel := if c.loglevel.Some? then c.loglevel.value % 0x1_0000_0000 else s.loglevel,
       console := if c.console.Some? then c.console.value else s.console)
  }

  const DIGITS := "0123456"

  function SetMessage(what: string, level: nat): Message
    requires level <= TRACE
  {
    Message(DEBUG, what + " set to " + [DIGITS[level]])
  }

  function Clamp(level: nat): (r: nat)
    ensures r <= TRACE
  {
    if level > TRACE then TRACE else level
  }

  /** The change is announced at the old level. */
  function LoglevelSet(s: State, level: nat): State {
    Append(s, SetMessage("Loglevel", Clamp(level))).(loglevel := Clamp(level))
  }

  function VerbositySet(s: State, level: nat): State {
    Append(s, SetMessage("Verbosity", Clamp(level))).(verbosity := Clamp(level))
  }

  function SourceMessage(v: bool): Message {
    Message(DEBUG, "Source code location printouts were " + if v then "enabled" else "disabled")
  }

  function SourceSet(s: State, v: bool): State { Append(s, SourceMessage(v)).(printSource := v) }

  class LogManager {
    var tempMessages: seq<Message>
    var allMessages: seq<Message>
    var printSource: bool
    var loglevel: nat
    var verbosity: nat
    var consoleEnabled: bool
    var open: bool
    var file: seq<Line>
    var screen: seq<Line>
    ghost var appended: seq<Message>
    ghost var examined: seq<Exam>

    ghost function Value(): State
      reads this
    {
      State(tempMessages, allMessages, printSource, loglevel, verbosity, consoleEnabled, open, file, screen, appended,
            examined)
    }

    constructor ()
      ensures Value() == INIT
    {
      tempMessages, allMessages, printSource, loglevel, verbosity := [], [], false, INFO, WARNING;
      consoleEnabled, open, file, screen := false, false, [], [];
      appended, examined := [], [];
    }

    /** _flush */
    method FlushBuffer()
      modifies this
      ensures Value() == Flush(old(Value()))
    {
      ghost var was := Value();
      if open {
        ghost var exams := Exams(tempMessages, loglevel, printSource);
        for i := 0 to |tempMessages|
          invariant Value() == was.(file := was.file + Written(exams[..i]))
        {
          var m := tempMessages[i];
          WrittenStep(exams, i);
          if m.level <= loglevel || m.level == DIALOG { file := file + [Line(m, printSource)]; }
        }
        assert exams[..|exams|] == exams;
        tempMessages := [];
        examined := examined + exams;
      }
    }

    /** _append */
    method AppendMessage(m: Message)
      modifies this
      ensures Value() == Append(old(Value()), m)
    {
      if m.level == FATAL {
        printSource := true;
        loglevel := DEBUG;
        verbosity := DEBUG;
      }
      if m.level <= verbosity || m.level == DIALOG { screen := screen + [Line(m, printSource)]; }
      tempMessages := tempMessages + [m];
      appended := appended + [m];
      if consoleEnabled { allMessages := allMessages + [m]; }
      FlushBuffer();
    }

    method Configure(c: Config)
      modifies this
      ensures Value() == Configured(old(Value()), c)
    {
      if !open {
        open := c.opens;
        if open { file := file + [Banner]; }
      }
      if c.loglevel.Some? { loglevel := c.loglevel.value % 0x1_0000_0000; }
      if c.console.Some? { consoleEnabled := c.console.value; }
      FlushBuffer();
    }

    method SetLoglevel(level: nat)
      modifies this
      ensures Value() == LoglevelSet(old(Value()), level)
    {
      var valid := if level > TRACE then TRACE else level;
      AppendMessage(SetMessage("Loglevel", valid));
      loglevel := valid;
    }

    method SetVerbosity(level: nat)
      modifies this
      ensures Value() == VerbositySet(old(Value()), level)
    {
      var valid := if level > TRACE then TRACE else level;
      AppendMessage(SetMessage("Verbosity", valid));
      verbosity := valid;
    }

    method SetPrintSource(v: bool)
      modifies this
      ensures Value() == SourceSet(old(Value()), v)
    {
      AppendMessage(SourceMessage(v));
      printSource := v;
    }

    /** One call of a run, on the object. */
    method Perform(a: Call)
      modifies this
      ensures Value() == Step(old(Value()), a)
    {
      hide Append, Flush, Configured, LoglevelSet, VerbositySet, SourceSet;
      match a
      case Appends(m) => AppendMessage(m);
      case Configures(c) => Configure(c);
      case Flushes => FlushBuffer();
      case SetsLoglevel(level) => SetLoglevel(level);
      case SetsVerbosity(level) => SetVerbosity(level);
      case SetsSource(v) => SetPrintSource(v);
    }
  }

  lemma WrittenStep(exams: seq<Exam>, i: nat)
    requires i < |exams|
    ensures Written(exams[..i + 1]) == Written(exams[..i]) +
            if Passes(exams[i].message.level, exams[i].loglevel) then [Line(exams[i].message, exams[i].source)] else []
  {
    assert exams[..i + 1][..i] == exams[..i];
  }

  // ---------------------------------------------------------------- runs

  datatype Call = Appends(m: Message) | Configures(c: Config) | Flushes | SetsLoglevel(level: nat)
                | SetsVerbosity(level: nat) | SetsSource(v: bool)

  const INIT := State([], [], false, INFO, WARNING, false, false, [], [], [], [])

  function Step(s: State, a: Call): State {
    match a
    case Appends(m) => Append(s, m)
    case Configures(c) => Configured(s, c)
    case Flushes => Flush(s)
    case SetsLoglevel(level) => LoglevelSet(s, level)
    case SetsVerbosity(level) => VerbositySet(s, level)
    case SetsSource(v) => SourceSet(s, v)
  }

  function Exec(s: State, run: seq<Call>): State
    decreases |run|
  {
    if run == [] then s else Exec(Step(s, run[0]), run[1..])
  }

  function Messages(exams: seq<Exam>): (r: seq<Message>)
    ensures |r| == |exams| && forall k :: 0 <= k < |r| ==> r[k] == exams[k].message
  {
    seq(|exams|, k requires 0 <= k < |exams| => exams[k].message)
  }

  /** A file that has been opened starts with the header. */
  function Head(open: bool): seq<Line> { if open then [Banner] else [] }

  predicate Inv(s: State) {
    && s.appended == Messages(s.examined) + s.buffer
    && s.file == Head(s.open) + Written(s.examined)
    && (if s.open then s.buffer == [] else s.examined == [])
  }

  /** What holds inside a call, before its flush. */
  predicate Pending(s: State) {
    && s.appended == Messages(s.examined) + s.buffer && s.file == Head(s.open) + Written(s.examined)
    && (!s.open ==> s.examined == [])
  }

  lemma {:induction false} WrittenConcat(a: seq<Exam>, b: seq<Exam>)
    ensures Written(a + b) == Written(a) + Written(b)
  {
    if b == [] {
      assert a + b == a;
    } else {
      var n := |b| - 1;
      WrittenConcat(a, b[..n]);
      assert (a + b)[..|a + b| - 1] == a + b[..n];
    }
  }

  lemma FlushKeeps(s: State)
    requires Pending(s)
    ensures Inv(Flush(s)) && Flush(s).appended == s.appended && Flush(s).open == s.open
  {
    hide Written;
    if s.open {
      var exams := Exams(s.buffer, s.loglevel, s.printSource);
      WrittenConcat(s.examined, exams);
      assert Messages(s.examined + exams) + [] == Messages(s.examined) + s.buffer;
    }
  }

  lemma AppendKeeps(s: State, m: Message)
    requires Inv(s)
    ensures Inv(Append(s, m)) && Append(s, m).appended == s.appended + [m] && Append(s, m).open == s.open
  {
    hide Flush, Written;
    var t := if m.level == FATAL then s.(printSource := true, loglevel := DEBUG, verbosity := DEBUG) else s;
    var u := t.(screen := if Passes(m.level, t.verbosity) then t.screen + [Line(m, t.printSource)] else t.screen,
                buffer := t.buffer + [m], all := if t.console then t.all + [m] else t.all, appended := t.appended + [m]);
    assert u.appended == Messages(u.examined) + u.buffer;
    FlushKeeps(u);
  }

  lemma OpenedPending(s: State, c: Config)
    requires Inv(s)
    ensures Pending(Opened(s, c))
  {
    if !s.open {
      assert Written(s.examined) == [];
      assert [] + [] + [Banner] == [Banner] + [];
    }
  }

  lemma StepKeepsInv(s: State, a: Call)
    requires Inv(s)
    ensures Inv(Step(s, a))
  {
    hide Flush, Append, Written;
    match a
    case Appends(m) => AppendKeeps(s, m);
    case Configures(c) =>
      OpenedPending(s, c);
      FlushKeeps(Opened(s, c));
    case Flushes => FlushKeeps(s);
    case SetsLoglevel(level) => AppendKeeps(s, SetMessage("Loglevel", Clamp(level)));
    case SetsVerbosity(level) => AppendKeeps(s, SetMessage("Verbosity", Clamp(level)));
    case SetsSource(v) => AppendKeeps(s, SourceMessage(v));
  }

  lemma {:induction false} ExecKeepsInv(s: State, run: seq<Call>)
    requires Inv(s)
    ensures Inv(Exec(s, run))
    decreases |run|
  {
    hide Inv, Step;
    if run != [] {
      StepKeepsInv(s, run[0]);
      ExecKeepsInv(Step(s, run[0]), run[1..]);
    }
  }

  // ---------------------------------------------------------------- main results, for every run

  /** In every run the messages appended are those already examined followed by those still buffered; the file holds the
      header and then, in order, exactly the examined ones that passed the level of their flush; before the file opens
      nothing has been examined, so nothing is lost; afterwards the buffer is empty between calls. */
  lemma NothingIsLost(run: seq<Call>)
    ensures var s := Exec(INIT, run);
            && s.appended == Messages(s.examined) + s.buffer && s.file == Head(s.open) + Written(s.examined)
            && (!s.open ==> s.buffer == s.appended && s.file == []) && (s.open ==> s.buffer == [])
  {
    hide Exec;
    ExecKeepsInv(INIT, run);
    var s := Exec(INIT, run);
    assert !s.open ==> Messages(s.examined) == [] && [] + s.buffer == s.buffer;
  }

  lemma FlushOpen(s: State)
    requires s.open
    ensures var t := Flush(s); var lines := Written(Exams(s.buffer, s.loglevel, s.printSource));
            t == s.(buffer := [], file := t.file, examined := t.examined) && t.file == s.file + lines
  {
    hide Written;
  }

  /** The call that opens the file writes every message appended until then that passes the level it finds in the
      configuration, or the one there was if it finds none. */
  lemma OpeningWritesBacklog(run: seq<Call>, c: Config)
    requires !Exec(INIT, run).open && c.opens
    ensures var s := Exec(INIT, run); var t := Configured(s, c);
            var limit := if c.loglevel.Some? then c.loglevel.value % 0x1_0000_0000 else s.loglevel;
            && t.open && t.buffer == [] && t.loglevel == limit
            && t.file == [Banner] + Written(Exams(s.appended, limit, s.printSource))
  {
    hide Exec, Flush, Written, Exams, Messages;
    NothingIsLost(run);
    var s := Exec(INIT, run);
    assert [] + [Banner] == [Banner];
    FlushOpen(Opened(s, c));
  }

  /** Once the file is open, a message is written at once, or never: if and only if it passes the level it leaves
      behind. A fatal message passes, raises the level to debug for those that follow, and adds the source to its own
      line. */
  lemma OpenWritesAtOnce(run: seq<Call>, m: Message)
    requires Exec(INIT, run).open
    ensures var s := Exec(INIT, run); var t := Append(s, m);
            && t.file == s.file + (if Passes(m.level, t.loglevel) then [Line(m, t.printSource)] else [])
            && (m.level == FATAL ==> t.loglevel == DEBUG && t.printSource)
            && (m.level != FATAL ==> t.loglevel == s.loglevel && t.printSource == s.printSource)
  {
    hide Exec, Flush, Messages;
    NothingIsLost(run);
    var s := Exec(INIT, run);
    var t := if m.level == FATAL then s.(printSource := true, loglevel := DEBUG, verbosity := DEBUG) else s;
    var u := t.(screen := if Passes(m.level, t.verbosity) then t.screen + [Line(m, t.printSource)] else t.screen,
                buffer := t.buffer + [m], all := if t.console then t.all + [m] else t.all, appended := t.appended + [m]);
    assert Append(s, m) == Flush(u) && u.buffer == [m];
    FlushOpen(u);
    WrittenOne(Exams([m], u.loglevel, u.printSource));
  }

  lemma WrittenOne(exams: seq<Exam>)
    requires |exams| == 1
    ensures var e := exams[0];
            Written(exams) == if Passes(e.message.level, e.loglevel) then [Line(e.message, e.source)] else []
  {
    assert exams[..0] == [];
  }

  // ---------------------------------------------------------------- what the two levels decide

  /** The messages that pass a level, as lines. */
  function Lines(messages: seq<Message>, level: nat, source: bool): seq<Line> {
    Written(Exams(messages, level, source))
  }

  lemma LinesConcat(a: seq<Message>, b: seq<Message>, level: nat, source: bool)
    ensures Lines(a + b, level, source) == Lines(a, level, source) + Lines(b, level, source)
  {
    hide Written;
    assert Exams(a + b, level, source) == Exams(a, level, source) + Exams(b, level, source);
    WrittenConcat(Exams(a, level, source), Exams(b, level, source));
  }

  /** A message passes up to the level; a dialog always does. */
  lemma LinesOne(m: Message, level: nat, source: bool)
    ensures Lines([m], level, source) == if m.level <= level || m.level == 7 then [Line(m, source)] else []
    ensures Lines([], level, source) == []
  {
    WrittenOne(Exams([m], level, source));
  }

  function MessagesOf(a: Call): seq<Message> {
    match a
    case Appends(m) => [m]
    case SetsLoglevel(level) => [SetMessage("Loglevel", Clamp(level))]
    case SetsVerbosity(level) => [SetMessage("Verbosity", Clamp(level))]
    case SetsSource(v) => [SourceMessage(v)]
    case _ => []
  }

  /** The messages that a run appends. */
  function AppendedBy(run: seq<Call>): seq<Message> {
    if run == [] then [] else MessagesOf(run[0]) + AppendedBy(run[1..])
  }

  /** Calls that leave the log level, or the verbosity, as it is. */
  predicate SteadyLevel(a: Call) {
    (a.Appends? && a.m.level != FATAL) || a.Flushes? || a.SetsVerbosity? || (a.Configures? && a.c.loglevel.None?)
  }

  predicate SteadyVerbosity(a: Call) {
    (a.Appends? && a.m.level != FATAL) || a.Flushes? || a.SetsLoglevel? || a.Configures?
  }

  lemma FlushFile(s: State)
    ensures Flush(s) == s.(buffer := Flush(s).buffer, file := Flush(s).file, examined := Flush(s).examined)
    ensures s.open ==> Flush(s).buffer == [] && Flush(s).file == s.file + Lines(s.buffer, s.loglevel, s.printSource)
  {
    hide Written;
  }

  lemma AppendWrites(s: State, m: Message)
    requires m.level != FATAL
    ensures var t := Append(s, m);
            && t.loglevel == s.loglevel && t.verbosity == s.verbosity && t.printSource == s.printSource
            && t.open == s.open
            && t.screen == s.screen + Lines([m], s.verbosity, s.printSource)
            && (s.open && s.buffer == [] ==> t.buffer == [] && t.file == s.file + Lines([m], s.loglevel, s.printSource))
  {
    hide Flush, Lines;
    LinesOne(m, s.verbosity, s.printSource);
    var u := s.(screen := if Passes(m.level, s.verbosity) then s.screen + [Line(m, s.printSource)] else s.screen,
                buffer := s.buffer + [m], all := if s.console then s.all + [m] else s.all, appended := s.appended + [m]);
    FlushFile(u);
    assert [] + [m] == [m] && s.screen + [] == s.screen;
  }

  lemma SteadyWrites(s: State, a: Call)
    requires s.open && s.buffer == [] && SteadyLevel(a)
    ensures var t := Step(s, a);
            && t.open && t.buffer == [] && t.loglevel == s.loglevel && t.printSource == s.printSource
            && t.file == s.file + Lines(MessagesOf(a), s.loglevel, s.printSource)
  {
    hide Flush, Append, Lines;
    LinesOne(Message(0, ""), s.loglevel, s.printSource);
    assert s.file + [] == s.file;
    match a
    case Appends(m) => AppendWrites(s, m);
    case SetsVerbosity(level) => AppendWrites(s, SetMessage("Verbosity", Clamp(level)));
    case Configures(c) => FlushFile(Opened(s, c));
    case Flushes => FlushFile(s);
  }

  lemma SteadyShows(s: State, a: Call)
    requires SteadyVerbosity(a)
    ensures var t := Step(s, a);
            && t.verbosity == s.verbosity && t.printSource == s.printSource
            && t.screen == s.screen + Lines(MessagesOf(a), s.verbosity, s.printSource)
  {
    hide Flush, Append, Lines;
    LinesOne(Message(0, ""), s.verbosity, s.printSource);
    assert s.screen + [] == s.screen;
    match a
    case Appends(m) => AppendWrites(s, m);
    case SetsLoglevel(level) => AppendWrites(s, SetMessage("Loglevel", Clamp(level)));
    case Configures(c) => FlushFile(Opened(s, c));
    case Flushes => FlushFile(s);
  }

  lemma {:induction false} SteadyRunWrites(s: State, run: seq<Call>)
    requires s.open && s.buffer == [] && forall k :: 0 <= k < |run| ==> SteadyLevel(run[k])
    ensures Exec(s, run).file == s.file + Lines(AppendedBy(run), s.loglevel, s.printSource)
    decreases |run|
  {
    hide Step, Lines, SteadyLevel;
    if run == [] {
      LinesOne(Message(0, ""), s.loglevel, s.printSource);
    } else {
      SteadyWrites(s, run[0]);
      SteadyRunWrites(Step(s, run[0]), run[1..]);
      LinesConcat(MessagesOf(run[0]), AppendedBy(run[1..]), s.loglevel, s.printSource);
    }
  }

  lemma {:induction false} SteadyRunShows(s: State, run: seq<Call>)
    requires forall k :: 0 <= k < |run| ==> SteadyVerbosity(run[k])
    ensures Exec(s, run).screen == s.screen + Lines(AppendedBy(run), s.verbosity, s.printSource)
    decreases |run|
  {
    hide Step, Lines, SteadyVerbosity;
    if run == [] {
      LinesOne(Message(0, ""), s.verbosity, s.printSource);
    } else {
      SteadyShows(s, run[0]);
      SteadyRunShows(Step(s, run[0]), run[1..]);
      LinesConcat(MessagesOf(run[0]), AppendedBy(run[1..]), s.verbosity, s.printSource);
    }
  }

  /** With an open file, setting the log level decides about everything that follows: until the next change of the level
      the file grows by exactly the messages that pass the level asked for, or TRACE if that is lower. The announcement
      of the change passes the old level or is never written. */
  lemma LoglevelGovernsFile(run: seq<Call>, level: nat, later: seq<Call>)
    requires Exec(INIT, run).open && forall k :: 0 <= k < |later| ==> SteadyLevel(later[k])
    ensures var s := Exec(INIT, run); var limit := if level <= TRACE then level else TRACE;
            && Exec(LoglevelSet(s, level), later).file
               == s.file + (if s.loglevel >= DEBUG then [Line(SetMessage("Loglevel", limit), s.printSource)] else [])
                         + Lines(AppendedBy(later), limit, s.printSource)
            && LoglevelSet(s, level).verbosity == s.verbosity
  {
    hide Exec, Append, Lines, Messages;
    NothingIsLost(run);
    var s := Exec(INIT, run);
    var m := SetMessage("Loglevel", Clamp(level));
    AppendWrites(s, m);
    LinesOne(m, s.loglevel, s.printSource);
    SteadyRunWrites(LoglevelSet(s, level), later);
  }

  /** Before the file is open, the level that is set decides about everything so far, the messages before it included:
      when the file then opens without another level, exactly what passes this one is written. */
  lemma LoglevelReachesBack(run: seq<Call>, level: nat, c: Config)
    requires !Exec(INIT, run).open && c.opens && c.loglevel.None?
    ensures var s := Exec(INIT, run); var limit := if level <= TRACE then level else TRACE;
            Configured(LoglevelSet(s, level), c).file
            == [Banner] + Lines(s.appended + [SetMessage("Loglevel", limit)], limit, s.printSource)
  {
    hide Exec, Flush, Lines, Messages;
    NothingIsLost(run);
    var s := Exec(INIT, run);
    var m := SetMessage("Loglevel", Clamp(level));
    AppendWaits(s, m);
    var t := LoglevelSet(s, level);
    FlushFile(Opened(t, c));
    assert [] + [Banner] == [Banner];
  }

  lemma AppendWaits(s: State, m: Message)
    requires !s.open && m.level != FATAL
    ensures var t := Append(s, m);
            t.buffer == s.buffer + [m] && t.file == s.file && !t.open && t.printSource == s.printSource
  {
  }

  /** Setting the verbosity decides what the screen shows from then on, whether the file is open or not, and leaves the
      file's level alone. */
  lemma VerbosityGovernsScreen(run: seq<Call>, level: nat, later: seq<Call>)
    requires forall k :: 0 <= k < |later| ==> SteadyVerbosity(later[k])
    ensures var s := Exec(INIT, run); var limit := if level <= TRACE then level else TRACE;
            && Exec(VerbositySet(s, level), later).screen
               == s.screen + (if s.verbosity >= DEBUG then [Line(SetMessage("Verbosity", limit), s.printSource)] else [])
                           + Lines(AppendedBy(later), limit, s.printSource)
            && VerbositySet(s, level).loglevel == s.loglevel
  {
    hide Exec, Append, Lines;
    var s := Exec(INIT, run);
    var m := SetMessage("Verbosity", Clamp(level));
    AppendWrites(s, m);
    LinesOne(m, s.verbosity, s.printSource);
    SteadyRunShows(VerbositySet(s, level), later);
  }

  /** With an open file, switching the source positions on or off decides about the lines that follow, until the next
      fatal message or switch. */
  lemma SourceGovernsLines(run: seq<Call>, v: bool, later: seq<Call>)
    requires Exec(INIT, run).open && forall k :: 0 <= k < |later| ==> SteadyLevel(later[k])
    ensures var s := Exec(INIT, run);
            Exec(SourceSet(s, v), later).file
            == s.file + (if s.loglevel >= DEBUG then [Line(SourceMessage(v), s.printSource)] else [])
                      + Lines(AppendedBy(later), s.loglevel, v)
  {
    hide Exec, Append, Lines, Messages;
    NothingIsLost(run);
    var s := Exec(INIT, run);
    AppendWrites(s, SourceMessage(v));
    LinesOne(SourceMessage(v), s.loglevel, s.printSource);
    SteadyRunWrites(SourceSet(s, v), later);
  }

  // ---------------------------------------------------------------- what the console keeps

  /** A fatal message raises both levels to debug and turns the source positions on before it is written itself, and no
      other message changes them. */
  lemma FatalRaises(s: State, m: Message)
    ensures var t := Step(s, Appends(m));
            && (if m.level == 0 then t.loglevel == t.verbosity == 5 && t.printSource
                else (t.loglevel, t.verbosity, t.printSource) == (s.loglevel, s.verbosity, s.printSource))
            && (m.level == 0 ==> t.screen == s.screen + [Line(m, true)])
            && (m.level == 0 && s.open && s.buffer == [] ==> t.file == s.file + [Line(m, true)])
  {
    hide Flush, Written, Exams;
    var raised := s.(printSource := true, loglevel := DEBUG, verbosity := DEBUG);
    FlushLevels(raised.(screen := s.screen + [Line(m, true)], buffer := s.buffer + [m],
                        all := if s.console then s.all + [m] else s.all, appended := s.appended + [m]), m);
    FlushLevels(s.(screen := if Passes(m.level, s.verbosity) then s.screen + [Line(m, s.printSource)] else s.screen,
                   buffer := s.buffer + [m], all := if s.console then s.all + [m] else s.all,
                   appended := s.appended + [m]), m);
  }

  lemma FlushLevels(s: State, m: Message)
    ensures var t := Flush(s);
            && (t.loglevel, t.verbosity, t.printSource) == (s.loglevel, s.verbosity, s.printSource)
            && t.screen == s.screen && t.appended == s.appended
            && (s.open && s.buffer == [m] && Passes(m.level, s.loglevel) ==>
                  t.file == s.file + [Line(m, s.printSource)])
  {
    if s.buffer == [m] { WrittenOne(Exams(s.buffer, s.loglevel, s.printSource)); }
  }

  /** Every change of a setting is announced first, as a debug message that names the value that is stored. */
  lemma Announced(s: State, level: nat, v: bool)
    ensures var digit := ('0' as int + if level < 6 then level else 6) as char;
            && Step(s, SetsLoglevel(level)).appended == s.appended + [Message(5, "Loglevel set to " + [digit])]
            && Step(s, SetsVerbosity(level)).appended == s.appended + [Message(5, "Verbosity set to " + [digit])]
    ensures Step(s, SetsSource(true)).appended
            == s.appended + [Message(5, "Source code location printouts were enabled")]
    ensures Step(s, SetsSource(false)).appended
            == s.appended + [Message(5, "Source code location printouts were disabled")]
  {
    hide Flush;
    assert DIGITS == ['0', '1', '2', '3', '4', '5', '6'];
    AppendAppends(s, SetMessage("Loglevel", Clamp(level)));
    AppendAppends(s, SetMessage("Verbosity", Clamp(level)));
    AppendAppends(s, SourceMessage(true));
    AppendAppends(s, SourceMessage(false));
    assert "Loglevel" + " set to " == "Loglevel set to " && "Verbosity" + " set to " == "Verbosity set to ";
    var were := "Source code location printouts were ";
    assert were + "enabled" == "Source code location printouts were enabled";
    assert were + "disabled" == "Source code location printouts were disabled";
  }

  lemma AppendAppends(s: State, m: Message)
    ensures Append(s, m).appended == s.appended + [m]
  {
  }

  lemma AppendKept(s: State, m: Message)
    ensures Append(s, m).all == (if s.console then s.all + [m] else s.all) && Append(s, m).console == s.console
  {
  }

  lemma KeptByCall(s: State, a: Call)
    requires a.Configures? ==> a.c.console.None?
    ensures Step(s, a).all == s.all + (if s.console then MessagesOf(a) else []) && Step(s, a).console == s.console
  {
    hide Append, Flush;
    assert s.all + [] == s.all;
    match a
    case Appends(m) => AppendKept(s, m);
    case SetsLoglevel(level) => AppendKept(s, SetMessage("Loglevel", Clamp(level)));
    case SetsVerbosity(level) => AppendKept(s, SetMessage("Verbosity", Clamp(level)));
    case SetsSource(v) => AppendKept(s, SourceMessage(v));
    case Configures(c) => FlushFile(Opened(s, c));
    case Flushes => FlushFile(s);
  }

  /** The console keeps exactly the messages appended while it is enabled, whatever their level. */
  lemma {:induction false} ConsoleKeeps(s: State, run: seq<Call>)
    requires forall k :: 0 <= k < |run| && run[k].Configures? ==> run[k].c.console.None?
    ensures Exec(s, run).all == s.all + if s.console then AppendedBy(run) else []
    decreases |run|
  {
    hide Step, MessagesOf;
    if run == [] {
      assert s.all + [] == s.all;
    } else {
      KeptByCall(s, run[0]);
      ConsoleKeeps(Step(s, run[0]), run[1..]);
      assert s.all + MessagesOf(run[0]) + AppendedBy(run[1..]) == s.all + (MessagesOf(run[0]) + AppendedBy(run[1..]));
    }
  }

  /** Only a configuration that says so enables or disables it, and that changes nothing kept so far. */
  lemma ConsoleConfigured(s: State, c: Config)
    ensures Configured(s, c).console == (if c.console.Some? then c.console.value else s.console)
    ensures Configured(s, c).all == s.all
  {
    hide Flush;
    FlushFile(Opened(s, c));
  }
}
