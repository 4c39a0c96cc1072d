/** Packets on the wire: any number of client threads that send under one mutex, and the server listener that puts
    the packets together again from reads of any size. */
module Framing {
  import opened Bytes
  import opened Description
  import opened Controller
  import opened Sequences

  const REQUEST_UPDATE_LEDS := 1050
  const REQUEST_UPDATE_ZONE_LEDS := 1051
  const REQUEST_UPDATE_SINGLE_LED := 1052
  const REQUEST_UPDATE_MODE := 1101
  const REQUEST_SAVE_MODE := 1102
  const REQUEST_PLUGIN := 201

  /** "ORGB" */
  const MAGIC: seq<Byte> := [0x4F, 0x52, 0x47, 0x42]

  datatype Packet = Packet(devIdx: U32, id: U32, data: seq<Byte>)

  function Header(p: Packet): (h: seq<Byte>)
    ensures |h| == 16
  {
    MAGIC + (PutU32(p.devIdx) + (PutU32(p.id) + PutU32(|p.data| % 0x1_0000_0000)))
  }

  function EncPacket(p: Packet): seq<Byte> { Header(p) + p.data }

  function PacketEnc(): Packet -> seq<Byte> { (p: Packet) => EncPacket(p) }

  function EncPackets(ps: seq<Packet>): seq<Byte> { EncList(PacketEnc(), ps) }

  // ---------------------------------------------------------------- senders

  /** A sending thread: outside the critical section, or inside it before the header, between header and data, or
      with everything sent. */
  datatype Sender = Idle | Locked(p: Packet) | HeaderSent(p: Packet) | AllSent(p: Packet)

  /** `sent` lists the packets in the order in which their senders took the mutex. */
  datatype Net = Net(senders: seq<Sender>, stream: seq<Byte>, sent: seq<Packet>)

  datatype Action = Lock(i: nat, p: Packet) | SendHeader(i: nat) | SendData(i: nat) | Unlock(i: nat)

  predicate MutexFree(s: Net) { forall j :: 0 <= j < |s.senders| ==> s.senders[j].Idle? }

  /** One atomic step of one thread; a step that is not enabled changes nothing. */
  function Step(s: Net, a: Action): Net {
    if a.i >= |s.senders| then s else
    match (a, s.senders[a.i])
    case (Lock(i, p), Idle) =>
      if MutexFree(s) && |p.data| < 0x1_0000_0000
      then s.(senders := s.senders[i := Locked(p)], sent := s.sent + [p]) else s
    case (SendHeader(i), Locked(p)) =>
      s.(senders := s.senders[i := if p.data == [] then AllSent(p) else HeaderSent(p)], stream := s.stream + Header(p))
    case (SendData(i), HeaderSent(p)) =>
      s.(senders := s.senders[i := AllSent(p)], stream := s.stream + p.data)
    case (Unlock(i), AllSent(p)) =>
      s.(senders := s.senders[i := Idle])
    case _ => s
  }

  function Exec(s: Net, run: seq<Action>): Net {
    if run == [] then s else Step(Exec(s, run[..|run| - 1]), run[|run| - 1])
  }

  function Start(n: nat): Net { Net(seq(n, _ => Idle), [], []) }

  /** Bytes of its packet that a sender has put on the wire. */
  function Written(t: Sender): seq<Byte> {
    match t
    case Idle => []
    case Locked(_) => []
    case HeaderSent(p) => Header(p)
    case AllSent(p) => EncPacket(p)
  }

  ghost predicate OnlyActive(s: Net, i: nat) {
    i < |s.senders| && !s.senders[i].Idle? && forall j :: 0 <= j < |s.senders| && j != i ==> s.senders[j].Idle?
  }

  /** Whole packets, then what the one active sender has written of the last packet. */
  ghost predicate Framed(s: Net) {
    && (forall p :: p in s.sent ==> |p.data| < 0x1_0000_0000)
    && if MutexFree(s) then s.stream == EncPackets(s.sent)
       else s.sent != [] && exists i: nat :: OnlyActive(s, i) && s.senders[i].p == s.sent[|s.sent| - 1]
                                        && s.stream == EncPackets(s.sent[..|s.sent| - 1]) + Written(s.senders[i])
  }

  lemma StepKeepsFramed(s: Net, a: Action)
    requires Framed(s)
    ensures Framed(Step(s, a))
  {
    hide Header, EncPackets;
    var t := Step(s, a);
    if t != s {
      match a
      case Lock(i, p) =>
        assert OnlyActive(t, i);
        assert t.sent[..|t.sent| - 1] == s.sent;
      case SendHeader(i) =>
        assert OnlyActive(s, i) && OnlyActive(t, i);
        assert Header(s.senders[i].p) + [] == Header(s.senders[i].p);
      case SendData(i) =>
        assert OnlyActive(s, i) && OnlyActive(t, i);
        assert EncPackets(s.sent[..|s.sent| - 1]) + Header(s.senders[i].p) + s.senders[i].p.data
            == EncPackets(s.sent[..|s.sent| - 1]) + EncPacket(s.senders[i].p);
      case Unlock(i) =>
        assert OnlyActive(s, i);
        EncPacketsLast(s.sent);
    }
  }

  lemma EncPacketsLast(ps: seq<Packet>)
    requires ps != []
    ensures EncPackets(ps) == EncPackets(ps[..|ps| - 1]) + EncPacket(ps[|ps| - 1])
  {
  }

  lemma {:induction false} ExecKeepsFramed(n: nat, run: seq<Action>)
    ensures Framed(Exec(Start(n), run))
  {
    if run == [] {
      assert MutexFree(Start(n));
    } else {
      ExecKeepsFramed(n, run[..|run| - 1]);
      StepKeepsFramed(Exec(Start(n), run[..|run| - 1]), run[|run| - 1]);
    }
  }

  // ---------------------------------------------------------------- the listener's view of a byte stream

  /** The packets after which the server closes the connection: a colour or mode description whose size field is
      neither zero nor the packet size, or a single-LED packet that is not eight bytes long. */
  predicate Rejected(p: Packet) {
    || (p.id in {REQUEST_UPDATE_LEDS, REQUEST_UPDATE_ZONE_LEDS, REQUEST_UPDATE_MODE} && |p.data| >= 4
        && U32At(p.data, 0) != 0 && U32At(p.data, 0) != |p.data|)
    || (p.id == REQUEST_UPDATE_SINGLE_LED && p.data != [] && |p.data| != 8)
  }

  /** The size checks read four bytes of data, and plugin packets are taken to have them: with fewer the code reads past
      what it received. */
  predicate Short(p: Packet) {
    || (p.id in {REQUEST_UPDATE_LEDS, REQUEST_UPDATE_ZONE_LEDS, REQUEST_UPDATE_MODE, REQUEST_SAVE_MODE}
        && 0 < |p.data| < 4)
    || (p.id == REQUEST_PLUGIN && |p.data| < 4)
  }

  /** Nothing is dispatched after such a packet: the connection is closed, or the code has no defined result. */
  predicate Stops(p: Packet) { Rejected(p) || Short(p) }

  /** The first whole packet of a stream, whatever its four magic bytes are. */
  function FirstPacket(stream: seq<Byte>): Option<Packet> {
    if |stream| < 16 || |stream| < 16 + U32At(stream, 12) then None
    else Some(Packet(U32At(stream, 4), U32At(stream, 8), stream[16..16 + U32At(stream, 12)]))
  }

  /** The packets handed to the server's dispatch until the stream ends or a packet stops it. */
  function Dispatch(stream: seq<Byte>): seq<Packet> {
    match FirstPacket(stream)
    case None => []
    case Some(p) => [p] + if Stops(p) then [] else Dispatch(stream[16 + |p.data|..])
  }

  /** How many of the first `n` bytes of a stream differ from the magic. */
  function Mismatches(stream: seq<Byte>, n: nat): (r: nat)
    requires n <= 4 && n <= |stream|
    ensures r == 0 <==> stream[..n] == MAGIC[..n]
  {
    if n == 0 then 0 else
      assert stream[..n] == stream[..n - 1] + [stream[n - 1]] && MAGIC[..n] == MAGIC[..n - 1] + [MAGIC[n - 1]];
      Mismatches(stream, n - 1) + if stream[n - 1] != MAGIC[n - 1] then 1 else 0
  }

  /** The bytes of the stream's first magic that the listener gets to see. */
  function Seen(stream: seq<Byte>): nat { if |stream| < 4 then |stream| else 4 }

  /** How many wrong magic bytes the listener logs until the stream ends or a packet stops it. */
  function MagicErrors(stream: seq<Byte>): nat {
    Mismatches(stream, Seen(stream)) +
    match FirstPacket(stream)
    case None => 0
    case Some(p) => if Stops(p) then 0 else MagicErrors(stream[16 + |p.data|..])
  }

  lemma HeaderFields(p: Packet, rest: seq<Byte>)
    requires |p.data| < 0x1_0000_0000
    ensures var s := Header(p) + rest;
            U32At(s, 4) == p.devIdx && U32At(s, 8) == p.id && U32At(s, 12) == |p.data|
  {
    hide Has, PutU32;
    var s := Header(p) + rest;
    assert Has(s, 0, Header(p)) by {
      HasFront(Header(p), rest);
    }
    HasSplit(s, 0, MAGIC, PutU32(p.devIdx) + (PutU32(p.id) + PutU32(|p.data|)));
    HasSplit(s, 4, PutU32(p.devIdx), PutU32(p.id) + PutU32(|p.data|));
    HasSplit(s, 8, PutU32(p.id), PutU32(|p.data|));
    HasU32(s, 4, p.devIdx);
    HasU32(s, 8, p.id);
    HasU32(s, 12, |p.data|);
  }

  lemma FirstOfSent(p: Packet, rest: seq<Byte>)
    requires |p.data| < 0x1_0000_0000
    ensures FirstPacket(EncPacket(p) + rest) == Some(p)
    ensures (EncPacket(p) + rest)[16 + |p.data|..] == rest
  {
    hide Header, U32At;
    var s := EncPacket(p) + rest;
    assert s == Header(p) + (p.data + rest);
    HeaderFields(p, p.data + rest);
    assert s[16..16 + |p.data|] == p.data;
  }

  /** The packets up to the first one that stops the listener, which is the last to be dispatched. */
  function UpToStop(ps: seq<Packet>): seq<Packet> {
    if ps == [] then [] else [ps[0]] + if Stops(ps[0]) then [] else UpToStop(ps[1..])
  }

  /** Everything is dispatched if and only if no packet but the last stops the listener. */
  lemma {:induction false} AllDispatchedIff(ps: seq<Packet>)
    ensures UpToStop(ps) <= ps
    ensures UpToStop(ps) == ps <==> forall k :: 0 <= k < |ps| - 1 ==> !Stops(ps[k])
  {
    hide Stops;
    if ps != [] {
      var rest := ps[1..];
      AllDispatchedIff(rest);
      assert ps == [ps[0]] + rest;
      if Stops(ps[0]) {
        assert UpToStop(ps) == [ps[0]];
      } else {
        assert UpToStop(ps)[1..] == UpToStop(rest);
        assert forall k :: 0 <= k < |rest| - 1 ==> rest[k] == ps[k + 1];
        assert forall k :: 0 < k < |ps| - 1 ==> ps[k] == rest[k - 1];
      }
    }
  }

  /** A stream of whole packets followed by an incomplete one is cut at exactly the packet boundaries, until a packet
      stops the listener. */
  lemma {:induction false} DispatchWhole(ps: seq<Packet>, tail: seq<Byte>)
    requires (forall p :: p in ps ==> |p.data| < 0x1_0000_0000) && FirstPacket(tail).None?
    ensures Dispatch(EncPackets(ps) + tail) == UpToStop(ps)
  {
    hide EncPacket, Stops, FirstPacket;
    if ps == [] {
      assert EncPackets(ps) + tail == tail;
    } else {
      var p, rest := ps[0], ps[1..];
      assert p in ps && forall q :: q in rest ==> q in ps;
      EncListFront(PacketEnc(), ps);
      var stream := EncPackets(ps) + tail;
      assert stream == EncPacket(p) + (EncPackets(rest) + tail);
      FirstOfSent(p, EncPackets(rest) + tail);
      DispatchWhole(rest, tail);
    }
  }

  lemma {:induction false} UnfinishedPacket(p: Packet, written: nat)
    requires |p.data| < 0x1_0000_0000 && written < |EncPacket(p)|
    ensures FirstPacket(EncPacket(p)[..written]).None?
  {
    hide Header, U32At;
    if written >= 16 {
      var s := EncPacket(p)[..written];
      assert s == Header(p) + p.data[..written - 16];
      HeaderFields(p, p.data[..written - 16]);
    }
  }

  /** Some sender has taken the mutex and not sent all of its packet yet. */
  ghost predicate InFlight(s: Net) {
    exists i ::
      0 <= i < |s.senders| && (s.senders[i].Locked? || (s.senders[i].HeaderSent? && s.senders[i].p.data != []))
  }

  /** The packets whose last byte has been sent. */
  ghost function Complete(s: Net): seq<Packet> {
    if InFlight(s) && s.sent != [] then s.sent[..|s.sent| - 1] else s.sent
  }

  /** The bytes sent so far are the complete packets and a part of the next one that is no packet yet. */
  lemma StreamParts(s: Net) returns (tail: seq<Byte>)
    requires Framed(s)
    ensures s.stream == EncPackets(Complete(s)) + tail && FirstPacket(tail).None?
    ensures tail == [] || (|tail| >= 4 && tail[..4] == MAGIC)
    ensures InFlight(s) ==> s.sent != []
  {
    hide Stops, Header, FirstPacket;
    if MutexFree(s) {
      tail := [];
      NoPacket();
      assert EncPackets(s.sent) + [] == EncPackets(s.sent);
    } else {
      var i: nat :| OnlyActive(s, i);
      var p := s.senders[i].p;
      assert p in s.sent;
      tail := Written(s.senders[i]);
      if InFlight(s) {
        assert |tail| < |EncPacket(p)| && tail == EncPacket(p)[..|tail|];
        UnfinishedPacket(p, |tail|);
        HeaderStarts(p);
      } else {
        assert tail == EncPacket(p);
        EncPacketsLast(s.sent);
        tail := [];
        NoPacket();
        assert EncPackets(s.sent) + [] == EncPackets(s.sent);
      }
    }
  }

  lemma HeaderStarts(p: Packet)
    ensures Header(p)[..4] == MAGIC
  {
  }

  lemma NoPacket()
    ensures FirstPacket([]).None?
  {
  }

  /** In every interleaving of the senders, at every moment, the listener's dispatch of the bytes sent so far is the
      list of complete packets in mutex order, up to the first one that stops it. */
  lemma Delivery(n: nat, run: seq<Action>)
    ensures var s := Exec(Start(n), run);
            && Dispatch(s.stream) == UpToStop(Complete(s))
            && (InFlight(s) ==> s.sent != [] && !MutexFree(s))
  {
    hide Stops, Exec, Header, Dispatch, FirstPacket;
    ExecKeepsFramed(n, run);
    var s := Exec(Start(n), run);
    var tail := StreamParts(s);
    assert forall p :: p in Complete(s) ==> p in s.sent;
    DispatchWhole(Complete(s), tail);
  }

  /** Taking the mutex, sending the header and the data if there is any, and giving the mutex back. */
  function Sending(i: nat, p: Packet): seq<Action> {
    [Lock(i, p), SendHeader(i)] + (if p.data == [] then [] else [SendData(i)]) + [Unlock(i)]
  }

  lemma {:induction false} ExecThen(s: Net, a: seq<Action>, b: seq<Action>)
    ensures Exec(s, a + b) == Exec(Exec(s, a), b)
  {
    if b == [] {
      assert a + b == a;
    } else {
      var n := |b| - 1;
      assert (a + b)[..|a + b| - 1] == a + b[..n];
      ExecThen(s, a, b[..n]);
    }
  }

  lemma SendsOne(s: Net, i: nat, p: Packet)
    requires i < |s.senders| && MutexFree(s) && |p.data| < 0x1_0000_0000
    ensures Exec(s, Sending(i, p)) == Net(s.senders, s.stream + EncPacket(p), s.sent + [p])
  {
    hide Header, Exec;
    var locked := s.(senders := s.senders[i := Locked(p)], sent := s.sent + [p]);
    var headed := locked.(senders := s.senders[i := if p.data == [] then AllSent(p) else HeaderSent(p)],
                          stream := s.stream + Header(p));
    var done := headed.(senders := s.senders[i := AllSent(p)], stream := s.stream + EncPacket(p));
    assert s.stream + Header(p) + p.data == s.stream + EncPacket(p);
    assert s.senders[i := AllSent(p)][i := Idle] == s.senders;
    var begun: seq<Action> := [Lock(i, p), SendHeader(i)];
    assert [] + [Lock(i, p)] == [Lock(i, p)] && [Lock(i, p)] + [SendHeader(i)] == begun;
    ThenStep(s, [], Lock(i, p), s, locked);
    ThenStep(s, [Lock(i, p)], SendHeader(i), locked, headed);
    var run := begun + if p.data == [] then [] else [SendData(i)];
    if p.data == [] { assert run == begun; } else { ThenStep(s, begun, SendData(i), headed, done); }
    ThenStep(s, run, Unlock(i), done, Net(s.senders, s.stream + EncPacket(p), s.sent + [p]));
  }

  lemma ThenStep(s: Net, run: seq<Action>, a: Action, t: Net, u: Net)
    requires ((run == [] && t == s) || Exec(s, run) == t) && Step(t, a) == u
    ensures Exec(s, run + [a]) == u
  {
    assert (run + [a])[..|run|] == run;
  }

  /** Every list of packets can be sent, by any of the threads, and arrives whole. */
  lemma {:induction false} AnyListSent(n: nat, ps: seq<Packet>, who: seq<nat>) returns (run: seq<Action>)
    requires |who| == |ps| && (forall k :: 0 <= k < |who| ==> who[k] < n)
    requires forall k :: 0 <= k < |ps| ==> |ps[k].data| < 0x1_0000_0000
    ensures var s := Exec(Start(n), run); s.senders == Start(n).senders && s.sent == ps && s.stream == EncPackets(ps)
  {
    hide Sending, EncPacket;
    run := [];
    if ps != [] {
      var last := |ps| - 1;
      run := AnyListSent(n, ps[..last], who[..last]);
      var s := Exec(Start(n), run);
      SendsOne(s, who[last], ps[last]);
      ExecThen(Start(n), run, Sending(who[last], ps[last]));
      run := run + Sending(who[last], ps[last]);
      assert ps[..last] + [ps[last]] == ps;
    }
  }

  lemma SameFirst(a: seq<Byte>, b: seq<Byte>)
    requires |a| == |b| >= 4 && a[4..] == b[4..]
    ensures FirstPacket(a) == FirstPacket(b)
    ensures FirstPacket(a).Some? ==>
              var n := 16 + |FirstPacket(a).value.data|; n <= |a| && a[n..] == b[n..]
  {
    assert forall k :: 4 <= k < |a| ==> a[k] == a[4..][k - 4] == b[k];
    if |a| >= 16 && |a| >= 16 + U32At(a, 12) {
      var n := 16 + U32At(a, 12);
      assert a[16..n] == b[16..n] && a[n..] == b[n..];
    }
  }

  lemma {:induction false} MismatchesOfFront(a: seq<Byte>, b: seq<Byte>, n: nat)
    requires n <= 4 && n <= |a|
    ensures Mismatches(a + b, n) == Mismatches(a, n)
  {
    if n > 0 { MismatchesOfFront(a, b, n - 1); }
  }

  /** Whole packets followed by nothing, or by something that starts as a packet does. */
  lemma {:induction false} NoErrorsInside(ps: seq<Packet>, tail: seq<Byte>)
    requires (forall p :: p in ps ==> |p.data| < 0x1_0000_0000) && FirstPacket(tail).None?
    requires tail == [] || (|tail| >= 4 && tail[..4] == MAGIC)
    ensures MagicErrors(EncPackets(ps) + tail) == 0
  {
    hide Header, Stops, FirstPacket, Mismatches;
    if ps == [] {
      assert EncPackets(ps) + tail == tail && tail[..0] == [];
      assert MAGIC[..4] == MAGIC;
    } else {
      var p, rest := ps[0], ps[1..];
      assert p in ps && forall q :: q in rest ==> q in ps;
      EncListFront(PacketEnc(), ps);
      var stream := EncPackets(ps) + tail;
      assert stream == EncPacket(p) + (EncPackets(rest) + tail);
      FirstOfSent(p, EncPackets(rest) + tail);
      StartsWithMagic(p, EncPackets(rest) + tail);
      NoErrorsInside(rest, tail);
    }
  }

  lemma StartsWithMagic(p: Packet, rest: seq<Byte>)
    ensures var s := EncPacket(p) + rest; |s| >= 4 && Mismatches(s, 4) == 0 && Seen(s) == 4
  {
    hide Mismatches;
    assert (EncPacket(p) + rest)[..4] == MAGIC[..4];
  }

  /** In every interleaving of the senders no wrong magic is ever logged. */
  lemma NoMagicErrors(n: nat, run: seq<Action>)
    ensures MagicErrors(Exec(Start(n), run).stream) == 0
  {
    hide Stops, Exec, Header, MagicErrors, FirstPacket;
    ExecKeepsFramed(n, run);
    var s := Exec(Start(n), run);
    var tail := StreamParts(s);
    assert forall p :: p in Complete(s) ==> p in s.sent;
    NoErrorsInside(Complete(s), tail);
  }

  /** A wrong magic is noticed and makes no difference: whatever the first four bytes, each wrong one is logged, and the
      same packets are dispatched. */
  lemma MagicHasNoEffect(magic: seq<Byte>, rest: seq<Byte>)
    requires |magic| == 4
    ensures Dispatch(magic + rest) == Dispatch(MAGIC + rest)
    ensures MagicErrors(magic + rest) == MagicErrors(MAGIC + rest) + Mismatches(magic, 4)
    ensures Mismatches(magic, 4) == 0 <==> magic == MAGIC
  {
    hide FirstPacket, Stops, Mismatches;
    assert (magic + rest)[4..] == rest == (MAGIC + rest)[4..];
    SameFirst(magic + rest, MAGIC + rest);
    MismatchesOfFront(magic, rest, 4);
    MismatchesOfFront(MAGIC, rest, 4);
    assert magic[..4] == magic && MAGIC[..4] == MAGIC;
  }

  /** What the client sends from its own descriptions stops nothing: their size field is their length, and a single-LED
      description has the one length that is accepted. */
  lemma ClientDescriptionsAccepted(dev: U32, d: Device, z: nat, led: nat, k: nat, v: nat)
    requires SliceValid(d, z) && z < 0x8000_0000
    requires k < |d.modes| && k < 0x8000_0000 && ModeFits(d.modes[k])
    ensures !Stops(Packet(dev, REQUEST_UPDATE_LEDS, ColorDescription(d.colors)))
    ensures !Stops(Packet(dev, REQUEST_UPDATE_ZONE_LEDS, ZoneColorDescription(d, z)))
    ensures led < |d.colors| && led < 0x8000_0000 ==>
              !Stops(Packet(dev, REQUEST_UPDATE_SINGLE_LED, SingleLedDescription(d, led)))
    ensures !Stops(Packet(dev, REQUEST_UPDATE_MODE, ModeDescription(d, k, v)))
  {
    hide EncMode, EncWords, PutU32, U32At, EncColors, PutU16;
    ColorDescriptionLength(d.colors);
    LeadingSize(6 + 4 * Count(d.colors), EncColors(d.colors));
    var n := d.zones[z].ledsCount % 0x1_0000;
    LeadingSize(10 + 4 * n, PutU32(z) + (PutU16(n) + EncWords(Slice(d, z)[..n])));
    ModeLength(v, d.modes[k]);
    LeadingSize(8 + |EncMode(v, d.modes[k])|, PutU32(k) + EncMode(v, d.modes[k]));
  }

  /** The size check itself: a description of colours or of a mode may go without a size, or has to give its own. */
  lemma SizeCheckIff(dev: U32, id: U32, size: U32, body: seq<Byte>)
    requires id in {1050, 1051, 1101}
    ensures var p := Packet(dev, id, PutU32(size) + body);
            Stops(p) <==> size != 0 && size != 4 + |body|
  {
    hide U32At, PutU32;
    LeadingSize(size, body);
  }

  /** A single-LED packet has eight bytes or none. No other packet has its size checked, and only a plugin packet or a
      mode to be saved of less than four bytes is a read past the data. */
  lemma OtherSizesIff(p: Packet)
    requires p.id !in {1050, 1051, 1101}
    ensures Rejected(p) <==> p.id == 1052 && p.data != [] && |p.data| != 8
    ensures Short(p) <==> |p.data| < 4 && (p.id == 201 || (p.id == 1102 && p.data != []))
  {
  }

  /** What a header looks like: "ORGB", device, packet id and size, the lowest byte first. */
  lemma HeaderBytes(p: Packet)
    requires |p.data| < 0x100 && p.devIdx == 2 && p.id == 1050
    ensures Header(p) == [0x4F, 0x52, 0x47, 0x42, 2, 0, 0, 0, 0x1A, 4, 0, 0, |p.data|, 0, 0, 0]
  {
  }

  /** The size check does not look at the colour count. A colour packet that is dispatched is applied without leaving it
      if and only if the count is too large for the controller, and ignored, or the packet holds as many colours. */
  lemma AcceptedColorsIff(p: Packet, colors: seq<U32>)
    requires p.id == REQUEST_UPDATE_LEDS && !Stops(p) && |p.data| >= 6
    ensures ApplyColors(colors, p.data).Some? <==>
            U16At(p.data, 4) > |colors| || 6 + 4 * U16At(p.data, 4) <= |p.data|
  {
    hide U32At, U16At;
  }

  /** An accepted packet that announces one colour and holds none. */
  lemma AcceptedWithoutColor(dev: U32)
    ensures var p := Packet(dev, REQUEST_UPDATE_LEDS, PutU32(6) + PutU16(1));
            !Stops(p) && |p.data| == 6 && ApplyColors([0], p.data).None?
  {
    var data := PutU32(6) + PutU16(1);
    LeadingSize(6, PutU16(1));
    assert U16At(data, 4) == 1;
  }

  lemma LeadingSize(size: U32, body: seq<Byte>)
    ensures U32At(PutU32(size) + body, 0) == size
  {
    HasFront(PutU32(size), body);
    HasU32(PutU32(size) + body, 0, size);
  }

  // ---------------------------------------------------------------- the listener thread

  /** The receiving end of a connection: `pending` is everything that will still arrive. */
  class Socket {
    var pending: seq<Byte>

    /** recv: any non-empty piece of at most `len` bytes, or nothing once the stream has ended. */
    method Recv(len: nat) returns (chunk: seq<Byte>)
      requires len > 0
      modifies this
      ensures chunk + pending == old(pending) && |chunk| <= len
      ensures chunk == [] <==> old(pending) == []
    {
      if pending == [] {
        return [];
      }
      var n: nat :| 1 <= n <= len && n <= |pending|;
      chunk, pending := pending[..n], pending[n..];
    }
  }

  /** The do-while loops of the listener: read until `len` bytes are there; fails when the stream ends first. */
  method ReadFully(sock: Socket, len: nat) returns (data: seq<Byte>, ok: bool)
    modifies sock
    ensures ok <==> len <= |old(sock.pending)|
    ensures ok ==> data == old(sock.pending[..len]) && sock.pending == old(sock.pending[len..])
  {
    data := [];
    ghost var was := sock.pending;
    while |data| < len
      invariant |data| <= len && data + sock.pending == was
      decreases len - |data|
    {
      var chunk := sock.Recv(len - |data|);
      if chunk == [] {
        assert data == was;
        return data, false;
      }
      data := data + chunk;
    }
    assert was[..len] == data && was[len..] == sock.pending;
    ok := true;
  }

  /** One round of ListenThreadFunction: the magic byte by byte, the rest of the header, the data. A byte that differs
      from the magic is logged, and the `continue` after it only goes on to the next of the four bytes. */
  method ReadPacket(sock: Socket) returns (r: Option<Packet>, errors: nat)
    modifies sock
    ensures r == FirstPacket(old(sock.pending))
    ensures r.Some? ==> sock.pending == old(sock.pending)[16 + |r.value.data|..]
    ensures errors == Mismatches(old(sock.pending), Seen(old(sock.pending)))
  {
    ghost var stream := sock.pending;
    errors := 0;
    for i := 0 to 4
      invariant i <= |stream| && sock.pending == stream[i..]
      invariant errors == Mismatches(stream, i)
    {
      var c := sock.Recv(1);
      if c == [] {
        return None, errors;
      }
      assert stream[i..][1..] == stream[i + 1..];
      if c[0] != MAGIC[i] {
        errors := errors + 1;
        continue;
      }
    }
    var head, gotHead := ReadFully(sock, 12);
    if !gotHead { return None, errors; }
    assert sock.pending == stream[4..][12..] == stream[16..];
    HeadAgrees(stream, head);
    hide U32At;
    var size := U32At(head, 8);
    var data := [];
    if size > 0 {
      var gotData;
      data, gotData := ReadFully(sock, size);
      if !gotData { return None, errors; }
    }
    PacketIs(stream, size, data);
    r := Some(Packet(U32At(head, 0), U32At(head, 4), data));
  }

  /** A header and as much data as it announces are a packet. */
  lemma PacketIs(stream: seq<Byte>, size: nat, data: seq<Byte>)
    requires |stream| >= 16 && U32At(stream, 12) == size
    requires if size == 0 then data == [] else size <= |stream[16..]| && data == stream[16..][..size]
    ensures FirstPacket(stream) == Some(Packet(U32At(stream, 4), U32At(stream, 8), data))
    ensures stream[16..][size..] == stream[16 + size..]
  {
    hide U32At;
    assert stream[16..][..size] == stream[16..16 + size];
  }

  class ServerListener {
    var dispatched: seq<Packet>
    var magicErrors: nat

    /** ListenThreadFunction: dispatches until the stream ends or a packet is rejected. Not `inside` where the size
        check of the last packet would read past its data; the model stops there. */
    method Listen(sock: Socket) returns (inside: bool)
      modifies this, sock
      ensures dispatched == old(dispatched) + Dispatch(old(sock.pending))
      ensures magicErrors == old(magicErrors) + MagicErrors(old(sock.pending))
      ensures inside <==> var ps := Dispatch(old(sock.pending)); forall k :: 0 <= k < |ps| ==> !Short(ps[k])
    {
      hide Stops, Short, FirstPacket, Mismatches, Dispatch, MagicErrors, Seen;
      ghost var before, ps, done := dispatched, Dispatch(sock.pending), [];
      ghost var errorsInAll := magicErrors + MagicErrors(sock.pending);
      assert [] + ps == ps && before + [] == before;
      while true
        invariant dispatched == before + done && ps == done + Dispatch(sock.pending)
        invariant errorsInAll == magicErrors + MagicErrors(sock.pending)
        invariant forall k :: 0 <= k < |done| ==> !Short(done[k])
        decreases |sock.pending|
      {
        ghost var stream := sock.pending;
        ShorterRest(stream);
        DispatchStep(stream);
        var r, errors := ReadPacket(sock);
        magicErrors := magicErrors + errors;
        if r.None? {
          assert done + [] == done;
          return true;
        }
        var p := r.value;
        dispatched := dispatched + [p];
        ghost var rest := if Stops(p) then [] else Dispatch(sock.pending);
        Assoc(done, [p], rest);
        Assoc(before, done, [p]);
        done := done + [p];
        if Stops(p) {
          assert ps == done && ps[|done| - 1] == p;
          return !Short(p);
        }
        NotShort(p);
      }
    }
  }

  lemma DispatchStep(stream: seq<Byte>)
    ensures match FirstPacket(stream)
            case None => Dispatch(stream) == [] && MagicErrors(stream) == Mismatches(stream, Seen(stream))
            case Some(p) =>
              var rest := stream[16 + |p.data|..];
              && Dispatch(stream) == [p] + (if Stops(p) then [] else Dispatch(rest))
              && MagicErrors(stream) == Mismatches(stream, Seen(stream)) + (if Stops(p) then 0 else MagicErrors(rest))
  {
    hide Stops, Mismatches, Seen;
  }

  lemma NotShort(p: Packet)
    requires !Stops(p)
    ensures !Short(p)
  {
  }

  lemma ShorterRest(stream: seq<Byte>)
    ensures FirstPacket(stream).Some? ==> 16 + |FirstPacket(stream).value.data| <= |stream|
  {
  }

  lemma HeadAgrees(stream: seq<Byte>, head: seq<Byte>)
    requires |stream| >= 16 && head == stream[4..][..12]
    ensures U32At(head, 0) == U32At(stream, 4) && U32At(head, 4) == U32At(stream, 8)
    ensures U32At(head, 8) == U32At(stream, 12)
  {
    assert forall k :: 0 <= k < 12 ==> head[k] == stream[4 + k];
  }
}
