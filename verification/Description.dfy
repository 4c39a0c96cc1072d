/** The device description of RGBController.cpp: its data model, its layout for each protocol
    version, what a reader recovers from it, and the proof that writing then reading loses
    exactly the fields the version does not carry. */
module Description {
  import opened Bytes

  // ---------------------------------------------------------------- data model

  datatype Mode = Mode(
    name: seq<Byte>, value: I32, flags: U32,
    speedMin: U32, speedMax: U32, brightnessMin: U32, brightnessMax: U32, colorsMin: U32, colorsMax: U32,
    speed: U32, brightness: U32, direction: U32, colorMode: U32, colors: seq<U32>)

  datatype Led = Led(name: seq<Byte>, value: U32)

  datatype Matrix = Matrix(height: U32, width: U32, cells: seq<U32>)

  datatype Segment = Segment(name: seq<Byte>, kind: I32, startIdx: U32, ledsCount: U32)

  /** `colors` and `leds` are the zone's pointers into the controller's own buffers: an offset, or
      None for NULL. */
  datatype Zone = Zone(
    name: seq<Byte>, kind: I32, ledsMin: U32, ledsMax: U32, ledsCount: U32,
    matrix: Option<Matrix>, segments: seq<Segment>,
    startIdx: U32, colors: Option<nat>, leds: Option<nat>)

  datatype Device = Device(
    kind: I32, name: seq<Byte>, vendor: seq<Byte>, description: seq<Byte>, version: seq<Byte>,
    serial: seq<Byte>, location: seq<Byte>,
    modes: seq<Mode>, activeMode: I32, zones: seq<Zone>, leds: seq<Led>, colors: seq<U32>)

  /** Number of cells of a matrix: a product of two `unsigned int`. */
  function Cells(m: Matrix): U32 {
    var h: int, w: int := m.height, m.width;
    h * w % 0x1_0000_0000
  }

  // ---------------------------------------------------------------- layout

  function Count<T>(xs: seq<T>): U16 { |xs| % 0x1_0000 }

  function EncColors(colors: seq<U32>): seq<Byte> {
    PutU16(Count(colors)) + EncWords(colors[..Count(colors)])
  }

  function ModeWords(v: nat, m: Mode): (ws: seq<U32>)
    ensures |ws| == if v >= 3 then 12 else 9
  {
    [Unsigned(m.value), m.flags, m.speedMin, m.speedMax]
    + (if v >= 3 then [m.brightnessMin, m.brightnessMax] else [])
    + [m.colorsMin, m.colorsMax, m.speed]
    + (if v >= 3 then [m.brightness] else [])
    + [m.direction, m.colorMode]
  }

  function EncMode(v: nat, m: Mode): seq<Byte> {
    EncStr(m.name) + EncWords(ModeWords(v, m)) + EncColors(m.colors)
  }

  function EncLed(l: Led): seq<Byte> { EncStr(l.name) + PutU32(l.value) }

  function SegmentWords(s: Segment): seq<U32> { [Unsigned(s.kind), s.startIdx, s.ledsCount] }

  function EncSegment(s: Segment): seq<Byte> { EncStr(s.name) + EncWords(SegmentWords(s)) }

  function MatrixLen(m: Option<Matrix>): U16 {
    if m.None? then 0 else (8 + 4 * Cells(m.value)) % 0x1_0000
  }

  function MatrixWords(m: Option<Matrix>): seq<U32> {
    if m.None? then [] else [m.value.height, m.value.width] + m.value.cells
  }

  function EncMatrix(m: Option<Matrix>): seq<Byte> {
    PutU16(MatrixLen(m)) + EncWords(MatrixWords(m))
  }

  function ZoneWords(z: Zone): seq<U32> { [Unsigned(z.kind), z.ledsMin, z.ledsMax, z.ledsCount] }

  function EncSegments(v: nat, segments: seq<Segment>): seq<Byte> {
    if v >= 4 then PutU16(Count(segments)) + EncList(SegmentEnc(), segments[..Count(segments)]) else []
  }

  function EncZone(v: nat, z: Zone): seq<Byte> {
    EncStr(z.name) + EncWords(ZoneWords(z)) + EncMatrix(z.matrix) + EncSegments(v, z.segments)
  }

  function SegmentEnc(): Segment -> seq<Byte> { (s: Segment) => EncSegment(s) }
  function ModeEnc(v: nat): Mode -> seq<Byte> { (m: Mode) => EncMode(v, m) }
  function ZoneEnc(v: nat): Zone -> seq<Byte> { (z: Zone) => EncZone(v, z) }
  function LedEnc(): Led -> seq<Byte> { (l: Led) => EncLed(l) }

  function EncStrings(v: nat, d: Device): seq<Byte> {
    EncStr(d.name) + VendorBytes(v, d)
    + EncStr(d.description) + EncStr(d.version) + EncStr(d.serial) + EncStr(d.location)
  }

  function EncModes(v: nat, d: Device): seq<Byte> {
    PutU16(Count(d.modes)) + PutU32(Unsigned(d.activeMode)) + EncList(ModeEnc(v), d.modes[..Count(d.modes)])
  }

  function EncZones(v: nat, d: Device): seq<Byte> {
    PutU16(Count(d.zones)) + EncList(ZoneEnc(v), d.zones[..Count(d.zones)])
  }

  function EncLeds(d: Device): seq<Byte> {
    PutU16(Count(d.leds)) + EncList(LedEnc(), d.leds[..Count(d.leds)])
  }

  /** Everything after the leading size field. */
  function EncBody(v: nat, d: Device): seq<Byte> {
    PutU32(Unsigned(d.kind)) + EncStrings(v, d) + EncModes(v, d) + EncZones(v, d) + EncLeds(d) + EncColors(d.colors)
  }

  function EncDevice(v: nat, d: Device): (s: seq<Byte>)
    ensures |s| == 4 + |EncBody(v, d)|
  {
    PutU32((4 + |EncBody(v, d)|) % 0x1_0000_0000) + EncBody(v, d)
  }

  // ---------------------------------------------------------------- 16-bit limits

  predicate ListFits<T>(xs: seq<T>) { |xs| < 0x1_0000 }

  predicate ModeFits(m: Mode) { StrFits(m.name) && ListFits(m.colors) }

  predicate MatrixFits(m: Matrix) { |m.cells| == Cells(m) && 8 + 4 * Cells(m) < 0x1_0000 }

  predicate NamesFit(segments: seq<Segment>) {
    forall i :: 0 <= i < |segments| ==> StrFits(segments[i].name)
  }

  predicate ZoneFits(v: nat, z: Zone) {
    && StrFits(z.name)
    && (z.matrix.Some? ==> MatrixFits(z.matrix.value))
    && (v >= 4 ==> ListFits(z.segments) && NamesFit(z.segments))
  }

  /** The limits the 16-bit length and count fields set, and the 32-bit limit of the size field. */
  predicate Fits(v: nat, d: Device) {
    && StrFits(d.name) && (v >= 1 ==> StrFits(d.vendor)) && StrFits(d.description) && StrFits(d.version)
    && StrFits(d.serial) && StrFits(d.location)
    && ListFits(d.modes) && (forall i :: 0 <= i < |d.modes| ==> ModeFits(d.modes[i]))
    && ListFits(d.zones) && (forall i :: 0 <= i < |d.zones| ==> ZoneFits(v, d.zones[i]))
    && ListFits(d.leds) && (forall i :: 0 <= i < |d.leds| ==> StrFits(d.leds[i].name))
    && ListFits(d.colors)
    && 4 + |EncBody(v, d)| < 0x1_0000_0000
  }

  // ---------------------------------------------------------------- reading

  /** Every reader takes the buffer and `data_ptr` and returns the value and the new `data_ptr`; None
      where the C++ reader would leave the buffer. */
  function DecU16(buf: seq<Byte>, at: nat): Option<(U16, nat)> {
    if at + 2 > |buf| then None else Some((U16At(buf, at), at + 2))
  }

  function DecU32(buf: seq<Byte>, at: nat): Option<(U32, nat)> {
    if at + 4 > |buf| then None else Some((U32At(buf, at), at + 4))
  }

  function DecColors(buf: seq<Byte>, at: nat): Option<(seq<U32>, nat)> {
    var (n, p) :- DecU16(buf, at);
    DecWords(buf, p, n)
  }

  function ModeFrom(v: nat, name: seq<Byte>, w: seq<U32>, colors: seq<U32>): Mode
    requires |w| == if v >= 3 then 12 else 9
  {
    if v >= 3
    then Mode(name, Signed(w[0]), w[1], w[2], w[3], w[4], w[5], w[6], w[7], w[8], w[9], w[10], w[11], colors)
    else Mode(name, Signed(w[0]), w[1], w[2], w[3], 0, 0, w[4], w[5], w[6], 0, w[7], w[8], colors)
  }

  function DecMode(v: nat, buf: seq<Byte>, at: nat): Option<(Mode, nat)> {
    var (name, p) :- DecStr(buf, at);
    var (w, q) :- DecWords(buf, p, if v >= 3 then 12 else 9);
    var (colors, r) :- DecColors(buf, q);
    Some((ModeFrom(v, name, w, colors), r))
  }

  function DecLed(buf: seq<Byte>, at: nat): Option<(Led, nat)> {
    var (name, p) :- DecStr(buf, at);
    var (value, q) :- DecU32(buf, p);
    Some((Led(name, value), q))
  }

  function DecSegment(buf: seq<Byte>, at: nat): Option<(Segment, nat)> {
    var (name, p) :- DecStr(buf, at);
    var (w, q) :- DecWords(buf, p, 3);
    Some((Segment(name, Signed(w[0]), w[1], w[2]), q))
  }

  /** The matrix length only says whether a matrix follows; its extent comes from height and width. */
  function DecMatrix(buf: seq<Byte>, at: nat): Option<(Option<Matrix>, nat)> {
    var (len, p) :- DecU16(buf, at);
    if len == 0 then Some((None, p)) else
      var (dim, q) :- DecWords(buf, p, 2);
      var (cells, r) :- DecWords(buf, q, Cells(Matrix(dim[0], dim[1], [])));
      Some((Some(Matrix(dim[0], dim[1], cells)), r))
  }

  function SegmentDec(): (seq<Byte>, nat) -> Option<(Segment, nat)> { (b, p) => DecSegment(b, p) }
  function ModeDec(v: nat): (seq<Byte>, nat) -> Option<(Mode, nat)> { (b, p) => DecMode(v, b, p) }
  function ZoneDec(v: nat): (seq<Byte>, nat) -> Option<(Zone, nat)> { (b, p) => DecZone(v, b, p) }
  function LedDec(): (seq<Byte>, nat) -> Option<(Led, nat)> { (b, p) => DecLed(b, p) }

  function DecSegments(v: nat, buf: seq<Byte>, at: nat): Option<(seq<Segment>, nat)> {
    if v < 4 then Some(([], at)) else
      var (n, p) :- DecU16(buf, at);
      DecList(SegmentDec(), buf, p, n)
  }

  function ZoneFrom(name: seq<Byte>, w: seq<U32>, matrix: Option<Matrix>, segments: seq<Segment>): Zone
    requires |w| == 4
  {
    Zone(name, Signed(w[0]), w[1], w[2], w[3], matrix, segments, 0, None, None)
  }

  function DecZone(v: nat, buf: seq<Byte>, at: nat): Option<(Zone, nat)> {
    var (name, p) :- DecStr(buf, at);
    var (w, q) :- DecWords(buf, p, 4);
    var (matrix, r) :- DecMatrix(buf, q);
    var (segments, s) :- DecSegments(v, buf, r);
    Some((ZoneFrom(name, w, matrix, segments), s))
  }

  datatype Strings = Strings(name: seq<Byte>, vendor: seq<Byte>, description: seq<Byte>, version: seq<Byte>,
                             serial: seq<Byte>, location: seq<Byte>)

  function DecStrings(v: nat, buf: seq<Byte>, at: nat): Option<(Strings, nat)> {
    var (name, p) :- DecStr(buf, at);
    var (vendor, q) :- if v >= 1 then DecStr(buf, p) else Some(([], p));
    var (description, r) :- DecStr(buf, q);
    var (version, s) :- DecStr(buf, r);
    var (serial, t) :- DecStr(buf, s);
    var (location, u) :- DecStr(buf, t);
    Some((Strings(name, vendor, description, version, serial, location), u))
  }

  function DecModes(v: nat, buf: seq<Byte>, at: nat): Option<((seq<Mode>, I32), nat)> {
    var (n, p) :- DecU16(buf, at);
    var (active, q) :- DecU32(buf, p);
    var (modes, r) :- DecList(ModeDec(v), buf, q, n);
    Some(((modes, Signed(active)), r))
  }

  function DecZones(v: nat, buf: seq<Byte>, at: nat): Option<(seq<Zone>, nat)> {
    var (n, p) :- DecU16(buf, at);
    DecList(ZoneDec(v), buf, p, n)
  }

  function DecLeds(buf: seq<Byte>, at: nat): Option<(seq<Led>, nat)> {
    var (n, p) :- DecU16(buf, at);
    DecList(LedDec(), buf, p, n)
  }

  function DeviceFrom(kind: U32, s: Strings, modes: (seq<Mode>, I32), zones: seq<Zone>, leds: seq<Led>,
                      colors: seq<U32>): Device {
    Device(Signed(kind), s.name, s.vendor, s.description, s.version, s.serial, s.location,
           modes.0, modes.1, zones, leds, colors)
  }

  /** The record before SetupColors; the size field at the start is skipped. */
  function DecRaw(v: nat, buf: seq<Byte>): Option<(Device, nat)> {
    var (kind, p) :- DecU32(buf, 4);
    var (strings, q) :- DecStrings(v, buf, p);
    var (modes, r) :- DecModes(v, buf, q);
    var (zones, s) :- DecZones(v, buf, r);
    var (leds, t) :- DecLeds(buf, s);
    var (colors, u) :- DecColors(buf, t);
    Some((DeviceFrom(kind, strings, modes, zones, leds, colors), u))
  }

  // ---------------------------------------------------------------- SetupColors

  /** LEDs of the first zones together: an `unsigned int` sum. */
  function LedSum(zones: seq<Zone>): nat {
    if zones == [] then 0 else LedSum(zones[..|zones| - 1]) + zones[|zones| - 1].ledsCount
  }

  lemma LedSumStep(zones: seq<Zone>, i: nat)
    requires i < |zones|
    ensures LedSum(zones[..i + 1]) == LedSum(zones[..i]) + zones[i].ledsCount
  {
    assert zones[..i + 1][..i] == zones[..i];
  }

  /** Zones with the same LED counts have the same sums. */
  lemma {:induction false} SameCounts(a: seq<Zone>, b: seq<Zone>, n: nat)
    requires n <= |a| && n <= |b| && forall i :: 0 <= i < n ==> a[i].ledsCount == b[i].ledsCount
    ensures LedSum(a[..n]) == LedSum(b[..n])
  {
    if n > 0 {
      SameCounts(a, b, n - 1);
      LedSumStep(a, n - 1);
      LedSumStep(b, n - 1);
    }
  }

  function LedTotal(zones: seq<Zone>): U32 { LedSum(zones) % 0x1_0000_0000 }

  /** std::vector::resize with zero for new entries. */
  function Resize(colors: seq<U32>, n: nat): (r: seq<U32>)
    ensures |r| == n
    ensures forall i :: 0 <= i < n ==> r[i] == if i < |colors| then colors[i] else 0
  {
    if n <= |colors| then colors[..n] else colors + seq(n - |colors|, _ => 0)
  }

  function SetupZone(z: Zone, start: U32, numColors: nat, numLeds: nat): Zone {
    z.(startIdx := start,
       colors := if numColors > 0 && z.ledsCount > 0 then Some(start) else None,
       leds := if numLeds > 0 && z.ledsCount > 0 then Some(start) else None)
  }

  function SetupZones(zones: seq<Zone>, numColors: nat, numLeds: nat): (r: seq<Zone>)
    ensures |r| == |zones|
  {
    seq(|zones|, i requires 0 <= i < |zones| => SetupZone(zones[i], LedTotal(zones[..i]), numColors, numLeds))
  }

  function Setup(d: Device): Device {
    d.(zones := SetupZones(d.zones, LedTotal(d.zones), |d.leds|), colors := Resize(d.colors, LedTotal(d.zones)))
  }

  function Decode(v: nat, buf: seq<Byte>): Option<(Device, nat)> {
    var (d, p) :- DecRaw(v, buf);
    Some((Setup(d), p))
  }

  // ---------------------------------------------------------------- what a version carries

  function GateMode(v: nat, m: Mode): Mode {
    if v >= 3 then m.(name := CString(m.name))
    else m.(name := CString(m.name), brightnessMin := 0, brightnessMax := 0, brightness := 0)
  }

  function GateSegment(s: Segment): Segment { s.(name := CString(s.name)) }

  function GateZone(v: nat, z: Zone): Zone {
    z.(name := CString(z.name), segments := if v >= 4 then Map(SegmentView(), z.segments) else [],
       startIdx := 0, colors := None, leds := None)
  }

  function GateLed(l: Led): Led { l.(name := CString(l.name)) }

  function SegmentView(): Segment -> Segment { (s: Segment) => GateSegment(s) }
  function ModeView(v: nat): Mode -> Mode { (m: Mode) => GateMode(v, m) }
  function ZoneView(v: nat): Zone -> Zone { (z: Zone) => GateZone(v, z) }
  function LedView(): Led -> Led { (l: Led) => GateLed(l) }

  /** `d` with the fields that version `v` does not carry reset to their defaults, and every string cut
      at its first NUL. */
  function Gate(v: nat, d: Device): Device {
    Device(d.kind, CString(d.name), if v >= 1 then CString(d.vendor) else [], CString(d.description),
           CString(d.version), CString(d.serial), CString(d.location),
           Map(ModeView(v), d.modes), d.activeMode, Map(ZoneView(v), d.zones), Map(LedView(), d.leds), d.colors)
  }

  // ---------------------------------------------------------------- round trip of the parts

  lemma U16RoundTrip(buf: seq<Byte>, at: nat, x: U16)
    requires Has(buf, at, PutU16(x))
    ensures DecU16(buf, at) == Some((x, at + 2))
  {
    HasU16(buf, at, x);
  }

  lemma U32RoundTrip(buf: seq<Byte>, at: nat, x: U32)
    requires Has(buf, at, PutU32(x))
    ensures DecU32(buf, at) == Some((x, at + 4))
  {
    HasU32(buf, at, x);
  }

  lemma ColorsRoundTrip(buf: seq<Byte>, at: nat, colors: seq<U32>)
    requires ListFits(colors) && Has(buf, at, EncColors(colors))
    ensures DecColors(buf, at) == Some((colors, at + |EncColors(colors)|))
  {
    assert colors[..Count(colors)] == colors;
    HasSplit(buf, at, PutU16(Count(colors)), EncWords(colors));
    U16RoundTrip(buf, at, Count(colors));
    WordsRoundTrip(buf, at + 2, colors);
  }

  lemma ModeRoundTrip(v: nat, buf: seq<Byte>, at: nat, m: Mode)
    requires ModeFits(m) && Has(buf, at, EncMode(v, m))
    ensures DecMode(v, buf, at) == Some((GateMode(v, m), at + |EncMode(v, m)|))
  {
    hide Has, EncStr, DecStr, DecWords, DecColors, EncColors;
    var name, words, colors := EncStr(m.name), EncWords(ModeWords(v, m)), EncColors(m.colors);
    HasSplit(buf, at, name + words, colors);
    HasSplit(buf, at, name, words);
    StrRoundTrip(buf, at, m.name);
    WordsRoundTrip(buf, at + |name|, ModeWords(v, m));
    ColorsRoundTrip(buf, at + |name + words|, m.colors);
  }

  lemma LedRoundTrip(buf: seq<Byte>, at: nat, l: Led)
    requires StrFits(l.name) && Has(buf, at, EncLed(l))
    ensures DecLed(buf, at) == Some((GateLed(l), at + |EncLed(l)|))
  {
    HasSplit(buf, at, EncStr(l.name), PutU32(l.value));
    StrRoundTrip(buf, at, l.name);
    U32RoundTrip(buf, at + |EncStr(l.name)|, l.value);
  }

  lemma SegmentRoundTrip(buf: seq<Byte>, at: nat, s: Segment)
    requires StrFits(s.name) && Has(buf, at, EncSegment(s))
    ensures DecSegment(buf, at) == Some((GateSegment(s), at + |EncSegment(s)|))
  {
    HasSplit(buf, at, EncStr(s.name), EncWords(SegmentWords(s)));
    StrRoundTrip(buf, at, s.name);
    WordsRoundTrip(buf, at + |EncStr(s.name)|, SegmentWords(s));
  }

  lemma EncWordsConcat(a: seq<U32>, b: seq<U32>)
    ensures EncWords(a + b) == EncWords(a) + EncWords(b)
  {
    if b == [] {
      assert a + b == a;
    } else {
      var n := |b| - 1;
      assert (a + b)[..|a + b| - 1] == a + b[..n];
      EncWordsConcat(a, b[..n]);
    }
  }

  lemma MatrixRoundTrip(buf: seq<Byte>, at: nat, m: Option<Matrix>)
    requires (m.Some? ==> MatrixFits(m.value)) && Has(buf, at, EncMatrix(m))
    ensures DecMatrix(buf, at) == Some((m, at + |EncMatrix(m)|))
  {
    hide Has;
    HasSplit(buf, at, PutU16(MatrixLen(m)), EncWords(MatrixWords(m)));
    U16RoundTrip(buf, at, MatrixLen(m));
    if m.Some? {
      var dim := [m.value.height, m.value.width];
      EncWordsConcat(dim, m.value.cells);
      HasSplit(buf, at + 2, EncWords(dim), EncWords(m.value.cells));
      WordsRoundTrip(buf, at + 2, dim);
      WordsRoundTrip(buf, at + 10, m.value.cells);
    }
  }

  lemma SegmentItem(buf: seq<Byte>, s: Segment)
    requires StrFits(s.name)
    ensures RoundTrips(SegmentEnc(), SegmentDec(), SegmentView(), buf, s)
  {
    forall p: nat | Has(buf, p, SegmentEnc()(s))
      ensures SegmentDec()(buf, p) == Some((SegmentView()(s), p + |SegmentEnc()(s)|))
    {
      SegmentRoundTrip(buf, p, s);
    }
  }

  lemma SegmentListRoundTrip(buf: seq<Byte>, at: nat, segments: seq<Segment>)
    requires NamesFit(segments)
    requires Has(buf, at, EncList(SegmentEnc(), segments))
    ensures DecList(SegmentDec(), buf, at, |segments|) ==
            Some((Map(SegmentView(), segments), at + |EncList(SegmentEnc(), segments)|))
  {
    hide Has, RoundTrips, EncList, DecList;
    forall i | 0 <= i < |segments|
      ensures RoundTrips(SegmentEnc(), SegmentDec(), SegmentView(), buf, segments[i])
    {
      SegmentItem(buf, segments[i]);
    }
    ListRoundTrip(SegmentEnc(), SegmentDec(), SegmentView(), segments, buf, at);
  }

  lemma SegmentsRoundTrip(v: nat, buf: seq<Byte>, at: nat, segments: seq<Segment>)
    requires v >= 4 ==> ListFits(segments) && NamesFit(segments)
    requires Has(buf, at, EncSegments(v, segments))
    ensures DecSegments(v, buf, at) ==
            Some((if v >= 4 then Map(SegmentView(), segments) else [], at + |EncSegments(v, segments)|))
  {
    hide Has, EncList, DecList;
    if v >= 4 {
      assert segments[..Count(segments)] == segments;
      HasSplit(buf, at, PutU16(Count(segments)), EncList(SegmentEnc(), segments));
      U16RoundTrip(buf, at, Count(segments));
      SegmentListRoundTrip(buf, at + 2, segments);
    }
  }

  /** Where the four parts of a zone lie. */
  lemma ZoneParts(v: nat, buf: seq<Byte>, at: nat, z: Zone)
    requires Has(buf, at, EncZone(v, z))
    ensures Has(buf, at, EncStr(z.name))
    ensures Has(buf, at + |EncStr(z.name)|, EncWords(ZoneWords(z)))
    ensures Has(buf, at + |EncStr(z.name)| + 16, EncMatrix(z.matrix))
    ensures Has(buf, at + |EncStr(z.name)| + 16 + |EncMatrix(z.matrix)|, EncSegments(v, z.segments))
    ensures |EncZone(v, z)| == |EncStr(z.name)| + 16 + |EncMatrix(z.matrix)| + |EncSegments(v, z.segments)|
  {
    hide Has, EncStr, EncMatrix, EncSegments;
    var name, words, matrix := EncStr(z.name), EncWords(ZoneWords(z)), EncMatrix(z.matrix);
    HasSplit(buf, at, name + words + matrix, EncSegments(v, z.segments));
    HasSplit(buf, at, name + words, matrix);
    HasSplit(buf, at, name, words);
  }

  lemma ZoneFromParts(v: nat, buf: seq<Byte>, at: nat, name: (seq<Byte>, nat), words: (seq<U32>, nat),
                      matrix: (Option<Matrix>, nat), segments: (seq<Segment>, nat))
    requires DecStr(buf, at) == Some(name) && DecWords(buf, name.1, 4) == Some(words)
    requires DecMatrix(buf, words.1) == Some(matrix) && DecSegments(v, buf, matrix.1) == Some(segments)
    ensures DecZone(v, buf, at) == Some((ZoneFrom(name.0, words.0, matrix.0, segments.0), segments.1))
  {
    hide DecStr, DecWords, DecMatrix, DecSegments;
  }

  lemma ZoneRoundTrip(v: nat, buf: seq<Byte>, at: nat, z: Zone)
    requires ZoneFits(v, z) && Has(buf, at, EncZone(v, z))
    ensures DecZone(v, buf, at) == Some((GateZone(v, z), at + |EncZone(v, z)|))
  {
    hide Has, DecStr, DecWords, DecMatrix, DecSegments, DecZone, EncStr, EncWords, EncMatrix, EncSegments, EncZone;
    var p, q := at + |EncStr(z.name)|, at + |EncZone(v, z)|;
    ZoneParts(v, buf, at, z);
    var r := q - |EncSegments(v, z.segments)|;
    StrRoundTrip(buf, at, z.name);
    WordsRoundTrip(buf, p, ZoneWords(z));
    MatrixRoundTrip(buf, p + 16, z.matrix);
    SegmentsRoundTrip(v, buf, r, z.segments);
    ZoneFromParts(v, buf, at, (CString(z.name), p), (ZoneWords(z), p + 16), (z.matrix, r),
                  (GateZone(v, z).segments, q));
  }

  // ---------------------------------------------------------------- round trip of the device

  function VendorBytes(v: nat, d: Device): seq<Byte> { if v >= 1 then EncStr(d.vendor) else [] }

  /** Where the strings lie, the vendor being absent below version 1. */
  lemma StringsParts(v: nat, buf: seq<Byte>, at: nat, d: Device)
    requires Has(buf, at, EncStrings(v, d))
    ensures var p := at + |EncStr(d.name)|;
            var q := p + |VendorBytes(v, d)|;
            var r := q + |EncStr(d.description)|;
            var s := r + |EncStr(d.version)|;
            var t := s + |EncStr(d.serial)|;
            && Has(buf, at, EncStr(d.name)) && Has(buf, p, VendorBytes(v, d)) && Has(buf, q, EncStr(d.description))
            && Has(buf, r, EncStr(d.version)) && Has(buf, s, EncStr(d.serial)) && Has(buf, t, EncStr(d.location))
            && at + |EncStrings(v, d)| == t + |EncStr(d.location)|
  {
    hide Has, EncStr;
    var name, vendor := EncStr(d.name), VendorBytes(v, d);
    var description, version := EncStr(d.description), EncStr(d.version);
    var serial, location := EncStr(d.serial), EncStr(d.location);
    HasSplit(buf, at, name + vendor + description + version + serial, location);
    HasSplit(buf, at, name + vendor + description + version, serial);
    HasSplit(buf, at, name + vendor + description, version);
    HasSplit(buf, at, name + vendor, description);
    HasSplit(buf, at, name, vendor);
  }

  lemma StringsFit(v: nat, d: Device)
    requires Fits(v, d)
    ensures StrFits(d.name) && (v >= 1 ==> StrFits(d.vendor)) && StrFits(d.description) && StrFits(d.version)
    ensures StrFits(d.serial) && StrFits(d.location)
  {
  }

  lemma StringsRoundTrip(v: nat, buf: seq<Byte>, at: nat, d: Device)
    requires Fits(v, d) && Has(buf, at, EncStrings(v, d))
    ensures DecStrings(v, buf, at) ==
            Some((Strings(CString(d.name), if v >= 1 then CString(d.vendor) else [], CString(d.description),
                          CString(d.version), CString(d.serial), CString(d.location)),
                  at + |EncStrings(v, d)|))
  {
    hide Has, DecStr, EncStr, EncStrings, Fits, StrFits, CString;
    StringsParts(v, buf, at, d);
    StringsFit(v, d);
    var p := at + |EncStr(d.name)|;
    var q := p + |VendorBytes(v, d)|;
    var r := q + |EncStr(d.description)|;
    var s := r + |EncStr(d.version)|;
    StrRoundTrip(buf, at, d.name);
    if v >= 1 {
      StrRoundTrip(buf, p, d.vendor);
    }
    StrRoundTrip(buf, q, d.description);
    StrRoundTrip(buf, r, d.version);
    StrRoundTrip(buf, s, d.serial);
    StrRoundTrip(buf, s + |EncStr(d.serial)|, d.location);
  }

  lemma ModeItem(v: nat, buf: seq<Byte>, m: Mode)
    requires ModeFits(m)
    ensures RoundTrips(ModeEnc(v), ModeDec(v), ModeView(v), buf, m)
  {
    hide Has, EncMode, DecMode, GateMode;
    forall p: nat | Has(buf, p, ModeEnc(v)(m))
      ensures ModeDec(v)(buf, p) == Some((ModeView(v)(m), p + |ModeEnc(v)(m)|))
    {
      ModeRoundTrip(v, buf, p, m);
    }
  }

  lemma ModesRoundTrip(v: nat, buf: seq<Byte>, at: nat, d: Device)
    requires Fits(v, d) && Has(buf, at, EncModes(v, d))
    ensures DecModes(v, buf, at) == Some(((Map(ModeView(v), d.modes), d.activeMode), at + |EncModes(v, d)|))
  {
    hide Has, RoundTrips, EncList, DecList, ModeEnc, ModeDec, ModeView, ModeFits, PutU16, PutU32;
    assert d.modes[..Count(d.modes)] == d.modes;
    var count, active := PutU16(Count(d.modes)), PutU32(Unsigned(d.activeMode));
    HasSplit(buf, at, count + active, EncList(ModeEnc(v), d.modes));
    HasSplit(buf, at, count, active);
    U16RoundTrip(buf, at, Count(d.modes));
    U32RoundTrip(buf, at + 2, Unsigned(d.activeMode));
    forall i | 0 <= i < |d.modes|
      ensures RoundTrips(ModeEnc(v), ModeDec(v), ModeView(v), buf, d.modes[i])
    {
      ModeItem(v, buf, d.modes[i]);
    }
    ListRoundTrip(ModeEnc(v), ModeDec(v), ModeView(v), d.modes, buf, at + 6);
  }

  lemma ZoneItem(v: nat, buf: seq<Byte>, z: Zone)
    requires ZoneFits(v, z)
    ensures RoundTrips(ZoneEnc(v), ZoneDec(v), ZoneView(v), buf, z)
  {
    hide Has, EncZone, DecZone, GateZone;
    forall p: nat | Has(buf, p, ZoneEnc(v)(z))
      ensures ZoneDec(v)(buf, p) == Some((ZoneView(v)(z), p + |ZoneEnc(v)(z)|))
    {
      ZoneRoundTrip(v, buf, p, z);
    }
  }

  lemma ZonesRoundTrip(v: nat, buf: seq<Byte>, at: nat, d: Device)
    requires Fits(v, d) && Has(buf, at, EncZones(v, d))
    ensures DecZones(v, buf, at) == Some((Map(ZoneView(v), d.zones), at + |EncZones(v, d)|))
  {
    hide Has, RoundTrips, EncList, DecList, ZoneEnc, ZoneDec, ZoneView, ZoneFits, PutU16;
    assert d.zones[..Count(d.zones)] == d.zones;
    HasSplit(buf, at, PutU16(Count(d.zones)), EncList(ZoneEnc(v), d.zones));
    U16RoundTrip(buf, at, Count(d.zones));
    forall i | 0 <= i < |d.zones|
      ensures RoundTrips(ZoneEnc(v), ZoneDec(v), ZoneView(v), buf, d.zones[i])
    {
      ZoneItem(v, buf, d.zones[i]);
    }
    ListRoundTrip(ZoneEnc(v), ZoneDec(v), ZoneView(v), d.zones, buf, at + 2);
  }

  lemma LedItem(buf: seq<Byte>, l: Led)
    requires StrFits(l.name)
    ensures RoundTrips(LedEnc(), LedDec(), LedView(), buf, l)
  {
    hide Has, EncLed, DecLed, GateLed;
    forall p: nat | Has(buf, p, LedEnc()(l))
      ensures LedDec()(buf, p) == Some((LedView()(l), p + |LedEnc()(l)|))
    {
      LedRoundTrip(buf, p, l);
    }
  }

  lemma LedsRoundTrip(v: nat, buf: seq<Byte>, at: nat, d: Device)
    requires Fits(v, d) && Has(buf, at, EncLeds(d))
    ensures DecLeds(buf, at) == Some((Map(LedView(), d.leds), at + |EncLeds(d)|))
  {
    hide Has, RoundTrips, EncList, DecList, LedEnc, LedDec, LedView, StrFits, PutU16;
    assert d.leds[..Count(d.leds)] == d.leds;
    HasSplit(buf, at, PutU16(Count(d.leds)), EncList(LedEnc(), d.leds));
    U16RoundTrip(buf, at, Count(d.leds));
    forall i | 0 <= i < |d.leds|
      ensures RoundTrips(LedEnc(), LedDec(), LedView(), buf, d.leds[i])
    {
      LedItem(buf, d.leds[i]);
    }
    ListRoundTrip(LedEnc(), LedDec(), LedView(), d.leds, buf, at + 2);
  }

  /** Where the six parts of the body lie. */
  lemma BodyParts(v: nat, buf: seq<Byte>, at: nat, d: Device)
    requires Has(buf, at, EncBody(v, d))
    ensures Has(buf, at, PutU32(Unsigned(d.kind)))
    ensures Has(buf, at + 4, EncStrings(v, d))
    ensures Has(buf, at + 4 + |EncStrings(v, d)|, EncModes(v, d))
    ensures Has(buf, at + 4 + |EncStrings(v, d)| + |EncModes(v, d)|, EncZones(v, d))
    ensures Has(buf, at + 4 + |EncStrings(v, d)| + |EncModes(v, d)| + |EncZones(v, d)|, EncLeds(d))
    ensures Has(buf, at + |EncBody(v, d)| - |EncColors(d.colors)|, EncColors(d.colors))
    ensures |EncBody(v, d)| == 4 + |EncStrings(v, d)| + |EncModes(v, d)| + |EncZones(v, d)| + |EncLeds(d)|
                               + |EncColors(d.colors)|
  {
    hide Has, EncStrings, EncModes, EncZones, EncLeds, EncColors, PutU32;
    var kind, strings, modes := PutU32(Unsigned(d.kind)), EncStrings(v, d), EncModes(v, d);
    var zones, leds, colors := EncZones(v, d), EncLeds(d), EncColors(d.colors);
    HasSplit(buf, at, kind + strings + modes + zones + leds, colors);
    HasSplit(buf, at, kind + strings + modes + zones, leds);
    HasSplit(buf, at, kind + strings + modes, zones);
    HasSplit(buf, at, kind + strings, modes);
    HasSplit(buf, at, kind, strings);
  }

  /** A record at the start of a buffer is read back whatever follows it, and the reader stops exactly at
      its end. */
  lemma RoundTrip(v: nat, d: Device, buf: seq<Byte>)
    requires Fits(v, d) && Has(buf, 0, EncDevice(v, d))
    ensures DecRaw(v, buf) == Some((Gate(v, d), |EncDevice(v, d)|))
    ensures Decode(v, buf) == Some((Setup(Gate(v, d)), |EncDevice(v, d)|))
  {
    hide Has, DecU32, DecStrings, DecModes, DecZones, DecLeds, DecColors, Setup,
         EncBody, EncStrings, EncModes, EncZones, EncLeds, EncColors, PutU32, Fits;
    HasSplit(buf, 0, PutU32((4 + |EncBody(v, d)|) % 0x1_0000_0000), EncBody(v, d));
    BodyParts(v, buf, 4, d);
    var p := 8 + |EncStrings(v, d)|;
    var q := p + |EncModes(v, d)|;
    var r := q + |EncZones(v, d)|;
    U32RoundTrip(buf, 4, Unsigned(d.kind));
    StringsRoundTrip(v, buf, 8, d);
    ModesRoundTrip(v, buf, p, d);
    ZonesRoundTrip(v, buf, q, d);
    LedsRoundTrip(v, buf, r, d);
    ColorsFit(v, d);
    ColorsRoundTrip(buf, r + |EncLeds(d)|, d.colors);
  }

  lemma ColorsFit(v: nat, d: Device)
    requires Fits(v, d)
    ensures ListFits(d.colors)
  {
  }

  // ---------------------------------------------------------------- when nothing is lost

  ghost predicate ModeCarried(v: nat, m: Mode) {
    NulFree(m.name) && (v >= 3 || (m.brightnessMin == 0 && m.brightnessMax == 0 && m.brightness == 0))
  }

  ghost predicate SegmentNamesNulFree(segments: seq<Segment>) {
    forall i :: 0 <= i < |segments| ==> NulFree(segments[i].name)
  }

  ghost predicate ZoneCarried(v: nat, z: Zone) {
    NulFree(z.name) && if v >= 4 then SegmentNamesNulFree(z.segments) else z.segments == []
  }

  /** Version `v` has a field for everything that `d` uses. */
  ghost predicate Carried(v: nat, d: Device) {
    && NulFree(d.name) && (if v >= 1 then NulFree(d.vendor) else d.vendor == [])
    && NulFree(d.description) && NulFree(d.version) && NulFree(d.serial) && NulFree(d.location)
    && (forall i :: 0 <= i < |d.modes| ==> ModeCarried(v, d.modes[i]))
    && (forall i :: 0 <= i < |d.zones| ==> ZoneCarried(v, d.zones[i]))
    && (forall i :: 0 <= i < |d.leds| ==> NulFree(d.leds[i].name))
  }

  lemma GateModeKeeps(v: nat, m: Mode)
    ensures GateMode(v, m) == m <==> ModeCarried(v, m)
  {
    NulFreeIsOwnCString(m.name);
  }

  lemma GateZoneKeeps(v: nat, z: Zone)
    ensures GateZone(v, z) == z.(startIdx := 0, colors := None, leds := None) <==> ZoneCarried(v, z)
  {
    NulFreeIsOwnCString(z.name);
    if v >= 4 {
      var kept := Map(SegmentView(), z.segments);
      forall i | 0 <= i < |z.segments|
        ensures kept[i] == z.segments[i] <==> NulFree(z.segments[i].name)
      {
        NulFreeIsOwnCString(z.segments[i].name);
      }
      if SegmentNamesNulFree(z.segments) {
        assert kept == z.segments;
      }
    }
  }

  lemma {:induction false} GateKeepsLedSum(v: nat, zones: seq<Zone>)
    ensures LedSum(Map(ZoneView(v), zones)) == LedSum(zones)
  {
    if zones == [] {
    } else {
      var n := |zones| - 1;
      GateKeepsLedSum(v, zones[..n]);
      assert Map(ZoneView(v), zones)[..n] == Map(ZoneView(v), zones[..n]);
    }
  }

  lemma GateKeepsSetup(v: nat, d: Device, i: nat)
    requires i < |d.zones|
    ensures LedTotal(Map(ZoneView(v), d.zones)) == LedTotal(d.zones)
    ensures Setup(Gate(v, d)).zones[i].(name := d.zones[i].name, segments := d.zones[i].segments) == Setup(d).zones[i]
    ensures Setup(Gate(v, d)).zones[i].name == GateZone(v, d.zones[i]).name
    ensures Setup(Gate(v, d)).zones[i].segments == GateZone(v, d.zones[i]).segments
  {
    hide CString, LedSum, Resize;
    GateKeepsLedSum(v, d.zones);
    GateKeepsLedSum(v, d.zones[..i]);
    assert Map(ZoneView(v), d.zones)[..i] == Map(ZoneView(v), d.zones[..i]);
  }

  lemma ZonesKept(v: nat, d: Device)
    ensures Setup(Gate(v, d)).zones == d.zones <==>
            Setup(d).zones == d.zones && forall i :: 0 <= i < |d.zones| ==> ZoneCarried(v, d.zones[i])
  {
    var got, settled := Setup(Gate(v, d)).zones, Setup(d).zones;
    forall i | 0 <= i < |d.zones|
      ensures got[i] == d.zones[i] <==> settled[i] == d.zones[i] && ZoneCarried(v, d.zones[i])
    {
      GateKeepsSetup(v, d, i);
      GateZoneKeeps(v, d.zones[i]);
    }
    if Setup(d).zones == d.zones && forall i :: 0 <= i < |d.zones| ==> ZoneCarried(v, d.zones[i]) {
      assert got == d.zones;
    }
    if got == d.zones {
      assert settled == d.zones;
    }
  }

  lemma ModesKept(v: nat, modes: seq<Mode>)
    ensures Map(ModeView(v), modes) == modes <==> forall i :: 0 <= i < |modes| ==> ModeCarried(v, modes[i])
  {
    var got := Map(ModeView(v), modes);
    forall i | 0 <= i < |modes| ensures got[i] == modes[i] <==> ModeCarried(v, modes[i]) {
      GateModeKeeps(v, modes[i]);
    }
    if forall i :: 0 <= i < |modes| ==> ModeCarried(v, modes[i]) {
      assert got == modes;
    }
  }

  lemma LedsKept(leds: seq<Led>)
    ensures Map(LedView(), leds) == leds <==> forall i :: 0 <= i < |leds| ==> NulFree(leds[i].name)
  {
    var got := Map(LedView(), leds);
    forall i | 0 <= i < |leds| ensures got[i] == leds[i] <==> NulFree(leds[i].name) {
      NulFreeIsOwnCString(leds[i].name);
    }
    if forall i :: 0 <= i < |leds| ==> NulFree(leds[i].name) {
      assert got == leds;
    }
  }

  /** The reader recovers the writer's device unchanged exactly when the version carries all that the device
      uses and the device's buffers are as SetupColors leaves them. */
  lemma LosslessIff(v: nat, d: Device)
    ensures Setup(Gate(v, d)) == d <==> Carried(v, d) && Setup(d) == d
  {
    hide CString, NulFree, ModeCarried, ZoneCarried, Setup, Gate, Map;
    SetupOfGate(v, d);
    ZonesKept(v, d);
    ModesKept(v, d.modes);
    LedsKept(d.leds);
    StringsKept(v, d);
    SetupFields(d);
  }

  lemma StringsKept(v: nat, d: Device)
    ensures CString(d.name) == d.name <==> NulFree(d.name)
    ensures CString(d.vendor) == d.vendor <==> NulFree(d.vendor)
    ensures CString(d.description) == d.description <==> NulFree(d.description)
    ensures CString(d.version) == d.version <==> NulFree(d.version)
    ensures CString(d.serial) == d.serial <==> NulFree(d.serial)
    ensures CString(d.location) == d.location <==> NulFree(d.location)
  {
    hide CString, NulFree;
    NulFreeIsOwnCString(d.name);
    NulFreeIsOwnCString(d.vendor);
    NulFreeIsOwnCString(d.description);
    NulFreeIsOwnCString(d.version);
    NulFreeIsOwnCString(d.serial);
    NulFreeIsOwnCString(d.location);
  }

  lemma SetupFields(d: Device)
    ensures Setup(d) == d.(zones := Setup(d).zones, colors := Setup(d).colors)
  {
    hide LedSum, SetupZones, Resize;
  }

  lemma SetupOfGate(v: nat, d: Device)
    ensures Setup(Gate(v, d)) ==
            Device(d.kind, CString(d.name), if v >= 1 then CString(d.vendor) else [], CString(d.description),
                   CString(d.version), CString(d.serial), CString(d.location),
                   Map(ModeView(v), d.modes), d.activeMode, Setup(Gate(v, d)).zones, Map(LedView(), d.leds),
                   Setup(d).colors)
  {
    hide CString, SetupZones, Resize, LedSum, ModeView, LedView;
    GateKeepsLedSum(v, d.zones);
  }

  /** The leading field of a record is the record's own length. */
  lemma SizeFieldIsLength(v: nat, d: Device, buf: seq<Byte>)
    requires Fits(v, d) && Has(buf, 0, EncDevice(v, d))
    ensures |buf| >= 4 && U32At(buf, 0) == |EncDevice(v, d)|
  {
    hide EncBody;
    HasSplit(buf, 0, PutU32((4 + |EncBody(v, d)|) % 0x1_0000_0000), EncBody(v, d));
    HasU32(buf, 0, 4 + |EncBody(v, d)|);
  }
}
