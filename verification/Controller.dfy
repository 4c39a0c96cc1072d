/** RGBController: the object whose vectors the reader fills, the colour buffer its zones point into, and the
    descriptions that update colours and modes in place. */
module Controller {
  import opened Bytes
  import opened Description
  import opened Sequences
  import Writer

  // ---------------------------------------------------------------- reading a record

  method ReadStr(buf: seq<Byte>, at: nat) returns (s: seq<Byte>, next: nat)
    requires DecStr(buf, at).Some?
    ensures DecStr(buf, at) == Some((s, next))
  {
    var len := U16At(buf, at);
    s := CString(buf[at + 2..]);
    next := at + 2 + len;
  }

  method ReadColors(buf: seq<Byte>, at: nat) returns (colors: seq<U32>, next: nat)
    requires DecColors(buf, at).Some?
    ensures DecColors(buf, at) == Some((colors, next))
  {
    var n := U16At(buf, at);
    next := at + 2;
    colors := [];
    for i := 0 to n
      invariant next == at + 2 + 4 * i && colors == WordsAt(buf, at + 2, i)
    {
      colors := colors + [U32At(buf, next)];
      next := next + 4;
    }
  }

  /** The k-th of `n` words that decode as a block is the word the field-by-field reader meets. */
  lemma {:induction false} WordsAtIndex(buf: seq<Byte>, at: nat, n: nat, k: nat)
    requires k < n && at + 4 * n <= |buf|
    ensures WordsAt(buf, at, n)[k] == U32At(buf, at + 4 * k)
  {
    if k < n - 1 {
      WordsAtIndex(buf, at, n - 1, k);
    }
  }

  method ReadMode(v: nat, buf: seq<Byte>, at: nat) returns (m: Mode, next: nat)
    requires DecMode(v, buf, at).Some?
    ensures DecMode(v, buf, at) == Some((m, next))
  {
    hide DecStr, DecColors, WordsAt, U32At, Signed;
    var name, p := ReadStr(buf, at);
    ghost var n := if v >= 3 then 12 else 9;
    ghost var words := WordsAt(buf, p, n);
    forall k | 0 <= k < n ensures words[k] == U32At(buf, p + 4 * k) {
      WordsAtIndex(buf, p, n, k);
    }
    next := p;
    var value := Signed(U32At(buf, next));
    next := next + 4;
    var flags := U32At(buf, next);
    next := next + 4;
    var speedMin := U32At(buf, next);
    next := next + 4;
    var speedMax := U32At(buf, next);
    next := next + 4;
    var brightnessMin, brightnessMax := 0, 0;
    if v >= 3 {
      brightnessMin := U32At(buf, next);
      next := next + 4;
      brightnessMax := U32At(buf, next);
      next := next + 4;
    }
    var colorsMin := U32At(buf, next);
    next := next + 4;
    var colorsMax := U32At(buf, next);
    next := next + 4;
    var speed := U32At(buf, next);
    next := next + 4;
    var brightness := 0;
    if v >= 3 {
      brightness := U32At(buf, next);
      next := next + 4;
    }
    var direction := U32At(buf, next);
    next := next + 4;
    var colorMode := U32At(buf, next);
    next := next + 4;
    var colors;
    colors, next := ReadColors(buf, next);
    m := Mode(name, value, flags, speedMin, speedMax, brightnessMin, brightnessMax, colorsMin, colorsMax,
              speed, brightness, direction, colorMode, colors);
  }

  method ReadMatrix(buf: seq<Byte>, at: nat) returns (m: Option<Matrix>, next: nat)
    requires DecMatrix(buf, at).Some?
    ensures DecMatrix(buf, at) == Some((m, next))
  {
    var len := U16At(buf, at);
    next := at + 2;
    m := None;
    if len > 0 {
      var height, width := U32At(buf, next), U32At(buf, next + 4);
      WordsAtIndex(buf, next, 2, 0);
      WordsAtIndex(buf, next, 2, 1);
      next := next + 8;
      var n := Cells(Matrix(height, width, []));
      var cells := [];
      for i := 0 to n
        invariant next == at + 10 + 4 * i && cells == WordsAt(buf, at + 10, i)
      {
        cells := cells + [U32At(buf, next)];
        next := next + 4;
      }
      m := Some(Matrix(height, width, cells));
    }
  }

  method ReadSegment(buf: seq<Byte>, at: nat) returns (s: Segment, next: nat)
    requires DecSegment(buf, at).Some?
    ensures DecSegment(buf, at) == Some((s, next))
  {
    hide DecStr;
    var name, p := ReadStr(buf, at);
    WordsAtIndex(buf, p, 3, 0);
    WordsAtIndex(buf, p, 3, 1);
    WordsAtIndex(buf, p, 3, 2);
    s := Segment(name, Signed(U32At(buf, p)), U32At(buf, p + 4), U32At(buf, p + 8));
    next := p + 12;
  }

  method ReadSegments(v: nat, buf: seq<Byte>, at: nat) returns (segments: seq<Segment>, next: nat)
    requires DecSegments(v, buf, at).Some?
    ensures DecSegments(v, buf, at) == Some((segments, next))
  {
    hide DecSegment;
    segments, next := [], at;
    if v >= 4 {
      var n := U16At(buf, at);
      next := at + 2;
      for i := 0 to n
        invariant DecList(SegmentDec(), buf, at + 2, i) == Some((segments, next))
      {
        DecListPrefix(SegmentDec(), buf, at + 2, i + 1, n);
        var segment;
        segment, next := ReadSegment(buf, next);
        segments := segments + [segment];
      }
    }
  }

  method ReadZone(v: nat, buf: seq<Byte>, at: nat) returns (z: Zone, next: nat)
    requires DecZone(v, buf, at).Some?
    ensures DecZone(v, buf, at) == Some((z, next))
  {
    hide DecStr, DecMatrix, DecSegments;
    var name, p := ReadStr(buf, at);
    var kind := Signed(U32At(buf, p));
    var ledsMin, ledsMax, ledsCount := U32At(buf, p + 4), U32At(buf, p + 8), U32At(buf, p + 12);
    WordsAtIndex(buf, p, 4, 0);
    WordsAtIndex(buf, p, 4, 1);
    WordsAtIndex(buf, p, 4, 2);
    WordsAtIndex(buf, p, 4, 3);
    var matrix, segments;
    matrix, next := ReadMatrix(buf, p + 16);
    segments, next := ReadSegments(v, buf, next);
    z := Zone(name, kind, ledsMin, ledsMax, ledsCount, matrix, segments, 0, None, None);
  }

  method ReadLed(buf: seq<Byte>, at: nat) returns (l: Led, next: nat)
    requires DecLed(buf, at).Some?
    ensures DecLed(buf, at) == Some((l, next))
  {
    hide DecStr;
    var name, p := ReadStr(buf, at);
    l := Led(name, U32At(buf, p));
    next := p + 4;
  }

  // ---------------------------------------------------------------- colours and modes as functions

  /** `colors` with `new` memcpy'd over it at `at`. */
  function Overlay(colors: seq<U32>, at: nat, new_: seq<U32>): (r: seq<U32>)
    requires at + |new_| <= |colors|
    ensures |r| == |colors|
    ensures forall i :: 0 <= i < |colors| ==>
              r[i] == if at <= i < at + |new_| then new_[i - at] else colors[i]
  {
    colors[..at] + new_ + colors[at + |new_|..]
  }

  function ColorDescription(colors: seq<U32>): seq<Byte> {
    PutU32(6 + 4 * Count(colors)) + EncColors(colors)
  }

  lemma ColorDescriptionLength(colors: seq<U32>)
    ensures |EncColors(colors)| == 2 + 4 * Count(colors)
  {
  }

  /** SetColorDescription on a colour buffer; None where it reads outside `buf`. */
  function ApplyColors(colors: seq<U32>, buf: seq<Byte>): Option<seq<U32>> {
    var (n, p) :- DecU16(buf, 4);
    if n > |colors| then Some(colors) else
      var (new_, _) :- DecWords(buf, p, n);
      Some(Overlay(colors, 0, new_))
  }

  /** The zone's pointer is valid for its LED count. */
  predicate SliceValid(d: Device, z: nat) {
    z < |d.zones| && match d.zones[z].colors
      case None => d.zones[z].ledsCount == 0
      case Some(at) => at + d.zones[z].ledsCount <= |d.colors|
  }

  function Slice(d: Device, z: nat): seq<U32>
    requires SliceValid(d, z)
  {
    match d.zones[z].colors
    case None => []
    case Some(at) => d.colors[at..at + d.zones[z].ledsCount]
  }

  predicate SlicesValid(d: Device) { forall z :: 0 <= z < |d.zones| ==> SliceValid(d, z) }

  predicate InSlice(z: Zone, i: int) {
    z.colors.Some? && z.colors.value <= i < z.colors.value + z.ledsCount
  }

  /** Entry `i` of the colour buffer belongs to one of `zones`. */
  predicate InSomeSlice(zones: seq<Zone>, i: int) {
    zones != [] && (InSomeSlice(zones[..|zones| - 1], i) || InSlice(zones[|zones| - 1], i))
  }

  /** A zone description that names zone `z` and carries `words`. */
  function ZoneMessage(z: U32, words: seq<U32>): seq<Byte>
    requires |words| < 0x1_0000
  {
    PutU32(10 + 4 * |words|) + (PutU32(z) + (PutU16(|words|) + EncWords(words)))
  }

  /** GetZoneColorDescription: the LED count is truncated to 16 bits. */
  function ZoneColorDescription(d: Device, z: nat): seq<Byte>
    requires SliceValid(d, z) && z < 0x8000_0000
  {
    ZoneMessage(z, Slice(d, z)[..d.zones[z].ledsCount % 0x1_0000])
  }

  /** SetZoneColorDescription. The bound test lets an index equal to the zone count through, and nothing bounds
      the number of colours; None marks the runs that leave `buf` or the colour buffer. */
  function ApplyZoneColors(d: Device, buf: seq<Byte>): Option<Device> {
    var (z, p) :- DecU32(buf, 4);
    if z > |d.zones| then Some(d) else
      var (n, q) :- DecU16(buf, p);
      if n == 0 then Some(d) else
      var (new_, _) :- DecWords(buf, q, n);
      if z == |d.zones| || d.zones[z].colors.None? || d.zones[z].colors.value + n > |d.colors| then None
      else Some(d.(colors := Overlay(d.colors, d.zones[z].colors.value, new_)))
  }

  /** GetSingleLEDColorDescription: an index and a colour, without a size field. */
  function SingleLedDescription(d: Device, k: nat): (buf: seq<Byte>)
    requires k < |d.colors| && k < 0x8000_0000
    ensures |buf| == 8
  {
    PutU32(k) + PutU32(d.colors[k])
  }

  /** SetSingleLEDColorDescription. The bound is the number of LEDs, lets an index equal to it through, and says
      nothing about the colours; None marks an index past them. */
  function ApplySingleLed(d: Device, buf: seq<Byte>): Option<Device> {
    var (k, p) :- DecU32(buf, 0);
    if Signed(k) < 0 || k > |d.leds| then Some(d) else
      var (color, _) :- DecU32(buf, p);
      if k >= |d.colors| then None else Some(d.(colors := d.colors[k := color]))
  }

  lemma ModeLength(v: nat, m: Mode)
    requires ModeFits(m)
    ensures |EncMode(v, m)| < 0x8_0000
  {
    hide EncWords, CString;
  }

  function ModeDescription(d: Device, k: nat, v: nat): seq<Byte>
    requires k < |d.modes| && k < 0x8000_0000
  {
    PutU32((8 + |EncMode(v, d.modes[k])|) % 0x1_0000_0000) + (PutU32(k) + EncMode(v, d.modes[k]))
  }

  /** A mode read into an existing one: below version 3 the brightness fields keep their values. */
  function MergeMode(v: nat, mine: Mode, read: Mode): Mode {
    if v >= 3 then read
    else read.(brightnessMin := mine.brightnessMin, brightnessMax := mine.brightnessMax, brightness := mine.brightness)
  }

  /** SetModeDescription. A negative index is a huge size_t; an index equal to the mode count passes the bound
      test and leaves the vector (None). */
  function ApplyMode(d: Device, v: nat, buf: seq<Byte>): Option<Device> {
    var (k, p) :- DecU32(buf, 4);
    if Signed(k) < 0 || k > |d.modes| then Some(d) else
      if k == |d.modes| then None else
      var (read, _) :- DecMode(v, buf, p);
      Some(d.(activeMode := Signed(k), modes := d.modes[k := MergeMode(v, d.modes[k], read)]))
  }

  /** The reader on a controller that already holds something: scalars are replaced, lists are appended to. */
  function Appended(v: nat, d: Device, read: Device): Device {
    Device(read.kind, read.name, if v >= 1 then read.vendor else d.vendor, read.description, read.version,
           read.serial, read.location, d.modes + read.modes, read.activeMode, d.zones + read.zones,
           d.leds + read.leds, d.colors + read.colors)
  }

  /** The first zones of a record lend their LED counts. */
  function Recounted(mine: seq<Zone>, got: seq<Zone>): (r: seq<Zone>)
    requires |mine| <= |got|
    ensures |r| == |mine|
  {
    seq(|mine|, i requires 0 <= i < |mine| => mine[i].(ledsCount := got[i].ledsCount))
  }

  /** A record that arrives for a controller the client already has: active mode, LEDs, colours and the zones' LED
      counts are copied over. None where the record has fewer zones than the controller. */
  function Refreshed(mine: Device, got: Device): Option<Device> {
    if |mine.zones| > |got.zones| then None
    else Some(Setup(mine.(activeMode := got.activeMode, leds := got.leds, colors := got.colors,
                          zones := Recounted(mine.zones, got.zones))))
  }

  const NEW_DEVICE := Device(0, [], [], [], [], [], [], [], 0, [], [], [])

  lemma LedTotalEmpty(zones: seq<Zone>)
    ensures LedTotal(zones[..0]) == 0
  {
  }

  lemma LedTotalStep(zones: seq<Zone>, i: nat)
    requires i < |zones|
    ensures LedTotal(zones[..i + 1]) == (LedTotal(zones[..i]) + zones[i].ledsCount) % 0x1_0000_0000
  {
    assert zones[..i + 1][..i] == zones[..i];
  }

  // ---------------------------------------------------------------- the object

  /** Words read one by one into their places are laid over the list. */
  lemma OverlayOfWords(was: seq<U32>, first: nat, buf: seq<Byte>, at: nat, n: nat, now: seq<U32>)
    requires at + 4 * n <= |buf| && first + n <= |was| == |now|
    requires forall i :: 0 <= i < |was| ==>
               now[i] == if first <= i < first + n then U32At(buf, at + 4 * (i - first)) else was[i]
    ensures now == Overlay(was, first, WordsAt(buf, at, n))
  {
    hide U32At;
    forall i | 0 <= i < n ensures WordsAt(buf, at, n)[i] == U32At(buf, at + 4 * i) {
      WordsAtIndex(buf, at, n, i);
    }
  }

  class RGBController {
    var kind: I32
    var name: seq<Byte>
    var vendor: seq<Byte>
    var description: seq<Byte>
    var version: seq<Byte>
    var serial: seq<Byte>
    var location: seq<Byte>
    var modes: seq<Mode>
    var activeMode: I32
    var zones: seq<Zone>
    var leds: seq<Led>
    var colors: seq<U32>

    function Value(): Device
      reads this
    {
      Device(kind, name, vendor, description, version, serial, location, modes, activeMode, zones, leds, colors)
    }

    constructor ()
      ensures Value() == NEW_DEVICE
    {
      kind, activeMode := 0, 0;
      name, vendor, description, version, serial, location := [], [], [], [], [], [];
      modes, zones, leds, colors := [], [], [], [];
    }

    method Assign(d: Device)
      modifies this
      ensures Value() == d
    {
      kind, name, vendor, description, version := d.kind, d.name, d.vendor, d.description, d.version;
      serial, location, modes, activeMode := d.serial, d.location, d.modes, d.activeMode;
      zones, leds, colors := d.zones, d.leds, d.colors;
    }

    /** The second loop of SetupColors: every zone's start index and pointers into the buffers. */
    method SetPointers()
      modifies this`zones
      ensures zones == SetupZones(old(zones), |colors|, |leds|)
    {
      hide LedSum;
      ghost var was := zones;
      var total: U32 := 0;
      LedTotalEmpty(was);
      for i := 0 to |zones|
        invariant |zones| == |was| && total == LedTotal(was[..i])
        invariant forall k :: 0 <= k < i ==> zones[k] == SetupZone(was[k], LedTotal(was[..k]), |colors|, |leds|)
        invariant forall k :: i <= k < |was| ==> zones[k] == was[k]
      {
        var z := zones[i].(startIdx := total);
        z := z.(colors := if |colors| > 0 && z.ledsCount > 0 then Some(total) else None);
        z := z.(leds := if |leds| > 0 && z.ledsCount > 0 then Some(total) else None);
        zones := zones[i := z];
        LedTotalStep(was, i);
        total := (total + z.ledsCount) % 0x1_0000_0000;
      }
    }

    /** The unsigned sum, the resize and the pointer assignments. */
    method SetupColors()
      modifies this
      ensures Value() == Setup(old(Value()))
    {
      var total: U32 := 0;
      for i := 0 to |zones|
        invariant Value() == old(Value())
        invariant total == LedTotal(zones[..i])
      {
        LedTotalStep(zones, i);
        total := (total + zones[i].ledsCount) % 0x1_0000_0000;
      }
      assert zones[..|zones|] == zones;
      colors := Resize(colors, total);
      SetPointers();
    }

    /** The branch of ProcessReply_ControllerData for a controller that is there already. Not `inside` where it would
        read past the record's zones; the model stops there. */
    method CopyRefreshed(newController: RGBController) returns (inside: bool)
      requires newController != this
      modifies this
      ensures inside <==> Refreshed(old(Value()), newController.Value()).Some?
      ensures inside ==> Some(Value()) == Refreshed(old(Value()), newController.Value())
    {
      hide Setup;
      ghost var was := Value();
      activeMode := newController.activeMode;
      leds := newController.leds;
      colors := newController.colors;
      ghost var mid := Value();
      for i := 0 to |zones|
        invariant |zones| == |was.zones| && Value() == mid.(zones := zones) && i <= |newController.zones|
        invariant forall k :: 0 <= k < i ==> zones[k] == was.zones[k].(ledsCount := newController.zones[k].ledsCount)
        invariant forall k :: i <= k < |zones| ==> zones[k] == was.zones[k]
      {
        if i == |newController.zones| { return false; }
        zones := zones[i := zones[i].(ledsCount := newController.zones[i].ledsCount)];
      }
      assert zones == Recounted(was.zones, newController.zones);
      SetupColors();
      return true;
    }

    method GetDeviceDescription(v: nat) returns (buf: array<Byte>)
      requires Fits(v, Value())
      ensures fresh(buf) && buf[..] == EncDevice(v, Value())
    {
      buf := Writer.GetDeviceDescription(v, Value());
    }

    method ReadModes(v: nat, buf: seq<Byte>, at: nat) returns (next: nat)
      requires DecModes(v, buf, at).Some?
      modifies this
      ensures DecModes(v, buf, at).value.1 == next
      ensures Value() == old(Value()).(modes := old(modes) + DecModes(v, buf, at).value.0.0,
                                       activeMode := DecModes(v, buf, at).value.0.1)
    {
      hide DecMode, U16At, U32At;
      var n := U16At(buf, at);
      activeMode := Signed(U32At(buf, at + 2));
      next := at + 6;
      ghost var was, read := Value(), [];
      for i := 0 to n
        invariant DecList(ModeDec(v), buf, at + 6, i) == Some((read, next))
        invariant Value() == was.(modes := was.modes + read)
      {
        DecListPrefix(ModeDec(v), buf, at + 6, i + 1, n);
        var mode;
        mode, next := ReadMode(v, buf, next);
        modes := modes + [mode];
        assert was.modes + read + [mode] == was.modes + (read + [mode]);
        read := read + [mode];
      }
    }

    method ReadZones(v: nat, buf: seq<Byte>, at: nat) returns (next: nat)
      requires DecZones(v, buf, at).Some?
      modifies this
      ensures DecZones(v, buf, at).value.1 == next
      ensures Value() == old(Value()).(zones := old(zones) + DecZones(v, buf, at).value.0)
    {
      hide DecZone, U16At;
      var n := U16At(buf, at);
      next := at + 2;
      ghost var was, read := Value(), [];
      for i := 0 to n
        invariant DecList(ZoneDec(v), buf, at + 2, i) == Some((read, next))
        invariant Value() == was.(zones := was.zones + read)
      {
        DecListPrefix(ZoneDec(v), buf, at + 2, i + 1, n);
        var zone;
        zone, next := ReadZone(v, buf, next);
        zones := zones + [zone];
        assert was.zones + read + [zone] == was.zones + (read + [zone]);
        read := read + [zone];
      }
    }

    method ReadLeds(buf: seq<Byte>, at: nat) returns (next: nat)
      requires DecLeds(buf, at).Some?
      modifies this
      ensures DecLeds(buf, at).value.1 == next
      ensures Value() == old(Value()).(leds := old(leds) + DecLeds(buf, at).value.0)
    {
      hide DecLed, U16At;
      var n := U16At(buf, at);
      next := at + 2;
      ghost var was, read := Value(), [];
      for i := 0 to n
        invariant DecList(LedDec(), buf, at + 2, i) == Some((read, next))
        invariant Value() == was.(leds := was.leds + read)
      {
        DecListPrefix(LedDec(), buf, at + 2, i + 1, n);
        var led;
        led, next := ReadLed(buf, next);
        leds := leds + [led];
        assert was.leds + read + [led] == was.leds + (read + [led]);
        read := read + [led];
      }
    }

    method ReadStrings(v: nat, buf: seq<Byte>, at: nat) returns (next: nat)
      requires DecStrings(v, buf, at).Some?
      modifies this`name, this`vendor, this`description, this`version, this`serial, this`location
      ensures var s := DecStrings(v, buf, at).value.0;
              && DecStrings(v, buf, at).value.1 == next
              && name == s.name && vendor == (if v >= 1 then s.vendor else old(vendor))
              && description == s.description && version == s.version && serial == s.serial && location == s.location
    {
      hide DecStr, U16At, CString;
      name, next := ReadStr(buf, at);
      if v >= 1 {
        vendor, next := ReadStr(buf, next);
      }
      description, next := ReadStr(buf, next);
      version, next := ReadStr(buf, next);
      serial, next := ReadStr(buf, next);
      location, next := ReadStr(buf, next);
    }

    /** Reads a whole record and ends in SetupColors. */
    method ReadDeviceDescription(buf: seq<Byte>, v: nat) returns (next: nat)
      requires DecRaw(v, buf).Some?
      modifies this
      ensures next == DecRaw(v, buf).value.1
      ensures Value() == Setup(Appended(v, old(Value()), DecRaw(v, buf).value.0))
    {
      hide DecStrings, DecModes, DecZones, DecLeds, DecColors, Setup;
      kind := Signed(U32At(buf, 4));
      next := ReadStrings(v, buf, 8);
      next := ReadModes(v, buf, next);
      next := ReadZones(v, buf, next);
      next := ReadLeds(buf, next);
      var read;
      read, next := ReadColors(buf, next);
      colors := colors + read;
      SetupColors();
    }

    // -------------------------------------------------------------- updates in place

    method SetAllZoneLEDs(z: nat, color: U32)
      requires SliceValid(Value(), z)
      modifies this`colors
      ensures |colors| == |old(colors)|
      ensures forall i :: 0 <= i < |colors| ==>
                colors[i] == if InSlice(zones[z], i) then color else old(colors)[i]
    {
      ghost var was := Value();
      for k := 0 to zones[z].ledsCount
        invariant |colors| == |was.colors|
        invariant forall i :: 0 <= i < |colors| ==>
                    colors[i] == if InSlice(zones[z], i) && i < zones[z].colors.value + k then color
                                 else was.colors[i]
      {
        var at := zones[z].colors.value;
        colors := colors[at + k := color];
      }
    }

    method SetAllLEDs(color: U32)
      requires SlicesValid(Value())
      modifies this`colors
      ensures |colors| == |old(colors)|
      ensures forall i :: 0 <= i < |colors| ==>
                colors[i] == if InSomeSlice(zones, i) then color else old(colors)[i]
    {
      ghost var was := Value();
      for z := 0 to |zones|
        invariant |colors| == |was.colors|
        invariant forall i :: 0 <= i < |colors| ==>
                    colors[i] == if InSomeSlice(zones[..z], i) then color else was.colors[i]
      {
        assert SliceValid(was, z) && zones[..z + 1][..z] == zones[..z];
        SetAllZoneLEDs(z, color);
      }
      assert zones[..|zones|] == zones;
    }

    method GetColorDescription() returns (buf: array<Byte>)
      ensures fresh(buf) && buf[..] == ColorDescription(colors)
    {
      hide EncColors, PutU32;
      var size := 4 + 2 + Count(colors) * 4;
      ColorDescriptionLength(colors);
      buf := new Byte[size];
      var next := Writer.Put(buf, 0, PutU32(size));
      next := Writer.PutColors(buf, next, colors);
      assert buf[..] == buf[..next];
    }

    /** Not `inside` where the next access would leave `buf`; the model stops there. */
    method SetColorDescription(buf: seq<Byte>) returns (inside: bool)
      modifies this`colors
      ensures inside <==> ApplyColors(old(colors), buf).Some?
      ensures inside ==> Some(colors) == ApplyColors(old(colors), buf)
    {
      hide U32At, U16At, Overlay;
      if |buf| < 6 { return false; }
      var n := U16At(buf, 4);
      var at := 6;
      if n > |colors| { return true; }
      ghost var was := colors;
      for k := 0 to n
        invariant at == 6 + 4 * k && |colors| == |was| && at <= |buf|
        invariant forall i :: 0 <= i < |was| ==> colors[i] == if i < k then U32At(buf, 6 + 4 * i) else was[i]
      {
        if at + 4 > |buf| { return false; }
        colors := colors[k := U32At(buf, at)];
        at := at + 4;
      }
      OverlayOfWords(was, 0, buf, 6, n, colors);
      return true;
    }

    method GetZoneColorDescription(z: nat) returns (buf: array<Byte>)
      requires SliceValid(Value(), z) && z < 0x8000_0000
      ensures fresh(buf) && buf[..] == ZoneColorDescription(Value(), z)
    {
      var n: U16 := zones[z].ledsCount % 0x1_0000;
      var words := Slice(Value(), z)[..n];
      hide PutU32, PutU16, EncWords, Slice, SliceValid;
      var size := 4 + 4 + 2 + n * 4;
      buf := new Byte[size];
      var next := Writer.Put(buf, 0, PutU32(size));
      next := Writer.Put(buf, next, PutU32(z));
      next := Writer.Put(buf, next, PutU16(n));
      next := Writer.PutWords(buf, next, words);
      FourParts(PutU32(size), PutU32(z), PutU16(n), EncWords(words));
      assert buf[..] == buf[..next];
    }

    /** Not `inside` where the next access would leave `buf`, the zones or the colour buffer; the model stops there. */
    method SetZoneColorDescription(buf: seq<Byte>) returns (inside: bool)
      modifies this`colors
      ensures inside <==> ApplyZoneColors(old(Value()), buf).Some?
      ensures inside ==> Some(Value()) == ApplyZoneColors(old(Value()), buf)
    {
      hide U32At, U16At, Overlay;
      if |buf| < 8 { return false; }
      var z := U32At(buf, 4);
      if z > |zones| { return true; }
      if |buf| < 10 { return false; }
      var n := U16At(buf, 8);
      var at := 10;
      ghost var was := colors;
      for k := 0 to n
        invariant at == 10 + 4 * k && |colors| == |was|
        invariant k > 0 ==> at <= |buf| && z < |zones| && zones[z].colors.Some? && zones[z].colors.value + k <= |colors|
        invariant k > 0 ==> forall i :: 0 <= i < |was| ==>
                    colors[i] == if zones[z].colors.value <= i < zones[z].colors.value + k
                                 then U32At(buf, 10 + 4 * (i - zones[z].colors.value)) else was[i]
        invariant k == 0 ==> colors == was
      {
        if at + 4 > |buf| || z == |zones| || zones[z].colors.None? || zones[z].colors.value + k >= |colors| {
          return false;
        }
        colors := colors[zones[z].colors.value + k := U32At(buf, at)];
        at := at + 4;
      }
      if n > 0 { OverlayOfWords(was, zones[z].colors.value, buf, 10, n, colors); }
      return true;
    }

    method GetSingleLEDColorDescription(k: nat) returns (buf: array<Byte>)
      requires k < |colors| && k < 0x8000_0000
      ensures fresh(buf) && buf[..] == SingleLedDescription(Value(), k)
    {
      hide PutU32;
      buf := new Byte[8];
      var next := Writer.Put(buf, 0, PutU32(k));
      next := Writer.Put(buf, next, PutU32(colors[k]));
      assert buf[..] == buf[..next];
    }

    /** Not `inside` where the code would leave `buf` or the colour buffer. */
    method SetSingleLEDColorDescription(buf: seq<Byte>) returns (inside: bool)
      modifies this`colors
      ensures inside <==> ApplySingleLed(old(Value()), buf).Some?
      ensures inside ==> Some(Value()) == ApplySingleLed(old(Value()), buf)
    {
      hide U32At;
      if |buf| < 4 { return false; }
      var k := Signed(U32At(buf, 0));
      if k < 0 || k > |leds| { return true; }
      if |buf| < 8 || k >= |colors| { return false; }
      colors := colors[k := U32At(buf, 4)];
      return true;
    }

    method GetModeDescription(k: nat, v: nat) returns (buf: array<Byte>)
      requires k < |modes| && k < 0x8000_0000 && ModeFits(modes[k])
      ensures fresh(buf) && buf[..] == ModeDescription(Value(), k, v)
    {
      hide EncMode, PutU32;
      var body := Writer.ModeSize(v, modes[k]);
      ModeLength(v, modes[k]);
      var size := 4 + 4 + body;
      buf := new Byte[size];
      var next := Writer.Put(buf, 0, PutU32(size));
      next := Writer.Put(buf, next, PutU32(k));
      next := Writer.PutMode(buf, next, v, modes[k]);
      Assoc(PutU32(size), PutU32(k), EncMode(v, modes[k]));
      assert buf[..] == buf[..next];
    }

    /** Not `inside` where the code would leave the modes or `buf`. */
    method SetModeDescription(buf: seq<Byte>, v: nat) returns (inside: bool)
      modifies this`modes, this`activeMode
      ensures inside <==> ApplyMode(old(Value()), v, buf).Some?
      ensures inside ==> Some(Value()) == ApplyMode(old(Value()), v, buf)
    {
      hide DecMode, U32At;
      if |buf| < 8 { return false; }
      var k := Signed(U32At(buf, 4));
      if k < 0 || k > |modes| { return true; }
      activeMode := k;
      if k == |modes| || DecMode(v, buf, 8).None? { return false; }
      var read, next := ReadMode(v, buf, 8);
      modes := modes[k := MergeMode(v, modes[k], read)];
      return true;
    }
  }

  /** A controller's record read into a new controller, as the SDK client and the profile loader do: the reader
      stops at the end of the record and holds exactly what the version carries. */
  method Transfer(src: RGBController, v: nat) returns (dst: RGBController)
    requires Fits(v, src.Value())
    ensures fresh(dst) && dst.Value() == Setup(Gate(v, src.Value()))
  {
    hide EncDevice, DecRaw, Setup, Fits, Map, CString;
    var buf := src.GetDeviceDescription(v);
    assert Has(buf[..], 0, EncDevice(v, src.Value()));
    RoundTrip(v, src.Value(), buf[..]);
    dst := new RGBController();
    var next := dst.ReadDeviceDescription(buf[..], v);
    assert next == buf.Length;
    assert Appended(v, NEW_DEVICE, Gate(v, src.Value())) == Gate(v, src.Value());
  }
}
