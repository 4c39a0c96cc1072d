/** The two passes of GetDeviceDescription: the loops that add up `data_size`, and the memcpy and strcpy
    calls that fill the buffer at a moving `data_ptr`. */
module Writer {
  import opened Bytes
  import opened Description
  import opened Sequences

  predicate ModesFit(xs: seq<Mode>) { forall i :: 0 <= i < |xs| ==> ModeFits(xs[i]) }
  predicate ZonesFit(v: nat, xs: seq<Zone>) { forall i :: 0 <= i < |xs| ==> ZoneFits(v, xs[i]) }
  predicate LedsFit(xs: seq<Led>) { forall i :: 0 <= i < |xs| ==> StrFits(xs[i].name) }

  lemma FitsSplit(v: nat, d: Device)
    requires Fits(v, d)
    ensures |EncDevice(v, d)| < 0x1_0000_0000
    ensures ModesFit(d.modes) && ZonesFit(v, d.zones) && LedsFit(d.leds)
    ensures ListFits(d.modes) && ListFits(d.zones) && ListFits(d.leds) && ListFits(d.colors)
  {
  }

  // ---------------------------------------------------------------- size pass

  method ModeSize(v: nat, m: Mode) returns (size: nat)
    requires ModeFits(m)
    ensures size == |EncMode(v, m)|
  {
    size := Strlen(m.name) + 1 + 2;
    size := size + 4 * 4;
    if v >= 3 {
      size := size + 4 + 4;
    }
    size := size + 4 * 3;
    if v >= 3 {
      size := size + 4;
    }
    size := size + 4 * 2;
    size := size + 2 + |m.colors| * 4;
    assert m.colors[..Count(m.colors)] == m.colors;
  }

  method SegmentsSize(v: nat, segments: seq<Segment>) returns (size: nat)
    requires v >= 4 ==> ListFits(segments) && NamesFit(segments)
    ensures size == |EncSegments(v, segments)|
  {
    size := 0;
    if v >= 4 {
      size := 2;
      for i := 0 to |segments|
        invariant size == 2 + |EncList(SegmentEnc(), segments[..i])|
      {
        size := size + 2;
        size := size + Strlen(segments[i].name) + 1;
        size := size + 4 + 4 + 4;
        EncListStep(SegmentEnc(), segments, i);
      }
      assert segments[..|segments|] == segments && segments[..Count(segments)] == segments;
    }
  }

  method ZoneSize(v: nat, z: Zone) returns (size: nat)
    requires ZoneFits(v, z)
    ensures size == |EncZone(v, z)|
  {
    hide EncSegments, CString;
    size := Strlen(z.name) + 1 + 2;
    size := size + 4 + 4 + 4 + 4;
    var matrixLen := MatrixLen(z.matrix);
    size := size + 2;
    size := size + matrixLen;
    var segments := SegmentsSize(v, z.segments);
    size := size + segments;
  }

  method ModesSize(v: nat, xs: seq<Mode>) returns (size: nat)
    requires ModesFit(xs)
    ensures size == |EncList(ModeEnc(v), xs)|
  {
    hide EncMode, ModeFits, EncList;
    size := 0;
    EncListEmpty(ModeEnc(v), xs);
    for i := 0 to |xs|
      invariant size == |EncList(ModeEnc(v), xs[..i])|
    {
      var mode := ModeSize(v, xs[i]);
      size := size + mode;
      EncListStep(ModeEnc(v), xs, i);
    }
    assert xs[..|xs|] == xs;
  }

  method ZonesSize(v: nat, xs: seq<Zone>) returns (size: nat)
    requires ZonesFit(v, xs)
    ensures size == |EncList(ZoneEnc(v), xs)|
  {
    hide EncZone, ZoneFits, EncList;
    size := 0;
    EncListEmpty(ZoneEnc(v), xs);
    for i := 0 to |xs|
      invariant size == |EncList(ZoneEnc(v), xs[..i])|
    {
      var zone := ZoneSize(v, xs[i]);
      size := size + zone;
      EncListStep(ZoneEnc(v), xs, i);
    }
    assert xs[..|xs|] == xs;
  }

  method LedsSize(xs: seq<Led>) returns (size: nat)
    requires LedsFit(xs)
    ensures size == |EncList(LedEnc(), xs)|
  {
    hide EncList, CString;
    size := 0;
    EncListEmpty(LedEnc(), xs);
    for i := 0 to |xs|
      invariant size == |EncList(LedEnc(), xs[..i])|
    {
      size := size + Strlen(xs[i].name) + 1 + 2;
      size := size + 4;
      EncListStep(LedEnc(), xs, i);
    }
    assert xs[..|xs|] == xs;
  }

  method StringsSize(v: nat, d: Device) returns (size: nat)
    ensures size == |EncStrings(v, d)|
  {
    size := Strlen(d.name) + 1 + 2;
    if v >= 1 {
      size := size + Strlen(d.vendor) + 1 + 2;
    }
    size := size + Strlen(d.description) + 1 + 2;
    size := size + Strlen(d.version) + 1 + 2;
    size := size + Strlen(d.serial) + 1 + 2;
    size := size + Strlen(d.location) + 1 + 2;
  }

  method DescriptionSize(v: nat, d: Device) returns (size: nat)
    requires Fits(v, d)
    ensures size == |EncDevice(v, d)|
  {
    hide EncStrings, EncList, Fits, ModesFit, ZonesFit, LedsFit, EncWords, PutU32, PutU16;
    FitsSplit(v, d);
    size := 4 + 4;
    var strings := StringsSize(v, d);
    size := size + strings;
    size := size + 2 + 4;
    var modes := ModesSize(v, d.modes);
    size := size + modes;
    size := size + 2;
    var zones := ZonesSize(v, d.zones);
    size := size + zones;
    size := size + 2;
    var leds := LedsSize(d.leds);
    size := size + leds;
    size := size + 2 + |d.colors| * 4;
    assert d.modes[..Count(d.modes)] == d.modes && d.zones[..Count(d.zones)] == d.zones;
    assert d.leds[..Count(d.leds)] == d.leds && d.colors[..Count(d.colors)] == d.colors;
  }

  // ---------------------------------------------------------------- write pass

  /** memcpy of `bytes` to `buf + at`; the caller advances `data_ptr` to the result. */
  method Put(buf: array<Byte>, at: nat, bytes: seq<Byte>) returns (next: nat)
    requires at + |bytes| <= buf.Length
    modifies buf
    ensures next == at + |bytes|
    ensures buf[..next] == old(buf[..at]) + bytes
  {
    forall i | 0 <= i < |bytes| {
      buf[at + i] := bytes[i];
    }
    next := at + |bytes|;
  }

  method PutStr(buf: array<Byte>, at: nat, s: seq<Byte>) returns (next: nat)
    requires StrFits(s) && at + |EncStr(s)| <= buf.Length
    modifies buf
    ensures next == at + |EncStr(s)|
    ensures buf[..next] == old(buf[..at]) + EncStr(s)
  {
    ghost var pre := buf[..at];
    next := Put(buf, at, PutU16(Strlen(s) + 1));
    next := Put(buf, next, CString(s) + [0]);
    assert pre + PutU16(Strlen(s) + 1) + (CString(s) + [0]) == pre + (PutU16(Strlen(s) + 1) + CString(s) + [0]);
  }

  /** One more 32-bit field after the fields `ws` that follow `pre`. */
  method PutWord(buf: array<Byte>, at: nat, x: U32, ghost pre: seq<Byte>, ghost ws: seq<U32>) returns (next: nat)
    requires at + 4 <= buf.Length && buf[..at] == pre + EncWords(ws)
    modifies buf
    ensures next == at + 4 && buf[..next] == pre + EncWords(ws + [x])
  {
    next := Put(buf, at, PutU32(x));
    EncWordsAppend(ws, x);
    assert pre + EncWords(ws) + PutU32(x) == pre + (EncWords(ws) + PutU32(x));
  }

  /** A run of 32-bit words, one memcpy at a time. */
  method PutWords(buf: array<Byte>, at: nat, ws: seq<U32>) returns (next: nat)
    requires at + 4 * |ws| <= buf.Length
    modifies buf
    ensures next == at + 4 * |ws|
    ensures buf[..next] == old(buf[..at]) + EncWords(ws)
  {
    next := at;
    ghost var pre := buf[..at];
    assert pre + EncWords([]) == pre;
    for i := 0 to |ws|
      invariant next == at + 4 * i
      invariant buf[..next] == pre + EncWords(ws[..i])
    {
      next := PutWord(buf, next, ws[i], pre, ws[..i]);
      assert ws[..i] + [ws[i]] == ws[..i + 1];
    }
    assert ws[..|ws|] == ws;
  }

  method PutColors(buf: array<Byte>, at: nat, colors: seq<U32>) returns (next: nat)
    requires at + |EncColors(colors)| <= buf.Length
    modifies buf
    ensures next == at + |EncColors(colors)|
    ensures buf[..next] == old(buf[..at]) + EncColors(colors)
  {
    ghost var pre := buf[..at];
    var n := Count(colors);
    next := Put(buf, at, PutU16(n));
    next := PutWords(buf, next, colors[..n]);
    Assoc(pre, PutU16(n), EncWords(colors[..n]));
  }

  /** The fixed fields of a mode, those of version 3 in their places. */
  method PutModeWords(buf: array<Byte>, at: nat, v: nat, m: Mode) returns (next: nat)
    requires at + 4 * |ModeWords(v, m)| <= buf.Length
    modifies buf
    ensures next == at + 4 * |ModeWords(v, m)|
    ensures buf[..next] == old(buf[..at]) + EncWords(ModeWords(v, m))
  {
    hide EncWords, Unsigned;
    ghost var pre := buf[..at];
    var a, c, e := [Unsigned(m.value), m.flags, m.speedMin, m.speedMax], [m.colorsMin, m.colorsMax, m.speed],
                   [m.direction, m.colorMode];
    ghost var b: seq<U32>, d: seq<U32> := [], [];
    next := PutWords(buf, at, a);
    if v >= 3 {
      b, d := [m.brightnessMin, m.brightnessMax], [m.brightness];
      next := PutWords(buf, next, [m.brightnessMin, m.brightnessMax]);
    }
    assert buf[..next] == pre + EncWords(a) + EncWords(b);
    next := PutWords(buf, next, c);
    if v >= 3 {
      next := PutWords(buf, next, [m.brightness]);
    }
    assert buf[..next] == pre + EncWords(a) + EncWords(b) + EncWords(c) + EncWords(d);
    next := PutWords(buf, next, e);
    WordChunks(pre, a, b, c, d, e);
  }

  lemma WordChunks(pre: seq<Byte>, a: seq<U32>, b: seq<U32>, c: seq<U32>, d: seq<U32>, e: seq<U32>)
    ensures pre + EncWords(a) + EncWords(b) + EncWords(c) + EncWords(d) + EncWords(e)
            == pre + EncWords(a + b + c + d + e)
  {
    hide EncWords;
    EncWordsConcat(a, b);
    EncWordsConcat(a + b, c);
    EncWordsConcat(a + b + c, d);
    EncWordsConcat(a + b + c + d, e);
    Assoc(pre, EncWords(a), EncWords(b));
    Assoc(pre, EncWords(a + b), EncWords(c));
    Assoc(pre, EncWords(a + b + c), EncWords(d));
    Assoc(pre, EncWords(a + b + c + d), EncWords(e));
  }

  method PutMode(buf: array<Byte>, at: nat, v: nat, m: Mode) returns (next: nat)
    requires ModeFits(m) && at + |EncMode(v, m)| <= buf.Length
    modifies buf
    ensures next == at + |EncMode(v, m)|
    ensures buf[..next] == old(buf[..at]) + EncMode(v, m)
  {
    hide EncStr, EncColors, EncWords;
    ghost var start, name, words := buf[..at], EncStr(m.name), EncWords(ModeWords(v, m));
    next := PutStr(buf, at, m.name);
    next := PutModeWords(buf, next, v, m);
    next := PutColors(buf, next, m.colors);
    Assoc(start, name, words);
    Assoc(start, name + words, EncColors(m.colors));
  }

  method PutMatrix(buf: array<Byte>, at: nat, m: Option<Matrix>) returns (next: nat)
    requires (m.Some? ==> MatrixFits(m.value)) && at + |EncMatrix(m)| <= buf.Length
    modifies buf
    ensures next == at + |EncMatrix(m)|
    ensures buf[..next] == old(buf[..at]) + EncMatrix(m)
  {
    ghost var start := buf[..at];
    next := Put(buf, at, PutU16(MatrixLen(m)));
    ghost var pre := buf[..next];
    assert pre + EncWords([]) == pre;
    if MatrixLen(m) > 0 {
      var map_ := m.value;
      next := PutWord(buf, next, map_.height, pre, []);
      next := PutWord(buf, next, map_.width, pre, [map_.height]);
      assert [map_.height] + [map_.width] == [map_.height, map_.width];
      next := PutWords(buf, next, map_.cells);
      EncWordsConcat([map_.height, map_.width], map_.cells);
      Assoc(pre, EncWords([map_.height, map_.width]), EncWords(map_.cells));
    }
    Assoc(start, PutU16(MatrixLen(m)), EncWords(MatrixWords(m)));
  }

  method PutSegment(buf: array<Byte>, at: nat, s: Segment) returns (next: nat)
    requires StrFits(s.name) && at + |EncSegment(s)| <= buf.Length
    modifies buf
    ensures next == at + |EncSegment(s)|
    ensures buf[..next] == old(buf[..at]) + EncSegment(s)
  {
    hide EncStr;
    ghost var start := buf[..at];
    next := PutStr(buf, at, s.name);
    next := PutWords(buf, next, [Unsigned(s.kind), s.startIdx, s.ledsCount]);
    Assoc(start, EncStr(s.name), EncWords(SegmentWords(s)));
  }

  method PutSegments(buf: array<Byte>, at: nat, v: nat, segments: seq<Segment>) returns (next: nat)
    requires v >= 4 ==> ListFits(segments) && NamesFit(segments)
    requires at + |EncSegments(v, segments)| <= buf.Length
    modifies buf
    ensures next == at + |EncSegments(v, segments)|
    ensures buf[..next] == old(buf[..at]) + EncSegments(v, segments)
  {
    hide EncSegment, EncList;
    next := at;
    if v >= 4 {
      ghost var start := buf[..at];
      var n := |segments|;
      assert segments[..n] == segments && segments[..Count(segments)] == segments;
      next := Put(buf, at, PutU16(n));
      ghost var pre := buf[..next];
      EncListEmpty(SegmentEnc(), segments);
      for i := 0 to n
        invariant next == at + 2 + |EncList(SegmentEnc(), segments[..i])| <= buf.Length
        invariant buf[..next] == pre + EncList(SegmentEnc(), segments[..i])
      {
        EncListStep(SegmentEnc(), segments, i);
        EncListBound(SegmentEnc(), segments, i + 1);
        next := PutSegment(buf, next, segments[i]);
        Assoc(pre, EncList(SegmentEnc(), segments[..i]), EncSegment(segments[i]));
      }
      Assoc(start, PutU16(n), EncList(SegmentEnc(), segments));
    }
  }

  method PutZone(buf: array<Byte>, at: nat, v: nat, z: Zone) returns (next: nat)
    requires ZoneFits(v, z) && at + |EncZone(v, z)| <= buf.Length
    modifies buf
    ensures next == at + |EncZone(v, z)|
    ensures buf[..next] == old(buf[..at]) + EncZone(v, z)
  {
    hide EncStr, EncMatrix, EncSegments;
    ghost var start := buf[..at];
    ghost var name, words, matrix := EncStr(z.name), EncWords(ZoneWords(z)), EncMatrix(z.matrix);
    next := PutStr(buf, at, z.name);
    next := PutWords(buf, next, [Unsigned(z.kind), z.ledsMin, z.ledsMax, z.ledsCount]);
    next := PutMatrix(buf, next, z.matrix);
    next := PutSegments(buf, next, v, z.segments);
    Assoc(start, name, words);
    Assoc(start, name + words, matrix);
    Assoc(start, name + words + matrix, EncSegments(v, z.segments));
  }

  method PutStrings(buf: array<Byte>, at: nat, v: nat, d: Device) returns (next: nat)
    requires Fits(v, d) && at + |EncStrings(v, d)| <= buf.Length
    modifies buf
    ensures next == at + |EncStrings(v, d)|
    ensures buf[..next] == old(buf[..at]) + EncStrings(v, d)
  {
    hide EncStr, Fits, StrFits;
    StringsFit(v, d);
    ghost var start := buf[..at];
    ghost var name, vendor, description := EncStr(d.name), VendorBytes(v, d), EncStr(d.description);
    ghost var version, serial := EncStr(d.version), EncStr(d.serial);
    next := PutStr(buf, at, d.name);
    if v >= 1 {
      next := PutStr(buf, next, d.vendor);
    }
    assert buf[..next] == start + name + vendor;
    next := PutStr(buf, next, d.description);
    next := PutStr(buf, next, d.version);
    next := PutStr(buf, next, d.serial);
    next := PutStr(buf, next, d.location);
    Assoc(start, name, vendor);
    Assoc(start, name + vendor, description);
    Assoc(start, name + vendor + description, version);
    Assoc(start, name + vendor + description + version, serial);
    Assoc(start, name + vendor + description + version + serial, EncStr(d.location));
  }

  method PutModes(buf: array<Byte>, at: nat, v: nat, xs: seq<Mode>) returns (next: nat)
    requires ModesFit(xs) && at + |EncList(ModeEnc(v), xs)| <= buf.Length
    modifies buf
    ensures next == at + |EncList(ModeEnc(v), xs)|
    ensures buf[..next] == old(buf[..at]) + EncList(ModeEnc(v), xs)
  {
    hide EncMode, ModeFits, EncList;
    ghost var pre := buf[..at];
    next := at;
    EncListEmpty(ModeEnc(v), xs);
    for i := 0 to |xs|
      invariant next == at + |EncList(ModeEnc(v), xs[..i])| <= buf.Length
      invariant buf[..next] == pre + EncList(ModeEnc(v), xs[..i])
    {
      EncListStep(ModeEnc(v), xs, i);
      EncListBound(ModeEnc(v), xs, i + 1);
      next := PutMode(buf, next, v, xs[i]);
      Assoc(pre, EncList(ModeEnc(v), xs[..i]), EncMode(v, xs[i]));
    }
    assert xs[..|xs|] == xs;
  }

  method PutZones(buf: array<Byte>, at: nat, v: nat, xs: seq<Zone>) returns (next: nat)
    requires ZonesFit(v, xs) && at + |EncList(ZoneEnc(v), xs)| <= buf.Length
    modifies buf
    ensures next == at + |EncList(ZoneEnc(v), xs)|
    ensures buf[..next] == old(buf[..at]) + EncList(ZoneEnc(v), xs)
  {
    hide EncZone, ZoneFits, EncList;
    ghost var pre := buf[..at];
    next := at;
    EncListEmpty(ZoneEnc(v), xs);
    for i := 0 to |xs|
      invariant next == at + |EncList(ZoneEnc(v), xs[..i])| <= buf.Length
      invariant buf[..next] == pre + EncList(ZoneEnc(v), xs[..i])
    {
      EncListStep(ZoneEnc(v), xs, i);
      EncListBound(ZoneEnc(v), xs, i + 1);
      next := PutZone(buf, next, v, xs[i]);
      Assoc(pre, EncList(ZoneEnc(v), xs[..i]), EncZone(v, xs[i]));
    }
    assert xs[..|xs|] == xs;
  }

  method PutLed(buf: array<Byte>, at: nat, l: Led) returns (next: nat)
    requires StrFits(l.name) && at + |EncLed(l)| <= buf.Length
    modifies buf
    ensures next == at + |EncLed(l)|
    ensures buf[..next] == old(buf[..at]) + EncLed(l)
  {
    hide EncStr, PutU32;
    ghost var start := buf[..at];
    next := PutStr(buf, at, l.name);
    next := Put(buf, next, PutU32(l.value));
    Assoc(start, EncStr(l.name), PutU32(l.value));
  }

  method PutLeds(buf: array<Byte>, at: nat, xs: seq<Led>) returns (next: nat)
    requires LedsFit(xs) && at + |EncList(LedEnc(), xs)| <= buf.Length
    modifies buf
    ensures next == at + |EncList(LedEnc(), xs)|
    ensures buf[..next] == old(buf[..at]) + EncList(LedEnc(), xs)
  {
    hide EncLed, EncList;
    ghost var pre := buf[..at];
    next := at;
    EncListEmpty(LedEnc(), xs);
    for i := 0 to |xs|
      invariant next == at + |EncList(LedEnc(), xs[..i])| <= buf.Length
      invariant buf[..next] == pre + EncList(LedEnc(), xs[..i])
    {
      EncListStep(LedEnc(), xs, i);
      EncListBound(LedEnc(), xs, i + 1);
      next := PutLed(buf, next, xs[i]);
      Assoc(pre, EncList(LedEnc(), xs[..i]), EncLed(xs[i]));
    }
    assert xs[..|xs|] == xs;
  }

  method PutModeBlock(buf: array<Byte>, at: nat, v: nat, d: Device) returns (next: nat)
    requires ListFits(d.modes) && ModesFit(d.modes) && at + |EncModes(v, d)| <= buf.Length
    modifies buf
    ensures next == at + |EncModes(v, d)|
    ensures buf[..next] == old(buf[..at]) + EncModes(v, d)
  {
    hide EncList, PutU16, PutU32, ModesFit;
    assert d.modes[..Count(d.modes)] == d.modes;
    ghost var start, count, active := buf[..at], PutU16(|d.modes|), PutU32(Unsigned(d.activeMode));
    next := Put(buf, at, PutU16(|d.modes|));
    next := Put(buf, next, PutU32(Unsigned(d.activeMode)));
    next := PutModes(buf, next, v, d.modes);
    Assoc(start, count, active);
    Assoc(start, count + active, EncList(ModeEnc(v), d.modes));
  }

  method PutZoneBlock(buf: array<Byte>, at: nat, v: nat, d: Device) returns (next: nat)
    requires ListFits(d.zones) && ZonesFit(v, d.zones) && at + |EncZones(v, d)| <= buf.Length
    modifies buf
    ensures next == at + |EncZones(v, d)|
    ensures buf[..next] == old(buf[..at]) + EncZones(v, d)
  {
    hide EncList, PutU16, ZonesFit;
    assert d.zones[..Count(d.zones)] == d.zones;
    ghost var start := buf[..at];
    next := Put(buf, at, PutU16(|d.zones|));
    next := PutZones(buf, next, v, d.zones);
    Assoc(start, PutU16(|d.zones|), EncList(ZoneEnc(v), d.zones));
  }

  method PutLedBlock(buf: array<Byte>, at: nat, d: Device) returns (next: nat)
    requires ListFits(d.leds) && LedsFit(d.leds) && at + |EncLeds(d)| <= buf.Length
    modifies buf
    ensures next == at + |EncLeds(d)|
    ensures buf[..next] == old(buf[..at]) + EncLeds(d)
  {
    hide EncList, PutU16, LedsFit;
    assert d.leds[..Count(d.leds)] == d.leds;
    ghost var start := buf[..at];
    next := Put(buf, at, PutU16(|d.leds|));
    next := PutLeds(buf, next, d.leds);
    Assoc(start, PutU16(|d.leds|), EncList(LedEnc(), d.leds));
  }

  /** Both passes: the buffer is allocated at the computed size and the writes fill it exactly. */
  method GetDeviceDescription(v: nat, d: Device) returns (buf: array<Byte>)
    requires Fits(v, d)
    ensures fresh(buf) && buf[..] == EncDevice(v, d)
  {
    hide EncStrings, EncModes, EncZones, EncLeds, EncColors, PutU32, Fits, ModesFit, ZonesFit, LedsFit;
    var size := DescriptionSize(v, d);
    FitsSplit(v, d);
    buf := new Byte[size];
    ghost var kind, strings, modes := PutU32(Unsigned(d.kind)), EncStrings(v, d), EncModes(v, d);
    ghost var zones, leds, colors := EncZones(v, d), EncLeds(d), EncColors(d.colors);
    var next := Put(buf, 0, PutU32(size));
    ghost var start := buf[..next];
    next := Put(buf, next, PutU32(Unsigned(d.kind)));
    next := PutStrings(buf, next, v, d);
    next := PutModeBlock(buf, next, v, d);
    next := PutZoneBlock(buf, next, v, d);
    next := PutLedBlock(buf, next, d);
    next := PutColors(buf, next, d.colors);
    Assoc(start, kind, strings);
    Assoc(start, kind + strings, modes);
    Assoc(start, kind + strings + modes, zones);
    Assoc(start, kind + strings + modes + zones, leds);
    Assoc(start, kind + strings + modes + zones + leds, colors);
    assert buf[..] == buf[..next];
  }
}
