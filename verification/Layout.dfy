/** Where everything lies in a device record, byte by byte, and what arrives of each field. */
module Layout {
  import opened Bytes
  import opened Description
  import opened Controller

  // ---------------------------------------------------------------- integers and strings

  /** The lowest byte comes first. */
  lemma LowestFirst(buf: seq<Byte>, at: nat)
    requires at + 4 <= |buf|
    ensures U16At(buf, at) == buf[at] as int + 0x100 * buf[at + 1] as int
    ensures U32At(buf, at) == buf[at] as int + 0x100 * buf[at + 1] as int + 0x1_0000 * buf[at + 2] as int
                              + 0x100_0000 * buf[at + 3] as int
  {
  }

  /** A negative number is stored as its two's complement. */
  lemma NegativeStored(x: I32)
    requires x < 0
    ensures PutU32(Unsigned(x)) == PutU32(0x1_0000_0000 + x) && Signed(Unsigned(x)) == x
  {
  }

  /** `x` is the 32-bit field at `at`. */
  predicate Field(buf: seq<Byte>, at: nat, x: U32) { at + 4 <= |buf| && U32At(buf, at) == x }

  predicate Field16(buf: seq<Byte>, at: nat, x: U16) { at + 2 <= |buf| && U16At(buf, at) == x }

  /** The length of a string, its NUL included, then its bytes up to the first NUL, then a NUL. */
  lemma StringLies(buf: seq<Byte>, at: nat, s: seq<Byte>, n: nat)
    requires StrFits(s) && Has(buf, at, EncStr(s))
    requires n <= |s| && 0 !in s[..n] && (n < |s| ==> s[n] == 0)
    ensures |EncStr(s)| == n + 3 && Field16(buf, at, n + 1)
    ensures buf[at + 2..at + 2 + n] == s[..n] && buf[at + 2 + n] == 0
  {
    forall i | 0 <= i < n ensures s[i] != 0 { assert s[i] == s[..n][i]; }
    StrlenIs(s, n);
    HasSplit(buf, at, PutU16(n + 1) + s[..n], [0]);
    HasSplit(buf, at, PutU16(n + 1), s[..n]);
    HasU16(buf, at, n + 1);
    assert buf[at + 2 + n] == buf[at + 2 + n..at + 2 + n + 1][0];
  }

  // ---------------------------------------------------------------- the parts of a record

  lemma WordsLie(buf: seq<Byte>, at: nat, ws: seq<U32>, k: nat)
    requires Has(buf, at, EncWords(ws)) && k < |ws|
    ensures Field(buf, at + 4 * k, ws[k])
  {
    hide U32At, Has, EncWords, WordsAt;
    WordsRoundTrip(buf, at, ws);
    WordsAtIndex(buf, at, |ws|, k);
  }

  /** A count, then the colours. */
  lemma ColorsLie(buf: seq<Byte>, at: nat, colors: seq<U32>, k: nat)
    requires ListFits(colors) && Has(buf, at, EncColors(colors))
    ensures Field16(buf, at, |colors|) && (k < |colors| ==> Field(buf, at + 2 + 4 * k, colors[k]))
    ensures |EncColors(colors)| == 2 + 4 * |colors|
  {
    hide Has, U16At, PutU16, Field;
    assert colors[..Count(colors)] == colors;
    HasSplit(buf, at, PutU16(|colors|), EncWords(colors));
    HasU16(buf, at, |colors|);
    if k < |colors| { WordsLie(buf, at + 2, colors, k); }
  }

  lemma ModeParts(v: nat, buf: seq<Byte>, at: nat, m: Mode, p: nat)
    requires Has(buf, at, EncMode(v, m)) && p == at + |EncStr(m.name)|
    ensures Has(buf, at, EncStr(m.name)) && Has(buf, p, EncWords(ModeWords(v, m)))
    ensures Has(buf, p + if v >= 3 then 48 else 36, EncColors(m.colors))
  {
    hide Has, EncStr, EncColors, EncWords;
    HasSplit(buf, at, EncStr(m.name) + EncWords(ModeWords(v, m)), EncColors(m.colors));
    HasSplit(buf, at, EncStr(m.name), EncWords(ModeWords(v, m)));
  }

  /** The fields of a mode behind its name. */
  lemma ModeLies(v: nat, buf: seq<Byte>, at: nat, m: Mode, p: nat)
    requires Has(buf, at, EncMode(v, m)) && p == at + |EncStr(m.name)|
    ensures Has(buf, at, EncStr(m.name))
    ensures Field(buf, p, Unsigned(m.value)) && Field(buf, p + 4, m.flags)
    ensures Field(buf, p + 8, m.speedMin) && Field(buf, p + 12, m.speedMax)
    ensures v >= 3 ==>
              && Field(buf, p + 16, m.brightnessMin) && Field(buf, p + 20, m.brightnessMax)
              && Field(buf, p + 24, m.colorsMin) && Field(buf, p + 28, m.colorsMax)
              && Field(buf, p + 32, m.speed) && Field(buf, p + 36, m.brightness)
              && Field(buf, p + 40, m.direction) && Field(buf, p + 44, m.colorMode)
              && Has(buf, p + 48, EncColors(m.colors))
    ensures v < 3 ==>
              && Field(buf, p + 16, m.colorsMin) && Field(buf, p + 20, m.colorsMax) && Field(buf, p + 24, m.speed)
              && Field(buf, p + 28, m.direction) && Field(buf, p + 32, m.colorMode)
              && Has(buf, p + 36, EncColors(m.colors))
  {
    hide Has, EncStr, EncMode, EncWords, EncColors, Field;
    ModeParts(v, buf, at, m, p);
    var ws := ModeWords(v, m);
    forall k | 0 <= k < |ws| ensures Field(buf, p + 4 * k, ws[k]) { WordsLie(buf, p, ws, k); }
    assert Field(buf, p + 4 * 0, ws[0]) && Field(buf, p + 4 * 1, ws[1]) && Field(buf, p + 4 * 2, ws[2]);
    assert Field(buf, p + 4 * 3, ws[3]) && Field(buf, p + 4 * 4, ws[4]) && Field(buf, p + 4 * 5, ws[5]);
    assert Field(buf, p + 4 * 6, ws[6]) && Field(buf, p + 4 * 7, ws[7]) && Field(buf, p + 4 * 8, ws[8]);
    if v >= 3 {
      assert Field(buf, p + 4 * 9, ws[9]) && Field(buf, p + 4 * 10, ws[10]) && Field(buf, p + 4 * 11, ws[11]);
    }
  }

  /** A segment: its name, kind, first LED and number of LEDs. */
  lemma SegmentLies(buf: seq<Byte>, at: nat, s: Segment, p: nat)
    requires Has(buf, at, EncSegment(s)) && p == at + |EncStr(s.name)|
    ensures Has(buf, at, EncStr(s.name)) && |EncSegment(s)| == |EncStr(s.name)| + 12
    ensures Field(buf, p, Unsigned(s.kind)) && Field(buf, p + 4, s.startIdx) && Field(buf, p + 8, s.ledsCount)
  {
    hide Has, EncStr, EncWords, Field;
    HasSplit(buf, at, EncStr(s.name), EncWords(SegmentWords(s)));
    var ws := SegmentWords(s);
    WordsLie(buf, p, ws, 0);
    WordsLie(buf, p, ws, 1);
    WordsLie(buf, p, ws, 2);
  }

  /** An LED: its name and value. */
  lemma LedLies(buf: seq<Byte>, at: nat, l: Led)
    requires Has(buf, at, EncLed(l))
    ensures Has(buf, at, EncStr(l.name)) && Field(buf, at + |EncStr(l.name)|, l.value)
    ensures |EncLed(l)| == |EncStr(l.name)| + 4
  {
    hide Has, EncStr, PutU32, U32At;
    HasSplit(buf, at, EncStr(l.name), PutU32(l.value));
    HasU32(buf, at + |EncStr(l.name)|, l.value);
    HasLength(buf, at + |EncStr(l.name)|, PutU32(l.value));
  }

  lemma HasLength(buf: seq<Byte>, at: nat, bytes: seq<Byte>)
    requires Has(buf, at, bytes)
    ensures at + |bytes| <= |buf|
  {
  }

  /** A matrix: 0, or the number of bytes that follow, then height, width and the cells row by row. */
  lemma MatrixLies(buf: seq<Byte>, at: nat, m: Option<Matrix>, k: nat)
    requires (m.Some? ==> MatrixFits(m.value)) && Has(buf, at, EncMatrix(m))
    ensures m.None? ==> Field16(buf, at, 0) && |EncMatrix(m)| == 2
    ensures m.Some? ==>
              && |m.value.cells| == m.value.height * m.value.width % 0x1_0000_0000
              && Field16(buf, at, 8 + 4 * |m.value.cells|) && |EncMatrix(m)| == 10 + 4 * |m.value.cells|
              && Field(buf, at + 2, m.value.height) && Field(buf, at + 6, m.value.width)
              && (k < |m.value.cells| ==> Field(buf, at + 10 + 4 * k, m.value.cells[k]))
  {
    hide Has, EncWords, PutU16, U16At, Field;
    HasSplit(buf, at, PutU16(MatrixLen(m)), EncWords(MatrixWords(m)));
    HasU16(buf, at, MatrixLen(m));
    HasLength(buf, at, PutU16(MatrixLen(m)));
    if m.Some? {
      WordsLie(buf, at + 2, MatrixWords(m), 0);
      WordsLie(buf, at + 2, MatrixWords(m), 1);
      if k < |m.value.cells| { WordsLie(buf, at + 2, MatrixWords(m), k + 2); }
    }
  }

  /** A zone: its name, kind, LED limits and count, its matrix, and from version 4 on its segments, one after the other
      behind their count. */
  lemma ZoneLies(v: nat, buf: seq<Byte>, at: nat, z: Zone, p: nat)
    requires ZoneFits(v, z) && Has(buf, at, EncZone(v, z)) && p == at + |EncStr(z.name)|
    ensures Has(buf, at, EncStr(z.name))
    ensures Field(buf, p, Unsigned(z.kind)) && Field(buf, p + 4, z.ledsMin) && Field(buf, p + 8, z.ledsMax)
    ensures Field(buf, p + 12, z.ledsCount) && Has(buf, p + 16, EncMatrix(z.matrix))
    ensures var q := p + 16 + |EncMatrix(z.matrix)|;
            if v < 4 then at + |EncZone(v, z)| == q
            else Field16(buf, q, |z.segments|) && Has(buf, q + 2, EncList(SegmentEnc(), z.segments))
  {
    hide Has, EncStr, EncMatrix, EncWords, EncSegments, EncZone, Field, ZoneFits;
    ZoneParts(v, buf, at, z);
    var ws, q := ZoneWords(z), p + 16 + |EncMatrix(z.matrix)|;
    WordsLie(buf, p, ws, 0);
    WordsLie(buf, p, ws, 1);
    WordsLie(buf, p, ws, 2);
    WordsLie(buf, p, ws, 3);
    SegmentsLie(v, buf, q, z);
  }

  lemma SegmentsLie(v: nat, buf: seq<Byte>, at: nat, z: Zone)
    requires ZoneFits(v, z) && Has(buf, at, EncSegments(v, z.segments))
    ensures if v < 4 then |EncSegments(v, z.segments)| == 0
            else Field16(buf, at, |z.segments|) && Has(buf, at + 2, EncList(SegmentEnc(), z.segments))
  {
    hide Has, EncList, PutU16, U16At;
    if v >= 4 { CountedLies(buf, at, SegmentEnc(), z.segments); }
  }

  /** A list behind its count. */
  lemma CountedLies<T>(buf: seq<Byte>, at: nat, enc: T -> seq<Byte>, xs: seq<T>)
    requires ListFits(xs) && Has(buf, at, PutU16(Count(xs)) + EncList(enc, xs[..Count(xs)]))
    ensures Field16(buf, at, |xs|) && Has(buf, at + 2, EncList(enc, xs))
  {
    hide Has, EncList, PutU16, U16At;
    assert xs[..Count(xs)] == xs;
    HasSplit(buf, at, PutU16(|xs|), EncList(enc, xs));
    HasU16(buf, at, |xs|);
    HasLength(buf, at, PutU16(|xs|));
  }

  /** Bytes that the first `k` items of a list take. */
  function SizeOf<T>(enc: T -> seq<Byte>, xs: seq<T>, k: nat): nat
    requires k <= |xs|
  {
    if k == 0 then 0 else SizeOf(enc, xs, k - 1) + |enc(xs[k - 1])|
  }

  /** The items of a list lie one after the other. */
  lemma {:induction false} ItemLies<T>(buf: seq<Byte>, at: nat, enc: T -> seq<Byte>, xs: seq<T>, n: nat, k: nat)
    requires k < n <= |xs| && Has(buf, at, EncList(enc, xs[..n]))
    ensures Has(buf, at + SizeOf(enc, xs, k), enc(xs[k]))
    ensures |EncList(enc, xs[..n])| == SizeOf(enc, xs, n)
    decreases n
  {
    hide Has;
    EncListStep(enc, xs, n - 1);
    HasSplit(buf, at, EncList(enc, xs[..n - 1]), enc(xs[n - 1]));
    if n == 1 {
      EncListEmpty(enc, xs);
    } else {
      ItemLies(buf, at, enc, xs, n - 1, if k < n - 1 then k else 0);
    }
  }

  /** The start of a record: its size, the kind, and the strings in their order, the vendor from version 1 on. */
  lemma StringsLie(v: nat, d: Device, buf: seq<Byte>)
    requires Fits(v, d) && Has(buf, 0, EncDevice(v, d))
    ensures Field(buf, 0, |EncDevice(v, d)|) && Field(buf, 4, Unsigned(d.kind))
    ensures var p := 8 + |EncStr(d.name)|;
            var q := p + if v >= 1 then |EncStr(d.vendor)| else 0;
            var r := q + |EncStr(d.description)|;
            var s := r + |EncStr(d.version)|;
            var t := s + |EncStr(d.serial)|;
            && Has(buf, 8, EncStr(d.name)) && (v >= 1 ==> Has(buf, p, EncStr(d.vendor)))
            && Has(buf, q, EncStr(d.description)) && Has(buf, r, EncStr(d.version))
            && Has(buf, s, EncStr(d.serial)) && Has(buf, t, EncStr(d.location))
            && 8 + |EncStrings(v, d)| == t + |EncStr(d.location)|
  {
    hide Has, EncStr, EncBody, EncDevice, EncStrings, EncModes, EncZones, EncLeds, EncColors, PutU32, Fits, Field,
         U32At;
    SizeFieldIsLength(v, d, buf);
    FieldIs(buf, |EncDevice(v, d)|);
    BodyLies(v, d, buf);
    BodyParts(v, buf, 4, d);
    FieldPut(buf, 4, Unsigned(d.kind));
    StringsParts(v, buf, 8, d);
  }

  /** The rest of a record, behind its strings: the modes behind their count and the active mode, the zones, the LEDs
      and the colours, each behind its count. */
  lemma ListsLie(v: nat, d: Device, buf: seq<Byte>, u: nat)
    requires Fits(v, d) && Has(buf, 0, EncDevice(v, d)) && u == 8 + |EncStrings(v, d)|
    ensures Field16(buf, u, |d.modes|) && Field(buf, u + 2, Unsigned(d.activeMode))
    ensures Has(buf, u + 6, EncList(ModeEnc(v), d.modes))
    ensures var z := u + 6 + SizeOf(ModeEnc(v), d.modes, |d.modes|);
            var l := z + 2 + SizeOf(ZoneEnc(v), d.zones, |d.zones|);
            && Field16(buf, z, |d.zones|) && Has(buf, z + 2, EncList(ZoneEnc(v), d.zones))
            && Field16(buf, l, |d.leds|) && Has(buf, l + 2, EncList(LedEnc(), d.leds))
            && Has(buf, l + 2 + SizeOf(LedEnc(), d.leds, |d.leds|), EncColors(d.colors))
  {
    hide Has, EncStr, EncBody, EncDevice, EncStrings, EncModes, EncZones, EncLeds, EncColors, PutU32, Fits, EncList,
         Field, Field16, SizeOf, ModeEnc, ZoneEnc, LedEnc;
    BodyLies(v, d, buf);
    BodyParts(v, buf, 4, d);
    ModesLie(v, buf, u, d);
    ZonesLie(v, buf, u + |EncModes(v, d)|, d);
    LedsLie(v, buf, u + |EncModes(v, d)| + |EncZones(v, d)|, d);
  }

  lemma FieldIs(buf: seq<Byte>, n: nat)
    requires |buf| >= 4 && U32At(buf, 0) == n
    ensures Field(buf, 0, n)
  {
  }

  lemma BodyLies(v: nat, d: Device, buf: seq<Byte>)
    requires Has(buf, 0, EncDevice(v, d))
    ensures Has(buf, 4, EncBody(v, d))
  {
    hide Has, EncBody, PutU32;
    HasSplit(buf, 0, PutU32((4 + |EncBody(v, d)|) % 0x1_0000_0000), EncBody(v, d));
  }

  lemma FieldPut(buf: seq<Byte>, at: nat, x: U32)
    requires Has(buf, at, PutU32(x))
    ensures Field(buf, at, x)
  {
    hide PutU32, U32At;
    HasU32(buf, at, x);
  }

  lemma ListSize<T>(buf: seq<Byte>, at: nat, enc: T -> seq<Byte>, xs: seq<T>)
    requires Has(buf, at, EncList(enc, xs))
    ensures |EncList(enc, xs)| == SizeOf(enc, xs, |xs|)
  {
    hide Has;
    assert xs[..|xs|] == xs;
    if xs != [] { ItemLies(buf, at, enc, xs, |xs|, 0); }
  }

  lemma ModesLie(v: nat, buf: seq<Byte>, at: nat, d: Device)
    requires Fits(v, d) && Has(buf, at, EncModes(v, d))
    ensures Field16(buf, at, |d.modes|) && Field(buf, at + 2, Unsigned(d.activeMode))
    ensures Has(buf, at + 6, EncList(ModeEnc(v), d.modes))
    ensures |EncModes(v, d)| == 6 + SizeOf(ModeEnc(v), d.modes, |d.modes|)
  {
    hide Has, EncList, SizeOf, PutU16, PutU32, U16At, Field, ModeEnc, ModeFits, ZoneFits, StrFits, EncBody;
    assert d.modes[..Count(d.modes)] == d.modes;
    var count, active := PutU16(|d.modes|), PutU32(Unsigned(d.activeMode));
    HasSplit(buf, at, count + active, EncList(ModeEnc(v), d.modes));
    HasSplit(buf, at, count, active);
    HasU16(buf, at, |d.modes|);
    HasLength(buf, at, count);
    FieldPut(buf, at + 2, Unsigned(d.activeMode));
    ListSize(buf, at + 6, ModeEnc(v), d.modes);
  }

  lemma ZonesLie(v: nat, buf: seq<Byte>, at: nat, d: Device)
    requires Fits(v, d) && Has(buf, at, EncZones(v, d))
    ensures Field16(buf, at, |d.zones|) && Has(buf, at + 2, EncList(ZoneEnc(v), d.zones))
    ensures |EncZones(v, d)| == 2 + SizeOf(ZoneEnc(v), d.zones, |d.zones|)
  {
    hide Has, EncList, SizeOf, PutU16, Field16, ZoneEnc, ModeFits, ZoneFits, StrFits, EncBody;
    CountedLies(buf, at, ZoneEnc(v), d.zones);
    assert d.zones[..Count(d.zones)] == d.zones;
    ListSize(buf, at + 2, ZoneEnc(v), d.zones);
  }

  lemma LedsLie(v: nat, buf: seq<Byte>, at: nat, d: Device)
    requires Fits(v, d) && Has(buf, at, EncLeds(d))
    ensures Field16(buf, at, |d.leds|) && Has(buf, at + 2, EncList(LedEnc(), d.leds))
    ensures |EncLeds(d)| == 2 + SizeOf(LedEnc(), d.leds, |d.leds|)
  {
    hide Has, EncList, SizeOf, PutU16, Field16, LedEnc, ModeFits, ZoneFits, StrFits, EncBody;
    CountedLies(buf, at, LedEnc(), d.leds);
    assert d.leds[..Count(d.leds)] == d.leds;
    ListSize(buf, at + 2, LedEnc(), d.leds);
  }

  // ---------------------------------------------------------------- descriptions

  /** A description of all colours: its size, their number, the colours. */
  lemma ColorDescriptionLies(colors: seq<U32>, k: nat)
    requires ListFits(colors)
    ensures var buf := ColorDescription(colors);
            && |buf| == 6 + 4 * |colors| && Field(buf, 0, |buf|) && Field16(buf, 4, |colors|)
            && (k < |colors| ==> Field(buf, 6 + 4 * k, colors[k]))
  {
    hide Has, EncColors, PutU32, Field, Field16;
    var buf := ColorDescription(colors);
    HasSelf(buf);
    HasSplit(buf, 0, PutU32(6 + 4 * |colors|), EncColors(colors));
    FieldPut(buf, 0, 6 + 4 * |colors|);
    ColorsLie(buf, 4, colors, k);
  }

  /** A description of one zone's colours: its size, the zone, their number, the colours. */
  lemma ZoneDescriptionLies(d: Device, z: nat, k: nat)
    requires SliceValid(d, z) && z < 0x8000_0000 && d.zones[z].ledsCount < 0x1_0000
    ensures var buf, n := ZoneColorDescription(d, z), d.zones[z].ledsCount;
            && |buf| == 10 + 4 * n && Field(buf, 0, |buf|) && Field(buf, 4, z) && Field16(buf, 8, n)
            && (k < n ==> d.zones[z].colors.Some? && Field(buf, 10 + 4 * k, d.colors[d.zones[z].colors.value + k]))
  {
    hide Has, EncWords, PutU32, PutU16, U16At, Field;
    var buf, words := ZoneColorDescription(d, z), Slice(d, z);
    var n := |words|;
    assert words[..n] == words;
    HasSelf(buf);
    HasSplit(buf, 0, PutU32(10 + 4 * n), PutU32(z) + (PutU16(n) + EncWords(words)));
    HasSplit(buf, 4, PutU32(z), PutU16(n) + EncWords(words));
    HasSplit(buf, 8, PutU16(n), EncWords(words));
    FieldPut(buf, 0, 10 + 4 * n);
    FieldPut(buf, 4, z);
    HasU16(buf, 8, n);
    if k < n { WordsLie(buf, 10, words, k); }
  }

  /** A description of one LED's colour: its index and the colour, without a size. */
  lemma SingleLedLies(d: Device, k: nat)
    requires k < |d.colors| && k < 0x8000_0000
    ensures var buf := SingleLedDescription(d, k); |buf| == 8 && Field(buf, 0, k) && Field(buf, 4, d.colors[k])
  {
    hide Has, PutU32, Field;
    var buf := SingleLedDescription(d, k);
    HasSelf(buf);
    HasSplit(buf, 0, PutU32(k), PutU32(d.colors[k]));
    FieldPut(buf, 0, k);
    FieldPut(buf, 4, d.colors[k]);
  }

  /** A description of a mode: its size, its index, the mode as in a record. */
  lemma ModeDescriptionLies(d: Device, k: nat, v: nat)
    requires k < |d.modes| && k < 0x8000_0000 && ModeFits(d.modes[k])
    ensures var buf := ModeDescription(d, k, v);
            Field(buf, 0, |buf|) && Field(buf, 4, k) && Has(buf, 8, EncMode(v, d.modes[k]))
  {
    hide Has, EncMode, PutU32, Field;
    var buf, size := ModeDescription(d, k, v), 8 + |EncMode(v, d.modes[k])|;
    ModeLength(v, d.modes[k]);
    HasSelf(buf);
    HasSplit(buf, 0, PutU32(size), PutU32(k) + EncMode(v, d.modes[k]));
    HasSplit(buf, 4, PutU32(k), EncMode(v, d.modes[k]));
    FieldPut(buf, 0, size);
    FieldPut(buf, 4, k);
  }

  // ---------------------------------------------------------------- what arrives

  /** The strings and numbers of a device as they arrive: the vendor from version 1 on. */
  lemma ScalarsArrive(v: nat, d: Device)
    requires Fits(v, d)
    ensures var r := Decode(v, EncDevice(v, d));
            && r.Some? && r.value.1 == |EncDevice(v, d)|
            && var e := r.value.0;
               && e.kind == d.kind && e.activeMode == d.activeMode
               && e.name == CString(d.name) && e.description == CString(d.description)
               && e.version == CString(d.version) && e.serial == CString(d.serial)
               && e.location == CString(d.location) && e.vendor == (if v >= 1 then CString(d.vendor) else [])
               && |e.modes| == |d.modes| && |e.zones| == |d.zones| && |e.leds| == |d.leds|
  {
    hide Fits, EncDevice, Decode, Has, CString, LedSum, Resize;
    HasSelf(EncDevice(v, d));
    RoundTrip(v, d, EncDevice(v, d));
  }

  /** A mode as it arrives: its brightness from version 3 on. */
  lemma ModesArrive(v: nat, d: Device, k: nat)
    requires Fits(v, d) && k < |d.modes|
    ensures var m, r := d.modes[k], Decode(v, EncDevice(v, d));
            && r.Some? && k < |r.value.0.modes|
            && r.value.0.modes[k] ==
               Mode(CString(m.name), m.value, m.flags, m.speedMin, m.speedMax,
                    if v >= 3 then m.brightnessMin else 0, if v >= 3 then m.brightnessMax else 0,
                    m.colorsMin, m.colorsMax, m.speed, if v >= 3 then m.brightness else 0,
                    m.direction, m.colorMode, m.colors)
  {
    hide Fits, EncDevice, Decode, Has, CString, LedSum, Resize;
    HasSelf(EncDevice(v, d));
    RoundTrip(v, d, EncDevice(v, d));
  }

  /** A zone as it arrives: its segments from version 4 on. */
  lemma ZonesArrive(v: nat, d: Device, k: nat)
    requires Fits(v, d) && k < |d.zones|
    ensures var z, r := d.zones[k], Decode(v, EncDevice(v, d));
            && r.Some? && k < |r.value.0.zones|
            && var e := r.value.0.zones[k];
               && e.name == CString(z.name) && e.kind == z.kind && e.matrix == z.matrix
               && (e.ledsMin, e.ledsMax, e.ledsCount) == (z.ledsMin, z.ledsMax, z.ledsCount)
               && |e.segments| == (if v >= 4 then |z.segments| else 0)
               && forall i :: 0 <= i < |e.segments| ==>
                    e.segments[i] == z.segments[i].(name := CString(z.segments[i].name))
  {
    hide Fits, EncDevice, Decode, Has, CString, LedSum, Resize;
    HasSelf(EncDevice(v, d));
    RoundTrip(v, d, EncDevice(v, d));
  }

  /** LEDs and colours as they arrive: as many colours as the zones have LEDs, black where none was sent. */
  lemma LightsArrive(v: nat, d: Device)
    requires Fits(v, d)
    ensures var r := Decode(v, EncDevice(v, d));
            && r.Some? && |r.value.0.leds| == |d.leds| && |r.value.0.colors| == LedSum(d.zones) % 0x1_0000_0000
            && (forall k :: 0 <= k < |d.leds| ==>
                  r.value.0.leds[k] == Led(CString(d.leds[k].name), d.leds[k].value))
            && (forall k :: 0 <= k < |r.value.0.colors| ==>
                  r.value.0.colors[k] == if k < |d.colors| then d.colors[k] else 0)
  {
    hide Fits, EncDevice, Decode, Has, CString, LedSum;
    HasSelf(EncDevice(v, d));
    RoundTrip(v, d, EncDevice(v, d));
    GateKeepsLedSum(v, d.zones);
  }
}
