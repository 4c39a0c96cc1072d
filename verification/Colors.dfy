/** What the colour and mode descriptions do to the controller that receives them. */
module Colors {
  import opened Bytes
  import opened Description
  import opened Controller

  // ---------------------------------------------------------------- SetupColors covers the buffer

  /** The device is as SetupColors leaves it and its LED counts do not overflow an `unsigned int`. */
  ghost predicate Settled(d: Device) { Setup(d) == d && LedSum(d.zones) < 0x1_0000_0000 }

  /** The zones' slices one after the other. */
  function Slices(d: Device, n: nat): seq<U32>
    requires n <= |d.zones| && SlicesValid(d)
  {
    if n == 0 then [] else
      assert SliceValid(d, n - 1);
      Slices(d, n - 1) + Slice(d, n - 1)
  }

  lemma {:induction false} LedSumMonotone(zones: seq<Zone>, i: nat, j: nat)
    requires i <= j <= |zones|
    ensures LedSum(zones[..i]) <= LedSum(zones[..j])
    decreases j
  {
    if i < j {
      LedSumMonotone(zones, i, j - 1);
      assert zones[..j][..j - 1] == zones[..j - 1];
    }
  }

  /** In every controller, settled or not: SetupColors makes as many colours as the zones have LEDs modulo 2^32, and a
      zone's pointer is NULL if and only if the zone has no LEDs or the buffer is empty, as it is when the sum wraps to
      0. */
  lemma PointersIff(d: Device, z: nat)
    requires z < |d.zones|
    ensures var r := Setup(d); var at := LedSum(d.zones[..z]) % 0x1_0000_0000;
            && |r.colors| == LedSum(d.zones) % 0x1_0000_0000 && |r.zones| == |d.zones|
            && r.zones[z].startIdx == at
            && r.zones[z].colors == (if d.zones[z].ledsCount == 0 || r.colors == [] then None else Some(at))
            && r.zones[z].leds == (if d.zones[z].ledsCount == 0 || d.leds == [] then None else Some(at))
  {
    hide LedSum;
  }

  /** SetupColors leaves every device settled whose LED counts do not overflow. */
  lemma SetupSettles(d: Device)
    requires LedSum(d.zones) < 0x1_0000_0000
    ensures Settled(Setup(d))
  {
    hide LedSum;
    var e := Setup(d);
    SameCounts(e.zones, d.zones, |d.zones|);
    assert e.zones[..|d.zones|] == e.zones && d.zones[..|d.zones|] == d.zones;
    forall z | 0 <= z < |d.zones| ensures Setup(e).zones[z] == e.zones[z] { SameCounts(e.zones, d.zones, z); }
    assert Setup(e).zones == e.zones && Setup(e).colors == e.colors;
  }

  lemma SettledZone(d: Device, z: nat)
    requires Settled(d) && z < |d.zones|
    ensures |d.colors| == LedSum(d.zones) && LedTotal(d.zones) == LedSum(d.zones)
    ensures d.zones[z] == SetupZone(d.zones[z], LedTotal(d.zones[..z]), LedTotal(d.zones), |d.leds|)
  {
    hide LedSum;
    assert Setup(d).colors == d.colors && Setup(d).zones[z] == d.zones[z];
  }

  /** Zone `z` starts where the LEDs of the zones before it end, and its slice fits. */
  lemma ZoneStart(d: Device, z: nat)
    requires Settled(d) && z < |d.zones|
    ensures d.zones[z].startIdx == LedSum(d.zones[..z])
    ensures d.zones[z].colors == if d.zones[z].ledsCount > 0 then Some(LedSum(d.zones[..z])) else None
    ensures d.zones[z].leds == if d.zones[z].ledsCount > 0 && d.leds != [] then Some(LedSum(d.zones[..z])) else None
    ensures LedSum(d.zones[..z]) + d.zones[z].ledsCount <= |d.colors| == LedSum(d.zones)
    ensures SliceValid(d, z)
    ensures Slice(d, z) == d.colors[LedSum(d.zones[..z])..LedSum(d.zones[..z]) + d.zones[z].ledsCount]
  {
    hide LedSum, Setup;
    SettledZone(d, z);
    LedSumStep(d.zones, z);
    LedSumMonotone(d.zones, z + 1, |d.zones|);
    assert d.zones[..|d.zones|] == d.zones;
  }

  lemma SettledSlices(d: Device)
    requires Settled(d)
    ensures SlicesValid(d)
  {
    forall z | 0 <= z < |d.zones| ensures SliceValid(d, z) {
      ZoneStart(d, z);
    }
  }

  /** The slices of the zones, in order, are the colour buffer: they are disjoint and leave nothing out. */
  lemma {:induction false} SlicesCover(d: Device, n: nat)
    requires Settled(d) && n <= |d.zones|
    ensures SlicesValid(d) && LedSum(d.zones[..n]) <= |d.colors|
    ensures Slices(d, n) == d.colors[..LedSum(d.zones[..n])]
    ensures n == |d.zones| ==> Slices(d, n) == d.colors
  {
    hide LedSum, Setup, Slice, SliceValid;
    SettledSlices(d);
    EmptyLedSum(d.zones);
    if n > 0 {
      SlicesCover(d, n - 1);
      ZoneStart(d, n - 1);
      LedSumStep(d.zones, n - 1);
    }
    if n == |d.zones| {
      assert d.zones[..|d.zones|] == d.zones;
      SettledLength(d);
    }
  }

  /** The LEDs that a zone's second pointer shows. */
  function LedSlice(d: Device, z: nat): seq<Led>
    requires z < |d.zones| && (d.zones[z].leds.Some? ==> d.zones[z].leds.value + d.zones[z].ledsCount <= |d.leds|)
  {
    match d.zones[z].leds
    case None => []
    case Some(at) => d.leds[at..at + d.zones[z].ledsCount]
  }

  ghost predicate LedsValid(d: Device) {
    forall z :: 0 <= z < |d.zones| && d.zones[z].leds.Some? ==> d.zones[z].leds.value + d.zones[z].ledsCount <= |d.leds|
  }

  ghost function LedSlices(d: Device, n: nat): seq<Led>
    requires n <= |d.zones| && LedsValid(d)
  {
    if n == 0 then [] else LedSlices(d, n - 1) + LedSlice(d, n - 1)
  }

  lemma SettledLeds(d: Device)
    requires Settled(d) && |d.leds| == |d.colors|
    ensures LedsValid(d)
  {
    hide LedSum, Setup, Slice, SliceValid;
    forall z | 0 <= z < |d.zones| && d.zones[z].leds.Some?
      ensures d.zones[z].leds.value + d.zones[z].ledsCount <= |d.leds|
    {
      ZoneStart(d, z);
    }
  }

  lemma LedSliceIs(d: Device, z: nat)
    requires Settled(d) && z < |d.zones| && |d.leds| == |d.colors| && LedsValid(d)
    ensures LedSum(d.zones[..z]) <= LedSum(d.zones[..z + 1]) <= |d.leds|
    ensures LedSlice(d, z) == d.leds[LedSum(d.zones[..z])..LedSum(d.zones[..z + 1])]
  {
    hide LedSum, Setup, Settled, Slice, SliceValid;
    ZoneStart(d, z);
    LedSumStep(d.zones, z);
  }

  /** Where there are as many LEDs as colours, the zones' LEDs, in order, are the list of LEDs. */
  lemma {:induction false} LedSlicesCover(d: Device, n: nat)
    requires Settled(d) && n <= |d.zones| && |d.leds| == |d.colors|
    ensures LedsValid(d) && LedSum(d.zones[..n]) <= |d.leds|
    ensures LedSlices(d, n) == d.leds[..LedSum(d.zones[..n])]
    ensures n == |d.zones| ==> LedSlices(d, n) == d.leds
  {
    hide LedSum, Settled, LedsValid, LedSlice;
    SettledLeds(d);
    EmptyLedSum(d.zones);
    if n > 0 {
      LedSlicesCover(d, n - 1);
      LedSliceIs(d, n - 1);
    }
    if n == |d.zones| {
      assert d.zones[..|d.zones|] == d.zones;
      SettledLength(d);
    }
  }

  lemma SettledLength(d: Device)
    requires Settled(d)
    ensures |d.colors| == LedSum(d.zones)
  {
    hide LedSum;
    assert Setup(d).colors == d.colors;
  }

  lemma {:induction false} EveryEntryInSomeSlice(d: Device, n: nat, i: nat)
    requires Settled(d) && n <= |d.zones| && i < LedSum(d.zones[..n])
    ensures InSomeSlice(d.zones[..n], i)
  {
    ZoneStart(d, n - 1);
    LedSumStep(d.zones, n - 1);
    assert d.zones[..n][..n - 1] == d.zones[..n - 1];
    if i < LedSum(d.zones[..n - 1]) {
      EveryEntryInSomeSlice(d, n - 1, i);
    }
  }

  /** SetAllLEDs on a settled controller sets every entry of the buffer. */
  method PaintAll(c: RGBController, color: U32)
    requires Settled(c.Value())
    modifies c`colors
    ensures |c.colors| == |old(c.colors)| && forall i :: 0 <= i < |c.colors| ==> c.colors[i] == color
  {
    ghost var was := c.Value();
    SettledSlices(was);
    SlicesCover(was, |was.zones|);
    c.SetAllLEDs(color);
    assert c.zones[..|c.zones|] == c.zones;
    forall i | 0 <= i < |c.colors| ensures c.colors[i] == color {
      EveryEntryInSomeSlice(was, |was.zones|, i);
    }
  }

  // ---------------------------------------------------------------- zone by zone or all at once

  ghost predicate SameShape(src: Device, dst: Device) {
    |src.zones| == |dst.zones| && forall z :: 0 <= z < |src.zones| ==> src.zones[z].ledsCount == dst.zones[z].ledsCount
  }

  /** The first `n` zone descriptions of `src` applied one after the other to `dst`. */
  function ApplyZones(src: Device, dst: Device, n: nat): Option<Device>
    requires SlicesValid(src) && n <= |src.zones| < 0x8000_0000
  {
    if n == 0 then Some(dst) else
      var d :- ApplyZones(src, dst, n - 1);
      assert SliceValid(src, n - 1);
      ApplyZoneColors(d, ZoneColorDescription(src, n - 1))
  }

  /** `buf` is a zone description as far as its receiver reads it: it names zone `z` and holds `n` colours. */
  predicate Names(buf: seq<Byte>, z: U32, n: U16) {
    DecU32(buf, 4) == Some((z, 8)) && DecU16(buf, 8) == Some((n, 10)) && DecWords(buf, 10, n).Some?
  }

  lemma ZoneMessageParts(z: U32, words: seq<U32>)
    requires |words| < 0x1_0000
    ensures Names(ZoneMessage(z, words), z, |words|)
    ensures DecWords(ZoneMessage(z, words), 10, |words|) == Some((words, |ZoneMessage(z, words)|))
  {
    hide Has, EncWords, PutU16, PutU32;
    var n := |words|;
    var buf := ZoneMessage(z, words);
    HasSelf(buf);
    HasSplit(buf, 0, PutU32(10 + 4 * n), PutU32(z) + (PutU16(n) + EncWords(words)));
    HasSplit(buf, 4, PutU32(z), PutU16(n) + EncWords(words));
    HasSplit(buf, 8, PutU16(n), EncWords(words));
    U32RoundTrip(buf, 4, z);
    U16RoundTrip(buf, 8, n);
    WordsRoundTrip(buf, 10, words);
  }

  /** One zone description replaces that zone's slice by the sender's and touches nothing else. */
  lemma ZoneColorsTransfer(src: Device, dst: Device, z: nat)
    requires Settled(src) && Settled(dst) && SameShape(src, dst)
    requires z < |src.zones| < 0x8000_0000 && src.zones[z].ledsCount < 0x1_0000
    ensures SliceValid(src, z) && SliceValid(dst, z)
    ensures LedSum(dst.zones[..z]) + |Slice(src, z)| <= |dst.colors|
    ensures ApplyZoneColors(dst, ZoneColorDescription(src, z)) ==
            Some(dst.(colors := Overlay(dst.colors, LedSum(dst.zones[..z]), Slice(src, z))))
  {
    hide ZoneMessage, LedSum, DecWords, DecU16, DecU32;
    ZoneStart(src, z);
    ZoneStart(dst, z);
    assert Slice(src, z)[..src.zones[z].ledsCount] == Slice(src, z);
    ZoneMessageParts(z, Slice(src, z));
    if src.zones[z].ledsCount == 0 {
      assert Overlay(dst.colors, LedSum(dst.zones[..z]), []) == dst.colors;
    }
  }

  lemma {:induction false} ZonesTransfer(src: Device, dst: Device, n: nat)
    requires Settled(src) && Settled(dst) && SameShape(src, dst)
    requires n <= |src.zones| < 0x8000_0000 && |src.colors| < 0x1_0000
    ensures SlicesValid(src) && LedSum(src.zones[..n]) <= |src.colors| == |dst.colors|
    ensures ApplyZones(src, dst, n) ==
            Some(dst.(colors := src.colors[..LedSum(src.zones[..n])] + dst.colors[LedSum(src.zones[..n])..]))
  {
    hide ZoneColorDescription, ApplyZoneColors, Setup, LedSum;
    SettledSlices(src);
    SlicesCover(src, n);
    SameLength(src, dst);
    if n == 0 {
      SlicesCover(src, 0);
      assert src.colors[..LedSum(src.zones[..0])] == [];
      EmptyLedSum(src.zones);
      assert [] + dst.colors == dst.colors;
    } else {
      var z := n - 1;
      ZonesTransfer(src, dst, z);
      var s, t := LedSum(src.zones[..z]), LedSum(src.zones[..n]);
      var mid := dst.(colors := src.colors[..s] + dst.colors[s..]);
      LedSumStep(src.zones, z);
      ZoneStart(src, z);
      StillSettled(dst, mid);
      SameCounts(src.zones, mid.zones, z);
      ZoneColorsTransfer(src, mid, z);
      hide ApplyZones, Slice, SameShape, Settled;
      OverlayNext(src.colors, dst.colors, s, t, Slice(src, z));
    }
  }

  /** Laying the next part of `src` over `dst`, of which everything before is laid already. */
  lemma OverlayNext(src: seq<U32>, dst: seq<U32>, s: nat, t: nat, part: seq<U32>)
    requires s <= t <= |src| == |dst| && part == src[s..t]
    ensures Overlay(src[..s] + dst[s..], s, part) == src[..t] + dst[t..]
  {
  }

  lemma EmptyLedSum(zones: seq<Zone>)
    ensures LedSum(zones[..0]) == 0
  {
  }

  lemma SameLength(src: Device, dst: Device)
    requires Settled(src) && Settled(dst) && SameShape(src, dst)
    ensures |src.colors| == |dst.colors|
  {
    SameCounts(src.zones, dst.zones, |src.zones|);
    assert src.zones[..|src.zones|] == src.zones && dst.zones[..|dst.zones|] == dst.zones;
    assert Setup(src).colors == src.colors && Setup(dst).colors == dst.colors;
  }

  lemma StillSettled(d: Device, e: Device)
    requires Settled(d) && e == d.(colors := e.colors) && |e.colors| == |d.colors|
    ensures Settled(e)
  {
    assert Setup(d).colors == d.colors && Setup(e).colors == e.colors;
  }

  /** The whole-device description sets the receiver's first colours to the sender's, and is ignored if it holds more
      than the receiver has. */
  lemma ColorsTransfer(src: Device, dst: Device)
    requires ListFits(src.colors)
    ensures ApplyColors(dst.colors, ColorDescription(src.colors)) ==
            Some(if |src.colors| > |dst.colors| then dst.colors else src.colors + dst.colors[|src.colors|..])
  {
    hide Has, EncWords, PutU16, PutU32, WordsAt;
    var n := |src.colors|;
    var buf := ColorDescription(src.colors);
    assert src.colors[..Count(src.colors)] == src.colors;
    HasSelf(buf);
    HasSplit(buf, 0, PutU32(6 + 4 * n), EncColors(src.colors));
    HasSplit(buf, 4, PutU16(n), EncWords(src.colors));
    U16RoundTrip(buf, 4, n);
    WordsRoundTrip(buf, 6, src.colors);
    if n <= |dst.colors| { assert Overlay(dst.colors, 0, src.colors) == src.colors + dst.colors[n..]; }
  }

  /** Sending every zone's description has the same effect as sending the device's one description: the
      receiver ends with the sender's colours. */
  lemma ZonesEqualWhole(src: Device, dst: Device)
    requires Settled(src) && Settled(dst) && SameShape(src, dst)
    requires |src.zones| < 0x8000_0000 && |src.colors| < 0x1_0000
    ensures SlicesValid(src)
    ensures ApplyZones(src, dst, |src.zones|) == Some(dst.(colors := src.colors))
    ensures ApplyColors(dst.colors, ColorDescription(src.colors)) == Some(src.colors)
  {
    hide ApplyZones, ApplyColors, ColorDescription;
    ZonesTransfer(src, dst, |src.zones|);
    SameLength(src, dst);
    SlicesCover(src, |src.zones|);
    assert src.zones[..|src.zones|] == src.zones;
    var n := LedSum(src.zones);
    assert n == |src.colors| by {
      assert Setup(src).colors == src.colors;
    }
    assert src.colors[..n] + dst.colors[n..] == src.colors;
    ColorsTransfer(src, dst);
    assert dst.colors[|src.colors|..] == [];
  }

  // ---------------------------------------------------------------- zone descriptions of any sender

  /** A zone description of any sender is applied without leaving the zones or the colour buffer if and only if the
      index is past the zone count, or it holds no colour, or it names a zone with LEDs from whose first one its
      colours fit into the rest of the buffer. */
  lemma ZoneWriteDefinedIff(d: Device, buf: seq<Byte>, z: U32, n: U16)
    requires Settled(d) && Names(buf, z, n)
    ensures ApplyZoneColors(d, buf).Some? <==>
            || z > |d.zones| || n == 0
            || (z < |d.zones| && d.zones[z].ledsCount > 0 && LedSum(d.zones[..z]) + n <= LedSum(d.zones))
  {
    hide LedSum, DecWords, DecU16, DecU32, Settled;
    if z < |d.zones| { ZoneStart(d, z); }
  }

  /** The write changes nothing but colours of zone `z`. */
  predicate StaysInside(d: Device, z: nat, buf: seq<Byte>)
    requires z < |d.zones|
  {
    var r := ApplyZoneColors(d, buf);
    && r.Some? && |r.value.colors| == |d.colors| && r.value == d.(colors := r.value.colors)
    && forall i :: 0 <= i < |d.colors| && !InSlice(d.zones[z], i) ==> r.value.colors[i] == d.colors[i]
  }

  lemma ShortStaysInside(d: Device, z: U32, n: U16, buf: seq<Byte>)
    requires Settled(d) && z < |d.zones| && n <= d.zones[z].ledsCount && Names(buf, z, n)
    ensures StaysInside(d, z, buf)
  {
    hide LedSum, WordsAt, DecU16, DecU32, Settled;
    ZoneStart(d, z);
  }

  /** One colour too many goes to the next zone, or past the buffer. */
  lemma LongLeaves(d: Device, z: U32, n: U16) returns (buf: seq<Byte>)
    requires Settled(d) && z < |d.zones| && n > d.zones[z].ledsCount
    ensures Names(buf, z, n) && !StaysInside(d, z, buf)
  {
    hide LedSum, DecWords, DecU16, DecU32, Settled, ZoneMessage;
    ZoneStart(d, z);
    var at := LedSum(d.zones[..z]) + d.zones[z].ledsCount;
    var other: U32 := if at < |d.colors| && d.colors[at] == 0 then 1 else 0;
    var words: seq<U32> := seq(n, _ => other);
    buf := ZoneMessage(z, words);
    ZoneMessageParts(z, words);
    assert !InSlice(d.zones[z], at);
  }

  /** Every zone description of `n` colours stays inside the zone it names if and only if `n` is at most the zone's LED
      count, which the receiver does not check. */
  lemma ZoneWriteStaysInsideIff(d: Device, z: U32, n: U16)
    requires Settled(d) && z < |d.zones|
    ensures (forall buf | Names(buf, z, n) :: StaysInside(d, z, buf)) <==> n <= d.zones[z].ledsCount
  {
    hide Names, StaysInside, Settled;
    if n <= d.zones[z].ledsCount {
      forall buf | Names(buf, z, n) ensures StaysInside(d, z, buf) { ShortStaysInside(d, z, n, buf); }
    } else {
      var buf := LongLeaves(d, z, n);
    }
  }

  /** Two zones of one LED each. */
  const PAIR: Device := NEW_DEVICE.(zones := [OneLed(0), OneLed(1)], colors := [0, 0])

  function OneLed(start: U32): Zone { Zone([], 0, 1, 1, 1, None, [], start, Some(start), None) }

  lemma PairSettled()
    ensures Settled(PAIR) && LedSum(PAIR.zones) == 2
  {
    var zs := PAIR.zones;
    assert zs[..0] == [] && zs[..1] == [OneLed(0)] && zs[..2] == zs;
    LedSumStep(zs, 0);
    LedSumStep(zs, 1);
    assert SetupZones(zs, 2, 0) == zs;
  }

  /** The same with its two LEDs: the second zone's pointer shows the second one. */
  lemma SecondLed(a: Led, b: Led)
    ensures var d := Setup(PAIR.(leds := [a, b]));
            d.zones[0].leds == Some(0) && d.zones[1].leds == Some(1) && LedSlice(d, 1) == [b]
  {
    PairSettled();
    var zs := PAIR.zones;
    assert zs[..0] == [] && zs[..1] == [OneLed(0)];
    LedSumStep(zs, 0);
  }

  /** Two colours for the first zone also change the second one. */
  lemma NeighbourChanges()
    ensures Settled(PAIR) && ApplyZoneColors(PAIR, ZoneMessage(0, [7, 7])) == Some(PAIR.(colors := [7, 7]))
    ensures InSlice(PAIR.zones[1], 1) && !InSlice(PAIR.zones[0], 1)
  {
    hide ZoneMessage;
    PairSettled();
    ZoneMessageParts(0, [7, 7]);
    assert Overlay(PAIR.colors, 0, [7, 7]) == [7, 7];
  }

  /** An index equal to the zone count passes the bound test and leaves the zones; three colours leave the buffer. */
  lemma ZoneIndexLeaves()
    ensures |PAIR.zones| == 2 && ApplyZoneColors(PAIR, ZoneMessage(2, [7])).None?
    ensures ApplyZoneColors(PAIR, ZoneMessage(3, [7])) == Some(PAIR)
    ensures ApplyZoneColors(PAIR, ZoneMessage(0, [7, 7, 7])).None?
  {
    hide ZoneMessage;
    ZoneMessageParts(2, [7]);
    ZoneMessageParts(3, [7]);
    ZoneMessageParts(0, [7, 7, 7]);
  }

  // ---------------------------------------------------------------- single LEDs

  /** A single-LED description sets that colour and nothing else; the receiver leaves its colour buffer exactly for an
      index that is at most its LED count and not below its colour count, and ignores a larger one. */
  lemma SingleLedTransfer(src: Device, dst: Device, k: nat)
    requires k < |src.colors| && k < 0x8000_0000
    ensures ApplySingleLed(dst, SingleLedDescription(src, k)) ==
            if k > |dst.leds| then Some(dst)
            else if k >= |dst.colors| then None
            else Some(dst.(colors := dst.colors[k := src.colors[k]]))
  {
    hide Has, PutU32, DecU32;
    var buf := SingleLedDescription(src, k);
    HasSelf(buf);
    HasSplit(buf, 0, PutU32(k), PutU32(src.colors[k]));
    U32RoundTrip(buf, 0, k);
    U32RoundTrip(buf, 4, src.colors[k]);
  }

  /** Where LEDs and colours are equally many, the index right after them is the one that leaves the buffer. */
  lemma SingleLedGuardIff(src: Device, dst: Device, k: nat)
    requires k < |src.colors| && k < 0x8000_0000 && |dst.leds| == |dst.colors|
    ensures ApplySingleLed(dst, SingleLedDescription(src, k)).None? <==> k == |dst.leds|
  {
    SingleLedTransfer(src, dst, k);
  }

  /** A controller without LEDs and colours takes the description of LED 0. */
  lemma SingleLedLeaves()
    ensures ApplySingleLed(NEW_DEVICE, SingleLedDescription(PAIR, 0)).None?
  {
    SingleLedTransfer(PAIR, NEW_DEVICE, 0);
  }

  // ---------------------------------------------------------------- modes

  lemma ModeDescriptionParts(d: Device, k: nat, v: nat)
    requires k < |d.modes| && k < 0x8000_0000 && ModeFits(d.modes[k])
    ensures var buf := ModeDescription(d, k, v);
            DecU32(buf, 4) == Some((k, 8)) && DecMode(v, buf, 8) == Some((GateMode(v, d.modes[k]), |buf|))
  {
    hide Has, EncMode, DecMode, PutU32, GateMode;
    var buf := ModeDescription(d, k, v);
    HasSelf(buf);
    HasSplit(buf, 0, PutU32((8 + |EncMode(v, d.modes[k])|) % 0x1_0000_0000), PutU32(k) + EncMode(v, d.modes[k]));
    HasSplit(buf, 4, PutU32(k), EncMode(v, d.modes[k]));
    U32RoundTrip(buf, 4, k);
    ModeRoundTrip(v, buf, 8, d.modes[k]);
  }

  /** A mode description sets the receiver's active mode and that one mode to the sender's; the other modes stay,
      and below version 3 so do the receiver's brightness fields. */
  lemma ModeTransfer(src: Device, dst: Device, k: nat, v: nat)
    requires k < |src.modes| && k < 0x8000_0000 && ModeFits(src.modes[k]) && k != |dst.modes|
    ensures var r := ApplyMode(dst, v, ModeDescription(src, k, v));
            r.Some? && if k > |dst.modes| then r.value == dst else
              var m := r.value.modes[k];
              && r.value == dst.(activeMode := k, modes := dst.modes[k := m])
              && m == src.modes[k].(name := CString(src.modes[k].name), brightnessMin := m.brightnessMin,
                                    brightnessMax := m.brightnessMax, brightness := m.brightness)
              && var from := if v >= 3 then src.modes[k] else dst.modes[k];
                 (m.brightnessMin, m.brightnessMax, m.brightness) ==
                 (from.brightnessMin, from.brightnessMax, from.brightness)
  {
    hide DecMode, DecU32, ModeDescription;
    ModeDescriptionParts(src, k, v);
  }

  /** The bound test of SetModeDescription is off by one: a mode that fits leaves the receiver's modes if and only if
      its index in the sender is the number of modes of the receiver. */
  lemma ModeIndexGuardIff(src: Device, dst: Device, k: nat, v: nat)
    requires k < |src.modes| && k < 0x8000_0000 && ModeFits(src.modes[k])
    ensures ApplyMode(dst, v, ModeDescription(src, k, v)).None? <==> k == |dst.modes|
  {
    hide DecMode, DecU32, ModeDescription;
    ModeDescriptionParts(src, k, v);
  }

  const PLAIN_MODE: Mode := Mode([], 0, 0, 0, 0, 0, 0, 0, 0, 0, 0, 0, 0, [])

  /** A sender with one mode and a receiver without modes. */
  lemma ModeIndexLeaves(v: nat)
    ensures ApplyMode(NEW_DEVICE, v, ModeDescription(NEW_DEVICE.(modes := [PLAIN_MODE]), 0, v)).None?
  {
    hide ApplyMode, ModeDescription;
    ModeIndexGuardIff(NEW_DEVICE.(modes := [PLAIN_MODE]), NEW_DEVICE, 0, v);
  }

  /** Indices from 2^31 on are negative for the receiver, which ignores them. */
  lemma NegativeIndexIgnored(d: Device, v: nat, buf: seq<Byte>, k: U32)
    requires k >= 0x8000_0000
    ensures DecU32(buf, 4) == Some((k, 8)) ==> ApplyMode(d, v, buf) == Some(d)
    ensures DecU32(buf, 0) == Some((k, 4)) ==> ApplySingleLed(d, buf) == Some(d)
  {
  }

  // ---------------------------------------------------------------- records for controllers already there

  /** Reading the same record once more doubles the lists. */
  lemma ReadTwiceDoubles(v: nat, d: Device)
    ensures var once := Appended(v, NEW_DEVICE, d); var twice := Appended(v, once, d);
            && twice == once.(modes := d.modes + d.modes, zones := d.zones + d.zones, leds := d.leds + d.leds,
                              colors := d.colors + d.colors)
            && once == d.(vendor := if v >= 1 then d.vendor else [])
  {
    assert [] + d.modes == d.modes && [] + d.zones == d.zones && [] + d.leds == d.leds && [] + d.colors == d.colors;
  }

  /** What a refresh does not copy is the same already. */
  ghost predicate SameElse(mine: Device, got: Device) {
    && mine == got.(activeMode := mine.activeMode, leds := mine.leds, colors := mine.colors, zones := mine.zones)
    && |mine.zones| == |got.zones|
    && forall z :: 0 <= z < |mine.zones| ==>
         mine.zones[z] == got.zones[z].(ledsCount := mine.zones[z].ledsCount, startIdx := mine.zones[z].startIdx,
                                        colors := mine.zones[z].colors, leds := mine.zones[z].leds)
  }

  /** A record that arrives for a known controller brings it up to date if and only if nothing but the active mode, the
      LEDs, the colours and the LED counts has changed: modes, matrices and segments are not copied. */
  lemma RefreshIsRecordIff(mine: Device, got: Device)
    requires Setup(got) == got
    ensures Refreshed(mine, got) == Some(got) <==> SameElse(mine, got)
  {
    hide LedSum;
    if |mine.zones| == |got.zones| {
      var zs := Recounted(mine.zones, got.zones);
      SameCounts(zs, got.zones, |zs|);
      assert zs[..|zs|] == zs && got.zones[..|zs|] == got.zones;
      var r := Refreshed(mine, got).value;
      assert r.colors == Setup(got).colors;
      forall z | 0 <= z < |zs| ensures r.zones[z] == Setup(got).zones[z].(name := mine.zones[z].name,
          kind := mine.zones[z].kind, ledsMin := mine.zones[z].ledsMin, ledsMax := mine.zones[z].ledsMax,
          matrix := mine.zones[z].matrix, segments := mine.zones[z].segments)
      {
        SameCounts(zs, got.zones, z);
      }
      if SameElse(mine, got) { assert r.zones == got.zones; }
    }
  }

  /** A zone that has got a segment keeps none at the client. */
  lemma RefreshMisses()
    ensures var got := NEW_DEVICE.(zones := [OneLed(0).(segments := [Segment([], 0, 0, 1)])], colors := [0]);
            var mine := got.(zones := [OneLed(0)]);
            Setup(got) == got && Refreshed(mine, got) == Some(mine)
  {
    var got := NEW_DEVICE.(zones := [OneLed(0).(segments := [Segment([], 0, 0, 1)])], colors := [0]);
    var mine := got.(zones := [OneLed(0)]);
    assert got.zones[..0] == [] == mine.zones[..0] && got.zones[..1] == got.zones && mine.zones[..1] == mine.zones;
    LedSumStep(got.zones, 0);
    LedSumStep(mine.zones, 0);
    assert Setup(got).zones == got.zones;
    assert Recounted(mine.zones, got.zones) == mine.zones;
    assert Setup(mine).zones == mine.zones;
  }
}
