/** What loading a profile guarantees: a greedy matching that is injective and maximal, in list order within a class of
    devices that cannot be told apart, and the settings and colours that were saved. */
module Restore {
  import opened Bytes
  import opened Description
  import opened ProfileFile
  import opened Profiles

  // ---------------------------------------------------------------- injective and maximal

  lemma {:induction false} TakesUnused(saved: seq<Device>, lives: seq<Device>, k: nat)
    requires k < |lives|
    ensures var a := Assigned(saved, lives);
            if a[k].Some? then
              && a[k].value < |saved| && Matches(saved[a[k].value], lives[k]) && a[k] !in a[..k]
              && (forall i :: 0 <= i < a[k].value && Matches(saved[i], lives[k]) ==> Some(i) in a[..k])
            else forall i :: 0 <= i < |saved| && Matches(saved[i], lives[k]) ==> Some(i) in a[..k]
  {
    hide Matches, FirstMatch;
    AssignedPrefix(saved, lives, k);
  }

  /** Each saved controller serves at most one device, which it matches; and when the loop is done no device that got
      nothing matches a saved controller that nobody took. */
  lemma {:induction false} InjectiveAndMaximal(saved: seq<Device>, lives: seq<Device>)
    ensures var a := Assigned(saved, lives);
            && (forall k :: 0 <= k < |a| && a[k].Some? ==>
                  a[k].value < |saved| && Matches(saved[a[k].value], lives[k]))
            && (forall j, k :: 0 <= j < k < |a| && a[j].Some? ==> a[j] != a[k])
            && (forall i, k :: 0 <= k < |a| && a[k].None? && 0 <= i < |saved| && Some(i) !in a ==>
                  !Matches(saved[i], lives[k]))
  {
    hide Matches, Assigned;
    var a := Assigned(saved, lives);
    forall k | 0 <= k < |a|
      ensures a[k].Some? ==> a[k].value < |saved| && Matches(saved[a[k].value], lives[k])
      ensures forall j :: 0 <= j < k && a[j].Some? ==> a[j] != a[k]
      ensures forall i :: a[k].None? && 0 <= i < |saved| && Some(i) !in a ==> !Matches(saved[i], lives[k])
    {
      TakesUnused(saved, lives, k);
      assert forall j :: 0 <= j < k ==> a[..k][j] == a[j];
      assert forall m :: m in a[..k] ==> m in a;
    }
  }

  function Successes(a: seq<Option<nat>>): nat {
    if a == [] then 0 else Successes(a[..|a| - 1]) + if a[|a| - 1].Some? then 1 else 0
  }

  function Flags(used: seq<bool>): nat {
    if used == [] then 0 else Flags(used[..|used| - 1]) + if used[|used| - 1] then 1 else 0
  }

  lemma {:induction false} FlagsSet(used: seq<bool>, i: nat)
    requires i < |used| && !used[i]
    ensures Flags(used[i := true]) == Flags(used) + 1
  {
    var n := |used| - 1;
    var t := used[i := true];
    if i < n {
      FlagsSet(used[..n], i);
      assert t[..n] == used[..n][i := true];
    } else {
      assert t[..n] == used[..n];
    }
  }

  lemma {:induction false} NoFlags(used: seq<bool>)
    requires forall i :: 0 <= i < |used| ==> !used[i]
    ensures Flags(used) == 0
  {
    if used != [] { NoFlags(used[..|used| - 1]); }
  }

  /** As many devices succeed as saved controllers are used. */
  lemma {:induction false} SuccessesAreFlags(saved: seq<Device>, lives: seq<Device>)
    ensures Successes(Assigned(saved, lives)) == Flags(Used(|saved|, Assigned(saved, lives)))
    decreases |lives|
  {
    hide Matches, FirstMatch, Flags;
    if lives == [] {
      NoFlags(Used(|saved|, []));
    } else {
      var n := |lives| - 1;
      var a := Assigned(saved, lives[..n]);
      var m := FirstMatch(saved, Used(|saved|, a), lives[n], 0);
      SuccessesAreFlags(saved, lives[..n]);
      assert (a + [m])[..n] == a;
      UsedStep(|saved|, a, m);
      if m.Some? { FlagsSet(Used(|saved|, a), m.value); }
    }
  }

  // ---------------------------------------------------------------- devices that cannot be told apart

  function Count(cs: seq<int>, c: int): nat {
    if cs == [] then 0 else Count(cs[..|cs| - 1], c) + if cs[|cs| - 1] == c then 1 else 0
  }

  /** How many entries of the same class come before entry `i`. */
  function Rank(cs: seq<int>, i: nat): nat
    requires i < |cs|
  {
    Count(cs[..i], cs[i])
  }

  lemma {:induction false} CountGrows(cs: seq<int>, c: int, i: nat, j: nat)
    requires i <= j <= |cs|
    ensures Count(cs[..i], c) <= Count(cs[..j], c)
    ensures i < j && cs[i] == c ==> Count(cs[..i], c) < Count(cs[..j], c)
    decreases j
  {
    if i < j {
      CountGrows(cs, c, i, j - 1);
      assert cs[..j][..j - 1] == cs[..j - 1];
    }
  }

  /** Every smaller rank is held by an earlier entry of the class. */
  lemma {:induction false} RankHeld(cs: seq<int>, c: int, n: nat, r: nat) returns (i: nat)
    requires n <= |cs| && r < Count(cs[..n], c)
    ensures i < n && cs[i] == c && Rank(cs, i) == r
  {
    assert cs[..n][..n - 1] == cs[..n - 1];
    if r < Count(cs[..n - 1], c) {
      i := RankHeld(cs, c, n - 1, r);
    } else {
      i := n - 1;
    }
  }

  predicate Classes(saved: seq<Device>, lives: seq<Device>, cs: seq<int>, cl: seq<int>) {
    && |cs| == |saved| && |cl| == |lives|
    && forall i, k :: 0 <= i < |saved| && 0 <= k < |lives| ==> (Matches(saved[i], lives[k]) <==> cs[i] == cl[k])
  }

  lemma RankUnique(cs: seq<int>, i: nat, j: nat)
    requires i < |cs| && j < |cs| && cs[i] == cs[j] && Rank(cs, i) == Rank(cs, j)
    ensures i == j
  {
    if i < j { CountGrows(cs, cs[i], i, j); }
    if j < i { CountGrows(cs, cs[i], j, i); }
  }

  lemma RankBelow(cs: seq<int>, i: nat)
    requires i < |cs|
    ensures Rank(cs, i) < Count(cs, cs[i])
  {
    CountGrows(cs, cs[i], i, |cs|);
    assert cs[..|cs|] == cs;
  }

  /** The saved controllers taken so far are the first ones of each class. */
  lemma {:induction false} TakenByRank(saved: seq<Device>, lives: seq<Device>, cs: seq<int>, cl: seq<int>, i: nat)
    requires Classes(saved, lives, cs, cl) && i < |saved|
    ensures Some(i) in Assigned(saved, lives) <==> Rank(cs, i) < Count(cl, cs[i])
    decreases |lives|, 1
  {
    hide Matches, FirstMatch;
    if lives != [] {
      var n := |lives| - 1;
      var a, m := Assigned(saved, lives[..n]), Assigned(saved, lives)[n];
      assert Assigned(saved, lives) == a + [m];
      TakenByRank(saved, lives[..n], cs, cl[..n], i);
      LastTakes(saved, lives, cs, cl);
      RankBelow(cs, i);
      if m.Some? && cs[i] == cl[n] && Rank(cs, i) == Rank(cl, n) { RankUnique(cs, i, m.value); }
    }
  }

  /** The last device takes the saved controller of its class with its own rank, if there is one. */
  lemma {:induction false} LastTakes(saved: seq<Device>, lives: seq<Device>, cs: seq<int>, cl: seq<int>)
    requires Classes(saved, lives, cs, cl) && lives != []
    ensures var n := |lives| - 1; var m := Assigned(saved, lives)[n];
            if m.Some? then m.value < |saved| && cs[m.value] == cl[n] && Rank(cs, m.value) == Rank(cl, n)
            else Count(cs, cl[n]) <= Rank(cl, n)
    decreases |lives|, 0
  {
    hide Matches, FirstMatch;
    var n := |lives| - 1;
    var a, m := Assigned(saved, lives[..n]), Assigned(saved, lives)[n];
    var x, r := cl[n], Rank(cl, n);
    assert Assigned(saved, lives) == a + [m];
    forall i | 0 <= i < |saved| && cs[i] == x ensures Some(i) in a <==> Rank(cs, i) < r {
      TakenByRank(saved, lives[..n], cs, cl[..n], i);
    }
    if m.Some? && Rank(cs, m.value) > r {
      var j := RankHeld(cs, x, m.value, r);
    }
    if m.None? && Count(cs, x) > r {
      assert cs[..|cs|] == cs;
      var j := RankHeld(cs, x, |cs|, r);
    }
  }

  /** When matching is a matter of classes, the k-th live device of a class takes the k-th saved controller of it, and
      nothing if there are not that many. */
  lemma KthTakesKth(saved: seq<Device>, lives: seq<Device>, cs: seq<int>, cl: seq<int>, k: nat)
    requires Classes(saved, lives, cs, cl) && k < |lives|
    ensures var m := Assigned(saved, lives)[k];
            if m.Some? then m.value < |saved| && cs[m.value] == cl[k] && Rank(cs, m.value) == Rank(cl, k)
            else Count(cs, cl[k]) <= Rank(cl, k)
  {
    hide Matches, Assigned;
    AssignedPrefix(saved, lives, k);
    if k + 1 < |lives| { AssignedPrefix(saved, lives, k + 1); }
    assert lives[..|lives|] == lives;
    LastTakes(saved, lives[..k + 1], cs, cl[..k + 1]);
    assert cl[..k + 1][..k] == cl[..k];
  }

  // ---------------------------------------------------------------- every device its own record

  /** Every device takes its own record if and only if every device matches its own record. */
  lemma {:induction false} OwnRecordIff(saved: seq<Device>, lives: seq<Device>)
    requires |saved| == |lives|
    ensures (forall k :: 0 <= k < |lives| ==> Assigned(saved, lives)[k] == Some(k)) <==>
            (forall k :: 0 <= k < |lives| ==> Matches(saved[k], lives[k]))
  {
    hide Matches, Assigned;
    if forall k :: 0 <= k < |lives| ==> Matches(saved[k], lives[k]) {
      OwnRecords(saved, lives, |lives|);
    } else {
      InjectiveAndMaximal(saved, lives);
    }
  }

  lemma {:induction false} OwnRecords(saved: seq<Device>, lives: seq<Device>, n: nat)
    requires n <= |lives| == |saved| && forall k :: 0 <= k < |lives| ==> Matches(saved[k], lives[k])
    ensures forall k :: 0 <= k < n ==> Assigned(saved, lives)[k] == Some(k)
  {
    hide Matches, Assigned;
    if n > 0 {
      OwnRecords(saved, lives, n - 1);
      TakesUnused(saved, lives, n - 1);
      var a := Assigned(saved, lives);
      assert forall k :: 0 <= k < n - 1 ==> a[..n - 1][k] == Some(k);
    }
  }

  // ---------------------------------------------------------------- settings and colours come back

  /** `e` is `d` after changes to mode settings, mode colours, the active mode and colours. */
  predicate Changed(d: Device, e: Device) {
    && e == d.(modes := e.modes, activeMode := e.activeMode, colors := e.colors)
    && |e.modes| == |d.modes| && |e.colors| == |d.colors|
    && forall k :: 0 <= k < |d.modes| ==> ModeChanged(d.modes[k], e.modes[k])
  }

  predicate ModeChanged(m: Mode, n: Mode) {
    m == n.(speed := m.speed, brightness := m.brightness, direction := m.direction, colorMode := m.colorMode,
            colors := m.colors)
  }

  /** A profile keeps all settings of the device. */
  ghost predicate Restorable(d: Device) {
    && (forall k :: 0 <= k < |d.modes| ==> NulFree(d.modes[k].name))
    && (d.colors == [] || |d.colors| == LedTotal(d.zones))
  }

  lemma LoadedParts(d: Device)
    ensures var s := Loaded(PROFILE_VERSION, d);
            && |s.modes| == |d.modes|
            && (forall k :: 0 <= k < |d.modes| ==> s.modes[k] == d.modes[k].(name := CString(d.modes[k].name)))
            && s.activeMode == d.activeMode && s.colors == Resize(d.colors, LedTotal(d.zones))
            && s.kind == d.kind && s.name == CString(d.name) && s.description == CString(d.description)
            && s.version == CString(d.version) && s.serial == CString(d.serial) && s.location == CString(d.location)
  {
    hide CString, LedSum, Resize;
    GateKeepsLedSum(PROFILE_VERSION, d.zones);
  }

  lemma LoadModeRestores(d: Mode, e: Mode)
    requires ModeChanged(d, e)
    ensures LoadMode(d.(name := CString(d.name)), e) == if NulFree(d.name) then d else e
  {
    NulFreeIsOwnCString(d.name);
  }

  /** What loading settings takes from the saved device: the five settings of every mode that is described alike and the
      active mode, if there are as many modes, and the colours, if there are as many. Brightness limits are neither
      compared nor taken. */
  lemma SettingsTaken(saved: Device, live: Device, k: nat)
    ensures var r := LoadSettings(saved, live);
            && r == live.(modes := r.modes, activeMode := r.activeMode, colors := r.colors)
            && r.colors == (if |saved.colors| == |live.colors| then saved.colors else live.colors)
            && r.activeMode == (if |saved.modes| == |live.modes| then saved.activeMode else live.activeMode)
            && |r.modes| == |live.modes| && (|saved.modes| != |live.modes| ==> r.modes == live.modes)
            && (k < |saved.modes| == |live.modes| ==>
                  var s, m := saved.modes[k], live.modes[k];
                  var from := if (s.name, s.value, s.flags, s.speedMin, s.speedMax, s.colorsMin, s.colorsMax)
                                 == (m.name, m.value, m.flags, m.speedMin, m.speedMax, m.colorsMin, m.colorsMax)
                              then s else m;
                  r.modes[k] == m.(speed := from.speed, brightness := from.brightness, direction := from.direction,
                                   colorMode := from.colorMode, colors := from.colors))
  {
    if k < |saved.modes| == |live.modes| {
      assert LoadModes(saved.modes, live.modes)[k] == LoadMode(saved.modes[k], live.modes[k]);
    }
  }

  lemma SettingsRestored(d: Device, e: Device)
    requires Restorable(d) && Changed(d, e)
    ensures LoadSettings(Loaded(PROFILE_VERSION, d), e) == d
  {
    hide Loaded, LoadMode, NulFree, CString, ModeChanged, LedTotal;
    LoadedParts(d);
    var s := Loaded(PROFILE_VERSION, d);
    forall k | 0 <= k < |d.modes| ensures LoadMode(s.modes[k], e.modes[k]) == d.modes[k] {
      LoadModeRestores(d.modes[k], e.modes[k]);
    }
    assert LoadModes(s.modes, e.modes) == d.modes;
    if d.colors == [] { assert e.colors == []; } else { assert Resize(d.colors, |d.colors|) == d.colors; }
  }

  /** A mode whose name holds a NUL, or colours that do not fill the zones, are not restored after some change. */
  lemma NotRestored(d: Device) returns (e: Device)
    requires !Restorable(d)
    ensures Changed(d, e) && LoadSettings(Loaded(PROFILE_VERSION, d), e) != d
  {
    hide Loaded, CString, LedTotal;
    LoadedParts(d);
    if k :| 0 <= k < |d.modes| && !NulFree(d.modes[k].name) {
      var speed: int := d.modes[k].speed;
      var m := d.modes[k].(speed := (speed + 1) % 0x1_0000_0000);
      e := d.(modes := d.modes[k := m]);
      LoadModeRestores(d.modes[k], m);
    } else {
      var color: int := d.colors[0];
      e := d.(colors := d.colors[0 := (color + 1) % 0x1_0000_0000]);
    }
  }

  /** A profile undoes every change of settings and colours if and only if no mode name holds a NUL and the colours
      fill the zones (or there are none). */
  lemma RestoresIff(d: Device)
    ensures (forall e | Changed(d, e) :: LoadSettings(Loaded(PROFILE_VERSION, d), e) == d) <==> Restorable(d)
  {
    hide Loaded, Changed, LoadSettings, Restorable;
    if Restorable(d) {
      forall e | Changed(d, e) ensures LoadSettings(Loaded(PROFILE_VERSION, d), e) == d {
        SettingsRestored(d, e);
      }
    } else {
      var e := NotRestored(d);
    }
  }

  predicate MatchesOwn(d: Device) { Matches(Loaded(PROFILE_VERSION, d), d) }

  /** A device matches its own record if and only if the strings that are compared hold no NUL and an I2C location has
      a part after its bus. */
  lemma MatchesOwnIff(d: Device)
    ensures MatchesOwn(d) <==>
            && NulFree(d.name) && NulFree(d.description) && NulFree(d.version) && NulFree(d.serial)
            && LocationMatches(CString(d.location), d.location)
    ensures NulFree(d.location) ==>
              (LocationMatches(CString(d.location), d.location) <==> (I2C <= d.location ==> Contains(d.location, COMMA)))
  {
    hide Loaded, CString, NulFree, LedTotal;
    LoadedParts(d);
    NulFreeIsOwnCString(d.name);
    NulFreeIsOwnCString(d.description);
    NulFreeIsOwnCString(d.version);
    NulFreeIsOwnCString(d.serial);
    NulFreeIsOwnCString(d.location);
    LocationMatchesOwn(d.location);
  }

  lemma LocationMatchesOwn(s: seq<Byte>)
    ensures LocationMatches(s, s) <==> (I2C <= s ==> Contains(s, COMMA))
  {
    var comma := RFind(s, COMMA, |s|);
    if comma.Some? {
      var tail := s[comma.value + 2..];
      assert FoundAt(s, tail, comma.value + 2);
      assert FoundAt(s, COMMA, comma.value);
    }
    if HID <= s { assert s[0] == HID[0]; }
    if I2C <= s { assert s[0] == I2C[0]; }
  }

  // ---------------------------------------------------------------- which locations match

  /** A live HID device: the location is not compared at all. */
  lemma HidMatchesIff(saved: Device, live: Device)
    requires HID <= live.location
    ensures Matches(saved, live) <==>
            && saved.kind == live.kind && saved.name == live.name && saved.description == live.description
            && saved.version == live.version && saved.serial == live.serial
  {
  }

  /** An I2C location: the bus and the address behind it. */
  function I2cAt(bus: seq<Byte>, address: seq<Byte>): (r: seq<Byte>)
    ensures I2C <= r && !(HID <= r)
  {
    var r := I2C + bus + COMMA + address;
    assert r[0] == I2C[0] && r[..|I2C|] == I2C;
    r
  }

  lemma NoneLater(s: seq<Byte>, front: seq<Byte>, address: seq<Byte>, k: nat)
    requires s == front + COMMA + address && !Contains(address, COMMA) && k > |front|
    ensures !FoundAt(s, COMMA, k)
  {
    if k + 2 <= |s| {
      assert s[k..k + 2][0] == s[k];
      if k > |front| + 1 {
        var at := k - |front| - 2;
        assert s[k..k + 2] == address[at..at + 2];
        assert !FoundAt(address, COMMA, at);
      }
    }
  }

  /** A separator that is followed by none is the last one. */
  lemma LastSeparator(s: seq<Byte>, front: seq<Byte>, address: seq<Byte>)
    requires s == front + COMMA + address && !Contains(address, COMMA)
    ensures RFind(s, COMMA, |s|) == Some(|front|)
  {
    assert s[|front|..|front| + 2] == COMMA;
    assert FoundAt(s, COMMA, |front|);
    forall k | |front| < k <= |s| ensures !FoundAt(s, COMMA, k) { NoneLater(s, front, address, k); }
  }

  /** A live I2C device: of its location only the address has to occur in the saved one; the bus does not count. */
  lemma I2cMatchesIff(saved: Device, live: Device, bus: seq<Byte>, address: seq<Byte>)
    requires live.location == I2cAt(bus, address) && !Contains(address, COMMA)
    ensures Matches(saved, live) <==>
            && saved.kind == live.kind && saved.name == live.name && saved.description == live.description
            && saved.version == live.version && saved.serial == live.serial && Contains(saved.location, address)
  {
    hide RFind, Contains;
    var s := live.location;
    LastSeparator(s, I2C + bus, address);
    assert s[|I2C + bus| + 2..] == address;
  }

  /** So it matches a record of the same device on any bus. */
  lemma BusDoesNotCount(saved: Device, live: Device, bus: seq<Byte>, other: seq<Byte>, address: seq<Byte>)
    requires live.location == I2cAt(bus, address) && saved.location == I2cAt(other, address)
    requires !Contains(address, COMMA)
    ensures Matches(saved, live) <==>
            && saved.kind == live.kind && saved.name == live.name && saved.description == live.description
            && saved.version == live.version && saved.serial == live.serial
  {
    hide Contains;
    I2cMatchesIff(saved, live, bus, address);
    AddressInside(other, address);
  }

  lemma AddressInside(bus: seq<Byte>, address: seq<Byte>)
    ensures Contains(I2cAt(bus, address), address)
  {
    var s := I2cAt(bus, address);
    assert s[|I2C + bus + COMMA|..] == address;
    assert FoundAt(s, address, |I2C + bus + COMMA|);
  }

  /** A live I2C device whose location has no separator matches nothing. */
  lemma NoSeparatorMatches(saved: Device, live: Device)
    requires I2C <= live.location && !Contains(live.location, COMMA)
    ensures !Matches(saved, live)
  {
    hide RFind, Contains, FoundAt;
    OnePrefix(live.location);
    NoneFound(live.location);
  }

  lemma OnePrefix(s: seq<Byte>)
    ensures !(HID <= s && I2C <= s)
  {
    assert HID <= s ==> s[0] == 72;
    assert I2C <= s ==> s[0] == 73;
  }

  lemma NoneFound(s: seq<Byte>)
    requires !Contains(s, COMMA)
    ensures RFind(s, COMMA, |s|) == None
  {
    assert forall k: nat :: k <= |s| ==> !FoundAt(s, COMMA, k);
  }

  /** Any other live device: the locations have to be equal. */
  lemma OtherMatchesIff(saved: Device, live: Device)
    requires !(HID <= live.location) && !(I2C <= live.location)
    ensures Matches(saved, live) <==>
            && saved.kind == live.kind && saved.name == live.name && saved.description == live.description
            && saved.version == live.version && saved.serial == live.serial && saved.location == live.location
  {
  }

  /** Where a device may turn up again: at the same place, at any HID node, or at the same address of any bus. */
  ghost predicate SameSpot(was: seq<Byte>, now: seq<Byte>) {
    || was == now
    || (HID <= was && HID <= now)
    || exists bus: seq<Byte>, other: seq<Byte>, address: seq<Byte> ::
         was == I2cAt(bus, address) && now == I2cAt(other, address) && NulFree(was) && !Contains(address, COMMA)
  }

  /** `e` is `d` plugged in again, after changes to settings and colours. */
  ghost predicate Reattached(d: Device, e: Device) {
    Changed(d.(location := e.location), e) && SameSpot(d.location, e.location)
  }

  lemma SpotMatches(saved: seq<Byte>, was: seq<Byte>, now: seq<Byte>)
    requires SameSpot(was, now) && saved == CString(was)
    ensures LocationMatches(saved, now) <==> LocationMatches(saved, was)
  {
    hide CString, NulFree, Contains, RFind, Strlen;
    if was != now && !(HID <= was && HID <= now) {
      var bus: seq<Byte>, other: seq<Byte>, address: seq<Byte> :|
        was == I2cAt(bus, address) && now == I2cAt(other, address) && NulFree(was) && !Contains(address, COMMA);
      NulFreeIsOwnCString(was);
      AddressInside(bus, address);
      LastSeparator(was, I2C + bus, address);
      LastSeparator(now, I2C + other, address);
      assert was[|I2C + bus| + 2..] == address && now[|I2C + other| + 2..] == address;
    }
  }

  lemma ReattachedMatches(d: Device, e: Device)
    requires Reattached(d, e)
    ensures Matches(Loaded(PROFILE_VERSION, d), e) <==> MatchesOwn(d)
  {
    hide Loaded, LocationMatches, SameSpot;
    LoadedParts(d);
    SpotMatches(CString(d.location), d.location, e.location);
  }

  lemma ChangedMatches(d: Device, e: Device)
    requires Changed(d, e)
    ensures Matches(Loaded(PROFILE_VERSION, d), e) <==> MatchesOwn(d)
  {
    hide Loaded, LocationMatches;
  }

  /** A profile saved from `ds` and loaded after changes to settings and colours, and after HID devices have got other
      nodes and I2C devices other buses, gives every device its own record if and only if every device matches its own
      record; then all of `ds` is back where it now is, even where several devices have the same identity. */
  lemma ProfileRestores(ds: seq<Device>, es: seq<Device>)
    requires AllFit(PROFILE_VERSION, ds) && |es| == |ds| && forall k :: 0 <= k < |ds| ==> Reattached(ds[k], es[k])
    ensures var file := FileOf(PROFILE_VERSION, ds);
            && Load(file).Some?
            && var saved := Load(file).value;
               && ((forall k :: 0 <= k < |es| ==> Assigned(saved, es)[k] == Some(k)) <==>
                   (forall k :: 0 <= k < |ds| ==> MatchesOwn(ds[k])))
               && ((forall k :: 0 <= k < |ds| ==> MatchesOwn(ds[k]) && Restorable(ds[k])) ==>
                     forall k :: 0 <= k < |ds| ==> LoadOnto(saved, es)[k] == ds[k].(location := es[k].location))
  {
    hide Loaded, Load, FileOf, AllFit, Reattached, Matches, MatchesOwn, Assigned, Restorable, LoadSettings;
    LoadInvertsSave(PROFILE_VERSION, ds);
    var saved := LoadedAll(PROFILE_VERSION, ds);
    forall k | 0 <= k < |ds| ensures Matches(saved[k], es[k]) <==> MatchesOwn(ds[k]) {
      ReattachedMatches(ds[k], es[k]);
    }
    OwnRecordIff(saved, es);
    if forall k :: 0 <= k < |ds| ==> MatchesOwn(ds[k]) && Restorable(ds[k]) {
      forall k | 0 <= k < |ds| ensures LoadOnto(saved, es)[k] == ds[k].(location := es[k].location) {
        ReattachedRestored(ds[k], es[k]);
      }
    }
  }

  lemma ReattachedRestored(d: Device, e: Device)
    requires Restorable(d) && Reattached(d, e)
    ensures LoadSettings(Loaded(PROFILE_VERSION, d), e) == d.(location := e.location)
  {
    hide Loaded, LoadModes, LedTotal, SameSpot, NulFree;
    var there := d.(location := e.location);
    LoadedParts(d);
    LoadedParts(there);
    var a, b := Loaded(PROFILE_VERSION, d), Loaded(PROFILE_VERSION, there);
    assert a.modes == b.modes && a.colors == b.colors && a.activeMode == b.activeMode;
    SettingsRestored(there, e);
  }

  lemma ChangedIsReattached(d: Device, e: Device)
    requires Changed(d, e)
    ensures Reattached(d, e) && e.location == d.location
  {
  }

  predicate AllChanged(ds: seq<Device>, es: seq<Device>) {
    |es| == |ds| && forall k :: 0 <= k < |ds| ==> Changed(ds[k], es[k])
  }

  lemma CStringNulFree(s: seq<Byte>)
    ensures NulFree(CString(s))
  {
    StrlenStops(s);
  }

  /** A device that does not match its own record matches no record at all. */
  lemma MatchesNothing(d: Device, e: Device, x: Device)
    requires Changed(d, e) && !MatchesOwn(d) && (I2C <= d.location ==> NulFree(d.location))
    ensures !Matches(Loaded(PROFILE_VERSION, x), e)
  {
    hide Loaded, CString, NulFree, MatchesOwn, LedTotal, LocationMatches;
    LoadedParts(x);
    MatchesOwnIff(d);
    CStringNulFree(x.name);
    CStringNulFree(x.description);
    CStringNulFree(x.version);
    CStringNulFree(x.serial);
    if LocationMatches(CString(x.location), e.location) { LocationMatchesToo(x.location, e.location); }
  }

  lemma LocationMatchesToo(other: seq<Byte>, live: seq<Byte>)
    requires LocationMatches(CString(other), live) && (I2C <= live ==> NulFree(live))
    ensures LocationMatches(CString(live), live)
  {
    hide CString, NulFree;
    CStringNulFree(other);
    NulFreeIsOwnCString(live);
    LocationMatchesOwn(live);
    var comma := RFind(live, COMMA, |live|);
    if comma.Some? { assert FoundAt(live, COMMA, comma.value); }
    if HID <= live { assert live[0] == HID[0]; }
    if I2C <= live { assert live[0] == I2C[0]; }
  }

  lemma UnchangedIsChanged(ds: seq<Device>, k: nat, e: Device)
    requires k < |ds| && Changed(ds[k], e)
    ensures AllChanged(ds, ds[k := e])
  {
  }

  /** Some change of a device that does not match its own record, or that its record cannot restore, stays. */
  lemma StaysChanged(ds: seq<Device>, k: nat) returns (es: seq<Device>)
    requires k < |ds| && forall i :: 0 <= i < |ds| && I2C <= ds[i].location ==> NulFree(ds[i].location)
    requires !MatchesOwn(ds[k]) || (!Restorable(ds[k]) && forall i :: 0 <= i < |ds| ==> MatchesOwn(ds[i]))
    ensures AllChanged(ds, es) && LoadOnto(LoadedAll(PROFILE_VERSION, ds), es) != ds
  {
    hide Loaded, Matches, MatchesOwn, Restorable, LoadSettings, Changed, Assigned, NulFree;
    var saved, d := LoadedAll(PROFILE_VERSION, ds), ds[k];
    if !MatchesOwn(d) {
      var e := d.(activeMode := if d.activeMode == 0 then 1 else 0);
      assert Changed(d, e) by { OtherModeChanged(d, e); }
      es := ds[k := e];
      UnchangedIsChanged(ds, k, e);
      forall i | 0 <= i < |saved| ensures !Matches(saved[i], e) { MatchesNothing(d, e, ds[i]); }
      TakesUnused(saved, es, k);
      assert LoadOnto(saved, es)[k] == e;
    } else {
      var e := NotRestored(d);
      es := ds[k := e];
      UnchangedIsChanged(ds, k, e);
      forall i | 0 <= i < |ds| ensures Matches(saved[i], es[i]) {
        assert Changed(ds[i], es[i]);
        ChangedMatches(ds[i], es[i]);
      }
      OwnRecordIff(saved, es);
      assert LoadOnto(saved, es)[k] == LoadSettings(Loaded(PROFILE_VERSION, d), e);
    }
  }

  lemma OtherModeChanged(d: Device, e: Device)
    requires e == d.(activeMode := e.activeMode)
    ensures Changed(d, e)
  {
  }

  /** Saving a profile and loading it undoes every change of settings and colours of all devices at once, if and only if
      every device matches its own record and is restored by it. */
  lemma ProfileRestoresIff(ds: seq<Device>)
    requires AllFit(PROFILE_VERSION, ds)
    requires forall k :: 0 <= k < |ds| && I2C <= ds[k].location ==> NulFree(ds[k].location)
    ensures Load(FileOf(PROFILE_VERSION, ds)).Some?
    ensures (forall es | AllChanged(ds, es) :: LoadOnto(Load(FileOf(PROFILE_VERSION, ds)).value, es) == ds) <==>
            (forall k :: 0 <= k < |ds| ==> MatchesOwn(ds[k]) && Restorable(ds[k]))
  {
    hide Loaded, Load, FileOf, AllFit, Changed, Reattached, MatchesOwn, Restorable, LoadOnto, NulFree;
    LoadInvertsSave(PROFILE_VERSION, ds);
    if forall k :: 0 <= k < |ds| ==> MatchesOwn(ds[k]) && Restorable(ds[k]) {
      forall es: seq<Device> | AllChanged(ds, es) ensures LoadOnto(Load(FileOf(PROFILE_VERSION, ds)).value, es) == ds {
        forall k | 0 <= k < |ds| ensures Reattached(ds[k], es[k]) && es[k].location == ds[k].location {
          ChangedIsReattached(ds[k], es[k]);
        }
        ProfileRestores(ds, es);
      }
    } else if k :| 0 <= k < |ds| && !MatchesOwn(ds[k]) {
      var es := StaysChanged(ds, k);
    } else {
      var k :| 0 <= k < |ds| && !Restorable(ds[k]);
      var es := StaysChanged(ds, k);
    }
  }

  const NO_SEPARATOR: Device := Device(0, [], [], [], [], [], I2C, [], 0, [], [], [])

  lemma NoSeparatorMatchesNothing()
    ensures !MatchesOwn(NO_SEPARATOR)
  {
    hide Loaded, Matches, Strlen;
    forall at: nat | at <= |I2C| ensures !FoundAt(I2C, COMMA, at) {
      if at + 2 <= |I2C| { assert I2C[at..at + 2][0] == I2C[at]; }
    }
    MatchesOwnIff(NO_SEPARATOR);
  }

  /** An I2C location without a separator: the device is not found in its own profile, and its settings stay changed. */
  lemma LostLocation()
    ensures !MatchesOwn(NO_SEPARATOR)
    ensures !(forall es | AllChanged([NO_SEPARATOR], es) ::
                LoadOnto(LoadedAll(PROFILE_VERSION, [NO_SEPARATOR]), es) == [NO_SEPARATOR])
  {
    hide MatchesOwn, LoadedAll, LoadOnto, AllChanged;
    NoSeparatorMatchesNothing();
    var es := StaysChanged([NO_SEPARATOR], 0);
  }

  // ---------------------------------------------------------------- zone sizes

  /** What a device makes of a request for `n` LEDs in zone `z`, as far as loading relies on it: the other zones stay,
      and the colours fill the zones. */
  predicate Resized(d: Device, z: nat, n: U32, r: Device) {
    && |r.zones| == |d.zones| && r.modes == d.modes && r.activeMode == d.activeMode && |r.colors| == LedTotal(r.zones)
    && forall y :: 0 <= y < |d.zones| ==>
         && SameZone(r.zones[y], d.zones[y]) && r.zones[y].segments == d.zones[y].segments
         && r.zones[y].ledsCount == if y == z then n else d.zones[y].ledsCount
  }

  ghost predicate Honest(resize: ResizeZone) {
    && KeepsZones(resize)
    && forall d: Device, z: nat, n: U32 :: z < |d.zones| ==> Resized(d, z, n, resize(d, z, n))
  }

  /** The usual ResizeZone: the LED count is stored and SetupColors does the rest. */
  function PlainResize(): ResizeZone {
    (d: Device, z: nat, n: U32) =>
      if z >= |d.zones| then d else Setup(d.(zones := d.zones[z := d.zones[z].(ledsCount := n)]))
  }

  lemma PlainIsHonest()
    ensures Honest(PlainResize())
  {
    hide LedSum;
    forall d: Device, z: nat, n: U32 | z < |d.zones| ensures Resized(d, z, n, PlainResize()(d, z, n)) {
      var zs := d.zones[z := d.zones[z].(ledsCount := n)];
      var r := Setup(d.(zones := zs));
      SameCounts(r.zones, zs, |zs|);
      assert r.zones[..|zs|] == r.zones && zs[..|zs|] == zs;
    }
  }

  /** Zone `now` after loading, if `done`, from `saved` over `was`. */
  predicate ZoneLoaded(saved: Zone, was: Zone, now: Zone, done: bool) {
    && SameZone(now, was)
    && if done && SameZone(saved, was)
       then now.ledsCount == saved.ledsCount && now.segments == was.segments + saved.segments
       else now.ledsCount == was.ledsCount && now.segments == was.segments
  }

  lemma {:induction false} SizesLoaded(resize: ResizeZone, saved: seq<Zone>, live: Device, n: nat)
    requires Honest(resize) && n <= |saved| == |live.zones|
    ensures var r := LoadSizes(resize, saved, live, n);
            && r.modes == live.modes && r.activeMode == live.activeMode
            && (forall y :: 0 <= y < |saved| ==> ZoneLoaded(saved[y], live.zones[y], r.zones[y], y < n))
            && (|live.colors| == LedTotal(live.zones) ==> |r.colors| == LedTotal(r.zones))
  {
    hide LedTotal, ZoneLoaded, LoadZone, Resized, KeepsZones;
    if n == 0 {
      forall y | 0 <= y < |saved| ensures ZoneLoaded(saved[y], live.zones[y], live.zones[y], false) {
        ZoneAlone(saved[y], live.zones[y]);
      }
    } else {
      var z, mid, r := n - 1, LoadSizes(resize, saved, live, n - 1), LoadSizes(resize, saved, live, n);
      SizesLoaded(resize, saved, live, z);
      ZoneLoads(resize, saved[z], mid, z);
      forall y | 0 <= y < |saved| ensures ZoneLoaded(saved[y], live.zones[y], r.zones[y], y < n) {
        ZoneThen(saved[y], saved[z], live.zones[y], mid.zones[y], r.zones[y], y < z, y == z);
      }
    }
  }

  lemma ZoneAlone(saved: Zone, was: Zone)
    ensures ZoneLoaded(saved, was, was, false)
  {
  }

  lemma ZoneThen(saved: Zone, other: Zone, was: Zone, mid: Zone, now: Zone, done: bool, own: bool)
    requires ZoneLoaded(saved, was, mid, done) && ZoneLoaded(other, mid, now, own)
    requires own ==> !done && other == saved
    ensures ZoneLoaded(saved, was, now, done || own)
  {
  }

  lemma ZoneLoads(resize: ResizeZone, saved: Zone, live: Device, z: nat)
    requires Honest(resize) && z < |live.zones|
    ensures var r := LoadZone(resize, saved, live, z);
            && r.modes == live.modes && r.activeMode == live.activeMode
            && (forall y :: 0 <= y < |live.zones| && y != z ==>
                  ZoneLoaded(saved, live.zones[y], r.zones[y], false))
            && ZoneLoaded(saved, live.zones[z], r.zones[z], true)
            && (|live.colors| == LedTotal(live.zones) ==> |r.colors| == LedTotal(r.zones))
  {
    hide LedSum;
    if SameZone(saved, live.zones[z]) {
      var d := if saved.ledsCount != live.zones[z].ledsCount then resize(live, z, saved.ledsCount) else live;
      assert saved.ledsCount != live.zones[z].ledsCount ==> Resized(live, z, saved.ledsCount, d);
      var r := LoadZone(resize, saved, live, z);
      SameCounts(r.zones, d.zones, |r.zones|);
      assert r.zones[..|r.zones|] == r.zones && d.zones[..|r.zones|] == d.zones;
    }
  }

  /** Loading sizes gives every zone with the same name, kind and limits its saved LED count, and leaves every other
      zone its own. The segments are restored if and only if the zone had none: they are appended to those that are
      there. */
  lemma SizesRestoredIff(resize: ResizeZone, saved: seq<Zone>, live: Device, z: nat)
    requires Honest(resize) && z < |saved| == |live.zones|
    ensures var r, s, l := LoadSizes(resize, saved, live, |saved|).zones[z], saved[z], live.zones[z];
            && (r.name, r.kind, r.ledsMin, r.ledsMax) == (l.name, l.kind, l.ledsMin, l.ledsMax)
            && if s.name == l.name && s.kind == l.kind && s.ledsMin == l.ledsMin && s.ledsMax == l.ledsMax
               then r.ledsCount == s.ledsCount && (r.segments == s.segments <==> l.segments == [])
               else r.ledsCount == l.ledsCount && r.segments == l.segments
  {
    hide LoadSizes;
    SizesLoaded(resize, saved, live, |saved|);
    var was, add := live.zones[z].segments, saved[z].segments;
    assert was == [] ==> was + add == add;
    assert was + add == add ==> |was| == 0;
  }

  /** Loading the same sizes once more doubles the segments. */
  lemma SizesTwice(resize: ResizeZone, saved: seq<Zone>, live: Device, z: nat)
    requires Honest(resize) && z < |saved| == |live.zones| && SameZone(saved[z], live.zones[z])
    ensures var r := LoadSizes(resize, saved, live, |saved|);
            LoadSizes(resize, saved, r, |saved|).zones[z].segments
            == live.zones[z].segments + saved[z].segments + saved[z].segments
  {
    SizesLoaded(resize, saved, live, |saved|);
    SizesLoaded(resize, saved, LoadSizes(resize, saved, live, |saved|), |saved|);
  }

  /** A device that has all the saved LED counts is not resized, whatever its own code would do: only segments are
      added. */
  lemma {:induction false} SizesThere(resize: ResizeZone, saved: seq<Zone>, live: Device, n: nat)
    requires KeepsZones(resize) && n <= |saved| == |live.zones|
    requires forall z :: 0 <= z < n ==> saved[z].ledsCount == live.zones[z].ledsCount
    ensures var r := LoadSizes(resize, saved, live, n);
            && r == live.(zones := r.zones)
            && forall z :: 0 <= z < |live.zones| ==> r.zones[z] == live.zones[z].(segments := r.zones[z].segments)
  {
    hide SameZone, KeepsZones;
    if n > 0 { SizesThere(resize, saved, live, n - 1); }
  }

  /** What is not asked for stays: without sizes every zone, without settings every mode and the active mode, without
      both everything, and of a record with another number of zones no size is taken. */
  lemma OptionsGovern(o: Options, resize: ResizeZone, saved: Device, live: Device)
    requires Honest(resize)
    ensures var r := LoadDevice(o, resize, saved, live);
            && (!o.size && !o.settings ==> r == live)
            && (!o.size || |saved.zones| != |live.zones| ==> r.zones == live.zones && r.leds == live.leds)
            && (!o.settings ==> r.modes == live.modes && r.activeMode == live.activeMode)
            && (!o.settings && |saved.zones| != |live.zones| ==> r == live)
  {
    hide LoadSettings, LoadSizes;
    SettingsTaken(saved, live, 0);
    if |saved.zones| == |live.zones| { SizesLoaded(resize, saved.zones, live, |saved.zones|); }
  }

  /** Colours are loaded into a device whose zones are described alike if and only if the sizes are loaded with them, or
      there are as many already. */
  lemma ColorsNeedSizesIff(o: Options, resize: ResizeZone, saved: Device, live: Device)
    requires Honest(resize) && o.settings && |saved.zones| == |live.zones|
    requires forall z :: 0 <= z < |saved.zones| ==> SameZone(saved.zones[z], live.zones[z])
    requires |saved.colors| == LedTotal(saved.zones) && |live.colors| == LedTotal(live.zones)
    ensures LoadDevice(o, resize, saved, live).colors == saved.colors <==> o.size || |live.colors| == |saved.colors|
  {
    hide LedSum, LoadModes;
    if o.size {
      SizesLoaded(resize, saved.zones, live, |saved.zones|);
      var r := LoadSizes(resize, saved.zones, live, |saved.zones|);
      SameCounts(r.zones, saved.zones, |r.zones|);
      assert r.zones[..|r.zones|] == r.zones && saved.zones[..|r.zones|] == saved.zones;
    }
  }

  /** Without sizes the device's own code plays no part. */
  lemma SettingsAlone(resize: ResizeZone, saved: seq<Device>, lives: seq<Device>)
    requires KeepsZones(resize)
    ensures LoadOntoWith(SETTINGS, resize, saved, lives) == LoadOnto(saved, lives)
  {
    hide LoadSettings, Assigned;
  }
}
