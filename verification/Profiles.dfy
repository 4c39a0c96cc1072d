/** Loading a profile: how saved controllers are matched with live ones, what a match changes, and what a profile
    restores. */
module Profiles {
  import opened Bytes
  import opened Description
  import opened Controller
  import opened ProfileFile

  // ---------------------------------------------------------------- which saved controller matches

  /** "HID: ", "I2C: " and ", ". */
  const HID: seq<Byte> := [72, 73, 68, 58, 32]
  const I2C: seq<Byte> := [73, 50, 67, 58, 32]
  const COMMA: seq<Byte> := [44, 32]

  predicate FoundAt(s: seq<Byte>, t: seq<Byte>, at: nat) { at + |t| <= |s| && s[at..at + |t|] == t }

  predicate Contains(s: seq<Byte>, t: seq<Byte>) { exists at: nat :: at <= |s| && FoundAt(s, t, at) }

  /** std::string::rfind from position `at` down. */
  function RFind(s: seq<Byte>, t: seq<Byte>, at: nat): (r: Option<nat>)
    ensures r.Some? ==> FoundAt(s, t, r.value) && r.value <= at
    ensures forall k :: (if r.Some? then r.value + 1 else 0) <= k <= at ==> !FoundAt(s, t, k)
  {
    if FoundAt(s, t, at) then Some(at) else if at == 0 then None else RFind(s, t, at - 1)
  }

  /** The location of a HID device is not compared, of an I2C device only what follows the bus. */
  predicate LocationMatches(saved: seq<Byte>, live: seq<Byte>) {
    if HID <= live then true
    else if I2C <= live then
      var comma := RFind(live, COMMA, |live|);
      comma.Some? && Contains(saved, live[comma.value + 2..])
    else saved == live
  }

  predicate Matches(saved: Device, live: Device) {
    && saved.kind == live.kind && saved.name == live.name && saved.description == live.description
    && saved.version == live.version && saved.serial == live.serial
    && LocationMatches(saved.location, live.location)
  }

  // ---------------------------------------------------------------- what a match changes

  predicate SameMode(a: Mode, b: Mode) {
    && a.name == b.name && a.value == b.value && a.flags == b.flags && a.speedMin == b.speedMin
    && a.speedMax == b.speedMax && a.colorsMin == b.colorsMin && a.colorsMax == b.colorsMax
  }

  function LoadMode(saved: Mode, live: Mode): Mode {
    if SameMode(saved, live)
    then live.(speed := saved.speed, brightness := saved.brightness, direction := saved.direction,
               colorMode := saved.colorMode, colors := saved.colors)
    else live
  }

  function LoadModes(saved: seq<Mode>, live: seq<Mode>): (r: seq<Mode>)
    requires |saved| == |live|
    ensures |r| == |live|
  {
    seq(|live|, k requires 0 <= k < |live| => LoadMode(saved[k], live[k]))
  }

  function LoadSettings(saved: Device, live: Device): Device {
    live.(modes := if |saved.modes| == |live.modes| then LoadModes(saved.modes, live.modes) else live.modes,
          activeMode := if |saved.modes| == |live.modes| then saved.activeMode else live.activeMode,
          colors := if |saved.colors| == |live.colors| then saved.colors else live.colors)
  }

  // ---------------------------------------------------------------- zone sizes

  predicate SameZone(a: Zone, b: Zone) {
    a.name == b.name && a.kind == b.kind && a.ledsMin == b.ledsMin && a.ledsMax == b.ledsMax
  }

  /** A device's own ResizeZone: what it makes of the device when zone `z` is to have `n` LEDs. */
  type ResizeZone = (Device, nat, U32) -> Device

  ghost predicate KeepsZones(resize: ResizeZone) {
    forall d: Device, z: nat, n: U32 :: |resize(d, z, n).zones| == |d.zones|
  }

  /** One zone: the device is resized if the LED counts differ, and the saved segments are appended. */
  ghost function LoadZone(resize: ResizeZone, saved: Zone, live: Device, z: nat): (r: Device)
    requires KeepsZones(resize) && z < |live.zones|
    ensures |r.zones| == |live.zones|
  {
    if !SameZone(saved, live.zones[z]) then live else
      var d := if saved.ledsCount != live.zones[z].ledsCount then resize(live, z, saved.ledsCount) else live;
      assert |d.zones| == |live.zones|;
      d.(zones := d.zones[z := d.zones[z].(segments := d.zones[z].segments + saved.segments)])
  }

  /** The first `n` zones. */
  ghost function LoadSizes(resize: ResizeZone, saved: seq<Zone>, live: Device, n: nat): (r: Device)
    requires KeepsZones(resize) && n <= |saved| == |live.zones|
    ensures |r.zones| == |live.zones|
  {
    if n == 0 then live else LoadZone(resize, saved[n - 1], LoadSizes(resize, saved, live, n - 1), n - 1)
  }

  /** load_size and load_settings. */
  datatype Options = Options(size: bool, settings: bool)

  const SETTINGS := Options(false, true)

  ghost function LoadDevice(o: Options, resize: ResizeZone, saved: Device, live: Device): Device
    requires KeepsZones(resize)
  {
    var d := if o.size && |saved.zones| == |live.zones|
             then LoadSizes(resize, saved.zones, live, |saved.zones|) else live;
    if o.settings then LoadSettings(saved, d) else d
  }

  method CopySizes(temp: RGBController, load: RGBController, resize: ResizeZone)
    requires temp != load && KeepsZones(resize) && |temp.zones| == |load.zones|
    modifies load
    ensures load.Value() == LoadSizes(resize, temp.zones, old(load.Value()), |temp.zones|)
  {
    ghost var was := load.Value();
    for z := 0 to |temp.zones|
      invariant |load.zones| == |temp.zones| == |was.zones|
      invariant load.Value() == LoadSizes(resize, temp.zones, was, z)
    {
      var saved := temp.zones[z];
      ghost var before := load.Value();
      if SameZone(saved, load.zones[z]) {
        if saved.ledsCount != load.zones[z].ledsCount { load.Assign(resize(load.Value(), z, saved.ledsCount)); }
        ghost var mid := load.Value();
        assert |mid.zones| == |before.zones|;
        assert mid.zones[z].segments + [] == mid.zones[z].segments;
        for i := 0 to |saved.segments|
          invariant |load.zones| == |mid.zones|
          invariant load.Value() == mid.(zones := mid.zones[z := mid.zones[z].(
                      segments := mid.zones[z].segments + saved.segments[..i])])
        {
          var zone := load.zones[z];
          load.zones := load.zones[z := zone.(segments := zone.segments + [saved.segments[i]])];
          assert mid.zones[z].segments + saved.segments[..i + 1]
                 == mid.zones[z].segments + saved.segments[..i] + [saved.segments[i]];
        }
        assert saved.segments[..|saved.segments|] == saved.segments;
      }
    }
  }

  // ---------------------------------------------------------------- settings

  /** The update of one mode: its colour list is resized, then filled. */
  method CopyMode(saved: Mode, live: Mode) returns (m: Mode)
    ensures m == LoadMode(saved, live)
    ensures m == live.(speed := m.speed, brightness := m.brightness, direction := m.direction,
                       colorMode := m.colorMode, colors := m.colors)
    ensures var alike := (saved.name, saved.value, saved.flags) == (live.name, live.value, live.flags)
                         && (saved.speedMin, saved.speedMax) == (live.speedMin, live.speedMax)
                         && (saved.colorsMin, saved.colorsMax) == (live.colorsMin, live.colorsMax);
            var from := if alike then saved else live;
            && (m.speed, m.brightness, m.direction) == (from.speed, from.brightness, from.direction)
            && (m.colorMode, m.colors) == (from.colorMode, from.colors)
  {
    m := live;
    if SameMode(saved, live) {
      m := m.(speed := saved.speed, brightness := saved.brightness, direction := saved.direction,
              colorMode := saved.colorMode);
      var colors := Resize(m.colors, |saved.colors|);
      for i := 0 to |saved.colors|
        invariant |colors| == |saved.colors| && forall k :: 0 <= k < i ==> colors[k] == saved.colors[k]
      {
        colors := colors[i := saved.colors[i]];
      }
      assert colors == saved.colors;
      m := m.(colors := colors);
    }
  }

  method CopySettings(temp: RGBController, load: RGBController)
    requires temp != load
    modifies load
    ensures load.Value() == LoadSettings(temp.Value(), old(load.Value()))
  {
    ghost var was := load.Value();
    if |temp.modes| == |load.modes| {
      for i := 0 to |temp.modes|
        invariant |load.modes| == |was.modes| == |temp.modes|
        invariant load.Value() == was.(modes := load.modes)
        invariant forall k :: 0 <= k < i ==> load.modes[k] == LoadMode(temp.modes[k], was.modes[k])
        invariant forall k :: i <= k < |was.modes| ==> load.modes[k] == was.modes[k]
      {
        var mode := CopyMode(temp.modes[i], load.modes[i]);
        load.modes := load.modes[i := mode];
      }
      assert load.modes == LoadModes(temp.modes, was.modes);
      load.activeMode := temp.activeMode;
    }
    if |temp.colors| == |load.colors| {
      ghost var mid := load.Value();
      for i := 0 to |temp.colors|
        invariant |load.colors| == |temp.colors| && load.Value() == mid.(colors := load.colors)
        invariant forall k :: 0 <= k < i ==> load.colors[k] == temp.colors[k]
      {
        load.colors := load.colors[i := temp.colors[i]];
      }
      assert load.colors == temp.colors;
    }
  }

  // ---------------------------------------------------------------- one device

  /** The first saved controller from `at` on that is not used yet and matches. */
  function FirstMatch(saved: seq<Device>, used: seq<bool>, live: Device, at: nat): (r: Option<nat>)
    requires |used| == |saved| && at <= |saved|
    ensures r.Some? ==> at <= r.value < |saved| && !used[r.value] && Matches(saved[r.value], live)
    ensures forall k :: at <= k < (if r.Some? then r.value else |saved|) ==> used[k] || !Matches(saved[k], live)
    decreases |saved| - at
  {
    if at == |saved| then None
    else if !used[at] && Matches(saved[at], live) then Some(at)
    else FirstMatch(saved, used, live, at + 1)
  }

  function Taken(used: seq<bool>, m: Option<nat>): seq<bool>
    requires m.Some? ==> m.value < |used|
  {
    if m.Some? then used[m.value := true] else used
  }

  /** LoadDeviceFromListWithOptions. */
  method LoadDeviceFromList(temps: seq<RGBController>, used: array<bool>, load: RGBController, o: Options,
                            resize: ResizeZone)
      returns (ok: bool, ghost m: Option<nat>)
    requires KeepsZones(resize)
    requires used.Length == |temps| && forall k :: 0 <= k < |temps| ==> temps[k] != load
    modifies used, load
    ensures m == FirstMatch(Values(temps), old(used[..]), old(load.Value()), 0)
    ensures ok == m.Some? && used[..] == Taken(old(used[..]), m)
    ensures load.Value() == if m.Some? then LoadDevice(o, resize, temps[m.value].Value(), old(load.Value()))
                            else old(load.Value())
  {
    hide Matches, LoadSettings, LoadSizes;
    ghost var saved, was := Values(temps), used[..];
    for i := 0 to |temps|
      invariant used[..] == was && load.Value() == old(load.Value()) && Values(temps) == saved
      invariant FirstMatch(saved, was, load.Value(), 0) == FirstMatch(saved, was, load.Value(), i)
    {
      if !used[i] && Matches(temps[i].Value(), load.Value()) {
        used[i] := true;
        if o.size && |temps[i].zones| == |load.zones| { CopySizes(temps[i], load, resize); }
        if o.settings { CopySettings(temps[i], load); }
        return true, Some(i);
      }
    }
    return false, None;
  }

  // ---------------------------------------------------------------- all devices

  function Used(n: nat, a: seq<Option<nat>>): (used: seq<bool>)
    ensures |used| == n && forall i :: 0 <= i < n ==> (used[i] <==> Some(i) in a)
  {
    seq(n, i => Some(i) in a)
  }

  /** Which saved controller each live one takes, in the order of the device list. */
  function Assigned(saved: seq<Device>, lives: seq<Device>): (a: seq<Option<nat>>)
    ensures |a| == |lives|
  {
    if lives == [] then [] else
      var n := |lives| - 1;
      var a := Assigned(saved, lives[..n]);
      a + [FirstMatch(saved, Used(|saved|, a), lives[n], 0)]
  }

  function LoadOne(saved: seq<Device>, m: Option<nat>, live: Device): Device {
    if m.Some? && m.value < |saved| then LoadSettings(saved[m.value], live) else live
  }

  ghost function LoadOneWith(o: Options, resize: ResizeZone, saved: seq<Device>, m: Option<nat>, live: Device): Device
    requires KeepsZones(resize)
  {
    if m.Some? && m.value < |saved| then LoadDevice(o, resize, saved[m.value], live) else live
  }

  ghost function LoadOntoWith(o: Options, resize: ResizeZone, saved: seq<Device>, lives: seq<Device>): (r: seq<Device>)
    requires KeepsZones(resize)
    ensures |r| == |lives|
  {
    seq(|lives|, k requires 0 <= k < |lives| => LoadOneWith(o, resize, saved, Assigned(saved, lives)[k], lives[k]))
  }

  /** Loading settings alone. */
  function LoadOnto(saved: seq<Device>, lives: seq<Device>): (r: seq<Device>)
    ensures |r| == |lives|
  {
    seq(|lives|, k requires 0 <= k < |lives| => LoadOne(saved, Assigned(saved, lives)[k], lives[k]))
  }

  lemma {:induction false} AssignedPrefix(saved: seq<Device>, lives: seq<Device>, k: nat)
    requires k < |lives|
    ensures Assigned(saved, lives)[..k] == Assigned(saved, lives[..k])
    ensures Assigned(saved, lives)[k] == FirstMatch(saved, Used(|saved|, Assigned(saved, lives[..k])), lives[k], 0)
  {
    hide Matches;
    var n := |lives| - 1;
    var a := Assigned(saved, lives[..n]);
    assert Assigned(saved, lives)[..n] == a;
    if k < n {
      AssignedPrefix(saved, lives[..n], k);
      assert lives[..n][..k] == lives[..k];
    }
  }

  lemma UsedStep(n: nat, a: seq<Option<nat>>, m: Option<nat>)
    requires m.Some? ==> m.value < n
    ensures Used(n, a + [m]) == Taken(Used(n, a), m)
  {
  }

  lemma AssignedStep(saved: seq<Device>, lives: seq<Device>, i: nat)
    requires i < |lives|
    ensures Assigned(saved, lives[..i + 1])
            == Assigned(saved, lives[..i]) + [FirstMatch(saved, Used(|saved|, Assigned(saved, lives[..i])), lives[i], 0)]
  {
    assert lives[..i + 1][..i] == lives[..i];
  }

  ghost predicate AnyTaken(a: seq<Option<nat>>) { exists k :: 0 <= k < |a| && a[k].Some? }

  lemma AnyTakenStep(a: seq<Option<nat>>, m: Option<nat>)
    ensures AnyTaken(a + [m]) <==> AnyTaken(a) || m.Some?
  {
    var b := a + [m];
    assert b[|a|] == m;
    if k :| 0 <= k < |a| && a[k].Some? { assert b[k].Some?; }
  }

  /** The loop over the live controllers, which are changed in place. */
  method LoadAll(temps: seq<RGBController>, controllers: seq<RGBController>, o: Options, resize: ResizeZone)
      returns (result: bool, ghost a: seq<Option<nat>>)
    requires KeepsZones(resize)
    requires forall j, k :: 0 <= j < k < |controllers| ==> controllers[j] != controllers[k]
    requires forall j, k :: 0 <= j < |temps| && 0 <= k < |controllers| ==> temps[j] != controllers[k]
    modifies controllers
    ensures a == Assigned(Values(temps), old(Values(controllers)))
    ensures forall k :: 0 <= k < |controllers| ==>
              controllers[k].Value() == LoadOneWith(o, resize, old(Values(temps)), a[k], old(Values(controllers))[k])
    ensures result <==> AnyTaken(a)
  {
    hide LoadDevice, KeepsZones, Matches, FirstMatch, Assigned, AnyTaken, Used, Taken;
    ghost var saved, lives := Values(temps), Values(controllers);
    var used := new bool[|temps|](_ => false);
    a := [];
    result := false;
    AssignedNone(saved, lives);
    assert used[..] == Used(|saved|, a);
    for i := 0 to |controllers|
      invariant Values(temps) == saved && used[..] == Used(|saved|, a)
      invariant a == Assigned(saved, lives[..i]) && |a| == i
      invariant forall k :: 0 <= k < |controllers| ==>
                  controllers[k].Value() == if k < i then LoadOneWith(o, resize, saved, a[k], lives[k]) else lives[k]
      invariant result <==> AnyTaken(a)
    {
      var ok, m := LoadDeviceFromList(temps, used, controllers[i], o, resize);
      UsedStep(|saved|, a, m);
      AssignedStep(saved, lives, i);
      AnyTakenStep(a, m);
      result := result || ok;
      a := a + [m];
    }
    assert lives[..|controllers|] == lives;
  }

  lemma AssignedNone(saved: seq<Device>, lives: seq<Device>)
    ensures Assigned(saved, lives[..0]) == []
    ensures !AnyTaken([])
  {
  }

  /** LoadProfileWithOptions: each live controller is changed by the saved controller it takes. Nothing is said of a
      file that has no defined result. */
  method LoadProfile(file: seq<Byte>, controllers: seq<RGBController>, o: Options, resize: ResizeZone)
      returns (result: bool, defined: bool, ghost a: seq<Option<nat>>)
    requires KeepsZones(resize)
    requires forall j, k :: 0 <= j < k < |controllers| ==> controllers[j] != controllers[k]
    modifies controllers
    ensures defined <==> Load(file).Some?
    ensures defined ==> a == Assigned(Load(file).value, old(Values(controllers)))
    ensures defined ==> Values(controllers) == LoadOntoWith(o, resize, Load(file).value, old(Values(controllers)))
    ensures defined ==> (result <==> AnyTaken(a))
  {
    hide Load, LoadOneWith, Assigned, KeepsZones;
    var temps;
    temps, defined := LoadProfileToList(file);
    assert Values(controllers) == old(Values(controllers));
    if !defined { return false, false, []; }
    result, a := LoadAll(temps, controllers, o, resize);
  }
}
