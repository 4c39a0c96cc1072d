/** Profile files: a header, a version and one self-sized record per controller. */
module ProfileFile {
  import opened Bytes
  import opened Description
  import opened Controller

  /** "OPENRGB_PROFILE" with its NUL. */
  const HEADER: seq<Byte> := [79, 80, 69, 78, 82, 71, 66, 95, 80, 82, 79, 70, 73, 76, 69, 0]

  const PROFILE_VERSION: U32 := 4

  function DeviceEnc(v: nat): Device -> seq<Byte> { (d: Device) => EncDevice(v, d) }

  function Records(v: nat, ds: seq<Device>): seq<Byte> { EncList(DeviceEnc(v), ds) }

  /** Profile version 1 holds records of protocol version 0; from 2 on the two numbers agree. */
  function RecordVersion(profileVersion: U32): nat { if profileVersion == 1 then 0 else profileVersion }

  /** The file a program of profile version `pv` writes; this program's version is PROFILE_VERSION. */
  function FileOf(pv: U32, ds: seq<Device>): seq<Byte> { Head(pv) + Records(RecordVersion(pv), ds) }

  function Head(pv: U32): seq<Byte> { HEADER + PutU32(pv) }

  /** A whole record of non-zero size starts at `at`. */
  predicate HasRecord(file: seq<Byte>, at: nat) {
    at + 4 <= |file| && U32At(file, at) > 0 && at + U32At(file, at) <= |file|
  }

  function RecordAt(file: seq<Byte>, at: nat): (r: seq<Byte>)
    requires HasRecord(file, at)
    ensures |r| == U32At(file, at) > 0
  {
    file[at..at + U32At(file, at)]
  }

  /** The records from offset `at` to the end of the file. None when the C++ loop has no defined result: a record that
      is cut short, whose content runs over its end, or of size 0, which would be read for ever. */
  function LoadRecords(v: nat, file: seq<Byte>, at: nat): Option<seq<Device>>
    decreases |file| - at
  {
    if at >= |file| then Some([])
    else if !HasRecord(file, at) then None else
      var record := RecordAt(file, at);
      var (d, _) :- Decode(v, record);
      var rest :- LoadRecords(v, file, at + |record|);
      Some([d] + rest)
  }

  /** A file that is too short, has another header or a newer version loads as an empty list. */
  function Load(file: seq<Byte>): Option<seq<Device>> {
    if |file| < 20 || file[..16] != HEADER || RecordVersion(U32At(file, 16)) > PROFILE_VERSION then Some([])
    else LoadRecords(RecordVersion(U32At(file, 16)), file, 20)
  }

  /** What a reader makes of a device written in version `v`. */
  function Loaded(v: nat, d: Device): Device { Setup(Gate(v, d)) }

  function LoadedView(v: nat): Device -> Device { (d: Device) => Loaded(v, d) }

  function LoadedAll(v: nat, ds: seq<Device>): seq<Device> { Map(LoadedView(v), ds) }

  // ---------------------------------------------------------------- saving and loading

  function Values(cs: seq<RGBController>): (ds: seq<Device>)
    reads cs
    ensures |ds| == |cs| && forall k :: 0 <= k < |cs| ==> ds[k] == cs[k].Value()
  {
    seq(|cs|, k requires 0 <= k < |cs| reads cs => cs[k].Value())
  }

  /** The part of the description buffer that its size field covers. */
  method RecordOf(c: RGBController) returns (record: seq<Byte>)
    requires Fits(PROFILE_VERSION, c.Value())
    ensures record == EncDevice(PROFILE_VERSION, c.Value())
  {
    hide Fits, EncDevice, Has;
    var data := c.GetDeviceDescription(PROFILE_VERSION);
    HasSelf(data[..]);
    SizeFieldIsLength(PROFILE_VERSION, c.Value(), data[..]);
    var size := U32At(data[..], 0);
    record := data[..size];
  }

  /** SaveProfile: each record's own size field says how much of the buffer goes into the file. */
  method SaveProfile(controllers: seq<RGBController>) returns (file: seq<Byte>)
    requires forall k :: 0 <= k < |controllers| ==> Fits(PROFILE_VERSION, controllers[k].Value())
    ensures file == FileOf(PROFILE_VERSION, Values(controllers))
  {
    hide Fits, EncDevice, Has, Head, EncList;
    ghost var ds := Values(controllers);
    file := Head(PROFILE_VERSION);
    ghost var start := file;
    NoRecords(ds);
    for i := 0 to |controllers|
      invariant file == start + Records(PROFILE_VERSION, ds[..i])
    {
      var record := RecordOf(controllers[i]);
      EncListStep(DeviceEnc(PROFILE_VERSION), ds, i);
      file := file + record;
    }
    assert ds[..|controllers|] == ds;
  }

  lemma NoRecords(ds: seq<Device>)
    ensures Records(PROFILE_VERSION, ds[..0]) == []
  {
  }

  lemma ReadsFresh(v: nat, record: seq<Byte>)
    requires DecRaw(v, record).Some?
    ensures var (d, end) := DecRaw(v, record).value;
            Decode(v, record) == Some((Setup(Appended(v, NEW_DEVICE, d)), end))
  {
    hide DecU32, DecModes, DecZones, DecLeds, DecColors, DecStr, Setup;
    var d := DecRaw(v, record).value.0;
    assert Appended(v, NEW_DEVICE, d) == d;
  }

  /** `list` and then the records from offset `at` on. */
  function With(list: seq<Device>, rest: Option<seq<Device>>): Option<seq<Device>> {
    var more :- rest;
    Some(list + more)
  }

  /** LoadProfileToList: new controllers, one for each record up to the end of the file. Not `defined` where the code
      would leave the record it has read, or go on for ever; the model stops there. */
  method LoadProfileToList(file: seq<Byte>) returns (list: seq<RGBController>, defined: bool)
    ensures forall k :: 0 <= k < |list| ==> fresh(list[k])
    ensures forall j, k :: 0 <= j < k < |list| ==> list[j] != list[k]
    ensures defined <==> Load(file).Some?
    ensures defined ==> Load(file) == Some(Values(list))
  {
    hide DecRaw, Setup, Appended, Decode, LoadRecords, U32At, HasRecord;
    list := [];
    assert Values(list) == [];
    if |file| < 20 || file[..16] != HEADER { return list, true; }
    var version: U32 := U32At(file, 16);
    if version == 1 { version := 0; }
    if version > PROFILE_VERSION { return list, true; }
    var offset := 20;
    ghost var ds := [];
    assert Load(file) == LoadRecords(version, file, offset);
    WithNothing(LoadRecords(version, file, offset));
    while offset < |file|
      invariant |ds| == |list| && forall k :: 0 <= k < |list| ==> fresh(list[k]) && list[k].Value() == ds[k]
      invariant forall j, k :: 0 <= j < k < |list| ==> list[j] != list[k]
      invariant Load(file) == With(ds, LoadRecords(version, file, offset))
      decreases |file| - offset
    {
      LoadStep(version, file, offset);
      if !HasRecord(file, offset) || Decode(version, RecordAt(file, offset)).None? { return list, false; }
      HasWhole(file, offset);
      var size := U32At(file, offset);
      var data := file[offset..offset + size];
      DecodeReads(version, data);
      var controller := new RGBController();
      var _ := controller.ReadDeviceDescription(data, version);
      ReadsFresh(version, data);
      list := list + [controller];
      WithOne(ds, controller.Value(), LoadRecords(version, file, offset + size));
      ds := ds + [controller.Value()];
      offset := offset + size;
    }
    LoadEnd(version, file, offset);
    assert ds + [] == ds && Values(list) == ds;
    return list, true;
  }

  lemma WithNothing(rest: Option<seq<Device>>)
    ensures With([], rest) == rest
  {
    if rest.Some? { assert [] + rest.value == rest.value; }
  }

  lemma WithOne(list: seq<Device>, d: Device, rest: Option<seq<Device>>)
    ensures With(list, With([d], rest)) == With(list + [d], rest)
  {
    if rest.Some? { assert list + ([d] + rest.value) == list + [d] + rest.value; }
  }

  lemma HasWhole(file: seq<Byte>, at: nat)
    requires HasRecord(file, at)
    ensures at + 4 <= |file| && U32At(file, at) > 0 && at + U32At(file, at) <= |file|
    ensures RecordAt(file, at) == file[at..at + U32At(file, at)]
  {
  }

  /** The loop goes on after a whole record that decodes, and has no result otherwise. */
  lemma LoadStep(v: nat, file: seq<Byte>, at: nat)
    requires at < |file|
    ensures if HasRecord(file, at) && Decode(v, RecordAt(file, at)).Some?
            then LoadRecords(v, file, at)
                 == With([Decode(v, RecordAt(file, at)).value.0], LoadRecords(v, file, at + |RecordAt(file, at)|))
            else LoadRecords(v, file, at).None?
  {
    hide Decode, HasRecord, RecordAt;
  }

  lemma LoadEnd(v: nat, file: seq<Byte>, at: nat)
    requires at >= |file|
    ensures LoadRecords(v, file, at) == Some([])
  {
  }

  lemma DecodeReads(v: nat, record: seq<Byte>)
    requires Decode(v, record).Some?
    ensures DecRaw(v, record).Some?
  {
    hide DecRaw, Setup;
  }

  // ---------------------------------------------------------------- the file is split where it was joined

  predicate AllFit(v: nat, ds: seq<Device>) { forall k :: 0 <= k < |ds| ==> Fits(v, ds[k]) }

  lemma RecordIs(file: seq<Byte>, at: nat, record: seq<Byte>)
    requires at + |record| <= |file| && file[at..at + |record|] == record
    requires |record| >= 4 && U32At(record, 0) == |record|
    ensures HasRecord(file, at) && RecordAt(file, at) == record
  {
    assert forall i :: 0 <= i < |record| ==> record[i] == file[at + i];
  }

  lemma FirstRecord(v: nat, ds: seq<Device>, file: seq<Byte>, at: nat)
    requires ds != [] && Fits(v, ds[0]) && at <= |file| && file[at..] == Records(v, ds)
    ensures HasRecord(file, at) && RecordAt(file, at) == EncDevice(v, ds[0])
    ensures Decode(v, RecordAt(file, at)) == Some((Loaded(v, ds[0]), |RecordAt(file, at)|))
    ensures file[at + |RecordAt(file, at)|..] == Records(v, ds[1..])
  {
    hide Fits, EncDevice, Decode, Setup, Gate, Has, EncList, U32At, HasRecord, RecordAt;
    EncListFront(DeviceEnc(v), ds);
    var record := EncDevice(v, ds[0]);
    HasSelf(record);
    SizeFieldIsLength(v, ds[0], record);
    RoundTrip(v, ds[0], record);
    assert file[at..][..|record|] == record && file[at..][|record|..] == Records(v, ds[1..]);
    RecordIs(file, at, record);
  }

  lemma LoadCons(v: nat, file: seq<Byte>, at: nat, d: Device, rest: seq<Device>)
    requires HasRecord(file, at) && Decode(v, RecordAt(file, at)) == Some((d, |RecordAt(file, at)|))
    requires LoadRecords(v, file, at + |RecordAt(file, at)|) == Some(rest)
    ensures LoadRecords(v, file, at) == Some([d] + rest)
  {
    hide Decode, RecordAt;
  }

  lemma {:induction false} LoadRecordsBack(v: nat, ds: seq<Device>, file: seq<Byte>, at: nat)
    requires AllFit(v, ds) && at <= |file| && file[at..] == Records(v, ds)
    ensures LoadRecords(v, file, at) == Some(LoadedAll(v, ds))
    decreases |ds|
  {
    hide Fits, EncDevice, Decode, Loaded, U32At, LoadRecords, Map, EncList;
    if ds == [] {
      NoFile(v, file, at);
    } else {
      var size := |EncDevice(v, ds[0])|;
      FirstRecord(v, ds, file, at);
      LoadRecordsBack(v, ds[1..], file, at + size);
      MapFront(LoadedView(v), ds);
      LoadCons(v, file, at, Loaded(v, ds[0]), LoadedAll(v, ds[1..]));
    }
  }

  lemma NoFile(v: nat, file: seq<Byte>, at: nat)
    requires at <= |file| && file[at..] == Records(v, [])
    ensures LoadRecords(v, file, at) == Some(LoadedAll(v, []))
  {
    assert LoadedAll(v, []) == [];
  }

  /** A file written by any program up to this version is split back into exactly the controllers saved, in order, each
      as its own record's version lets it be recovered. */
  lemma LoadInvertsSave(pv: U32, ds: seq<Device>)
    requires pv <= PROFILE_VERSION && AllFit(RecordVersion(pv), ds)
    ensures Load(FileOf(pv, ds)) == Some(LoadedAll(RecordVersion(pv), ds))
  {
    hide LoadRecords, Records, AllFit, LoadedAll, PutU32;
    var file := FileOf(pv, ds);
    assert file[..16] == HEADER;
    HasSplitFile(pv, ds);
    assert file[20..] == Records(RecordVersion(pv), ds);
    LoadRecordsBack(RecordVersion(pv), ds, file, 20);
  }

  /** So a file of version 1 is read as records of protocol version 0, and one of any other version up to 4 as records
      of its own version. */
  lemma VersionsLoad(ds: seq<Device>)
    ensures AllFit(0, ds) ==> Load(HEADER + PutU32(1) + Records(0, ds)) == Some(LoadedAll(0, ds))
    ensures forall v: U32 :: v <= 4 && v != 1 && AllFit(v, ds) ==>
              Load(HEADER + PutU32(v) + Records(v, ds)) == Some(LoadedAll(v, ds))
  {
    hide Load, Records, AllFit, LoadedAll, PutU32;
    if AllFit(0, ds) { LoadInvertsSave(1, ds); }
    forall v: U32 | v <= 4 && v != 1 && AllFit(v, ds)
      ensures Load(HEADER + PutU32(v) + Records(v, ds)) == Some(LoadedAll(v, ds))
    {
      LoadInvertsSave(v, ds);
    }
  }

  /** A newer version, another header or a file shorter than header and version: no controllers, and no error. */
  lemma ForeignFiles(file: seq<Byte>, rest: seq<Byte>, v: U32)
    ensures v > 4 ==> Load(HEADER + PutU32(v) + rest) == Some([])
    ensures |file| < 20 || !(HEADER <= file) ==> Load(file) == Some([])
  {
    hide PutU32, LoadRecords;
    var newer := HEADER + PutU32(v) + rest;
    assert newer[..16] == HEADER && newer[16..20] == PutU32(v);
    HasU32(newer, 16, v);
  }

  lemma HasSplitFile(pv: U32, ds: seq<Device>)
    ensures U32At(FileOf(pv, ds), 16) == pv
  {
    hide Records, PutU32;
    var file := FileOf(pv, ds);
    assert file[16..20] == PutU32(pv);
    HasU32(file, 16, pv);
  }

  /** Saving and loading loses nothing if and only if the strings are free of NULs and the buffers are as SetupColors
      leaves them. */
  lemma LoadLosesNothingIff(ds: seq<Device>)
    requires AllFit(PROFILE_VERSION, ds)
    ensures Load(FileOf(PROFILE_VERSION, ds)) == Some(ds) <==>
            forall k :: 0 <= k < |ds| ==> Carried(PROFILE_VERSION, ds[k]) && Setup(ds[k]) == ds[k]
  {
    hide Fits, Setup, Gate, Carried, Load, FileOf;
    LoadInvertsSave(PROFILE_VERSION, ds);
    var got := LoadedAll(PROFILE_VERSION, ds);
    forall k | 0 <= k < |ds|
      ensures got[k] == ds[k] <==> Carried(PROFILE_VERSION, ds[k]) && Setup(ds[k]) == ds[k]
    {
      LosslessIff(PROFILE_VERSION, ds[k]);
    }
    assert got == ds <==> forall k :: 0 <= k < |ds| ==> got[k] == ds[k];
  }
}
