/** The handshake and the codec together: what a whole session between one client and one server carries over. */
module Session {
  import opened Bytes
  import opened Description
  import Controller
  import Colors
  import H = Handshake

  /** Whatever happened before, the controller a client builds from a data reply is the server's one, with the fields
      gated by the version of that reply, unless the user interface has asked for it and a time-out came in between. */
  lemma ControllersArrive(p: H.Peers, v0: nat, run: seq<H.Action>, k: nat, d: Device)
    requires k < |H.Exec(p, H.Init(v0), run).records|
    requires !H.Exec(p, H.Init(v0), run).records[k].user || !H.Exec(p, H.Init(v0), run).records[k].zeroed
    requires Fits(H.Exec(p, H.Init(v0), run).records[k].encoded, d)
    ensures var r := H.Exec(p, H.Init(v0), run).records[k];
            Decode(r.decoded, EncDevice(r.encoded, d)) == Some((Setup(Gate(r.encoded, d)), |EncDevice(r.encoded, d)|))
  {
    hide H.Exec, Fits, EncDevice, Decode, Setup, Gate;
    if H.Exec(p, H.Init(v0), run).records[k].user {
      H.UserRecordsAgreeIff(p, v0, run, k);
    } else {
      H.RecordsAgree(p, v0, run, k);
    }
    var r := H.Exec(p, H.Init(v0), run).records[k];
    HasSelf(EncDevice(r.encoded, d));
    RoundTrip(r.encoded, d, EncDevice(r.encoded, d));
  }

  /** A mode update that was not sent after a late time-out makes the server's active mode and that mode the client's,
      leaves every other mode alone, and below a common version of 3 leaves the server its brightness. */
  lemma ModesArrive(p: H.Peers, v0: nat, run: seq<H.Action>, k: nat, client: Device, server: Device, m: nat)
    requires k < |H.Exec(p, H.Init(v0), run).updates| && !H.Exec(p, H.Init(v0), run).updates[k].late
    requires m < |client.modes| && m < |server.modes| && m < 0x8000_0000 && ModeFits(client.modes[m])
    ensures var u := H.Exec(p, H.Init(v0), run).updates[k];
            var r := Controller.ApplyMode(server, u.decoded, Controller.ModeDescription(client, m, u.encoded));
            && r.Some?
            && var got, sent := r.value.modes[m], client.modes[m];
               var from := if H.Common(p) >= 3 then sent else server.modes[m];
               && r.value == server.(activeMode := m, modes := server.modes[m := got])
               && got == sent.(name := CString(sent.name), brightnessMin := from.brightnessMin,
                               brightnessMax := from.brightnessMax, brightness := from.brightness)
  {
    hide H.Exec, Controller.ApplyMode, Controller.ModeDescription, ModeFits, CString, H.Common;
    H.UpdateAgreesIff(p, v0, run, k);
    Colors.ModeTransfer(client, server, m, H.Common(p));
  }
}
