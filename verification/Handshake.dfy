/** The version handshake of the SDK: the client's connection thread and listener thread, the server, and the two FIFO
    directions of the connection. One action is one step of one of them. */
module Handshake {

  /** `clientMax` and `serverMax` are the OPENRGB_SDK_PROTOCOL_VERSION of the two programs; a server of version 0
      does not know the version request and ignores it. */
  datatype Peers = Peers(clientMax: nat, serverMax: nat)

  /** A data request of the connection thread, or one that the user interface makes for a controller it has changed. */
  datatype ToServer = VersionRequest | ClientName | CountRequest | DataRequest(idx: nat, version: nat, user: bool)
                    | UpdateMode(version: nat, late: bool)

  datatype ToClient = VersionReply(version: nat) | CountReply(count: nat)
                    | DataReply(idx: nat, version: nat, user: bool) | ListUpdated

  /** Where the connection thread is. */
  datatype Conn =
    | Connected                 // a round begins: flags cleared, version requested
    | TestVersion               // while(!server_protocol_version_received)
    | WaitVersion               // inside that loop: 5 ms wait, then perhaps the time-out
    | TimedOut                  // version 0 written, received flag not yet
    | SendName
    | SendCount
    | TestCount                 // while(!server_controller_count_received)
    | NextData(i: nat)          // while(requested_controllers < server_controller_count)
    | TestData(i: nat)          // while(!controller_data_received)
    | Publish
    | Resting                   // between rounds

  /** Where the listener is: between messages, or with a value stored and its received flag not yet set. */
  datatype Listener = Listening | StoredVersion | StoredCount | StoredData | StoredUserData

  datatype Server = Serving | Negotiating

  /** What has become of the version in this round: neither a reply nor the time-out, a reply stored, version 0 written
      by the time-out, or written over a reply that had been stored. */
  datatype Reply = Awaited | Accepted | GivenUp | Overwritten

  /** `connected` and `initialized` are server_connected and server_initialized. */
  datatype Client = Client(conn: Conn, listener: Listener, connected: bool, initialized: bool, serverVersion: nat,
                           versionReceived: bool, count: nat, countReceived: bool, dataReceived: bool, reply: Reply)
  {
    predicate HasReply() { reply.Accepted? || reply.Overwritten? }
    predicate Late() { reply.Overwritten? }
    predicate Zeroed() { reply.GivenUp? || reply.Overwritten? }
  }

  datatype Link = Link(online: bool, toServer: seq<ToServer>, toClient: seq<ToClient>, server: Server,
                       clientVersion: nat)

  datatype Record = Record(idx: nat, encoded: nat, decoded: nat, user: bool, zeroed: bool)
  datatype Update = Update(encoded: nat, decoded: nat, late: bool)

  /** `records` lists which controller each record was for, the version it was encoded and decoded with, who asked for
      it, and whether the time-out of the round had written version 0 when it was decoded; `updates` the versions for
      the mode updates, which the server decodes, with whether the client was late when it sent them. `began` counts the
      records that there were when the round began. */
  datatype State = State(c: Client, n: Link, records: seq<Record>, updates: seq<Update>, began: nat)

  /** A step of the connection thread (does the 200th wait end here?), of the listener, or of the server, which has
      `count` controllers at that moment; a device list change; a mode update or a record request from the user; the
      connection is lost and the listener resets server_initialized; it resets server_connected, and until then the
      connection thread can still begin a round. */
  datatype Action = ConnStep(expired: bool) | ListenerStep | ServerStep(count: nat) | ListChange | ModeChange
                  | UserRequest(idx: nat) | Lose | Close

  function Min(a: nat, b: nat): (r: nat)
    ensures r <= a && r <= b && (r == a || r == b)
  {
    if a <= b then a else b
  }

  /** GetProtocolVersion. */
  function Effective(p: Peers, serverVersion: nat): nat { Min(serverVersion, p.clientMax) }

  function Init(serverVersion: nat): State {
    State(Client(Connected, Listening, true, false, serverVersion, false, 0, false, false, Awaited),
          Link(true, [], [], Serving, 0), [], [], 0)
  }

  /** Bytes written to a lost connection are gone. */
  function Send(n: Link, m: ToServer): Link { if n.online then n.(toServer := n.toServer + [m]) else n }

  /** Where a step takes the connection thread. */
  function NextConn(c: Client, expired: bool): Conn {
    match c.conn
    case Connected => TestVersion
    case TestVersion => if c.versionReceived then SendName else WaitVersion
    case WaitVersion => if expired then TimedOut else TestVersion
    case TimedOut => TestVersion
    case SendName => SendCount
    case SendCount => TestCount
    case TestCount => if c.countReceived then NextData(0) else TestCount
    case NextData(i) => if i < c.count then TestData(i) else Publish
    case TestData(i) => if c.dataReceived then NextData(i + 1) else TestData(i)
    case Publish => Resting
    case Resting => if c.initialized then Resting else Connected
  }

  /** What that step writes to the client's fields. */
  function Write(c: Client, expired: bool): Client {
    match c.conn
    case Connected => c.(count := 0, countReceived := false, versionReceived := false, reply := Awaited)
    case WaitVersion =>
      if expired then c.(serverVersion := 0, reply := if c.HasReply() then Overwritten else GivenUp) else c
    case TimedOut => c.(versionReceived := true)
    case NextData(i) => if i < c.count then c.(dataReceived := false) else c
    case Publish => c.(initialized := true)
    case _ => c
  }

  function ConnNext(c: Client, expired: bool): Client { Write(c, expired).(conn := NextConn(c, expired)) }

  /** What that step sends. */
  function ConnSends(p: Peers, c: Client, n: Link): Link {
    match c.conn
    case Connected => Send(n, VersionRequest)
    case SendName => Send(n, ClientName)
    case SendCount => Send(n, CountRequest)
    case NextData(i) => if i < c.count then Send(n, DataRequest(i, Effective(p, c.serverVersion), false)) else n
    case _ => n
  }

  function StepConn(p: Peers, s: State, expired: bool): State {
    if s.c.conn.Resting? && !s.c.connected
    then s.(c := s.c.(conn := Connected, connected := true, initialized := false), n := Link(true, [], [], Serving, 0))
    else s.(c := ConnNext(s.c, expired), n := ConnSends(p, s.c, s.n),
            began := if s.c.conn.Connected? then |s.records| else s.began)
  }

  /** The listener stores what a message carries. */
  function Receive(c: Client, m: ToClient): Client {
    match m
    case VersionReply(v) => c.(listener := StoredVersion, serverVersion := v, reply := Accepted)
    case CountReply(n) => c.(listener := StoredCount, count := n)
    case DataReply(_, _, user) => c.(listener := if user then StoredUserData else StoredData)
    case ListUpdated => c.(initialized := false)
  }

  /** The listener sets the flag of what it has stored. */
  function Announce(c: Client): Client {
    match c.listener
    case StoredVersion => c.(listener := Listening, versionReceived := true)
    case StoredCount => c.(listener := Listening, countReceived := true)
    case StoredData => c.(listener := Listening, dataReceived := true)
    case StoredUserData => c.(listener := Listening, dataReceived := true)
    case Listening => c
  }

  function Decoded(p: Peers, c: Client, m: ToClient): Record
    requires m.DataReply?
  {
    Record(m.idx, m.version, Effective(p, c.serverVersion), m.user, c.Zeroed())
  }

  function StepListener(p: Peers, s: State): State {
    if s.c.listener != Listening || s.n.toClient == [] then s.(c := Announce(s.c)) else
      var m := s.n.toClient[0];
      s.(c := Receive(s.c, m), n := s.n.(toClient := s.n.toClient[1..]),
         records := if m.DataReply? then s.records + [Decoded(p, s.c, m)] else s.records)
  }

  /** The server answers a version request before it records the client's version. */
  function Serve(p: Peers, n: Link, m: ToServer, count: nat): Link {
    match m
    case VersionRequest =>
      if p.serverMax == 0 then n
      else n.(toClient := n.toClient + [VersionReply(p.serverMax)], server := Negotiating)
    case ClientName => n
    case CountRequest => n.(toClient := n.toClient + [CountReply(count)])
    case DataRequest(i, v, user) => if i < count then n.(toClient := n.toClient + [DataReply(i, v, user)]) else n
    case UpdateMode(_, _) => n
  }

  function StepServer(p: Peers, s: State, count: nat): State {
    if s.n.server == Negotiating then s.(n := s.n.(server := Serving, clientVersion := Min(p.clientMax, p.serverMax)))
    else if s.n.toServer == [] then s else
      var m := s.n.toServer[0];
      s.(n := Serve(p, s.n.(toServer := s.n.toServer[1..]), m, count),
         updates := if m.UpdateMode? then s.updates + [Update(m.version, s.n.clientVersion, m.late)] else s.updates)
  }

  function Step(p: Peers, s: State, a: Action): State {
    match a
    case ConnStep(expired) => StepConn(p, s, expired)
    case ListenerStep => StepListener(p, s)
    case ServerStep(count) => StepServer(p, s, count)
    case ListChange => if s.n.online then s.(n := s.n.(toClient := s.n.toClient + [ListUpdated])) else s
    case ModeChange =>
      if s.c.conn.Resting? then s.(n := Send(s.n, UpdateMode(Effective(p, s.c.serverVersion), s.c.Late()))) else s
    case UserRequest(i) =>
      if s.c.conn.Resting?
      then s.(c := s.c.(dataReceived := false), n := Send(s.n, DataRequest(i, Effective(p, s.c.serverVersion), true)))
      else s
    case Lose =>
      if !s.n.online || s.c.listener != Listening then s
      else s.(c := s.c.(initialized := false), n := Link(false, [], [], Serving, s.n.clientVersion))
    case Close => if s.n.online then s else s.(c := s.c.(connected := false))
  }

  function Exec(p: Peers, s: State, run: seq<Action>): State
    decreases |run|
  {
    if run == [] then s else Exec(p, Step(p, s, run[0]), run[1..])
  }

  // ---------------------------------------------------------------- what is on its way

  /** The requests and replies the handshake waits for. */
  datatype Token = Version | Count | Data(idx: nat, version: nat) | User(version: nat)

  function RequestToken(m: ToServer): seq<Token> {
    match m
    case VersionRequest => [Version]
    case CountRequest => [Count]
    case DataRequest(i, v, user) => [if user then User(v) else Data(i, v)]
    case _ => []
  }

  function ReplyToken(m: ToClient): seq<Token> {
    match m
    case VersionReply(_) => [Version]
    case CountReply(_) => [Count]
    case DataReply(i, v, user) => [if user then User(v) else Data(i, v)]
    case ListUpdated => []
  }

  function Requests(q: seq<ToServer>): seq<Token> { if q == [] then [] else RequestToken(q[0]) + Requests(q[1..]) }
  function Replies(q: seq<ToClient>): seq<Token> { if q == [] then [] else ReplyToken(q[0]) + Replies(q[1..]) }

  /** Everything outstanding, in the order in which the listener will meet it. */
  function Pipe(n: Link): seq<Token> { Replies(n.toClient) + Requests(n.toServer) }

  lemma {:induction false} RequestsAppend(q: seq<ToServer>, m: ToServer)
    ensures Requests(q + [m]) == Requests(q) + RequestToken(m)
  {
    hide RequestToken;
    if q == [] {
      assert [m][1..] == [];
      assert RequestToken(m) + [] == RequestToken(m);
    } else {
      RequestsAppend(q[1..], m);
      assert (q + [m])[1..] == q[1..] + [m] && (q + [m])[0] == q[0];
      assert RequestToken(q[0]) + (Requests(q[1..]) + RequestToken(m))
             == RequestToken(q[0]) + Requests(q[1..]) + RequestToken(m);
    }
  }

  lemma {:induction false} RepliesAppend(q: seq<ToClient>, m: ToClient)
    ensures Replies(q + [m]) == Replies(q) + ReplyToken(m)
  {
    hide ReplyToken;
    if q == [] {
      assert [m][1..] == [];
      assert ReplyToken(m) + [] == ReplyToken(m);
    } else {
      RepliesAppend(q[1..], m);
      assert (q + [m])[1..] == q[1..] + [m] && (q + [m])[0] == q[0];
      assert ReplyToken(q[0]) + (Replies(q[1..]) + ReplyToken(m)) == ReplyToken(q[0]) + Replies(q[1..]) + ReplyToken(m);
    }
  }

  lemma SendPipe(n: Link, m: ToServer)
    ensures Pipe(Send(n, m)) == if n.online then Pipe(n) + RequestToken(m) else Pipe(n)
    ensures n.online ==> Requests(Send(n, m).toServer) == Requests(n.toServer) + RequestToken(m)
  {
    RequestsAppend(n.toServer, m);
  }

  lemma OfflinePipe(n: Link)
    requires n.toServer == [] && n.toClient == []
    ensures Pipe(n) == []
  {
  }

  lemma ReceivePipe(n: Link, t: Link)
    requires n.toClient != [] && t.toClient == n.toClient[1..] && t.toServer == n.toServer
    ensures Pipe(n) == ReplyToken(n.toClient[0]) + Pipe(t)
    ensures Pipe(t) == Pipe(n)[|ReplyToken(n.toClient[0])|..]
  {
    hide ReplyToken;
    assert Replies(n.toClient) == ReplyToken(n.toClient[0]) + Replies(t.toClient);
  }

  /** A message the server takes without sending anything. */
  lemma ConsumePipe(n: Link, t: Link)
    requires n.toServer != [] && t.toServer == n.toServer[1..] && t.toClient == n.toClient
    ensures Requests(n.toServer) == RequestToken(n.toServer[0]) + Requests(t.toServer)
    ensures Pipe(n) == Replies(n.toClient) + (RequestToken(n.toServer[0]) + Requests(t.toServer))
    ensures Pipe(t) == Replies(n.toClient) + Requests(t.toServer)
    ensures RequestToken(n.toServer[0]) == [] ==> Pipe(t) == Pipe(n)
  {
    hide RequestToken;
  }

  /** A request the server answers moves to the other direction and keeps its place. */
  lemma AnswerPipe(n: Link, t: Link, reply: ToClient)
    requires n.toServer != [] && t.toServer == n.toServer[1..] && t.toClient == n.toClient + [reply]
    requires ReplyToken(reply) == RequestToken(n.toServer[0])
    ensures Requests(n.toServer) == RequestToken(n.toServer[0]) + Requests(t.toServer)
    ensures Pipe(n) == Replies(n.toClient) + (RequestToken(n.toServer[0]) + Requests(t.toServer))
    ensures Pipe(t) == Pipe(n)
  {
    hide RequestToken, ReplyToken;
    RepliesAppend(n.toClient, reply);
  }

  // ---------------------------------------------------------------- the user's requests come first

  /** What the user has asked for between two rounds is ahead of what the next round asks for. */
  function Users(pipe: seq<Token>): (k: nat)
    ensures k <= |pipe| && (forall i :: 0 <= i < k ==> pipe[i].User?) && (k < |pipe| ==> !pipe[k].User?)
  {
    if pipe == [] || !pipe[0].User? then 0 else 1 + Users(pipe[1..])
  }

  function Round(pipe: seq<Token>): seq<Token> { pipe[Users(pipe)..] }

  lemma {:induction false} UsersAre(pipe: seq<Token>, k: nat)
    requires k <= |pipe| && (forall i :: 0 <= i < k ==> pipe[i].User?) && (k < |pipe| ==> !pipe[k].User?)
    ensures Users(pipe) == k
  {
    if k > 0 { UsersAre(pipe[1..], k - 1); }
  }

  lemma RoundAppend(pipe: seq<Token>, x: seq<Token>)
    requires x == [] || (|x| == 1 && !x[0].User?)
    ensures Users(pipe + x) == Users(pipe) && Round(pipe + x) == Round(pipe) + x
  {
    hide Users;
    UsersAre(pipe + x, Users(pipe));
  }

  lemma RoundAppendUser(pipe: seq<Token>, v: nat)
    requires Round(pipe) == []
    ensures Round(pipe + [User(v)]) == [] && Users(pipe + [User(v)]) == |pipe| + 1
  {
    hide Users;
    assert Users(pipe) == |pipe|;
    UsersAre(pipe + [User(v)], |pipe| + 1);
  }

  function Without(pipe: seq<Token>, r: nat): seq<Token>
    requires r < |pipe|
  {
    pipe[..r] + pipe[r + 1..]
  }

  lemma UserTaken(pipe: seq<Token>, r: nat)
    requires r < Users(pipe)
    ensures Users(Without(pipe, r)) == Users(pipe) - 1 && Round(Without(pipe, r)) == Round(pipe)
  {
    hide Users;
    var t, u := Without(pipe, r), Users(pipe);
    WithoutAt(pipe, r);
    UsersAre(t, u - 1);
  }

  predicate NoUsers(round: seq<Token>) { forall k :: 0 <= k < |round| ==> !round[k].User? }

  lemma BehindNoUser(pipe: seq<Token>, j: nat)
    requires NoUsers(Round(pipe)) && Users(pipe) <= j < |pipe|
    ensures !pipe[j].User?
  {
    hide Users;
    assert Round(pipe)[j - Users(pipe)] == pipe[j];
  }

  lemma RoundTaken(pipe: seq<Token>, r: nat)
    requires Users(pipe) <= r < |pipe| && NoUsers(Round(pipe))
    ensures Users(Without(pipe, r)) == Users(pipe)
    ensures Round(Without(pipe, r)) == Without(Round(pipe), r - Users(pipe))
  {
    hide Users, NoUsers, Without, Round;
    var t, u := Without(pipe, r), Users(pipe);
    WithoutAt(pipe, r);
    if u < |t| { BehindNoUser(pipe, if u < r then u else r + 1); }
    UsersAre(t, u);
    RoundOf(pipe);
    RoundOf(t);
    TakenBehind(pipe, u, r);
  }

  lemma RoundOf(pipe: seq<Token>)
    ensures Round(pipe) == pipe[Users(pipe)..]
  {
  }

  lemma WithoutAt(s: seq<Token>, r: nat)
    requires r < |s|
    ensures |Without(s, r)| == |s| - 1
    ensures forall i :: 0 <= i < r ==> Without(s, r)[i] == s[i]
    ensures forall i :: r <= i < |s| - 1 ==> Without(s, r)[i] == s[i + 1]
  {
  }

  lemma TakenBehind(s: seq<Token>, u: nat, r: nat)
    requires u <= r < |s|
    ensures Without(s, r)[u..] == Without(s[u..], r - u)
  {
  }

  /** Nothing of the round in hand. */
  predicate Calm(c: Client) { c.listener == Listening || c.listener == StoredUserData }

  /** Where replies to the user can still come: up to the count of the next round. */
  predicate Early(c: Client) {
    || c.conn.Resting? || c.conn.Connected? || BeforeCount(c.conn)
    || (c.conn.TestCount? && !c.countReceived && c.listener != StoredCount)
  }

  /** A user's request carries the version of its round, which the client still has unless the next round's time-out has
      written 0. */
  predicate UserFits(p: Peers, c: Client, x: Token) {
    x.User? ==>
      && (x.version == 0 || x.version == Common(p))
      && (c.conn.Resting? || c.conn.Connected? || !c.Zeroed() ==> x.version == Effective(p, c.serverVersion))
  }

  predicate UserPhase(p: Peers, c: Client, pipe: seq<Token>) {
    && (Users(pipe) > 0 || c.listener == StoredUserData ==> Early(c))
    && (c.Zeroed() ==> c.serverVersion == 0)
    && forall k :: 0 <= k < |pipe| ==> UserFits(p, c, pipe[k])
  }

  predicate BeforeCount(conn: Conn) {
    conn.TestVersion? || conn.WaitVersion? || conn.TimedOut? || conn.SendName? || conn.SendCount?
  }

  // ---------------------------------------------------------------- the invariant

  /** The version both ends know. */
  function Common(p: Peers): nat { Min(p.clientMax, p.serverMax) }

  /** The version the connection thread has settled on when it counts controllers: a server without versions never
      answers, and any other one has answered by then, whether or not the time-out came in between. */
  predicate Settled(p: Peers, c: Client) {
    if p.serverMax == 0 then c.serverVersion == 0 && !c.Late()
    else c.HasReply() && c.serverVersion == if c.Late() then 0 else p.serverMax
  }

  /** What may be outstanding of the round at each place of the connection thread: FIFO order keeps the version ahead of
      the count, and the count ahead of every record. */
  predicate Outstanding(p: Peers, c: Client, pipe: seq<Token>, online: bool) {
    match c.conn
    case Connected => pipe == [] && Calm(c)
    case TestVersion => VersionPhase(p, c, pipe, online)
    case WaitVersion => VersionPhase(p, c, pipe, online)
    case TimedOut => VersionPhase(p, c, pipe, online) && (p.serverMax == 0 ==> c.serverVersion == 0)
    case SendName => VersionPhase(p, c, pipe, online) && (p.serverMax == 0 ==> c.serverVersion == 0)
    case SendCount => VersionPhase(p, c, pipe, online) && (p.serverMax == 0 ==> c.serverVersion == 0)
    case TestCount => CountPhase(p, c, pipe, online)
    case TestData(i) => Settled(p, c) && RecordPhase(p, c, pipe, i)
    case Resting => Settled(p, c) && pipe == [] && Calm(c)
    case _ => Settled(p, c) && pipe == [] && c.listener == Listening
  }

  predicate VersionPhase(p: Peers, c: Client, pipe: seq<Token>, online: bool) {
    && (pipe == [] || pipe == [Version])
    && (Calm(c) || (c.listener == StoredVersion && pipe == []))
    && !c.countReceived
    && (online && p.serverMax > 0 && pipe == [] ==> Settled(p, c))
    && (p.serverMax == 0 && c.versionReceived ==> c.serverVersion == 0)
  }

  predicate CountPhase(p: Peers, c: Client, pipe: seq<Token>, online: bool) {
    if c.countReceived then Settled(p, c) && pipe == [] && c.listener == Listening
    else if c.listener == StoredCount then Settled(p, c) && pipe == []
    else
      && (Calm(c) || (c.listener == StoredVersion && pipe != [Version, Count]))
      && (if online then pipe == [Count] || pipe == [Version, Count] else pipe == [])
      && (pipe == [Count] ==> Settled(p, c))
      && (p.serverMax == 0 ==> c.serverVersion == 0)
  }

  predicate RecordPhase(p: Peers, c: Client, pipe: seq<Token>, i: nat) {
    if pipe == [] then c.listener == Listening || (c.listener == StoredData && !c.dataReceived)
    else pipe == [Data(i, Effective(p, c.serverVersion))] && c.listener == Listening && !c.dataReceived
  }

  /** An offline connection carries nothing, and a server without versions sends none. */
  predicate Flags(p: Peers, c: Client, n: Link) {
    && (!n.online ==> n.toServer == [] && n.toClient == [] && n.server == Serving && c.listener == Listening)
    && (n.online ==> c.connected)
    && (p.serverMax == 0 ==> n.server == Serving && !c.HasReply() && c.listener != StoredVersion)
  }

  /** The server knows the client's version or is about to, and does before it answers the count. */
  predicate Negotiation(p: Peers, conn: Conn, n: Link) {
    && (n.clientVersion == 0 || n.clientVersion == Common(p))
    && (n.online && conn != Connected ==>
          n.server == Negotiating || n.clientVersion == Common(p) || Version in Requests(n.toServer))
    && (n.server == Negotiating ==>
          conn != Connected && (Asked(conn) ==> Count in Requests(n.toServer)))
  }

  predicate Asked(conn: Conn) {
    conn.TestCount? || conn.NextData? || conn.TestData? || conn.Publish? || conn.Resting?
  }

  predicate VersionFits(p: Peers, m: ToClient) { m.VersionReply? ==> m.version == p.serverMax > 0 }

  predicate Arriving(p: Peers, q: seq<ToClient>) { forall k :: 0 <= k < |q| ==> VersionFits(p, q[k]) }

  /** A mode update was encoded with the common version, or with 0 after the time-out had overwritten the reply. */
  predicate ModeFits(p: Peers, clientVersion: nat, m: ToServer) {
    m.UpdateMode? ==> clientVersion == Common(p) && m.version == if m.late then 0 else Common(p)
  }

  predicate Leaving(p: Peers, clientVersion: nat, q: seq<ToServer>) {
    forall k :: 0 <= k < |q| ==> ModeFits(p, clientVersion, q[k])
  }

  predicate UpdateAgrees(p: Peers, u: Update) { u.decoded == Common(p) && u.encoded == if u.late then 0 else Common(p) }

  predicate RecordFits(p: Peers, r: Record) {
    if !r.user then r.encoded == r.decoded
    else (r.encoded == 0 || r.encoded == Common(p)) && (if r.zeroed then r.decoded == 0 else r.decoded == r.encoded)
  }

  predicate History(p: Peers, s: State) {
    && (forall k :: 0 <= k < |s.records| ==> RecordFits(p, s.records[k]))
    && (forall k :: 0 <= k < |s.updates| ==> UpdateAgrees(p, s.updates[k]))
  }

  predicate Inv(p: Peers, s: State) {
    && Outstanding(p, s.c, Round(Pipe(s.n)), s.n.online) && UserPhase(p, s.c, Pipe(s.n))
    && Flags(p, s.c, s.n) && Negotiation(p, s.c.conn, s.n)
    && Arriving(p, s.n.toClient) && Leaving(p, s.n.clientVersion, s.n.toServer)
    && History(p, s)
  }

  lemma OutstandingNoUsers(p: Peers, c: Client, round: seq<Token>, online: bool)
    requires Outstanding(p, c, round, online)
    ensures NoUsers(round)
  {
  }

  // ---------------------------------------------------------------- every step keeps the invariant

  /** What a step of the connection thread adds to the pipe. */
  function Sent(p: Peers, c: Client): seq<Token> {
    match c.conn
    case Connected => [Version]
    case SendCount => [Count]
    case NextData(i) => if i < c.count then [Data(i, Effective(p, c.serverVersion))] else []
    case _ => []
  }

  lemma ConnPipe(p: Peers, c: Client, n: Link, t: Link)
    requires t == ConnSends(p, c, n)
    ensures t == n.(toServer := t.toServer)
    ensures if n.online
            then Pipe(t) == Pipe(n) + Sent(p, c) && Requests(t.toServer) == Requests(n.toServer) + Sent(p, c)
            else t == n
    ensures Leaving(p, n.clientVersion, n.toServer) ==> Leaving(p, n.clientVersion, t.toServer)
  {
    hide Requests, Replies, Pipe, Common, Effective;
    match c.conn
    case Connected => SendPipe(n, VersionRequest);
    case SendName => SendPipe(n, ClientName);
    case SendCount => SendPipe(n, CountRequest);
    case NextData(i) => SendPipe(n, DataRequest(i, Effective(p, c.serverVersion), false));
    case _ =>
  }

  predicate Sends(c: Client) { c.conn.Connected? || c.conn.SendCount? || (c.conn.NextData? && c.conn.i < c.count) }

  lemma ConnSending(p: Peers, c: Client, pipe: seq<Token>, online: bool, expired: bool)
    requires Outstanding(p, c, pipe, online) && (!online ==> pipe == []) && Sends(c)
    requires p.serverMax == 0 ==> !c.Late() && c.listener != StoredVersion
    ensures Outstanding(p, ConnNext(c, expired), if online then pipe + Sent(p, c) else pipe, online)
  {
    hide Effective;
    if c.conn.SendCount? {
      assert [Version] + [Count] == [Version, Count] && [] + [Count] == [Count];
    } else {
      assert [] + Sent(p, c) == Sent(p, c);
    }
  }

  lemma ConnQuiet(p: Peers, c: Client, pipe: seq<Token>, online: bool, expired: bool)
    requires Outstanding(p, c, pipe, online) && !Sends(c)
    requires p.serverMax == 0 ==> !c.HasReply() && c.listener != StoredVersion
    ensures Outstanding(p, ConnNext(c, expired), pipe, online) && Sent(p, c) == []
  {
    hide Effective;
    if c.conn.TestVersion? || c.conn.WaitVersion? || c.conn.TimedOut? || c.conn.SendName? {
      ConnNegotiating(p, c, pipe, online, expired);
    } else {
      hide VersionPhase;
    }
  }

  lemma ConnNegotiating(p: Peers, c: Client, pipe: seq<Token>, online: bool, expired: bool)
    requires Outstanding(p, c, pipe, online) && (p.serverMax == 0 ==> !c.HasReply())
    requires c.conn.TestVersion? || c.conn.WaitVersion? || c.conn.TimedOut? || c.conn.SendName?
    ensures Outstanding(p, ConnNext(c, expired), pipe, online) && Sent(p, c) == []
  {
    hide Effective, CountPhase, RecordPhase;
  }

  lemma SentBy(p: Peers, c: Client)
    ensures c.conn.Connected? ==> Sent(p, c) == [Version]
    ensures c.conn.SendCount? ==> Sent(p, c) == [Count]
  {
  }

  lemma ConnOrder(c: Client, expired: bool, next: Conn)
    requires next == NextConn(c, expired)
    ensures next.Connected? ==> c.conn.Resting?
    ensures Asked(next) ==> Asked(c.conn) || c.conn.SendCount?
  {
  }

  lemma ConnNegotiation(p: Peers, c: Client, n: Link, next: Conn, t: Link)
    requires (!n.online ==> n.server == Serving) && (c.conn.Resting? ==> Count !in Requests(n.toServer))
    requires next.Connected? ==> c.conn.Resting?
    requires Asked(next) ==> Asked(c.conn) || c.conn.SendCount?
    requires Negotiation(p, c.conn, n) && t == ConnSends(p, c, n)
    ensures Negotiation(p, next, t)
  {
    hide Requests, Replies, Common, Effective, ConnSends, Sent;
    ConnPipe(p, c, n, t);
    if n.online {
      SentBy(p, c);
      assert forall k :: k in Requests(n.toServer) ==> k in Requests(t.toServer);
    }
  }

  /** The user's records arrive first; a reply of the round arrives when none is left. */
  lemma ReceiveUsers(p: Peers, c: Client, n: Link, t: Link)
    requires Outstanding(p, c, Round(Pipe(n)), n.online) && n.toClient != []
    requires t == n.(toClient := n.toClient[1..])
    ensures var m, was, now := n.toClient[0], Pipe(n), Pipe(t);
            if ReplyToken(m) == [] then now == was
            else
              && was != [] && was[0] == ReplyToken(m)[0] && now == was[1..]
              && if was[0].User? then Users(was) > 0 && Users(now) == Users(was) - 1 && Round(now) == Round(was)
                 else Users(was) == 0 && Users(now) == 0 && Round(was) == was && Round(now) == now
  {
    hide Requests, Replies, Pipe, ReplyToken, Outstanding, Users;
    ReceivePipe(n, t);
    OutstandingNoUsers(p, c, Round(Pipe(n)), n.online);
    var was, now := Pipe(n), Pipe(t);
    if ReplyToken(n.toClient[0]) != [] {
      OneToken(n.toClient[0]);
      assert now == Without(was, 0);
      if was[0].User? {
        UserTaken(was, 0);
      } else {
        UsersAre(was, 0);
        RoundTaken(was, 0);
      }
    }
  }

  lemma OneToken(m: ToClient)
    requires ReplyToken(m) != []
    ensures |ReplyToken(m)| == 1
  {
  }

  lemma UserOutstanding(p: Peers, c: Client, round: seq<Token>, online: bool)
    requires Outstanding(p, c, round, online) && Early(c) && c.listener == Listening
    ensures Outstanding(p, c.(listener := StoredUserData), round, online)
  {
    hide Effective;
  }

  /** What the round's own reply does. */
  lemma OwnOutstanding(p: Peers, c: Client, m: ToClient, round: seq<Token>, next: seq<Token>, online: bool)
    requires Outstanding(p, c, round, online) && c.listener == Listening && VersionFits(p, m)
    requires !(m.DataReply? && m.user) && (p.serverMax == 0 ==> !c.HasReply())
    requires if ReplyToken(m) == [] then next == round
             else round != [] && round[0] == ReplyToken(m)[0] && next == round[1..]
    ensures Outstanding(p, Receive(c, m), next, online)
    ensures m.DataReply? ==> m.version == Effective(p, c.serverVersion)
  {
    hide Effective;
    assert [Version, Count][1..] == [Count];
  }

  lemma ReceiveOutstanding(p: Peers, c: Client, n: Link, t: Link)
    requires Outstanding(p, c, Round(Pipe(n)), n.online) && UserPhase(p, c, Pipe(n))
    requires Flags(p, c, n) && Arriving(p, n.toClient)
    requires c.listener == Listening && n.toClient != [] && t == n.(toClient := n.toClient[1..])
    ensures Outstanding(p, Receive(c, n.toClient[0]), Round(Pipe(t)), t.online)
  {
    hide Requests, Replies, Pipe, Effective, Outstanding, Users, UserFits, Round;
    var m := n.toClient[0];
    ReceiveUsers(p, c, n, t);
    if m.DataReply? && m.user {
      UserOutstanding(p, c, Round(Pipe(n)), n.online);
    } else {
      assert VersionFits(p, m);
      OwnOutstanding(p, c, m, Round(Pipe(n)), Round(Pipe(t)), n.online);
    }
  }

  lemma ReceiveFlags(p: Peers, c: Client, n: Link, t: Link)
    requires Flags(p, c, n) && Arriving(p, n.toClient)
    requires c.listener == Listening && n.toClient != [] && t == n.(toClient := n.toClient[1..])
    ensures Flags(p, Receive(c, n.toClient[0]), t)
  {
    assert VersionFits(p, n.toClient[0]);
  }

  lemma ReceiveFits(p: Peers, c: Client, m: ToClient, x: Token)
    requires UserFits(p, c, x) && (m.VersionReply? ==> !x.User?)
    ensures UserFits(p, Receive(c, m), x)
  {
    hide Effective, Common;
  }

  lemma ReceiveEarly(p: Peers, c: Client, m: ToClient)
    requires c.listener == Listening && (c.Zeroed() ==> c.serverVersion == 0)
    ensures var t := Receive(c, m);
            && (t.listener == StoredUserData <==> m.DataReply? && m.user)
            && (t.Zeroed() ==> t.serverVersion == 0)
            && ((m.DataReply? && m.user) || m.ListUpdated? ==> (Early(c) ==> Early(t)))
  {
  }

  lemma ReceiveUserPhase(p: Peers, c: Client, n: Link, t: Link)
    requires Outstanding(p, c, Round(Pipe(n)), n.online) && UserPhase(p, c, Pipe(n))
    requires c.listener == Listening && n.toClient != [] && t == n.(toClient := n.toClient[1..])
    ensures UserPhase(p, Receive(c, n.toClient[0]), Pipe(t))
  {
    hide Requests, Replies, Pipe, Outstanding, Users, UserFits, Early, Round, Receive;
    var m, was, now := n.toClient[0], Pipe(n), Pipe(t);
    ReceiveUsers(p, c, n, t);
    ReceiveEarly(p, c, m);
    OutstandingNoUsers(p, c, Round(was), n.online);
    forall k | 0 <= k < |now| ensures UserFits(p, Receive(c, m), now[k]) {
      assert now[k] == was[if ReplyToken(m) == [] then k else k + 1];
      if m.VersionReply? { assert now[k] == Round(was)[k + 1]; }
      ReceiveFits(p, c, m, now[k]);
    }
  }

  lemma ReceiveRecord(p: Peers, c: Client, n: Link)
    requires Outstanding(p, c, Round(Pipe(n)), n.online) && UserPhase(p, c, Pipe(n)) && Arriving(p, n.toClient)
    requires Flags(p, c, n)
    requires c.listener == Listening && n.toClient != [] && n.toClient[0].DataReply?
    ensures RecordFits(p, Decoded(p, c, n.toClient[0]))
  {
    hide Requests, Replies, Pipe, Outstanding, Users, Common;
    var m, t := n.toClient[0], n.(toClient := n.toClient[1..]);
    ReceiveUsers(p, c, n, t);
    if m.user {
      assert UserFits(p, c, Pipe(n)[0]);
    } else {
      OwnOutstanding(p, c, m, Round(Pipe(n)), Round(Pipe(t)), n.online);
    }
  }

  lemma AnnounceOutstanding(p: Peers, c: Client, pipe: seq<Token>, online: bool)
    requires Outstanding(p, c, pipe, online) && (p.serverMax == 0 ==> c.listener != StoredVersion)
    ensures Outstanding(p, Announce(c), pipe, online) && Announce(c).conn == c.conn
  {
    hide Effective;
  }

  lemma AnnounceUserPhase(p: Peers, c: Client, pipe: seq<Token>)
    requires UserPhase(p, c, pipe)
    ensures UserPhase(p, Announce(c), pipe)
  {
    hide Effective, Common, Users;
    forall k | 0 <= k < |pipe| ensures UserFits(p, Announce(c), pipe[k]) { assert UserFits(p, c, pipe[k]); }
  }

  /** The server drops a version request it does not know and a request for a record it does not have. */
  lemma ServePipe(p: Peers, n: Link, count: nat, t: Link)
    requires n.server == Serving && n.toServer != []
    requires t == Serve(p, n.(toServer := n.toServer[1..]), n.toServer[0], count)
    ensures var m := n.toServer[0]; var r := |Replies(n.toClient)|;
            && Requests(n.toServer) == RequestToken(m) + Requests(t.toServer)
            && r <= |Pipe(n)| && Pipe(n)[r..] == Requests(n.toServer)
            && (RequestToken(m) != [] ==> r < |Pipe(n)| && Pipe(n)[r] == RequestToken(m)[0])
            && (Pipe(t) == Pipe(n) ||
                (r < |Pipe(n)| && Pipe(t) == Without(Pipe(n), r) &&
                 if p.serverMax == 0 && m.VersionRequest? then Pipe(n)[r] == Version
                 else Pipe(n)[r].Data? || Pipe(n)[r].User?))
  {
    hide Requests, Replies;
    if |t.toClient| > |n.toClient| {
      AnswerPipe(n, t, t.toClient[|n.toClient|]);
    } else {
      ConsumePipe(n, t);
    }
  }

  /** A request of the round that the server drops. */
  lemma DroppedOutstanding(p: Peers, c: Client, round: seq<Token>, r: nat, online: bool)
    requires Outstanding(p, c, round, online) && r < |round| && round[r] != Count
    requires round[r] == Version ==> p.serverMax == 0
    requires p.serverMax == 0 ==> c.listener != StoredVersion && !c.HasReply()
    ensures Outstanding(p, c, Without(round, r), online)
  {
    hide Effective;
  }

  lemma ServeOutstanding(p: Peers, c: Client, n: Link, count: nat, t: Link)
    requires Outstanding(p, c, Round(Pipe(n)), n.online) && Flags(p, c, n)
    requires n.server == Serving && n.toServer != []
    requires t == Serve(p, n.(toServer := n.toServer[1..]), n.toServer[0], count)
    ensures Outstanding(p, c, Round(Pipe(t)), t.online) && Flags(p, c, t)
  {
    hide Requests, Replies, Pipe, Outstanding, Users;
    ServePipe(p, n, count, t);
    OutstandingNoUsers(p, c, Round(Pipe(n)), n.online);
    var was, r := Pipe(n), |Replies(n.toClient)|;
    if Pipe(t) != was {
      if r < Users(was) {
        UserTaken(was, r);
      } else {
        RoundTaken(was, r);
        assert Round(was)[r - Users(was)] == was[r];
        DroppedOutstanding(p, c, Round(was), r - Users(was), n.online);
      }
    }
  }

  lemma ServeUserPhase(p: Peers, c: Client, n: Link, count: nat, t: Link)
    requires Outstanding(p, c, Round(Pipe(n)), n.online) && UserPhase(p, c, Pipe(n))
    requires n.server == Serving && n.toServer != []
    requires t == Serve(p, n.(toServer := n.toServer[1..]), n.toServer[0], count)
    ensures UserPhase(p, c, Pipe(t))
  {
    hide Requests, Replies, Pipe, Outstanding, Users, UserFits, Round;
    ServePipe(p, n, count, t);
    OutstandingNoUsers(p, c, Round(Pipe(n)), n.online);
    var was, r := Pipe(n), |Replies(n.toClient)|;
    if Pipe(t) != was {
      if r < Users(was) { UserTaken(was, r); } else { RoundTaken(was, r); }
      assert forall k :: 0 <= k < |Pipe(t)| ==> Pipe(t)[k] == was[if k < r then k else k + 1];
    }
  }

  lemma ServeNegotiation(p: Peers, c: Client, n: Link, count: nat, t: Link)
    requires Outstanding(p, c, Round(Pipe(n)), n.online) && Flags(p, c, n) && Negotiation(p, c.conn, n)
    requires n.server == Serving && n.toServer != []
    requires t == Serve(p, n.(toServer := n.toServer[1..]), n.toServer[0], count)
    ensures Negotiation(p, c.conn, t)
  {
    hide Requests, Replies, Pipe, Effective, Settled, Users;
    ServePipe(p, n, count, t);
    var m, r, u := n.toServer[0], |Replies(n.toClient)|, Users(Pipe(n));
    if m.VersionRequest? {
      assert Pipe(n)[r] == Version && r >= u;
      assert Round(Pipe(n))[r - u] == Version;
      if Asked(c.conn) && p.serverMax > 0 {
        assert Round(Pipe(n)) == [Version, Count] && r == u;
        assert Requests(t.toServer)[0] == Pipe(n)[r + 1] == Round(Pipe(n))[1];
      }
    }
  }

  lemma WriteFlags(c: Client, expired: bool, t: Client)
    requires t == ConnNext(c, expired)
    ensures t.listener == c.listener && (!c.HasReply() ==> !t.HasReply())
  {
    hide NextConn;
    match c.conn
    case Connected =>
    case WaitVersion =>
    case TimedOut =>
    case NextData(_) =>
    case Publish =>
    case _ =>
  }

  lemma WriteConnected(c: Client, expired: bool, t: Client)
    requires t == ConnNext(c, expired)
    ensures t.connected == c.connected
  {
    hide NextConn;
    match c.conn
    case Connected =>
    case WaitVersion =>
    case TimedOut =>
    case NextData(_) =>
    case Publish =>
    case _ =>
  }

  lemma WrittenVersion(c: Client, expired: bool)
    ensures var t := Write(c, expired);
            && t.serverVersion == (if c.conn.WaitVersion? && expired then 0 else c.serverVersion)
            && (t.Zeroed() <==> !c.conn.Connected? && (c.Zeroed() || (c.conn.WaitVersion? && expired)))
  {
    match c.conn
    case Connected =>
    case WaitVersion =>
    case TimedOut =>
    case NextData(_) =>
    case Publish =>
    case _ =>
  }

  lemma EarlyNext(p: Peers, c: Client, round: seq<Token>, online: bool, expired: bool)
    requires Outstanding(p, c, round, online) && Early(c)
    ensures Early(ConnNext(c, expired))
  {
    hide Write, Settled, Effective;
    WrittenCount(c, expired);
    WrittenData(c, expired);
  }

  lemma ConnUserPhase(p: Peers, c: Client, pipe: seq<Token>, x: seq<Token>, online: bool, expired: bool)
    requires Outstanding(p, c, Round(pipe), online) && UserPhase(p, c, pipe)
    requires x == [] || (|x| == 1 && !x[0].User?)
    ensures UserPhase(p, ConnNext(c, expired), pipe + x)
  {
    hide Write, Outstanding, Early, Users, UserFits, NextConn;
    var t := ConnNext(c, expired);
    WrittenVersion(c, expired);
    WrittenData(c, expired);
    RoundAppend(pipe, x);
    OutstandingNoUsers(p, c, Round(pipe), online);
    if Early(c) { EarlyNext(p, c, Round(pipe), online, expired); }
    forall k | 0 <= k < |pipe + x| ensures UserFits(p, t, (pipe + x)[k]) {
      if k < |pipe| {
        if k >= Users(pipe) { assert pipe[k] == Round(pipe)[k - Users(pipe)]; }
        ConnFits(p, c, pipe[k], expired);
      } else {
        NotUser(p, t, (pipe + x)[k]);
      }
    }
  }

  lemma NotUser(p: Peers, c: Client, x: Token)
    requires !x.User?
    ensures UserFits(p, c, x)
  {
  }

  lemma ConnFits(p: Peers, c: Client, x: Token, expired: bool)
    requires UserFits(p, c, x) && (x.User? ==> Early(c))
    ensures UserFits(p, ConnNext(c, expired), x)
  {
    hide Write, Effective, Common;
    WrittenVersion(c, expired);
  }

  lemma SendFlags(p: Peers, c: Client, n: Link, t: Link)
    requires t == ConnSends(p, c, n)
    ensures t.toClient == n.toClient && t.clientVersion == n.clientVersion && t.server == n.server
    ensures t.online == n.online && (!n.online ==> t == n)
  {
    hide Effective;
  }

  lemma ConnFlags(p: Peers, c: Client, n: Link, expired: bool, t: Link)
    requires Flags(p, c, n) && t == ConnSends(p, c, n)
    ensures Flags(p, ConnNext(c, expired), t) && t.toClient == n.toClient && t.clientVersion == n.clientVersion
  {
    hide ConnNext, ConnSends;
    WriteFlags(c, expired, ConnNext(c, expired));
    WriteConnected(c, expired, ConnNext(c, expired));
    SendFlags(p, c, n, t);
  }

  lemma ReconnectKeepsInv(p: Peers, s: State, t: State)
    requires Inv(p, s) && s.c.conn.Resting? && !s.c.connected
    requires t == s.(c := s.c.(conn := Connected, connected := true, initialized := false),
                     n := Link(true, [], [], Serving, 0))
    ensures Inv(p, t)
  {
    hide Pipe, Requests, Replies, Effective, Common, VersionFits, ModeFits, UpdateAgrees, RecordFits, VersionPhase,
         CountPhase, RecordPhase;
    OfflinePipe(s.n);
    OfflinePipe(t.n);
    NoRound(s.n);
    NoRound(t.n);
  }

  lemma StepConnKeepsInv(p: Peers, s: State, expired: bool, t: State)
    requires Inv(p, s) && t == StepConn(p, s, expired)
    ensures Inv(p, t)
  {
    hide Inv, ConnNext, ConnSends;
    if s.c.conn.Resting? && !s.c.connected {
      ReconnectKeepsInv(p, s, t);
    } else {
      ThreadKeepsInv(p, s, expired, t);
    }
  }

  lemma ThreadKeepsInv(p: Peers, s: State, expired: bool, t: State)
    requires Inv(p, s) && t == StepConn(p, s, expired) && !(s.c.conn.Resting? && !s.c.connected)
    ensures Inv(p, t)
  {
    hide Pipe, Requests, Replies, Effective, VersionFits, ModeFits, UpdateAgrees, UserPhase, Users, Round, RecordFits;
    var was, sent := Pipe(s.n), Sent(p, s.c);
    ConnPipe(p, s.c, s.n, t.n);
    RoundAppend(was, sent);
    assert was + [] == was && Round(was) + [] == Round(was);
    if !s.n.online {
      OfflinePipe(s.n);
      NoRound(s.n);
    }
    if Sends(s.c) {
      ConnSending(p, s.c, Round(was), s.n.online, expired);
    } else {
      ConnQuiet(p, s.c, Round(was), s.n.online, expired);
    }
    ConnUserPhase(p, s.c, was, if s.n.online then sent else [], s.n.online, expired);
    ConnOrder(s.c, expired, t.c.conn);
    RestingPipe(p, s.c, Round(was), s.n.online);
    if s.c.conn.Resting? { RestingRequests(s.n); }
    hide Outstanding, ConnNext, ConnSends, Flags;
    ConnFlags(p, s.c, s.n, expired, t.n);
    ConnNegotiation(p, s.c, s.n, t.c.conn, t.n);
  }

  lemma NoRound(n: Link)
    requires Pipe(n) == []
    ensures Users(Pipe(n)) == 0 && Round(Pipe(n)) == []
  {
  }

  /** Between rounds only the user's requests can be on their way. */
  lemma RestingRequests(n: Link)
    requires Round(Pipe(n)) == []
    ensures Version !in Requests(n.toServer) && Count !in Requests(n.toServer)
  {
    hide Requests, Replies, Users;
    var pipe, r := Pipe(n), |Replies(n.toClient)|;
    assert Users(pipe) == |pipe|;
    assert forall k :: 0 <= k < |Requests(n.toServer)| ==> pipe[r + k] == Requests(n.toServer)[k];
  }

  lemma RestingPipe(p: Peers, c: Client, pipe: seq<Token>, online: bool)
    requires Outstanding(p, c, pipe, online)
    ensures c.conn.Resting? ==> pipe == [] && Settled(p, c)
  {
  }

  lemma StepListenerKeepsInv(p: Peers, s: State, t: State)
    requires Inv(p, s) && t == StepListener(p, s)
    ensures Inv(p, t)
  {
    hide Pipe, Requests, Replies, Effective, Common, VersionFits, ModeFits, UpdateAgrees, Outstanding, Round, UserPhase,
         RecordFits;
    if s.c.listener != Listening || s.n.toClient == [] {
      AnnounceOutstanding(p, s.c, Round(Pipe(s.n)), s.n.online);
      AnnounceUserPhase(p, s.c, Pipe(s.n));
    } else {
      ReceiveOutstanding(p, s.c, s.n, t.n);
      ReceiveFlags(p, s.c, s.n, t.n);
      ReceiveUserPhase(p, s.c, s.n, t.n);
      if s.n.toClient[0].DataReply? { ReceiveRecord(p, s.c, s.n); }
    }
  }

  lemma StepServerKeepsInv(p: Peers, s: State, count: nat, t: State)
    requires Inv(p, s) && t == StepServer(p, s, count)
    ensures Inv(p, t)
  {
    hide Requests, Replies, Effective, Outstanding, UserPhase, Round, RecordFits;
    if s.n.server == Serving && s.n.toServer != [] {
      hide Pipe;
      ServeOutstanding(p, s.c, s.n, count, t.n);
      ServeUserPhase(p, s.c, s.n, count, t.n);
      ServeNegotiation(p, s.c, s.n, count, t.n);
      assert ModeFits(p, s.n.clientVersion, s.n.toServer[0]);
    }
  }

  lemma ModeChangeKeepsInv(p: Peers, s: State, t: State)
    requires Inv(p, s) && t == Step(p, s, ModeChange)
    ensures Inv(p, t)
  {
    hide Requests, Replies, Pipe, Outstanding, VersionFits, UpdateAgrees, UserPhase, Round, RecordFits;
    if s.c.conn.Resting? && s.n.online {
      var m := UpdateMode(Effective(p, s.c.serverVersion), s.c.Late());
      SendPipe(s.n, m);
      RestingAgrees(p, s);
      assert Pipe(s.n) + [] == Pipe(s.n) && Requests(s.n.toServer) + [] == Requests(s.n.toServer);
    }
  }

  lemma UserOutstandingAgain(p: Peers, c: Client, online: bool)
    requires Outstanding(p, c, [], online) && c.conn.Resting?
    ensures Outstanding(p, c.(dataReceived := false), [], online)
  {
  }

  lemma UserRequestKeepsInv(p: Peers, s: State, i: nat, t: State)
    requires Inv(p, s) && t == Step(p, s, UserRequest(i))
    ensures Inv(p, t)
  {
    hide Requests, Replies, Pipe, Outstanding, VersionFits, UpdateAgrees, Round, Users, RecordFits, Effective, Common;
    if s.c.conn.Resting? {
      var v := Effective(p, s.c.serverVersion);
      var was := Pipe(s.n);
      SendPipe(s.n, DataRequest(i, v, true));
      RestingPipe(p, s.c, Round(was), s.n.online);
      UserOutstandingAgain(p, s.c, s.n.online);
      if s.n.online {
        RestingAgrees(p, s);
        RoundAppendUser(was, v);
        forall k | 0 <= k < |was + [User(v)]| ensures UserFits(p, t.c, (was + [User(v)])[k]) {
          if k < |was| { assert UserFits(p, s.c, was[k]); }
        }
        assert forall x :: x in Requests(s.n.toServer) ==> x in Requests(t.n.toServer);
      } else {
        assert forall k :: 0 <= k < |was| ==> UserFits(p, s.c, was[k]);
      }
    }
  }

  lemma RestingAgrees(p: Peers, s: State)
    requires Inv(p, s) && s.c.conn.Resting? && s.n.online
    ensures s.n.server == Serving && s.n.clientVersion == Common(p)
    ensures Effective(p, s.c.serverVersion) == if s.c.Late() then 0 else Common(p)
    ensures s.c.Late() <==> p.serverMax > 0 && s.c.serverVersion == 0
  {
    hide Replies, Requests, Pipe, History, Arriving, Leaving, UserPhase, Round;
    RestingRequests(s.n);
  }

  lemma ListChangeKeepsInv(p: Peers, s: State, t: State)
    requires Inv(p, s) && t == Step(p, s, ListChange)
    ensures Inv(p, t)
  {
    hide Requests, Replies, Outstanding, Effective, UpdateAgrees, ModeFits, UserPhase, Round, RecordFits;
    RepliesAppend(s.n.toClient, ListUpdated);
    assert Replies(s.n.toClient) + [] == Replies(s.n.toClient);
  }

  lemma LossKeepsInv(p: Peers, s: State, a: Action, t: State)
    requires Inv(p, s) && (a.Lose? || a.Close?) && t == Step(p, s, a)
    ensures Inv(p, t)
  {
    hide Requests, Replies, Pipe, Effective, Common, UpdateAgrees, ModeFits, VersionFits, RecordFits;
    if !t.n.online {
      OfflinePipe(t.n);
      NoRound(t.n);
    }
  }

  lemma StepKeepsInv(p: Peers, s: State, a: Action)
    requires Inv(p, s)
    ensures Inv(p, Step(p, s, a))
  {
    hide Effective, Outstanding, VersionFits, ModeFits, UpdateAgrees, StepConn, StepListener, StepServer, Requests,
         UserPhase, Round, RecordFits, Flags, Negotiation, Arriving, Leaving;
    var t := Step(p, s, a);
    match a
    case ConnStep(expired) => StepConnKeepsInv(p, s, expired, t);
    case ListenerStep => StepListenerKeepsInv(p, s, t);
    case ServerStep(count) => StepServerKeepsInv(p, s, count, t);
    case ListChange => ListChangeKeepsInv(p, s, t);
    case ModeChange => ModeChangeKeepsInv(p, s, t);
    case UserRequest(i) => UserRequestKeepsInv(p, s, i, t);
    case _ => LossKeepsInv(p, s, a, t);
  }

  lemma {:induction false} ExecKeepsInv(p: Peers, s: State, run: seq<Action>)
    requires Inv(p, s)
    ensures Inv(p, Exec(p, s, run))
    decreases |run|
  {
    hide Step, Inv;
    if run != [] {
      StepKeepsInv(p, s, run[0]);
      ExecKeepsInv(p, Step(p, s, run[0]), run[1..]);
    }
  }

  lemma InvAlways(p: Peers, v0: nat, run: seq<Action>)
    ensures Inv(p, Exec(p, Init(v0), run))
  {
    hide Exec;
    OfflinePipe(Init(v0).n);
    ExecKeepsInv(p, Init(v0), run);
  }

  // ---------------------------------------------------------------- main results, for every run

  /** Every controller record that the connection thread has asked for is decoded with the version in which the server
      encoded it: through late replies, time-outs, list changes and reconnections, whatever version an earlier server
      had left behind. */
  lemma RecordsAgree(p: Peers, v0: nat, run: seq<Action>, k: nat)
    requires k < |Exec(p, Init(v0), run).records| && !Exec(p, Init(v0), run).records[k].user
    ensures var r := Exec(p, Init(v0), run).records[k]; r.encoded == r.decoded
  {
    hide Exec, Inv;
    InvAlways(p, v0, run);
    InvHistory(p, Exec(p, Init(v0), run));
    assert RecordFits(p, Exec(p, Init(v0), run).records[k]);
  }

  /** A record that the user interface has asked for between two rounds is decoded with the version in which it was
      encoded if and only if the time-out of the next round has not written version 0 before it arrives (or it was
      encoded in version 0 anyway). */
  lemma UserRecordsAgreeIff(p: Peers, v0: nat, run: seq<Action>, k: nat)
    requires k < |Exec(p, Init(v0), run).records| && Exec(p, Init(v0), run).records[k].user
    ensures var r := Exec(p, Init(v0), run).records[k];
            && (r.encoded == 0 || r.encoded == Common(p)) && (r.zeroed ==> r.decoded == 0)
            && (r.encoded == r.decoded <==> !r.zeroed || r.encoded == 0)
  {
    hide Exec, Inv;
    InvAlways(p, v0, run);
    InvHistory(p, Exec(p, Init(v0), run));
    assert RecordFits(p, Exec(p, Init(v0), run).records[k]);
  }

  lemma InvHistory(p: Peers, s: State)
    requires Inv(p, s)
    ensures History(p, s)
  {
  }

  /** Between rounds the server holds the common version, and the client does if and only if the time-out has not
      overwritten an accepted reply (or the common version is 0 anyway); that it has shows in the client's fields. */
  lemma BothEndsAgreeIff(p: Peers, v0: nat, run: seq<Action>)
    ensures var s := Exec(p, Init(v0), run);
            s.c.conn.Resting? && s.n.online ==>
              && s.n.clientVersion == Common(p)
              && (Effective(p, s.c.serverVersion) == Common(p) <==> !s.c.Late() || Common(p) == 0)
              && (s.c.Late() <==> p.serverMax > 0 && s.c.serverVersion == 0)
  {
    hide Exec, Inv;
    InvAlways(p, v0, run);
    var s := Exec(p, Init(v0), run);
    if s.c.conn.Resting? && s.n.online { RestingAgrees(p, s); }
  }

  /** The server decodes a mode update with the version it was encoded in if and only if the time-out had not
      overwritten the version reply when it was sent. */
  lemma UpdateAgreesIff(p: Peers, v0: nat, run: seq<Action>, k: nat)
    requires k < |Exec(p, Init(v0), run).updates|
    ensures var u := Exec(p, Init(v0), run).updates[k];
            u.decoded == Common(p) && (u.encoded == u.decoded <==> !u.late || Common(p) == 0)
  {
    hide Exec, Inv;
    InvAlways(p, v0, run);
    InvHistory(p, Exec(p, Init(v0), run));
    assert UpdateAgrees(p, Exec(p, Init(v0), run).updates[k]);
  }

  lemma Then(p: Peers, s: State, run: seq<Action>, a: Action) returns (longer: seq<Action>, t: State)
    ensures longer == run + [a] && t == Exec(p, s, longer) == Step(p, Exec(p, s, run), a)
  {
    longer, t := run + [a], Exec(p, s, run + [a]);
    ExecAppend(p, s, run, a);
  }

  lemma ExecNothing(p: Peers, s: State)
    ensures Exec(p, s, []) == s
  {
  }

  lemma {:induction false} ExecAppend(p: Peers, s: State, run: seq<Action>, a: Action)
    ensures Exec(p, s, run + [a]) == Step(p, Exec(p, s, run), a)
    decreases |run|
  {
    hide Step;
    if run == [] {
      assert [a][1..] == [];
    } else {
      ExecAppend(p, Step(p, s, run[0]), run[1..], a);
      assert (run + [a])[1..] == run[1..] + [a];
    }
  }

  const OVERWRITTEN := Client(TimedOut, StoredVersion, true, false, 0, false, 0, false, false, Overwritten)

  function Negotiated(p: Peers): Link { Link(true, [], [], Serving, Common(p)) }

  /** The reply arrives during the last wait: the listener stores it, then the time-out overwrites it. */
  lemma OverwriteReply(p: Peers, v0: nat) returns (run: seq<Action>, s: State)
    requires p.serverMax > 0
    ensures s == Exec(p, Init(v0), run)
    ensures s == State(OVERWRITTEN, Negotiated(p), [], [], 0)
  {
    hide Exec;
    assert Exec(p, Init(v0), []) == Init(v0) by { ExecNothing(p, Init(v0)); }
    run, s := Then(p, Init(v0), [], ConnStep(false));
    assert s.n.toServer == [VersionRequest];
    run, s := Then(p, Init(v0), run, ConnStep(false));
    run, s := Then(p, Init(v0), run, ServerStep(0));
    assert s.n == Link(true, [], [VersionReply(p.serverMax)], Negotiating, 0);
    run, s := Then(p, Init(v0), run, ServerStep(0));
    run, s := Then(p, Init(v0), run, ListenerStep);
    assert s.n == Negotiated(p);
    run, s := Then(p, Init(v0), run, ConnStep(true));
  }

  lemma CountNone(p: Peers, s0: State, run0: seq<Action>, s1: State) returns (run: seq<Action>, s: State)
    requires s1 == Exec(p, s0, run0)
    requires s1 == State(OVERWRITTEN, Negotiated(p), [], [], 0)
    ensures s == Exec(p, s0, run)
    ensures s.c == Client(TestCount, StoredCount, true, false, 0, true, 0, false, false, Overwritten)
    ensures s == State(s.c, Negotiated(p), [], [], 0)
  {
    hide Exec, Common;
    run, s := Then(p, s0, run0, ListenerStep);
    run, s := Then(p, s0, run, ConnStep(false));
    run, s := Then(p, s0, run, ConnStep(false));
    run, s := Then(p, s0, run, ConnStep(false));
    run, s := Then(p, s0, run, ConnStep(false));
    assert s.n.toServer == [ClientName, CountRequest];
    run, s := Then(p, s0, run, ServerStep(0));
    run, s := Then(p, s0, run, ServerStep(0));
    assert s.n == Negotiated(p).(toClient := [CountReply(0)]);
    run, s := Then(p, s0, run, ListenerStep);
  }

  /** The time-out can overwrite an accepted reply: then a mode update leaves in version 0 and is read in the common
      one. */
  lemma LateUpdateHappens(p: Peers, v0: nat) returns (run: seq<Action>)
    requires p.serverMax > 0
    ensures Exec(p, Init(v0), run).updates == [Update(0, Common(p), true)]
  {
    hide Exec, Common;
    var s;
    run, s := OverwriteReply(p, v0);
    run, s := CountNone(p, Init(v0), run, s);
    run, s := Then(p, Init(v0), run, ListenerStep);
    run, s := Then(p, Init(v0), run, ConnStep(false));
    run, s := Then(p, Init(v0), run, ConnStep(false));
    run, s := Then(p, Init(v0), run, ConnStep(false));
    run, s := Then(p, Init(v0), run, ModeChange);
    assert s.n.toServer == [UpdateMode(0, true)];
    run, s := Then(p, Init(v0), run, ServerStep(0));
  }

  // ---------------------------------------------------------------- rounds can be completed

  /** A round begins and nothing is on its way. */
  predicate Ready(p: Peers, s: State) {
    && s.c.conn.Connected? && s.c.listener == Listening && s.c.connected && !s.c.initialized
    && s.n == Link(true, [], [], Serving, s.n.clientVersion) && (p.serverMax == 0 ==> s.n.clientVersion == 0)
  }

  /** A round whose version is accepted in time, up to the request for the count. */
  lemma AcceptReply(p: Peers, s0: State, run0: seq<Action>, s1: State) returns (run: seq<Action>, s: State)
    requires p.serverMax > 0 && s1 == Exec(p, s0, run0) && Ready(p, s1)
    ensures s == Exec(p, s0, run)
    ensures s.c == Client(SendName, Listening, true, false, p.serverMax, true, 0, false, s1.c.dataReceived, Accepted)
    ensures s == State(s.c, Negotiated(p), s1.records, s1.updates, |s1.records|)
  {
    hide Exec;
    run, s := Then(p, s0, run0, ConnStep(false));
    assert s.n.toServer == [VersionRequest];
    run, s := Then(p, s0, run, ServerStep(0));
    assert s.n == Link(true, [], [VersionReply(p.serverMax)], Negotiating, s1.n.clientVersion);
    run, s := Then(p, s0, run, ServerStep(0));
    run, s := Then(p, s0, run, ListenerStep);
    assert s.n == Negotiated(p);
    run, s := Then(p, s0, run, ListenerStep);
    run, s := Then(p, s0, run, ConnStep(false));
  }

  /** A server without versions does not answer, and the time-out ends the wait. */
  lemma GiveUp(p: Peers, s0: State, run0: seq<Action>, s1: State) returns (run: seq<Action>, s: State)
    requires p.serverMax == 0 && s1 == Exec(p, s0, run0) && Ready(p, s1)
    ensures s == Exec(p, s0, run)
    ensures s.c == Client(SendName, Listening, true, false, 0, true, 0, false, s1.c.dataReceived, GivenUp)
    ensures s == State(s.c, Negotiated(p), s1.records, s1.updates, |s1.records|)
  {
    hide Exec;
    run, s := Then(p, s0, run0, ConnStep(false));
    assert s.n.toServer == [VersionRequest];
    run, s := Then(p, s0, run, ServerStep(0));
    run, s := Then(p, s0, run, ConnStep(false));
    run, s := Then(p, s0, run, ConnStep(true));
    run, s := Then(p, s0, run, ConnStep(false));
    run, s := Then(p, s0, run, ConnStep(false));
  }

  /** The client with the common version settled and `count` announced, about to ask for record `i`. */
  function Asking(p: Peers, count: nat, i: nat, data: bool): Client {
    Client(NextData(i), Listening, true, false, p.serverMax, true, count, true, i > 0 || data,
           if p.serverMax == 0 then GivenUp else Accepted)
  }

  /** The first `n` records of a round. */
  function Fetched(p: Peers, n: nat): (r: seq<Record>)
    ensures |r| == n
    ensures forall k :: 0 <= k < n ==> r[k] == Record(k, Common(p), Common(p), false, p.serverMax == 0)
  {
    seq(n, k requires 0 <= k < n => Record(k, Common(p), Common(p), false, p.serverMax == 0))
  }

  /** A round that began in `s1`, about to ask for record `i`. */
  function Fetching(p: Peers, s1: State, count: nat, i: nat): State {
    State(Asking(p, count, i, s1.c.dataReceived), Negotiated(p), s1.records + Fetched(p, i), s1.updates, |s1.records|)
  }

  /** The client's state once the version is settled, with the count still to be asked for. */
  function Settling(p: Peers, s1: State): Client {
    Client(SendName, Listening, true, false, p.serverMax, true, 0, false, s1.c.dataReceived,
           if p.serverMax == 0 then GivenUp else Accepted)
  }

  lemma CountAsked(p: Peers, s0: State, run0: seq<Action>, s1: State, count: nat) returns (run: seq<Action>, s: State)
    requires s1 == Exec(p, s0, run0) && Ready(p, s1)
    ensures s == Exec(p, s0, run)
    ensures s == State(Settling(p, s1).(conn := TestCount), Negotiated(p).(toClient := [CountReply(count)]), s1.records,
                       s1.updates, |s1.records|)
  {
    hide Exec, Common;
    if p.serverMax == 0 { run, s := GiveUp(p, s0, run0, s1); } else { run, s := AcceptReply(p, s0, run0, s1); }
    run, s := Then(p, s0, run, ConnStep(false));
    run, s := Then(p, s0, run, ConnStep(false));
    assert s.n.toServer == [ClientName, CountRequest];
    run, s := Then(p, s0, run, ServerStep(count));
    run, s := Then(p, s0, run, ServerStep(count));
    assert s.n == Negotiated(p).(toClient := [CountReply(count)]);
  }

  lemma Announced(p: Peers, s0: State, run0: seq<Action>, s1: State, count: nat) returns (run: seq<Action>, s: State)
    requires s1 == Exec(p, s0, run0) && Ready(p, s1)
    ensures s == Exec(p, s0, run) == Fetching(p, s1, count, 0)
  {
    hide Exec, Common;
    run, s := CountAsked(p, s0, run0, s1, count);
    run, s := Then(p, s0, run, ListenerStep);
    run, s := Then(p, s0, run, ListenerStep);
    run, s := Then(p, s0, run, ConnStep(false));
    assert s1.records + [] == s1.records;
  }

  lemma FetchOne(p: Peers, s0: State, run0: seq<Action>, s1: State, base: State, count: nat, i: nat)
      returns (run: seq<Action>, s: State)
    requires s1 == Exec(p, s0, run0) == Fetching(p, base, count, i) && i < count
    ensures s == Exec(p, s0, run) == Fetching(p, base, count, i + 1)
  {
    hide Exec;
    run, s := Then(p, s0, run0, ConnStep(false));
    assert s.n.toServer == [DataRequest(i, Common(p), false)];
    run, s := Then(p, s0, run, ServerStep(count));
    assert s.n.toClient == [DataReply(i, Common(p), false)];
    run, s := Then(p, s0, run, ListenerStep);
    assert s.records == base.records + Fetched(p, i + 1);
    run, s := Then(p, s0, run, ListenerStep);
    run, s := Then(p, s0, run, ConnStep(false));
  }

  lemma {:induction false} FetchUpTo(p: Peers, s0: State, run0: seq<Action>, s1: State, count: nat, n: nat)
      returns (run: seq<Action>, s: State)
    requires n <= count && s1 == Exec(p, s0, run0) && Ready(p, s1)
    ensures s == Exec(p, s0, run) == Fetching(p, s1, count, n)
  {
    hide Exec;
    if n == 0 {
      run, s := Announced(p, s0, run0, s1, count);
    } else {
      run, s := FetchUpTo(p, s0, run0, s1, count, n - 1);
      run, s := FetchOne(p, s0, run, s, s1, count, n - 1);
    }
  }

  /** The state after a round of `count` controllers that began in `s`: the client rests, with every record, in order
      and in the common version. */
  function Completed(p: Peers, s: State, count: nat): State {
    var t := Fetching(p, s, count, count);
    t.(c := t.c.(conn := Resting, initialized := true))
  }

  /** A round of any number of controllers can be completed, whatever the versions. */
  lemma RoundCanComplete(p: Peers, s0: State, run0: seq<Action>, s1: State, count: nat)
      returns (run: seq<Action>, s: State)
    requires s1 == Exec(p, s0, run0) && Ready(p, s1)
    ensures s == Exec(p, s0, run) == Completed(p, s1, count)
  {
    hide Exec, Common;
    run, s := FetchUpTo(p, s0, run0, s1, count, count);
    run, s := Then(p, s0, run, ConnStep(false));
    run, s := Then(p, s0, run, ConnStep(false));
  }

  /** Between rounds, with nothing on its way. */
  predicate Quiet(p: Peers, s: State) {
    && s.c.conn.Resting? && s.c.listener == Listening && s.c.connected && s.c.initialized
    && s.n == Link(true, [], [], Serving, s.n.clientVersion) && (p.serverMax == 0 ==> s.n.clientVersion == 0)
  }

  /** The first round, and after it one more for every change of the device list and every lost connection: each time
      the client ends with all records of the controllers that there are then. */
  lemma RoundsFollow(p: Peers, v0: nat, first: nat, second: nat)
      returns (once: seq<Action>, changed: seq<Action>, reconnected: seq<Action>)
    ensures var s := Exec(p, Init(v0), once);
            && Quiet(p, s) && s.records == Fetched(p, first)
            && (forall again :: again == changed || again == reconnected ==>
                  var t := Exec(p, s, again);
                  Quiet(p, t) && t.records == s.records + Fetched(p, second) && t.began == |s.records|)
    ensures ListChange in changed && Lose in reconnected
  {
    CommonZero(p);
    hide Exec, Common;
    ExecNothing(p, Init(v0));
    var s, t, u;
    once, s := RoundCanComplete(p, Init(v0), [], Init(v0), first);
    assert s.records == Fetched(p, first);
    ExecNothing(p, s);
    changed, t := ListChanges(p, s, second);
    reconnected, u := Reconnects(p, s, second);
  }

  lemma CommonZero(p: Peers)
    ensures p.serverMax == 0 ==> Common(p) == 0
  {
  }

  lemma ListChanges(p: Peers, s1: State, count: nat) returns (run: seq<Action>, s: State)
    requires Quiet(p, s1)
    ensures s == Exec(p, s1, run) && Quiet(p, s) && ListChange in run
    ensures s.records == s1.records + Fetched(p, count) && s.began == |s1.records|
  {
    CommonZero(p);
    hide Exec, Common;
    ExecNothing(p, s1);
    var t;
    run, t := Then(p, s1, [], ListChange);
    assert t.n.toClient == [ListUpdated];
    run, t := Then(p, s1, run, ListenerStep);
    run, t := Then(p, s1, run, ConnStep(false));
    var more;
    ExecNothing(p, t);
    more, s := RoundCanComplete(p, t, [], t, count);
    ExecThen(p, s1, run, more);
    run := run + more;
  }

  lemma Reconnects(p: Peers, s1: State, count: nat) returns (run: seq<Action>, s: State)
    requires Quiet(p, s1)
    ensures s == Exec(p, s1, run) && Quiet(p, s) && Lose in run
    ensures s.records == s1.records + Fetched(p, count) && s.began == |s1.records|
  {
    CommonZero(p);
    hide Exec, Common;
    ExecNothing(p, s1);
    var t;
    run, t := Then(p, s1, [], Lose);
    run, t := Then(p, s1, run, Close);
    run, t := Then(p, s1, run, ConnStep(false));
    var more;
    ExecNothing(p, t);
    more, s := RoundCanComplete(p, t, [], t, count);
    ExecThen(p, s1, run, more);
    run := run + more;
  }

  lemma {:induction false} ExecThen(p: Peers, s: State, a: seq<Action>, b: seq<Action>)
    ensures Exec(p, s, a + b) == Exec(p, Exec(p, s, a), b)
    decreases |a|
  {
    hide Step;
    if a == [] {
      assert a + b == b;
    } else {
      assert (a + b)[0] == a[0] && (a + b)[1..] == a[1..] + b;
      ExecThen(p, Step(p, s, a[0]), a[1..], b);
    }
  }

  /** A request of the user between rounds is answered if there is such a controller, and then the flag the user
      interface waits for is set; otherwise the server says nothing, and the flag stays reset. */
  lemma UserRequestServed(p: Peers, s: State, i: nat, count: nat)
    requires Quiet(p, s)
    ensures var t := Exec(p, s, [UserRequest(i), ServerStep(count), ListenerStep, ListenerStep]);
            var v := Min(s.c.serverVersion, p.clientMax);
            && Quiet(p, t) && (t.c.dataReceived <==> i < count)
            && t.records == s.records + if i < count then [Record(i, v, v, true, s.c.Zeroed())] else []
  {
    hide Exec;
    ExecNothing(p, s);
    var run, t := Then(p, s, [], UserRequest(i));
    assert !t.c.dataReceived && t.n.toServer == [DataRequest(i, Effective(p, s.c.serverVersion), true)];
    run, t := Then(p, s, run, ServerStep(count));
    if i < count { assert t.n.toClient == [DataReply(i, Effective(p, s.c.serverVersion), true)]; }
    run, t := Then(p, s, run, ListenerStep);
    run, t := Then(p, s, run, ListenerStep);
    assert run == [UserRequest(i), ServerStep(count), ListenerStep, ListenerStep];
  }

  predicate Idles(a: Action) { !a.ListChange? && !a.Lose? && !a.Close? }

  /** Without a list change or a loss the client stays between rounds, whatever the user does. */
  lemma {:induction false} StaysQuiet(p: Peers, s: State, run: seq<Action>)
    requires s.c.conn.Resting? && s.c.connected && s.c.initialized && s.n.online && ListUpdated !in s.n.toClient
    requires forall k :: 0 <= k < |run| ==> Idles(run[k])
    ensures var t := Exec(p, s, run); t.c.conn.Resting? && t.c.connected && t.c.initialized && t.began == s.began
    decreases |run|
  {
    if run != [] {
      var t := Step(p, s, run[0]);
      IdleStep(p, s, run[0]);
      assert forall k :: 0 <= k < |run[1..]| ==> run[1..][k] == run[k + 1];
      hide Step;
      StaysQuiet(p, t, run[1..]);
    }
  }

  lemma IdleStep(p: Peers, s: State, a: Action)
    requires s.c.conn.Resting? && s.c.connected && s.c.initialized && s.n.online && ListUpdated !in s.n.toClient
    requires Idles(a)
    ensures var t := Step(p, s, a);
            && t.c.conn.Resting? && t.c.connected && t.c.initialized && t.began == s.began
            && t.n.online && ListUpdated !in t.n.toClient
  {
    if a.ListenerStep? && s.n.toClient != [] { assert s.n.toClient[0] in s.n.toClient; }
  }

  function Rested(p: Peers): Client { Asking(p, 0, 0, false).(conn := Resting, initialized := true) }

  /** The next round begins with the user's request still on its way, and its time-out comes before the record. */
  lemma TimeOutFirst(p: Peers, v0: nat, run0: seq<Action>, s1: State) returns (run: seq<Action>, s: State)
    requires s1 == Exec(p, Init(v0), run0)
    requires s1 == State(Rested(p), Negotiated(p).(toServer := [DataRequest(0, Common(p), true)],
                                                   toClient := [ListUpdated]), [], [], 0)
    ensures s == Exec(p, Init(v0), run) && s.records == []
    ensures s.c.serverVersion == 0 && s.c.Zeroed() && s.c.listener == Listening
    ensures s.n == Negotiated(p).(toServer := [DataRequest(0, Common(p), true), VersionRequest])
  {
    hide Exec, Common;
    run, s := Then(p, Init(v0), run0, ListenerStep);
    assert s == State(Rested(p).(initialized := false), Negotiated(p).(toServer := s1.n.toServer), [], [], 0);
    run, s := Then(p, Init(v0), run, ConnStep(false));
    run, s := Then(p, Init(v0), run, ConnStep(false));
    assert s.n.toServer == [DataRequest(0, Common(p), true), VersionRequest];
    run, s := Then(p, Init(v0), run, ConnStep(false));
    run, s := Then(p, Init(v0), run, ConnStep(true));
  }

  /** The user asks for a record, the device list changes, and the next round's time-out comes before the record: it was
      encoded in the common version and is decoded in version 0. */
  lemma UserRecordCrosses(p: Peers, v0: nat) returns (run: seq<Action>)
    requires p.serverMax > 0
    ensures Exec(p, Init(v0), run).records == [Record(0, Common(p), 0, true, true)]
  {
    hide Exec;
    var s;
    ExecNothing(p, Init(v0));
    run, s := RoundCanComplete(p, Init(v0), [], Init(v0), 0);
    run, s := Then(p, Init(v0), run, UserRequest(0));
    run, s := Then(p, Init(v0), run, ListChange);
    assert s.n.toServer == [DataRequest(0, Common(p), true)] && s.n.toClient == [ListUpdated];
    run, s := TimeOutFirst(p, v0, run, s);
    run, s := Then(p, Init(v0), run, ServerStep(1));
    assert s.n.toClient == [DataReply(0, Common(p), true)];
    run, s := Then(p, Init(v0), run, ListenerStep);
  }

  // ---------------------------------------------------------------- which controllers a round asks for

  /** The controllers that the records of the connection thread's own requests are for. */
  function Own(records: seq<Record>): seq<nat> {
    if records == [] then [] else
      var r := records[|records| - 1];
      Own(records[..|records| - 1]) + if r.user then [] else [r.idx]
  }

  function UpTo(n: nat): (r: seq<nat>)
    ensures |r| == n && forall k :: 0 <= k < n ==> r[k] == k
  {
    seq(n, k => k)
  }

  lemma OwnAppend(records: seq<Record>, began: nat, r: Record)
    requires began <= |records|
    ensures Own((records + [r])[began..]) == Own(records[began..]) + if r.user then [] else [r.idx]
  {
    var part := records[began..];
    assert (records + [r])[began..] == part + [r] && (part + [r])[..|part|] == part;
  }

  /** What the round has decoded at each place of the connection thread. */
  predicate Collected(c: Client, got: seq<nat>) {
    match c.conn
    case Connected => true
    case NextData(i) => i <= c.count && got == UpTo(i)
    case TestData(i) => i < c.count && got == UpTo(if c.listener == StoredData || c.dataReceived then i + 1 else i)
    case Publish => got == UpTo(c.count)
    case Resting => got == UpTo(c.count)
    case _ => got == []
  }

  predicate Collecting(s: State) { s.began <= |s.records| && Collected(s.c, Own(s.records[s.began..])) }

  lemma UpToNext(i: nat)
    ensures UpTo(i) + [i] == UpTo(i + 1) && UpTo(0) == []
  {
  }

  lemma ConnCollects(p: Peers, c: Client, round: seq<Token>, online: bool, expired: bool, got: seq<nat>)
    requires Outstanding(p, c, round, online) && Collected(c, got) && !c.conn.Connected?
    ensures Collected(ConnNext(c, expired), got)
  {
    hide Write, Settled, Effective, VersionPhase, CountPhase;
    WrittenCount(c, expired);
    WrittenData(c, expired);
    UpToNext(0);
  }

  lemma ReceiveCollects(p: Peers, c: Client, round: seq<Token>, online: bool, m: ToClient, got: seq<nat>)
    requires Outstanding(p, c, round, online) && Collected(c, got) && c.listener == Listening
    requires m.DataReply? && m.user ==> Early(c)
    requires ReplyToken(m) != [] && !(m.DataReply? && m.user) ==> round != [] && round[0] == ReplyToken(m)[0]
    ensures Collected(Receive(c, m), got + if m.DataReply? && !m.user then [m.idx] else [])
  {
    hide Settled, Effective;
    assert got + [] == got;
    if m.DataReply? && !m.user { UpToNext(m.idx); }
  }

  lemma AnnounceCollects(p: Peers, c: Client, round: seq<Token>, online: bool, got: seq<nat>)
    requires Outstanding(p, c, round, online) && Collected(c, got)
    ensures Collected(Announce(c), got)
  {
    hide Settled, Effective, VersionPhase, CountPhase;
  }

  lemma ListenerCollects(p: Peers, s: State)
    requires Inv(p, s) && Collecting(s)
    ensures Collecting(StepListener(p, s))
  {
    hide Outstanding, Pipe, Round, Users, Collected, UserFits, Own, Effective;
    var got := Own(s.records[s.began..]);
    if s.c.listener != Listening || s.n.toClient == [] {
      AnnounceCollects(p, s.c, Round(Pipe(s.n)), s.n.online, got);
    } else {
      var m, t := s.n.toClient[0], s.n.(toClient := s.n.toClient[1..]);
      ReceiveUsers(p, s.c, s.n, t);
      ReceiveCollects(p, s.c, Round(Pipe(s.n)), s.n.online, m, got);
      if m.DataReply? {
        OwnAppend(s.records, s.began, Decoded(p, s.c, m));
      } else {
        assert got + [] == got;
      }
    }
  }

  lemma StepCollects(p: Peers, s: State, a: Action)
    requires Inv(p, s) && Collecting(s)
    ensures Collecting(Step(p, s, a))
  {
    hide Outstanding, Pipe, Round, Users, UserPhase, Own, StepListener, ConnNext, ConnSends, Serve, Inv;
    match a
    case ListenerStep => ListenerCollects(p, s);
    case ConnStep(expired) => ThreadCollects(p, s, expired);
    case ServerStep(count) =>
    case _ =>
  }

  lemma ThreadCollects(p: Peers, s: State, expired: bool)
    requires Inv(p, s) && Collecting(s)
    ensures Collecting(StepConn(p, s, expired))
  {
    hide Outstanding, Pipe, Round, Users, UserPhase, Own, ConnSends;
    if s.c.conn.Connected? {
      NothingOwn(s.records);
      WrittenCount(s.c, expired);
    } else {
      ConnCollects(p, s.c, Round(Pipe(s.n)), s.n.online, expired, Own(s.records[s.began..]));
    }
  }

  lemma NothingOwn(records: seq<Record>)
    ensures Own(records[|records|..]) == []
  {
  }

  lemma {:induction false} ExecCollects(p: Peers, s: State, run: seq<Action>)
    requires Inv(p, s) && Collecting(s)
    ensures Collecting(Exec(p, s, run))
    decreases |run|
  {
    hide Step, Inv, Collecting;
    if run != [] {
      StepKeepsInv(p, s, run[0]);
      StepCollects(p, s, run[0]);
      ExecCollects(p, Step(p, s, run[0]), run[1..]);
    }
  }

  /** When a round publishes, and afterwards between rounds, the records that its own requests have brought are those of
      controllers 0 to count - 1, each once and in order. */
  lemma RoundIsComplete(p: Peers, v0: nat, run: seq<Action>)
    ensures var s := Exec(p, Init(v0), run);
            s.c.conn.Publish? || s.c.conn.Resting? ==>
              s.began <= |s.records| && Own(s.records[s.began..]) == UpTo(s.c.count)
  {
    hide Exec, Inv, Own;
    InvAlways(p, v0, []);
    ExecNothing(p, Init(v0));
    ExecCollects(p, Init(v0), run);
  }

  lemma {:induction false} RequestInPipe(q: seq<ToServer>, k: nat)
    requires k < |q| && q[k].DataRequest? && !q[k].user
    ensures Data(q[k].idx, q[k].version) in Requests(q)
  {
    if k > 0 { RequestInPipe(q[1..], k - 1); }
  }

  lemma {:induction false} ReplyInPipe(q: seq<ToClient>, k: nat)
    requires k < |q| && q[k].DataReply? && !q[k].user
    ensures Data(q[k].idx, q[k].version) in Replies(q)
  {
    if k > 0 { ReplyInPipe(q[1..], k - 1); }
  }

  lemma DataOutstanding(p: Peers, s: State, i: nat, v: nat)
    requires Inv(p, s) && Data(i, v) in Pipe(s.n)
    ensures s.c.conn == TestData(i) && v == Effective(p, s.c.serverVersion)
  {
    hide Pipe, Users, Settled, Effective, UserPhase, Flags, Negotiation, History, Arriving, Leaving;
    var pipe := Pipe(s.n);
    var k :| 0 <= k < |pipe| && pipe[k] == Data(i, v);
    assert k >= Users(pipe) && Round(pipe)[k - Users(pipe)] == Data(i, v);
  }

  /** A data request of the connection thread that is still on its way, as request or as reply, is for the controller
      the thread waits for. */
  lemma OwnRequestsCarry(p: Peers, v0: nat, run: seq<Action>, k: nat)
    ensures var s := Exec(p, Init(v0), run);
            && (k < |s.n.toServer| && s.n.toServer[k].DataRequest? && !s.n.toServer[k].user ==>
                  s.c.conn == TestData(s.n.toServer[k].idx))
            && (k < |s.n.toClient| && s.n.toClient[k].DataReply? && !s.n.toClient[k].user ==>
                  s.c.conn == TestData(s.n.toClient[k].idx))
  {
    hide Exec, Inv, Requests, Replies;
    InvAlways(p, v0, run);
    var s := Exec(p, Init(v0), run);
    if k < |s.n.toServer| && s.n.toServer[k].DataRequest? && !s.n.toServer[k].user {
      RequestInPipe(s.n.toServer, k);
      DataOutstanding(p, s, s.n.toServer[k].idx, s.n.toServer[k].version);
    }
    if k < |s.n.toClient| && s.n.toClient[k].DataReply? && !s.n.toClient[k].user {
      ReplyInPipe(s.n.toClient, k);
      DataOutstanding(p, s, s.n.toClient[k].idx, s.n.toClient[k].version);
    }
  }

  // ---------------------------------------------------------------- lost connections

  /** What the connection thread waits for in this round has not come, or it will still ask for something. */
  predicate Awaits(c: Client) {
    match c.conn
    case TestCount => !c.countReceived || c.count > 0
    case NextData(i) => i < c.count
    case TestData(i) => !c.dataReceived || i + 1 < c.count
    case Publish => false
    case Resting => false
    case _ => true
  }

  /** Offline, in a round, with nothing left that could still be received. */
  predicate Hung(s: State) {
    && !s.n.online && s.n.toServer == [] && s.n.toClient == [] && s.c.listener == Listening && Awaits(s.c)
    && (BeforeCount(s.c.conn) ==> !s.c.countReceived)
  }

  lemma WrittenCount(c: Client, expired: bool)
    ensures var t := Write(c, expired);
            if c.conn.Connected? then !t.countReceived else t.countReceived == c.countReceived && t.count == c.count
  {
    match c.conn
    case Connected =>
    case WaitVersion =>
    case TimedOut =>
    case NextData(_) =>
    case Publish =>
    case _ =>
  }

  lemma WrittenData(c: Client, expired: bool)
    ensures var t := Write(c, expired);
            && t.dataReceived == (c.dataReceived && !(c.conn.NextData? && c.conn.i < c.count))
            && t.listener == c.listener
  {
    match c.conn
    case Connected =>
    case WaitVersion =>
    case TimedOut =>
    case NextData(_) =>
    case Publish =>
    case _ =>
  }

  lemma HungConn(c: Client, expired: bool)
    requires Awaits(c) && (BeforeCount(c.conn) ==> !c.countReceived)
    ensures var t := ConnNext(c, expired); Awaits(t) && (BeforeCount(t.conn) ==> !t.countReceived)
    ensures ConnNext(c, expired).listener == c.listener
  {
    hide Write;
    WrittenCount(c, expired);
    WrittenData(c, expired);
  }

  lemma StepKeepsHung(p: Peers, s: State, a: Action)
    requires Hung(s)
    ensures Hung(Step(p, s, a))
  {
    hide ConnNext, Effective, Common;
    if a.ConnStep? { HungConn(s.c, a.expired); }
  }

  lemma {:induction false} StaysHung(p: Peers, s: State, run: seq<Action>)
    requires Hung(s)
    ensures Hung(Exec(p, s, run))
    decreases |run|
  {
    hide Step, Hung;
    if run != [] {
      StepKeepsHung(p, s, run[0]);
      StaysHung(p, Step(p, s, run[0]), run[1..]);
    }
  }

  function Left(conn: Conn): nat {
    match conn
    case Resting => 0
    case Publish => 1
    case NextData(_) => 2
    case _ => 3
  }

  /** A round that has all it needs ends, and the thread connects again. */
  lemma {:induction false} BackOnline(p: Peers, s: State) returns (run: seq<Action>)
    requires !s.n.online && !s.c.connected && !Awaits(s.c)
    ensures Exec(p, s, run).n.online
    decreases Left(s.c.conn)
  {
    var t := Step(p, s, ConnStep(false));
    run := [ConnStep(false)];
    if !s.c.conn.Resting? {
      var rest := BackOnline(p, t);
      run := [ConnStep(false)] + rest;
    }
  }

  /** In every reachable state without a connection, the client can ever be online again if and only if its round is
      not waiting for a reply: the waiting loops end only with the reply, and reconnecting is left to the thread that
      waits. */
  lemma ReconnectsIff(p: Peers, v0: nat, run: seq<Action>)
    requires !Exec(p, Init(v0), run).n.online
    ensures var s := Exec(p, Init(v0), run);
            (exists more :: Exec(p, s, more).n.online) <==> !Awaits(s.c)
  {
    hide Exec, Awaits, Inv;
    InvAlways(p, v0, run);
    var s := Exec(p, Init(v0), run);
    if Awaits(s.c) {
      HungIf(p, s);
      forall more ensures !Exec(p, s, more).n.online { StaysHung(p, s, more); }
    } else {
      var more := CloseAndReconnect(p, s);
    }
  }

  lemma HungIf(p: Peers, s: State)
    requires Inv(p, s) && !s.n.online && Awaits(s.c)
    ensures Hung(s)
  {
    hide Pipe, Settled;
  }

  lemma CloseAndReconnect(p: Peers, s: State) returns (run: seq<Action>)
    requires !s.n.online && !Awaits(s.c)
    ensures Exec(p, s, run).n.online
  {
    hide Awaits;
    var t := Step(p, s, Close);
    assert Awaits(t.c) == Awaits(s.c) by { AwaitsFields(s.c, t.c); }
    var rest := BackOnline(p, t);
    run := [Close] + rest;
  }

  lemma AwaitsFields(c: Client, d: Client)
    requires d == c.(connected := d.connected)
    ensures Awaits(d) == Awaits(c)
  {
  }

  /** A connection that is lost before the first reply is never made again. */
  lemma LossHangs(p: Peers, v0: nat, more: seq<Action>)
    ensures !Exec(p, Init(v0), [Lose] + more).n.online
  {
    hide Exec;
    var s := Step(p, Init(v0), Lose);
    assert Hung(s);
    StaysHung(p, s, more);
    ExecFirst(p, Init(v0), Lose, more);
  }

  lemma ExecFirst(p: Peers, s: State, a: Action, rest: seq<Action>)
    ensures Exec(p, s, [a] + rest) == Exec(p, Step(p, s, a), rest)
  {
    hide Step;
    assert ([a] + rest)[1..] == rest;
  }

  /** The connection is lost between two rounds. The next step of the connection thread reconnects if the listener has
      reset server_connected by then; in between it begins a round that never ends. */
  lemma LossBetweenRounds(p: Peers, s: State, expired: bool)
    requires s.c.conn.Resting? && s.c.connected && s.n.online && s.c.listener == Listening
    ensures Exec(p, s, [Lose, Close, ConnStep(expired)]).n.online
    ensures Hung(Exec(p, s, [Lose, ConnStep(expired)]))
  {
    hide Exec;
    ExecNothing(p, s);
    var run, t := Then(p, s, [], Lose);
    var early, hung := Then(p, s, run, ConnStep(expired));
    var closed, u := Then(p, s, run, Close);
    var late, back := Then(p, s, closed, ConnStep(expired));
    assert early == [Lose, ConnStep(expired)] && late == [Lose, Close, ConnStep(expired)];
  }
}
