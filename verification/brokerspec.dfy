/** The broker loop as a state machine: what each event does to the tables, to the connections'
    own fields and to the log of attempted writes. Connections are known by identity. */
module BrokerSpec {
  import opened ByteStrings
  import opened Inbound

  /** The protocol version a device must have at least. */
  const PROTO_REQUIRED := 3

  const FILE_SEND := 0
  const FILE_RECV := 1
  const FILE_INFO := 2
  const FILE_DATA := 3
  const FILE_ACK := 4
  const FILE_ABORT := 5

  /** A device connection; its id is fixed once its registration is parsed. */
  class Device {
    const id: Bytes
    const token: Bytes
    const proto: byte
    var registered: bool

    constructor (id: Bytes, token: Bytes, proto: byte)
      ensures this.id == id && this.token == token && this.proto == proto && !registered
    {
      this.id, this.token, this.proto, registered := id, token, proto, false;
    }
  }

  /** A browser connection to one device; `sid` is empty until its login is acknowledged. */
  class User {
    const devid: Bytes
    var sid: Bytes

    constructor (devid: Bytes)
      ensures this.devid == devid && sid == []
    {
      this.devid, sid := devid, [];
    }
  }

  datatype Session = Session(dev: Device, user: User, confirmed: bool)

  /** A websocket message: bytes, or one of the JSON messages with the fields read from it. */
  datatype Body =
    | Binary(data: Bytes)
    | Winsize(cols: nat, rows: nat)
    | Ack(bytes: nat)
    | FileInfo(size: nat, name: Bytes)
    | FileCanceled
    | OtherText

  /** A user's message carries the sid its connection had when it was read. */
  datatype UserMessage = UserMessage(sid: Bytes, body: Body)

  datatype LoginError = NoError | DeviceOffline | DeviceBusy

  /** The number `userLoginAck` sends for it. */
  function LoginCode(err: LoginError): nat {
    match err
    case NoError => 0
    case DeviceOffline => 1
    case DeviceBusy => 2
  }

  datatype Reply =
    | LoginReply(sid: Bytes, err: LoginError)
    | TermOut(data: Bytes)
    | OfferFile(name: Bytes)
    | AskForFile
    | FileAcked

  /** What the loop does in public, in order: writes it attempts, connections it closes, and
      logins it accepts. */
  datatype Act =
    | ToDevice(dev: Device, typ: byte, data: Bytes)
    | ToUser(user: User, reply: Reply)
    | CloseDevice(dev: Device)
    | CloseUser(user: User)
    | Accepted(sid: Bytes)

  /** The tables `devices` and `sessions`; which connections have their `registered` flag set;
      the sid of every user connection; which users have entered the loop and which session ids
      were ever given out; the waiting user messages; and what was done so far. */
  datatype State = State(
    devices: map<Bytes, Device>,
    sessions: map<Bytes, Session>,
    registered: set<Device>,
    sids: map<User, Bytes>,
    entered: set<User>,
    used: set<Bytes>,
    queue: seq<UserMessage>,
    log: seq<Act>,
    down: bool)

  const START := State(map[], map[], {}, map[], {}, {}, [], [], false)

  datatype Event =
    | UserConnects(user: User)
    | RegisterDevice(dev: Device)
    | RegisterUser(user: User, newSid: UniqueId)
    | UnregisterDevice(dev: Device, order: seq<Bytes>)
    | UnregisterUser(user: User)
    | LoginAcked(sid: Bytes, busy: bool)
    | LoggedOff(sid: Bytes)
    | TermMessage(sid: Bytes, data: Bytes)
    | FileMessage(sid: Bytes, data: Bytes)
    | UserReads(user: User, body: Body)
    | HandleUserMessage
    | CmdReq(devid: Bytes, data: Bytes)
    | HttpReq(devid: Bytes, data: Bytes)

  // ----- What each event does -----

  /** What comes of a device's registration, and the reply it is told in. */
  datatype Verdict = Registered | Conflicting | WrongToken | OldProtocol

  function Judge(s: State, d: Device, token: Bytes): Verdict {
    if d.id in s.devices then Conflicting
    else if token != [] && d.token != token then WrongToken
    else if d.proto < PROTO_REQUIRED then OldProtocol
    else Registered
  }

  function RegisterReply(v: Verdict): Bytes {
    match v
    case Registered => [0] + Ascii("OK")
    case Conflicting => [1] + Ascii("ID conflicting")
    case WrongToken => [1] + Ascii("Invalid token")
    case OldProtocol => [1] + Ascii("unsupported protocol")
  }

  function DoRegisterDevice(s: State, d: Device, token: Bytes): State {
    var verdict := Judge(s, d, token);
    var log := s.log + [ToDevice(d, REGISTER, RegisterReply(verdict))];
    if verdict != Registered then s.(log := log)
    else s.(log := log, devices := s.devices[d.id := d], registered := s.registered + {d})
  }

  function SidOf(s: State, u: User): Bytes { if u in s.sids then s.sids[u] else [] }

  function DoRegisterUser(s: State, u: User, sid: UniqueId): State {
    if u.devid in s.devices then
      s.(entered := s.entered + {u},
         sessions := s.sessions[sid := Session(s.devices[u.devid], u, false)],
         used := s.used + {sid},
         log := s.log + [ToDevice(s.devices[u.devid], LOGIN, sid)])
    else
      s.(entered := s.entered + {u},
         log := s.log + [ToUser(u, LoginReply(SidOf(s, u), DeviceOffline))])
  }

  function SessionsOf(s: State, d: Device): set<Bytes> {
    set sid | sid in s.sessions && s.sessions[sid].dev == d
  }

  /** A run over a table visits each key once, in some order. */
  ghost predicate Enumerates(order: seq<Bytes>, keys: set<Bytes>) {
    && (forall k :: k in keys <==> k in order)
    && (forall i, j :: 0 <= i < j < |order| ==> order[i] != order[j])
  }

  /** The closings of the users of some sessions, one after the other. */
  function Closings(sessions: map<Bytes, Session>, order: seq<Bytes>): seq<Act>
    requires forall k :: k in order ==> k in sessions
  {
    if order == [] then []
    else
      var last := |order| - 1;
      Closings(sessions, order[..last]) + [CloseUser(sessions[order[last]].user)]
  }

  /** `order` is the order in which the loop comes across the device's sessions. */
  function DoUnregisterDevice(s: State, d: Device, order: seq<Bytes>): State
    requires d in s.registered ==> Enumerates(order, SessionsOf(s, d))
  {
    if d !in s.registered then s.(log := s.log + [CloseDevice(d)])
    else
      s.(devices := s.devices - {d.id},
         registered := s.registered - {d},
         sessions := s.sessions - SessionsOf(s, d),
         log := s.log + [CloseDevice(d)] + Closings(s.sessions, order))
  }

  function DoUnregisterUser(s: State, u: User): State {
    var sid := SidOf(s, u);
    var log := s.log + [CloseUser(u)];
    if sid !in s.sessions then s.(log := log)
    else
      s.(sessions := s.sessions - {sid},
         log := if u.devid in s.devices then log + [ToDevice(s.devices[u.devid], LOGOUT, sid)] else log)
  }

  function DoLoginAck(s: State, sid: Bytes, busy: bool): State {
    if sid !in s.sessions then s
    else
      var e := s.sessions[sid];
      if busy then s.(log := s.log + [ToUser(e.user, LoginReply(SidOf(s, e.user), DeviceBusy))])
      else
        s.(sessions := s.sessions[sid := e.(confirmed := true)],
           sids := s.sids[e.user := sid],
           log := s.log + [Accepted(sid), ToUser(e.user, LoginReply(sid, NoError))])
  }

  function DoLogout(s: State, sid: Bytes): State {
    if sid !in s.sessions then s
    else s.(sessions := s.sessions - {sid}, log := s.log + [CloseUser(s.sessions[sid].user)])
  }

  function DoTermMessage(s: State, sid: Bytes, data: Bytes): State {
    if sid !in s.sessions then s else s.(log := s.log + [ToUser(s.sessions[sid].user, TermOut(data))])
  }

  /** File data and aborts go to a pipe, which is not part of the loop's own writes; an empty
      file message is indexed out of range, which ends the process. */
  function DoFileMessage(s: State, sid: Bytes, data: Bytes): State {
    if sid !in s.sessions then s
    else if data == [] then s.(down := true)
    else
      var u := s.sessions[sid].user;
      if data[0] == FILE_SEND then s.(log := s.log + [ToUser(u, OfferFile(data[1..]))])
      else if data[0] == FILE_RECV then s.(log := s.log + [ToUser(u, AskForFile)])
      else if data[0] == FILE_ACK then s.(log := s.log + [ToUser(u, FileAcked)])
      else s
  }

  /** What a user's message becomes on the device's side; an empty binary one has no first byte. */
  function Forwarded(sid: Bytes, body: Body): Option<(byte, Bytes)>
    requires body.Binary? ==> body.data != []
  {
    match body
    case Binary(data) => Some((if data[0] == 1 then FILE else TERM_DATA, sid + data[1..]))
    case Winsize(cols, rows) => Some((WINSIZE, Field(sid, 32) + Put16(cols) + Put16(rows)))
    case Ack(bytes) => Some((ACK, Field(sid, 32) + Put16(bytes)))
    case FileInfo(size, name) => Some((FILE, Field(sid, 32) + [FILE_INFO] + Put32(size) + name))
    case FileCanceled => Some((FILE, Field(sid, 32) + [FILE_ABORT]))
    case OtherText => None
  }

  function DoUserMessage(s: State): State
    requires s.queue != []
  {
    var m := s.queue[0];
    s.(queue := s.queue[1..],
       log := s.log + Relayed(s, m),
       down := s.down || (m.sid in s.sessions && s.sessions[m.sid].dev.id in s.devices && m.body == Binary([])))
  }

  /** The write, if any, that a user's message causes. */
  function Relayed(s: State, m: UserMessage): seq<Act> {
    if m.sid !in s.sessions || s.sessions[m.sid].dev.id !in s.devices || m.body == Binary([]) then []
    else ForwardedTo(s.devices[s.sessions[m.sid].dev.id], m)
  }

  function ForwardedTo(d: Device, m: UserMessage): seq<Act>
    requires m.body.Binary? ==> m.body.data != []
  {
    match Forwarded(m.sid, m.body)
    case None => []
    case Some((typ, data)) => [ToDevice(d, typ, data)]
  }

  function DoRequest(s: State, devid: Bytes, typ: byte, data: Bytes): State {
    if devid in s.devices then s.(log := s.log + [ToDevice(s.devices[devid], typ, data)]) else s
  }

  function Step(s: State, e: Event, token: Bytes): State
    requires Enabled(s, e)
  {
    match e
    case UserConnects(u) => s.(sids := s.sids[u := []])
    case RegisterDevice(d) => DoRegisterDevice(s, d, token)
    case RegisterUser(u, newSid) => DoRegisterUser(s, u, newSid)
    case UnregisterDevice(d, order) => DoUnregisterDevice(s, d, order)
    case UnregisterUser(u) => DoUnregisterUser(s, u)
    case LoginAcked(sid, busy) => DoLoginAck(s, sid, busy)
    case LoggedOff(sid) => DoLogout(s, sid)
    case TermMessage(sid, data) => DoTermMessage(s, sid, data)
    case FileMessage(sid, data) => DoFileMessage(s, sid, data)
    case UserReads(u, body) => s.(queue := s.queue + [UserMessage(SidOf(s, u), body)])
    case HandleUserMessage => DoUserMessage(s)
    case CmdReq(devid, data) => DoRequest(s, devid, CMD, data)
    case HttpReq(devid, data) => DoRequest(s, devid, HTTP, data)
  }

  /** Users connect before anything else; each registers once, and its session id is new. */
  ghost predicate Enabled(s: State, e: Event) {
    && !s.down
    && match e
       case UserConnects(u) => u !in s.sids
       case UnregisterDevice(d, order) => d in s.registered ==> Enumerates(order, SessionsOf(s, d))
       case RegisterUser(u, newSid) => u in s.sids && u !in s.entered && newSid !in s.used
       case UnregisterUser(u) => u in s.sids
       case UserReads(u, _) => u in s.sids
       case HandleUserMessage => s.queue != []
       case _ => true
  }

  ghost predicate Legal(s: State, es: seq<Event>, token: Bytes)
    decreases es
  {
    es != [] ==> Enabled(s, es[0]) && Legal(Step(s, es[0], token), es[1..], token)
  }

  function Exec(s: State, es: seq<Event>, token: Bytes): State
    requires Legal(s, es, token)
    decreases es
  {
    if es == [] then s else Exec(Step(s, es[0], token), es[1..], token)
  }
}
