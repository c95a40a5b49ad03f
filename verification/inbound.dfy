/** What a device may say to the server: the client's messages, and the server's
    `device.readLoop`, which checks each frame and hands its fields to the broker. */
module Inbound {
  import opened ByteStrings
  import opened Frames

  const REGISTER: byte := 0
  const LOGIN: byte := 1
  const LOGOUT: byte := 2
  const TERM_DATA: byte := 3
  const WINSIZE: byte := 4
  const CMD: byte := 5
  const HEARTBEAT: byte := 6
  const FILE: byte := 7
  const HTTP: byte := 8
  const ACK: byte := 9

  /** The client's `protoVersion`. */
  const PROTO_VERSION: byte := 4

  datatype Message =
    | Register(proto: byte, id: Bytes, desc: Bytes, token: Bytes)
    | LoginAck(sid: Bytes, busy: bool)
    | LoggedOut(sid: Bytes)
    | TermData(sid: Bytes, data: Bytes)
    | FileData(sid: Bytes, data: Bytes)
    | CmdReply(data: Bytes)
    | HttpReply(data: Bytes)
    | Heartbeat(uptime: nat)
    | Unhandled(typ: byte)

  /** One turn of the loop: a message for the broker, an invalid one that ends the
      connection, or a slice out of range that ends the process. */
  datatype Reading = Take(m: Message) | Invalid | Panic

  /** How a connection's reading ends. */
  datatype End = Closed | BadType | BadMessage | Crashed

  datatype Received = Received(messages: seq<Message>, end: End)

  /** `parseDeviceInfo`: a protocol byte, then at least three NUL-separated fields. */
  function ParseDeviceInfo(b: Bytes): Option<Message>
    requires |b| >= 1
  {
    var fields := Split(b[1..], 0);
    if |fields| < 3 then None else Some(Register(b[0], fields[0], fields[1], fields[2]))
  }

  /** The switch of `device.readLoop`, with its length checks. */
  function Classify(f: Frame): Reading {
    var b := f.data;
    if f.typ == REGISTER then
      if |b| < 2 then Invalid
      else match ParseDeviceInfo(b)
        case None => Invalid
        case Some(m) => Take(m)
    else if f.typ == LOGIN then
      if |b| < 33 then Invalid else Take(LoginAck(b[..32], b[32] == 1))
    else if f.typ == LOGOUT then
      if |b| < 32 then Invalid else Take(LoggedOut(b[..32]))
    else if f.typ == TERM_DATA then
      if |b| < 32 then Invalid else Take(TermData(b[..32], b[32..]))
    else if f.typ == FILE then
      if |b| < 32 then Invalid else Take(FileData(b[..32], b[32..]))
    else if f.typ == CMD then
      if |b| < 1 then Invalid else Take(CmdReply(b))
    else if f.typ == HTTP then
      if |b| < 18 then Invalid else Take(HttpReply(b))
    else if f.typ == HEARTBEAT then
      if |b| < 4 then Panic else Take(Heartbeat(Get32(b)))
    else Take(Unhandled(f.typ))
  }

  function Receive(d: Decoded): Received
    decreases |d.frames|
  {
    if d.frames == [] then Received([], if d.stop.Exhausted? then Closed else BadType)
    else match Classify(d.frames[0])
      case Invalid => Received([], BadMessage)
      case Panic => Received([], Crashed)
      case Take(m) =>
        var rest := Receive(Decoded(d.frames[1..], d.stop));
        Received([m] + rest.messages, rest.end)
  }

  /** One frame is dealt with before the rest. */
  lemma ReceiveFirst(f: Frame, later: Decoded)
    ensures Receive(Decoded([f] + later.frames, later.stop)) ==
            match Classify(f)
            case Invalid => Received([], BadMessage)
            case Panic => Received([], Crashed)
            case Take(m) => Received([m] + Receive(later).messages, Receive(later).end)
  {
    assert Decoded(([f] + later.frames)[1..], later.stop) == later;
  }

  /** The first message that is not accepted ends the connection or the process: those before it are
      handed on, none after it is. */
  lemma {:induction false} FirstBadMessageStops(good: seq<Frame>, bad: Frame, more: seq<Frame>, stop: Stop)
    requires forall f :: f in good ==> Classify(f).Take?
    requires !Classify(bad).Take?
    ensures var r := Receive(Decoded(good + ([bad] + more), stop));
            && |r.messages| == |good| && r.end == (if Classify(bad).Panic? then Crashed else BadMessage)
            && forall i :: 0 <= i < |good| ==> Classify(good[i]) == Take(r.messages[i])
  {
    if good == [] {
      assert good + ([bad] + more) == [bad] + more;
      ReceiveFirst(bad, Decoded(more, stop));
    } else {
      assert good[0] in good;
      assert good + ([bad] + more) == [good[0]] + (good[1..] + ([bad] + more));
      ReceiveFirst(good[0], Decoded(good[1..] + ([bad] + more), stop));
      FirstBadMessageStops(good[1..], bad, more, stop);
    }
  }

  /** `device.readLoop` over a connection. */
  method ReadLoop(conn: Stream) returns (messages: seq<Message>, end: End)
    modifies conn
    ensures Received(messages, end) == Receive(Decode(old(conn.Rest()), SERVER_MAX_TYPE))
  {
    messages := [];
    ghost var whole := Receive(Decode(conn.Rest(), SERVER_MAX_TYPE));
    while true
      invariant var rest := Receive(Decode(conn.Rest(), SERVER_MAX_TYPE));
                whole == Received(messages + rest.messages, rest.end)
      decreases |conn.Rest()|
    {
      var turn := conn.ReadFrame(SERVER_MAX_TYPE);
      match turn {
        case Stopped(Exhausted) => return messages, Closed;
        case Stopped(UnknownType) => return messages, BadType;
        case Got(f) =>
          ReceiveFirst(f, Decode(conn.Rest(), SERVER_MAX_TYPE));
          match Classify(f) {
            case Invalid => return messages, BadMessage;
            case Panic => return messages, Crashed;
            case Take(m) => messages := messages + [m];
          }
      }
    }
  }

  /** What the client sends; the file message goes through `appendFileMsg`. */
  datatype Sent =
    | SendRegister(id: Bytes, desc: Bytes, token: Bytes)
    | SendLoginAck(sid: UniqueId, failed: bool)
    | SendLogout(sid: UniqueId)
    | SendTermData(sid: UniqueId, data: Bytes)
    | SendFile(sid: UniqueId, typ: byte, payload: Bytes)
    | SendCmdReply(json: Bytes)
    | SendHttp(data: Bytes)
    | SendHeartbeat(seconds: nat)

  function BuildRegisterMsg(id: Bytes, desc: Bytes, token: Bytes): Bytes {
    [PROTO_VERSION] + id + [0] + desc + [0] + token
  }

  function AppendFileMsg(sid: Bytes, typ: byte, payload: Bytes): Bytes {
    Field(sid, 32) + [typ] + payload
  }

  function ToFrame(m: Sent): Frame {
    match m
    case SendRegister(id, desc, token) => Frame(REGISTER, BuildRegisterMsg(id, desc, token))
    case SendLoginAck(sid, failed) => Frame(LOGIN, sid + [if failed then 1 else 0])
    case SendLogout(sid) => Frame(LOGOUT, sid)
    case SendTermData(sid, data) => Frame(TERM_DATA, sid + data)
    case SendFile(sid, typ, payload) => Frame(FILE, AppendFileMsg(sid, typ, payload))
    case SendCmdReply(json) => Frame(CMD, json)
    case SendHttp(data) => Frame(HTTP, data)
    case SendHeartbeat(seconds) => Frame(HEARTBEAT, Put32(seconds))
  }

  /** What the server is meant to understand. */
  function Meaning(m: Sent): Message {
    match m
    case SendRegister(id, desc, token) => Register(PROTO_VERSION, id, desc, token)
    case SendLoginAck(sid, failed) => LoginAck(sid, failed)
    case SendLogout(sid) => LoggedOut(sid)
    case SendTermData(sid, data) => TermData(sid, data)
    case SendFile(sid, typ, payload) => FileData(sid, [typ] + payload)
    case SendCmdReply(json) => CmdReply(json)
    case SendHttp(data) => HttpReply(data)
    case SendHeartbeat(seconds) => Heartbeat(seconds % 0x1_0000_0000)
  }

  /** When a message says what it means: registration fields without NULs, a non-empty
      command reply, and an HTTP reply that starts with an address. */
  predicate Speakable(m: Sent) {
    match m
    case SendRegister(id, desc, token) => 0 !in id && 0 !in desc && 0 !in token
    case SendCmdReply(json) => json != []
    case SendHttp(data) => |data| >= 18
    case _ => true
  }

  /** A registration is read back exactly when none of its fields holds a NUL. */
  lemma RegisterRoundTrip(id: Bytes, desc: Bytes, token: Bytes)
    ensures ParseDeviceInfo(BuildRegisterMsg(id, desc, token)) == Some(Register(PROTO_VERSION, id, desc, token))
            <==> 0 !in id && 0 !in desc && 0 !in token
  {
    var b := BuildRegisterMsg(id, desc, token)[1..];
    var fields := Split(b, 0);
    assert forall i :: 0 <= i < |fields| ==> fields[i] in fields;
    if 0 !in id && 0 !in desc && 0 !in token {
      assert b == id + [0] + (desc + [0] + token);
      SplitFirst(id, desc + [0] + token, 0);
      SplitFirst(desc, token, 0);
      SplitNone(token, 0);
    }
  }

  /** The server understands a client message as it was meant exactly when it is speakable. */
  lemma UnderstoodIffSpeakable(m: Sent)
    ensures Classify(ToFrame(m)) == Take(Meaning(m)) <==> Speakable(m)
  {
    var b := ToFrame(m).data;
    match m
    case SendRegister(id, desc, token) => RegisterRoundTrip(id, desc, token);
    case SendTermData(sid, data) => assert b[..32] == sid && b[32..] == data;
    case SendLoginAck(sid, failed) => assert b[..32] == sid;
    case SendLogout(sid) => assert b[..32] == sid;
    case SendFile(sid, typ, payload) => assert b[..32] == sid && b[32..] == [typ] + payload;
    case SendHeartbeat(seconds) => Get32Put32(seconds);
    case _ =>
  }

  function ToFrames(ms: seq<Sent>): seq<Frame> { seq(|ms|, i requires 0 <= i < |ms| => ToFrame(ms[i])) }

  function Meanings(ms: seq<Sent>): seq<Message> { seq(|ms|, i requires 0 <= i < |ms| => Meaning(ms[i])) }

  lemma {:induction false} ReceiveAll(ms: seq<Sent>)
    requires forall m :: m in ms ==> Speakable(m)
    ensures Receive(Decoded(ToFrames(ms), Exhausted)) == Received(Meanings(ms), Closed)
  {
    if ms == [] {
    } else {
      assert ms[0] in ms;
      UnderstoodIffSpeakable(ms[0]);
      ReceiveAll(ms[1..]);
      assert ToFrames(ms)[1..] == ToFrames(ms[1..]);
      assert Meanings(ms) == [Meaning(ms[0])] + Meanings(ms[1..]);
    }
  }

  /** What the client puts on its connection: messages that `writeMsg` refuses leave no trace. */
  function Written(ms: seq<Sent>): Bytes {
    if ms == [] then []
    else (match ClientWriteMsg(ToFrame(ms[0]).typ, ToFrame(ms[0]).data)
          case None => []
          case Some(bytes) => bytes) + Written(ms[1..])
  }

  /** The messages that fit one frame. */
  function Framed(ms: seq<Sent>): (fs: seq<Sent>)
    ensures forall m :: m in fs <==> m in ms && |ToFrame(m).data| <= MAX_FRAME
  {
    if ms == [] then []
    else if |ToFrame(ms[0]).data| <= MAX_FRAME then [ms[0]] + Framed(ms[1..])
    else Framed(ms[1..])
  }

  lemma {:induction false} WrittenIsFramed(ms: seq<Sent>)
    ensures Written(ms) == EncodeAll(ToFrames(Framed(ms)))
  {
    if ms == [] {
    } else {
      WrittenIsFramed(ms[1..]);
      var fs := Framed(ms);
      if |ToFrame(ms[0]).data| <= MAX_FRAME {
        assert ToFrames(fs)[1..] == ToFrames(fs[1..]) && fs[1..] == Framed(ms[1..]);
      }
    }
  }

  lemma {:induction false} AllFramed(ms: seq<Sent>)
    requires forall m :: m in ms ==> |ToFrame(m).data| <= MAX_FRAME
    ensures Framed(ms) == ms
  {
    if ms == [] {
    } else {
      assert ms[0] in ms;
      AllFramed(ms[1..]);
    }
  }

  /** From client to broker: whatever sequence of speakable messages the client writes, the
      server's loop over that stream hands the broker exactly the meanings of those that fit a
      frame, in order. */
  lemma ServerHearsTheClient(ms: seq<Sent>)
    requires forall m :: m in ms ==> Speakable(m)
    ensures Receive(Decode(Written(ms), SERVER_MAX_TYPE)) == Received(Meanings(Framed(ms)), Closed)
  {
    var fs := Framed(ms);
    forall f | f in ToFrames(fs) ensures Sendable(f, SERVER_MAX_TYPE) {
      var i :| 0 <= i < |fs| && ToFrames(fs)[i] == f;
      assert fs[i] in fs;
    }
    WrittenIsFramed(ms);
    RoundTrip(ToFrames(fs), SERVER_MAX_TYPE);
    ReceiveAll(fs);
  }
}
