/** A whole session from the browser's page to the client's shell: what the client understands of
    its connection is what the user did, in order. */
module SessionInput {
  import opened ByteStrings
  import opened Frames
  import Inbound
  import opened BrowserInput
  import opened BrokerSpec
  import opened BrokerRuns
  import opened SessionProtocol
  import opened SessionDelivery

  /** What the message of a page stands for: at most one input. */
  function Meant(body: Body): seq<Input> {
    match body
    case Binary(data) =>
      if data == [] then []
      else if data[0] != 1 then [Keys(data[1..])]
      else if |data| >= 2 && data[1] == FILE_DATA then [FileChunk(data[2..])]
      else []
    case Winsize(cols, rows) => [Resize(cols, rows)]
    case FileInfo(size, name) => [Upload(size, name)]
    case FileCanceled => [CancelUpload]
    case Ack(_) => []
    case OtherText => []
  }

  /** The page's only binary file messages are chunks. */
  predicate FromPage(body: Body) {
    body.Binary? && body.data != [] && body.data[0] == 1 ==> Meant(body) != []
  }

  predicate AllFit(inputs: seq<Input>) { forall i :: 0 <= i < |inputs| ==> Fits(inputs[i]) }

  /** Whatever a user does is sent as a message of the page that means it. */
  lemma MessageMeansInput(i: Input)
    ensures FromPage(Message(i)) && Meant(Message(i)) == [i]
  {
  }

  function AsFrames(outs: seq<(byte, Bytes)>): seq<Frame> {
    if outs == [] then [] else [Frame(outs[0].0, outs[0].1)] + AsFrames(outs[1..])
  }

  /** The inputs of one session that the client understands, in the order of their frames. */
  function Understood(fs: seq<Frame>, sid: Bytes): seq<Input> {
    if fs == [] then []
    else
      (match Understand(fs[0])
       case Effect(k, i) => if k == sid then [i] else []
       case Nothing => []) + Understood(fs[1..], sid)
  }

  lemma {:induction false} UnderstoodConcat(a: seq<Frame>, b: seq<Frame>, sid: Bytes)
    ensures Understood(a + b, sid) == Understood(a, sid) + Understood(b, sid)
  {
    if a == [] {
      assert a + b == b;
    } else {
      assert (a + b)[1..] == a[1..] + b;
      UnderstoodConcat(a[1..], b, sid);
    }
  }

  lemma {:induction false} AsFramesConcat(a: seq<(byte, Bytes)>, b: seq<(byte, Bytes)>)
    ensures AsFrames(a + b) == AsFrames(a) + AsFrames(b)
  {
    if a == [] {
      assert a + b == b;
    } else {
      assert (a + b)[1..] == a[1..] + b;
      AsFramesConcat(a[1..], b);
    }
  }

  // ----- One message -----

  lemma OneUnderstood(out: (byte, Bytes), sid: Bytes)
    ensures AsFrames([out]) == [Frame(out.0, out.1)]
    ensures Understood(AsFrames([out]), sid)
            == match Understand(Frame(out.0, out.1))
               case Effect(k, i) => if k == sid then [i] else []
               case Nothing => []
  {
    var rest: seq<(byte, Bytes)> := [out][1..];
    assert rest == [];
    assert AsFrames([out]) == [Frame(out.0, out.1)];
    assert [Frame(out.0, out.1)][1..] == [];
  }

  /** A message that means an input is forwarded as that input's frame. */
  lemma ForwardedAsMeant(sid: Bytes, body: Body)
    requires |sid| == 32 && FromPage(body) && Meant(body) != []
    ensures Output(sid, body) == [(ToFrame(sid, Meant(body)[0]).typ, ToFrame(sid, Meant(body)[0]).data)]
  {
    match body
    case Binary(data) =>
      if data[0] != 1 {
        assert ([0] + data[1..])[1..] == data[1..];
      } else {
        assert ([1, FILE_DATA] + data[2..])[1..] == data[1..];
      }
    case _ =>
  }

  /** Acknowledgements and texts of other kinds mean nothing to the client. */
  lemma OthersMeanNothing(sid: Bytes, body: Body)
    requires FromPage(body) && Meant(body) == []
    ensures Understood(AsFrames(Output(sid, body)), sid) == []
  {
    match body
    case Ack(n) => OneUnderstood((Inbound.ACK, Field(sid, 32) + Put16(n)), sid);
    case _ =>
  }

  lemma OutputUnderstood(sid: Bytes, body: Body)
    requires |sid| == 32 && FromPage(body) && AllFit(Meant(body))
    ensures Understood(AsFrames(Output(sid, body)), sid) == Meant(body)
  {
    if Meant(body) == [] {
      OthersMeanNothing(sid, body);
    } else {
      var i := Meant(body)[0];
      ForwardedAsMeant(sid, body);
      UnderstoodFrame(sid, i);
      FitsIff(i);
      OneUnderstood(Output(sid, body)[0], sid);
      assert Output(sid, body) == [Output(sid, body)[0]] && Meant(body) == [i];
    }
  }

  // ----- One session -----

  /** What the user did during some events. */
  function Inputs(es: seq<Event>, user: User): seq<Input> {
    if es == [] then []
    else (if es[0].UserReads? && es[0].user == user then Meant(es[0].body) else []) + Inputs(es[1..], user)
  }

  /** The user's messages come from the page, and its inputs fit their fields and a frame. */
  ghost predicate FromPageAndFits(es: seq<Event>, user: User) {
    forall e :: e in es && e.UserReads? && e.user == user ==> FromPage(e.body) && AllFit(Meant(e.body))
  }

  lemma {:induction false} SentUnderstood(es: seq<Event>, user: User, sid: Bytes)
    requires |sid| == 32 && FromPageAndFits(es, user)
    ensures Understood(AsFrames(Sent(es, user, sid)), sid) == Inputs(es, user)
  {
    if es == [] {
    } else {
      assert es[0] in es;
      var first := Sends(es[0], user, sid);
      SentUnderstood(es[1..], user, sid);
      AsFramesConcat(first, Sent(es[1..], user, sid));
      UnderstoodConcat(AsFrames(first), AsFrames(Sent(es[1..], user, sid)), sid);
      if es[0].UserReads? && es[0].user == user {
        OutputUnderstood(sid, es[0].body);
      }
    }
  }

  /** All frames written to a device, of whatever kind and session. */
  function Connection(log: seq<Act>, dev: Device): seq<Frame> {
    if log == [] then []
    else
      var a := log[|log| - 1];
      Connection(log[..|log| - 1], dev) + if a.ToDevice? && a.dev == dev then [Frame(a.typ, a.data)] else []
  }

  lemma UnderstoodIsInput(a: Act, sid: Bytes)
    requires a.ToDevice? && |sid| == 32
    ensures Understand(Frame(a.typ, a.data)).Effect? && Understand(Frame(a.typ, a.data)).sid == sid ==> IsInput(a, sid)
  {
  }

  /** Of a device's connection, the client understands for a session what was written for it. */
  lemma {:induction false} ConnectionUnderstood(log: seq<Act>, dev: Device, sid: Bytes)
    requires |sid| == 32 && forall i :: 0 <= i < |log| && IsFor(log[i], sid) ==> log[i].dev == dev
    ensures Understood(Connection(log, dev), sid) == Understood(AsFrames(Written(log, sid)), sid)
    decreases log
  {
    if log == [] {
    } else {
      var front, a := log[..|log| - 1], log[|log| - 1];
      ConnectionUnderstood(front, dev, sid);
      if a.ToDevice? {
        UnderstoodIsInput(a, sid);
        var out := (a.typ, a.data);
        OneUnderstood(out, sid);
        UnderstoodConcat(Connection(front, dev), [Frame(a.typ, a.data)], sid);
        AsFramesConcat(Written(front, sid), [out]);
        UnderstoodConcat(AsFrames(Written(front, sid)), AsFrames([out]), sid);
      }
      assert Connection(front, dev) + [] == Connection(front, dev) && Written(front, sid) + [] == Written(front, sid);
    }
  }

  lemma {:induction false} ConnectionSendable(log: seq<Act>, dev: Device)
    requires forall a :: a in log && a.ToDevice? && a.dev == dev ==> |a.data| <= MAX_FRAME
    ensures forall f :: f in Connection(log, dev) ==> Sendable(f, CLIENT_MAX_TYPE)
    decreases log
  {
    if log == [] {
    } else {
      assert log[|log| - 1] in log;
      ConnectionSendable(log[..|log| - 1], dev);
    }
  }

  /** While a session lasts, all that was ever written for it went to its device. */
  lemma OneDevice(s: State, sid: Bytes)
    requires PhaseOk(s, sid) && sid in s.sessions
    ensures forall i :: 0 <= i < |s.log| && IsFor(s.log[i], sid) ==> s.log[i].dev == s.sessions[sid].dev
  {
    PhaseGivesGrammar(s.log, sid);
  }

  lemma SessionGoesOn(s: State, es: seq<Event>, token: Bytes, sid: Bytes)
    requires Inv(s) && PhaseOk(s, sid) && sid in s.sessions
    requires Legal(DoLoginAck(s, sid, false), es, token) && forall e :: e in es ==> !Ends(e, s.sessions[sid], sid)
    ensures var t := Exec(DoLoginAck(s, sid, false), es, token);
            && |sid| == 32 && PhaseOk(t, sid)
            && sid in t.sessions && t.sessions[sid].dev == s.sessions[sid].dev
  {
    assert SessionOk(s, sid);
    LoginAckKeepsInv(s, sid, false);
    LoginAckPhase(s, sid, false, sid);
    LoginAckEffect(s, sid, false, sid);
    RunsKeepInv(DoLoginAck(s, sid, false), es, token, sid);
    SessionStays(DoLoginAck(s, sid, false), es, token, sid);
  }

  ghost predicate WritesFit(log: seq<Act>, dev: Device) {
    forall a :: a in log && a.ToDevice? && a.dev == dev ==> |a.data| <= MAX_FRAME
  }

  /** What a client understands for a session of everything on its connection. */
  function Heard(log: seq<Act>, dev: Device, sid: Bytes): seq<Input> {
    Understood(Decode(EncodeAll(Connection(log, dev)), CLIENT_MAX_TYPE).frames, sid)
  }

  lemma HeardIsWritten(s: State, sid: Bytes)
    requires PhaseOk(s, sid) && sid in s.sessions && |sid| == 32 && WritesFit(s.log, s.sessions[sid].dev)
    ensures Heard(s.log, s.sessions[sid].dev, sid) == Understood(AsFrames(Written(s.log, sid)), sid)
  {
    var dev := s.sessions[sid].dev;
    OneDevice(s, sid);
    ConnectionUnderstood(s.log, dev, sid);
    ConnectionSendable(s.log, dev);
    RoundTrip(Connection(s.log, dev), CLIENT_MAX_TYPE);
  }

  lemma HeardFromConfirmation(s: State, es: seq<Event>, token: Bytes, sid: Bytes)
    requires Inv(s) && PhaseOk(s, sid) && sid in s.sessions && !s.sessions[sid].confirmed
    requires Legal(DoLoginAck(s, sid, false), es, token) && forall e :: e in es ==> !Ends(e, s.sessions[sid], sid)
    requires FromPageAndFits(es, s.sessions[sid].user)
    requires WritesFit(Exec(DoLoginAck(s, sid, false), es, token).log, s.sessions[sid].dev)
    ensures var t := Exec(DoLoginAck(s, sid, false), es, token);
            Heard(t.log, s.sessions[sid].dev, sid) + Understood(AsFrames(Waiting(t.queue, sid)), sid)
            == Inputs(es, s.sessions[sid].user)
  {
    var t := Exec(DoLoginAck(s, sid, false), es, token);
    var written, waiting := Written(t.log, sid), Waiting(t.queue, sid);
    SessionGoesOn(s, es, token, sid);
    HeardIsWritten(t, sid);
    InputFromConfirmation(s, es, token, sid);
    SentUnderstood(es, s.sessions[sid].user, sid);
    AsFramesConcat(written, waiting);
    UnderstoodConcat(AsFrames(written), AsFrames(waiting), sid);
  }

  /** From the page to the shell, after any run: as long as a session lasts from the acknowledgement
      that confirms it on, its user's messages are the page's and its inputs fit, and everything
      on the device's connection - of this session and of all else - fits its frames, the client
      understands for this session exactly what its user does, in order, up to what still waits. */
  lemma ClientHearsTheUser(before: seq<Event>, after: seq<Event>, token: Bytes, sid: Bytes)
    requires Legal(START, before, token)
    requires var s := Exec(START, before, token);
             && Enabled(s, LoginAcked(sid, false)) && sid in s.sessions && !s.sessions[sid].confirmed
             && Legal(DoLoginAck(s, sid, false), after, token)
             && (forall e :: e in after ==> !Ends(e, s.sessions[sid], sid))
             && FromPageAndFits(after, s.sessions[sid].user)
             && WritesFit(Exec(DoLoginAck(s, sid, false), after, token).log, s.sessions[sid].dev)
    ensures var s := Exec(START, before, token);
            var t := Exec(DoLoginAck(s, sid, false), after, token);
            var heard, inputs := Heard(t.log, s.sessions[sid].dev, sid), Inputs(after, s.sessions[sid].user);
            heard <= inputs && (t.queue == [] ==> heard == inputs)
  {
    RunsKeepInv(START, before, token, sid);
    HeardFromConfirmation(Exec(START, before, token), after, token, sid);
  }
}
