/** What passes through a session in both directions while it lasts: the user's messages reach the
    device, and the device's output reaches the user, in order, with nothing lost or added. */
module SessionDelivery {
  import opened ByteStrings
  import opened Inbound
  import opened BrokerSpec
  import opened BrokerRuns
  import opened SessionProtocol

  /** The device writes a user's message stands for: at most one. */
  function Output(sid: Bytes, body: Body): seq<(byte, Bytes)> {
    if body == Binary([]) then []
    else match Forwarded(sid, body)
      case None => []
      case Some(out) => [out]
  }

  predicate IsInput(a: Act, sid: Bytes) { IsFor(a, sid) && a.typ != LOGIN && a.typ != LOGOUT }

  /** What was written to the device for this session, besides Login and Logout. */
  function Written(log: seq<Act>, sid: Bytes): seq<(byte, Bytes)> {
    if log == [] then []
    else
      var a := log[|log| - 1];
      Written(log[..|log| - 1], sid) + if IsInput(a, sid) then [(a.typ, a.data)] else []
  }

  /** What is still to be written for the session's waiting messages. */
  function Waiting(queue: seq<UserMessage>, sid: Bytes): seq<(byte, Bytes)> {
    if queue == [] then []
    else (if queue[0].sid == sid then Output(sid, queue[0].body) else []) + Waiting(queue[1..], sid)
  }

  /** What one user sent in one event, and during some. */
  function Sends(e: Event, user: User, sid: Bytes): seq<(byte, Bytes)> {
    if e.UserReads? && e.user == user then Output(sid, e.body) else []
  }

  function Sent(es: seq<Event>, user: User, sid: Bytes): seq<(byte, Bytes)> {
    if es == [] then [] else Sends(es[0], user, sid) + Sent(es[1..], user, sid)
  }

  predicate Tells(a: Act, user: User) { a.ToUser? && a.user == user }

  /** What a user was told. */
  function Told(log: seq<Act>, user: User): seq<Reply> {
    if log == [] then []
    else
      var a := log[|log| - 1];
      Told(log[..|log| - 1], user) + if Tells(a, user) then [a.reply] else []
  }

  /** What a session's device had to say to its user in one event. The user learns the session id
      with the first accepted login; a busy answer has the one the user knows. */
  function Says(e: Event, sid: Bytes, confirmed: bool): seq<Reply> {
    match e
    case LoginAcked(k, busy) =>
      if k != sid then []
      else if !busy then [LoginReply(sid, NoError)]
      else [LoginReply(if confirmed then sid else [], DeviceBusy)]
    case TermMessage(k, data) => if k == sid then [TermOut(data)] else []
    case FileMessage(k, data) =>
      if k != sid || data == [] then []
      else if data[0] == 0 then [OfferFile(data[1..])]
      else if data[0] == 1 then [AskForFile]
      else if data[0] == 4 then [FileAcked]
      else []
    case _ => []
  }

  function Said(es: seq<Event>, sid: Bytes, confirmed: bool): seq<Reply> {
    if es == [] then []
    else Says(es[0], sid, confirmed) + Said(es[1..], sid, confirmed || es[0] == LoginAcked(sid, false))
  }

  // ----- Appending -----

  /** Acts that are no input for the session, or tell the user nothing, do not count. */
  lemma {:induction false} Unwritten(log: seq<Act>, more: seq<Act>, sid: Bytes)
    requires forall i :: 0 <= i < |more| ==> !IsInput(more[i], sid)
    ensures Written(log + more, sid) == Written(log, sid)
  {
    if more == [] {
      assert log + more == log;
    } else {
      assert log + more == (log + more[..|more| - 1]) + [more[|more| - 1]];
      Unwritten(log, more[..|more| - 1], sid);
      WrittenAppend(log + more[..|more| - 1], more[|more| - 1], sid);
    }
  }

  lemma {:induction false} Untold(log: seq<Act>, more: seq<Act>, user: User)
    requires forall i :: 0 <= i < |more| ==> !Tells(more[i], user)
    ensures Told(log + more, user) == Told(log, user)
  {
    if more == [] {
      assert log + more == log;
    } else {
      assert log + more == (log + more[..|more| - 1]) + [more[|more| - 1]];
      Untold(log, more[..|more| - 1], user);
      ToldAppend(log + more[..|more| - 1], more[|more| - 1], user);
    }
  }

  lemma WrittenAppend(log: seq<Act>, a: Act, sid: Bytes)
    ensures Written(log + [a], sid) == Written(log, sid) + if IsInput(a, sid) then [(a.typ, a.data)] else []
  {
    assert (log + [a])[..|log|] == log;
  }

  lemma ToldAppend(log: seq<Act>, a: Act, user: User)
    ensures Told(log + [a], user)
            == Told(log, user) + if Tells(a, user) then [a.reply] else []
  {
    assert (log + [a])[..|log|] == log;
  }

  lemma {:induction false} WaitingAppend(queue: seq<UserMessage>, m: UserMessage, sid: Bytes)
    ensures Waiting(queue + [m], sid) == Waiting(queue, sid) + if m.sid == sid then Output(sid, m.body) else []
  {
    if queue == [] {
      assert queue + [m] == [m];
      WaitingHead([m], sid);
    } else {
      WaitingHead(queue + [m], sid);
      WaitingHead(queue, sid);
      assert (queue + [m])[1..] == queue[1..] + [m];
      WaitingAppend(queue[1..], m, sid);
    }
  }

  // ----- One event -----

  /** A session that is confirmed and goes on. */
  ghost predicate Active(s: State, sid: Bytes) { sid in s.sessions && s.sessions[sid].confirmed }

  /** Nothing lost, nothing added: what was written and what waits grow by what the user sent. */
  ghost predicate Carries(s: State, t: State, sent: seq<(byte, Bytes)>, sid: Bytes) {
    Written(t.log, sid) + Waiting(t.queue, sid) == Written(s.log, sid) + Waiting(s.queue, sid) + sent
  }

  /** A waiting message of a live session becomes exactly its output, to the session's device. */
  lemma RelayedExactly(s: State, m: UserMessage)
    requires Inv(s) && m.sid in s.sessions
    ensures var out := Output(m.sid, m.body);
            Relayed(s, m) == if out == [] then [] else [ToDevice(s.sessions[m.sid].dev, out[0].0, out[0].1)]
  {
    assert SessionOk(s, m.sid);
  }

  lemma RelayedWritten(s: State, sid: Bytes)
    requires Inv(s) && Active(s, sid) && s.queue != []
    ensures var m := s.queue[0];
            Written(s.log + Relayed(s, m), sid) == Written(s.log, sid) + if m.sid == sid then Output(sid, m.body) else []
  {
    var m := s.queue[0];
    if m.sid in s.sessions && Output(m.sid, m.body) != [] {
      RelayedExactly(s, m);
      assert SessionOk(s, m.sid);
      ForwardedIsForSession(s.sessions[m.sid].dev, m.sid, m.body);
      WrittenAppend(s.log, Relayed(s, m)[0], sid);
    } else if m.sid in s.sessions {
      RelayedExactly(s, m);
      assert s.log + [] == s.log;
    } else {
      assert s.log + [] == s.log;
    }
  }

  lemma MovedOver<T>(w: seq<T>, o: seq<T>, q: seq<T>)
    ensures (w + o) + q == w + (o + q) + []
  {
  }

  lemma WaitingHead(queue: seq<UserMessage>, sid: Bytes)
    requires queue != []
    ensures Waiting(queue, sid) == (if queue[0].sid == sid then Output(sid, queue[0].body) else []) + Waiting(queue[1..], sid)
  {
  }

  lemma HandleCarries(s: State, sid: Bytes)
    requires Inv(s) && Active(s, sid) && s.queue != []
    ensures Carries(s, DoUserMessage(s), [], sid)
  {
    var m := s.queue[0];
    RelayedWritten(s, sid);
    WaitingHead(s.queue, sid);
    MovedOver(Written(s.log, sid), if m.sid == sid then Output(sid, m.body) else [], Waiting(s.queue[1..], sid));
  }

  lemma ReadCarries(s: State, u: User, body: Body, sid: Bytes)
    requires Inv(s) && Active(s, sid) && u in s.sids
    ensures var t := s.(queue := s.queue + [UserMessage(SidOf(s, u), body)]);
            Carries(s, t, Sends(UserReads(u, body), s.sessions[sid].user, sid), sid)
  {
    assert SessionOk(s, sid);
    WaitingAppend(s.queue, UserMessage(SidOf(s, u), body), sid);
  }

  /** What an event other than a user's message adds to the log is no input for any session. */
  ghost predicate NoInput(s: State, t: State) {
    && s.log <= t.log
    && forall i :: |s.log| <= i < |t.log| && t.log[i].ToDevice? ==>
         t.log[i].typ == REGISTER || t.log[i].typ == LOGIN || t.log[i].typ == LOGOUT || t.log[i].typ == CMD || t.log[i].typ == HTTP
  }

  lemma UnregisterDeviceNoInput(s: State, d: Device, order: seq<Bytes>)
    requires d in s.registered ==> Enumerates(order, SessionsOf(s, d))
    ensures NoInput(s, DoUnregisterDevice(s, d, order))
  {
    if d in s.registered {
      ClosingsExact(s.sessions, order);
    }
  }

  lemma LoginNoInput(s: State, k: Bytes, busy: bool)
    ensures NoInput(s, DoLoginAck(s, k, busy))
  {
  }

  lemma OtherNoInput(s: State, e: Event, token: Bytes)
    requires Enabled(s, e) && !e.HandleUserMessage? && !e.UserReads?
    ensures NoInput(s, Step(s, e, token)) && Step(s, e, token).queue == s.queue
  {
    match e
    case UnregisterDevice(d, order) => UnregisterDeviceNoInput(s, d, order);
    case LoginAcked(k, busy) => LoginNoInput(s, k, busy);
    case _ =>
  }

  lemma NoInputCarries(s: State, t: State, sid: Bytes)
    requires NoInput(s, t) && t.queue == s.queue
    ensures Carries(s, t, [], sid)
  {
    var more := t.log[|s.log|..];
    assert t.log == s.log + more;
    Unwritten(s.log, more, sid);
    assert Written(s.log, sid) + Waiting(s.queue, sid) + [] == Written(s.log, sid) + Waiting(s.queue, sid);
  }

  lemma StepCarries(s: State, e: Event, token: Bytes, sid: Bytes)
    requires Inv(s) && Enabled(s, e) && Active(s, sid)
    ensures Carries(s, Step(s, e, token), Sends(e, s.sessions[sid].user, sid), sid)
  {
    match e
    case HandleUserMessage => HandleCarries(s, sid);
    case UserReads(u, body) => ReadCarries(s, u, body, sid);
    case _ =>
      OtherNoInput(s, e, token);
      NoInputCarries(s, Step(s, e, token), sid);
  }

  /** What the event adds to the log tells this user nothing. */
  ghost predicate TellsNothing(s: State, t: State, user: User) {
    s.log <= t.log && forall i :: |s.log| <= i < |t.log| ==> !Tells(t.log[i], user)
  }

  lemma UnregisterDeviceTellsNothing(s: State, d: Device, order: seq<Bytes>, user: User)
    requires d in s.registered ==> Enumerates(order, SessionsOf(s, d))
    ensures TellsNothing(s, DoUnregisterDevice(s, d, order), user)
  {
    if d in s.registered {
      ClosingsExact(s.sessions, order);
    }
  }

  /** Apart from what devices say, only a user who enters is told something. */
  lemma OthersTellNothing(s: State, e: Event, token: Bytes, user: User)
    requires Enabled(s, e) && !e.TermMessage? && !e.FileMessage? && !e.LoginAcked? && user in s.entered
    ensures TellsNothing(s, Step(s, e, token), user)
  {
    match e
    case UnregisterDevice(d, order) => UnregisterDeviceTellsNothing(s, d, order, user);
    case _ =>
  }

  lemma Answered(s: State, k: Bytes, reply: Reply, sid: Bytes)
    requires Inv(s) && sid in s.sessions && k in s.sessions
    ensures var user := s.sessions[sid].user;
            Told(s.log + [ToUser(s.sessions[k].user, reply)], user) == Told(s.log, user) + if k == sid then [reply] else []
  {
    ToldAppend(s.log, ToUser(s.sessions[k].user, reply), s.sessions[sid].user);
  }

  /** What a live session's device says in one event is told to the session's user. */
  lemma TermTold(s: State, k: Bytes, data: Bytes, sid: Bytes)
    requires Inv(s) && sid in s.sessions
    ensures var user, confirmed := s.sessions[sid].user, s.sessions[sid].confirmed;
            Told(DoTermMessage(s, k, data).log, user) == Told(s.log, user) + Says(TermMessage(k, data), sid, confirmed)
  {
    if k in s.sessions {
      Answered(s, k, TermOut(data), sid);
    }
  }

  lemma FileTold(s: State, k: Bytes, data: Bytes, sid: Bytes)
    requires Inv(s) && sid in s.sessions
    ensures var user, confirmed := s.sessions[sid].user, s.sessions[sid].confirmed;
            Told(DoFileMessage(s, k, data).log, user) == Told(s.log, user) + Says(FileMessage(k, data), sid, confirmed)
  {
    if k in s.sessions && data != [] {
      Answered(s, k, OfferFile(data[1..]), sid);
      Answered(s, k, AskForFile, sid);
      Answered(s, k, FileAcked, sid);
    }
  }

  lemma LoginTold(s: State, k: Bytes, busy: bool, sid: Bytes)
    requires Inv(s) && sid in s.sessions
    ensures var user, confirmed := s.sessions[sid].user, s.sessions[sid].confirmed;
            Told(DoLoginAck(s, k, busy).log, user) == Told(s.log, user) + Says(LoginAcked(k, busy), sid, confirmed)
  {
    assert SessionOk(s, sid);
    if k in s.sessions {
      var told := s.sessions[k].user;
      if busy {
        Answered(s, k, LoginReply(SidOf(s, told), DeviceBusy), sid);
      } else {
        var user, reply := s.sessions[sid].user, ToUser(told, LoginReply(k, NoError));
        assert s.log + [Accepted(k), reply] == s.log + [Accepted(k)] + [reply];
        ToldAppend(s.log, Accepted(k), user);
        ToldAppend(s.log + [Accepted(k)], reply, user);
      }
    }
  }

  lemma Uncounted(s: State, t: State, user: User)
    requires TellsNothing(s, t, user)
    ensures Told(t.log, user) == Told(s.log, user) == Told(s.log, user) + []
  {
    var more := t.log[|s.log|..];
    assert t.log == s.log + more;
    Untold(s.log, more, user);
  }

  lemma StepTold(s: State, e: Event, token: Bytes, sid: Bytes)
    requires Inv(s) && Enabled(s, e) && sid in s.sessions
    ensures var user, confirmed := s.sessions[sid].user, s.sessions[sid].confirmed;
            Told(Step(s, e, token).log, user) == Told(s.log, user) + Says(e, sid, confirmed)
  {
    match e
    case TermMessage(k, data) => TermTold(s, k, data, sid);
    case FileMessage(k, data) => FileTold(s, k, data, sid);
    case LoginAcked(k, busy) => LoginTold(s, k, busy, sid);
    case _ =>
      assert SessionOk(s, sid);
      OthersTellNothing(s, e, token, s.sessions[sid].user);
      Uncounted(s, Step(s, e, token), s.sessions[sid].user);
  }

  // ----- Whole sessions -----

  lemma StaysConfirmed(s: State, e: Event, token: Bytes, sid: Bytes)
    requires Inv(s) && Enabled(s, e) && Active(s, sid) && !Ends(e, s.sessions[sid], sid)
    ensures Active(Step(s, e, token), sid)
  {
    SessionSurvives(s, e, token, sid);
    assert SessionOk(s, sid);
  }

  lemma Joined<T>(a: seq<T>, x: seq<T>, y: seq<T>)
    ensures a + x + y == a + (x + y)
  {
  }

  /** However a run goes on, as long as a confirmed session lasts: what was written to its device,
      and then what still waits, is what was written and what waited before, and then what its
      user sent meanwhile, in that order. */
  lemma {:induction false} InputDelivered(s: State, es: seq<Event>, token: Bytes, sid: Bytes)
    requires Inv(s) && Legal(s, es, token) && Active(s, sid)
    requires forall e :: e in es ==> !Ends(e, s.sessions[sid], sid)
    ensures Carries(s, Exec(s, es, token), Sent(es, s.sessions[sid].user, sid), sid)
    decreases es
  {
    if es == [] {
    } else {
      assert es[0] in es;
      var t, user := Step(s, es[0], token), s.sessions[sid].user;
      StepCarries(s, es[0], token, sid);
      SessionSurvives(s, es[0], token, sid);
      StaysConfirmed(s, es[0], token, sid);
      StepKeepsInv(s, es[0], token);
      forall e | e in es[1..] ensures !Ends(e, t.sessions[sid], sid) {
        assert e in es;
      }
      InputDelivered(t, es[1..], token, sid);
      Joined(Written(s.log, sid) + Waiting(s.queue, sid), Sends(es[0], user, sid), Sent(es[1..], user, sid));
    }
  }

  /** And as long as a session lasts, its user is told exactly what its device says, how the login
      went included, in order. */
  lemma {:induction false} OutputDelivered(s: State, es: seq<Event>, token: Bytes, sid: Bytes)
    requires Inv(s) && Legal(s, es, token) && sid in s.sessions
    requires forall e :: e in es ==> !Ends(e, s.sessions[sid], sid)
    ensures var user, confirmed := s.sessions[sid].user, s.sessions[sid].confirmed;
            Told(Exec(s, es, token).log, user) == Told(s.log, user) + Said(es, sid, confirmed)
    decreases es
  {
    if es == [] {
    } else {
      assert es[0] in es;
      var t, user, confirmed := Step(s, es[0], token), s.sessions[sid].user, s.sessions[sid].confirmed;
      StepTold(s, es[0], token, sid);
      StepEndsIff(s, es[0], token, sid);
      StepKeepsInv(s, es[0], token);
      forall e | e in es[1..] ensures !Ends(e, t.sessions[sid], sid) {
        assert e in es;
      }
      OutputDelivered(t, es[1..], token, sid);
      Joined(Told(s.log, user), Says(es[0], sid, confirmed), Said(es[1..], sid, t.sessions[sid].confirmed));
    }
  }

  lemma {:induction false} NothingWritten(log: seq<Act>, sid: Bytes)
    requires PhaseOf(log, sid).Idle? || PhaseOf(log, sid).Pending?
    ensures Written(log, sid) == []
    decreases log
  {
    if log == [] {
    } else {
      NothingWritten(log[..|log| - 1], sid);
    }
  }

  lemma {:induction false} NothingWaits(queue: seq<UserMessage>, sid: Bytes)
    requires forall m :: m in queue ==> m.sid != sid
    ensures Waiting(queue, sid) == []
  {
    if queue == [] {
    } else {
      assert queue[0] in queue;
      NothingWaits(queue[1..], sid);
    }
  }

  /** At the acknowledgement that confirms a session, nothing is written or waits for it yet. */
  lemma FreshlyConfirmed(s: State, sid: Bytes)
    requires Inv(s) && PhaseOk(s, sid) && sid in s.sessions && !s.sessions[sid].confirmed
    ensures var u := DoLoginAck(s, sid, false);
            Written(u.log, sid) == [] && Waiting(u.queue, sid) == []
  {
    var u := DoLoginAck(s, sid, false);
    assert SessionOk(s, sid);
    NothingWritten(s.log, sid);
    NothingWaits(s.queue, sid);
    LoginNoInput(s, sid, false);
    assert u.log == s.log + u.log[|s.log|..];
    Unwritten(s.log, u.log[|s.log|..], sid);
  }

  lemma InputFromConfirmation(s: State, es: seq<Event>, token: Bytes, sid: Bytes)
    requires Inv(s) && PhaseOk(s, sid) && sid in s.sessions && !s.sessions[sid].confirmed
    requires Legal(DoLoginAck(s, sid, false), es, token) && forall e :: e in es ==> !Ends(e, s.sessions[sid], sid)
    ensures var t := Exec(DoLoginAck(s, sid, false), es, token);
            Written(t.log, sid) + Waiting(t.queue, sid) == Sent(es, s.sessions[sid].user, sid)
  {
    LoginAckKeepsInv(s, sid, false);
    LoginAckEffect(s, sid, false, sid);
    FreshlyConfirmed(s, sid);
    InputDelivered(DoLoginAck(s, sid, false), es, token, sid);
  }

  /** A whole session, after any run: from the acknowledgement that confirms it on, its device gets
      exactly what its user sends, up to what still waits. */
  lemma SessionInputExact(before: seq<Event>, after: seq<Event>, token: Bytes, sid: Bytes)
    requires Legal(START, before, token)
    requires var s := Exec(START, before, token);
             && Enabled(s, LoginAcked(sid, false)) && sid in s.sessions && !s.sessions[sid].confirmed
             && Legal(DoLoginAck(s, sid, false), after, token)
             && forall e :: e in after ==> !Ends(e, s.sessions[sid], sid)
    ensures var s := Exec(START, before, token);
            var t := Exec(DoLoginAck(s, sid, false), after, token);
            Written(t.log, sid) + Waiting(t.queue, sid) == Sent(after, s.sessions[sid].user, sid)
  {
    RunsKeepInv(START, before, token, sid);
    InputFromConfirmation(Exec(START, before, token), after, token, sid);
  }
}
