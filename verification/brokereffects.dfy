/** What the broker loop owes to each side over whole runs: who is admitted, who is told that a session
    ended, whose connection is closed, and which requests are written. */
module BrokerEffects {
  import opened ByteStrings
  import opened Inbound
  import opened BrokerSpec
  import opened BrokerRuns
  import opened SessionProtocol
  import opened SessionDelivery

  // ----- Admission of devices -----

  /** After any run, only devices with good credentials are registered. */
  lemma {:induction false} RegisteredHaveCredentials(s: State, es: seq<Event>, token: Bytes, d: Device)
    requires Legal(s, es, token) && (d in s.registered ==> Credentials(d, token))
    ensures d in Exec(s, es, token).registered ==> Credentials(d, token)
    decreases es
  {
    if es == [] {
    } else {
      if es[0].RegisterDevice? {
        AdmissionExact(s, es[0].dev, token);
      }
      RegisteredHaveCredentials(Step(s, es[0], token), es[1..], token, d);
    }
  }

  /** And every connection that comes with a free id and good credentials, whatever the run before, is
      registered then, and stays so until it is unregistered. */
  lemma AdmittedStays(s: State, d: Device, es: seq<Event>, token: Bytes)
    requires Inv(s) && Enabled(s, RegisterDevice(d)) && d.id !in s.devices && Credentials(d, token)
    requires Legal(Step(s, RegisterDevice(d), token), es, token) && !Unregisters(es, d)
    ensures var t := Exec(Step(s, RegisterDevice(d), token), es, token);
            d in t.registered && d.id in t.devices && t.devices[d.id] == d
  {
    AdmissionExact(s, d, token);
    StepKeepsInv(s, RegisterDevice(d), token);
    DeviceStays(Step(s, RegisterDevice(d), token), es, token, d);
  }

  // ----- Logout -----

  predicate IsLogout(a: Act, sid: Bytes) { IsFor(a, sid) && a.typ == 2 }

  /** The devices that were written a Logout for this session, in order. */
  function Logouts(log: seq<Act>, sid: Bytes): seq<Device> {
    if log == [] then []
    else
      var a := log[|log| - 1];
      Logouts(log[..|log| - 1], sid) + if IsLogout(a, sid) then [a.dev] else []
  }

  lemma {:induction false} NoLogouts(log: seq<Act>, more: seq<Act>, sid: Bytes)
    requires forall i :: 0 <= i < |more| ==> !IsLogout(more[i], sid)
    ensures Logouts(log + more, sid) == Logouts(log, sid)
  {
    if more == [] {
      assert log + more == log;
    } else {
      assert log + more == (log + more[..|more| - 1]) + [more[|more| - 1]];
      NoLogouts(log, more[..|more| - 1], sid);
      LogoutsAppend(log + more[..|more| - 1], more[|more| - 1], sid);
    }
  }

  lemma LogoutsAppend(log: seq<Act>, a: Act, sid: Bytes)
    ensures Logouts(log + [a], sid) == Logouts(log, sid) + if IsLogout(a, sid) then [a.dev] else []
  {
    assert (log + [a])[..|log|] == log;
  }

  lemma {:induction false} NoLogoutYet(log: seq<Act>, sid: Bytes)
    requires PhaseOf(log, sid).Pending? || PhaseOf(log, sid).Live? || PhaseOf(log, sid).Idle?
    ensures Logouts(log, sid) == []
    decreases log
  {
    if log == [] {
    } else {
      NoLogoutYet(log[..|log| - 1], sid);
    }
  }

  ghost predicate WritesNoLogout(s: State, t: State, sid: Bytes) {
    s.log <= t.log && forall i :: |s.log| <= i < |t.log| ==> !IsLogout(t.log[i], sid)
  }

  lemma UserMessageWritesNoLogout(s: State, sid: Bytes)
    requires Inv(s) && s.queue != []
    ensures WritesNoLogout(s, DoUserMessage(s), sid)
  {
    var m := s.queue[0];
    if m.sid in s.sessions {
      assert SessionOk(s, m.sid);
      if m.body != Binary([]) {
        ForwardedIsForSession(s.sessions[m.sid].dev, m.sid, m.body);
      }
    }
  }

  lemma LoginAckWritesNoLogout(s: State, k: Bytes, busy: bool, sid: Bytes)
    ensures WritesNoLogout(s, DoLoginAck(s, k, busy), sid)
  {
  }

  lemma UnregisterDeviceWritesNoLogout(s: State, d: Device, order: seq<Bytes>, sid: Bytes)
    requires d in s.registered ==> Enumerates(order, SessionsOf(s, d))
    ensures WritesNoLogout(s, DoUnregisterDevice(s, d, order), sid)
  {
    if d in s.registered {
      ClosingsExact(s.sessions, order);
    }
  }

  lemma RestWriteNoLogout(s: State, e: Event, token: Bytes, sid: Bytes)
    requires Enabled(s, e)
    requires !e.UnregisterUser? && !e.HandleUserMessage? && !e.UnregisterDevice? && !e.LoginAcked?
    ensures WritesNoLogout(s, Step(s, e, token), sid)
  {
  }

  /** Only a user's unregister writes a Logout. */
  lemma OthersWriteNoLogout(s: State, e: Event, token: Bytes, sid: Bytes)
    requires Inv(s) && Enabled(s, e) && !e.UnregisterUser?
    ensures WritesNoLogout(s, Step(s, e, token), sid)
  {
    match e
    case HandleUserMessage => UserMessageWritesNoLogout(s, sid);
    case UnregisterDevice(d, order) => UnregisterDeviceWritesNoLogout(s, d, order, sid);
    case LoginAcked(k, busy) => LoginAckWritesNoLogout(s, k, busy, sid);
    case _ => RestWriteNoLogout(s, e, token, sid);
  }

  /** What a leaving user's unregister writes: Logout for the session that its sid names, to that
      session's device. */
  lemma LeavingWrites(s: State, u: User)
    requires Inv(s) && u in s.sids
    ensures var t, k := DoUnregisterUser(s, u), SidOf(s, u);
            if k in s.sessions then
              && s.sessions[k].user == u && s.sessions[k].confirmed
              && t.log == s.log + [CloseUser(u)] + [ToDevice(s.sessions[k].dev, LOGOUT, k)]
            else t.log == s.log + [CloseUser(u)]
  {
    assert SidOf(s, u) in s.sessions ==> SessionOk(s, SidOf(s, u));
  }

  /** A user who leaves a confirmed session logs it out, at the session's device; one who leaves
      before that, or another user, does not. */
  lemma UserLogsOut(s: State, u: User, sid: Bytes)
    requires Inv(s) && u in s.sids && sid in s.sessions
    ensures var t, session := DoUnregisterUser(s, u), s.sessions[sid];
            Logouts(t.log, sid) == Logouts(s.log, sid) + if session.user == u && session.confirmed then [session.dev] else []
  {
    var k := SidOf(s, u);
    LeavingWrites(s, u);
    assert SessionOk(s, sid);
    LogoutsAppend(s.log, CloseUser(u), sid);
    if k in s.sessions {
      assert SessionOk(s, k) && k[..32] == k;
      LogoutsAppend(s.log + [CloseUser(u)], ToDevice(s.sessions[k].dev, LOGOUT, k), sid);
    }
  }

  lemma StepLogsOut(s: State, e: Event, token: Bytes, sid: Bytes)
    requires Inv(s) && Enabled(s, e) && sid in s.sessions
    ensures var t, session := Step(s, e, token), s.sessions[sid];
            Logouts(t.log, sid) == Logouts(s.log, sid)
                                   + if e.UnregisterUser? && e.user == session.user && session.confirmed then [session.dev] else []
  {
    var t := Step(s, e, token);
    if e.UnregisterUser? {
      UserLogsOut(s, e.user, sid);
    } else {
      OthersWriteNoLogout(s, e, token, sid);
      LogoutsStay(s, t, sid);
    }
  }

  lemma LogoutsStay(s: State, t: State, sid: Bytes)
    requires WritesNoLogout(s, t, sid)
    ensures Logouts(t.log, sid) == Logouts(s.log, sid) == Logouts(s.log, sid) + []
  {
    assert t.log == s.log + t.log[|s.log|..];
    NoLogouts(s.log, t.log[|s.log|..], sid);
  }

  /** The session lasts up to this position, where its user's unregister ends it. */
  ghost predicate EndedByUser(session: Session, sid: Bytes, es: seq<Event>) {
    exists k :: 0 <= k < |es| && es[k].UnregisterUser? && EndedBy(session, sid, es, k)
                && forall j :: 0 <= j < k ==> !EndedBy(session, sid, es, j)
  }

  lemma EndedByUserShift(session: Session, next: Session, sid: Bytes, es: seq<Event>)
    requires es != [] && next == session.(confirmed := session.confirmed || es[0] == LoginAcked(sid, false))
    requires !EndedBy(session, sid, es, 0)
    ensures EndedByUser(session, sid, es) <==> EndedByUser(next, sid, es[1..])
  {
    forall k | 0 <= k < |es| - 1 ensures EndedBy(next, sid, es[1..], k) <==> EndedBy(session, sid, es, k + 1) {
      EndedByNext(session, next, sid, es, k);
    }
    if EndedByUser(session, sid, es) {
      var k :| 0 <= k < |es| && es[k].UnregisterUser? && EndedBy(session, sid, es, k)
               && forall j :: 0 <= j < k ==> !EndedBy(session, sid, es, j);
      assert es[1..][k - 1] == es[k];
      assert forall j :: 0 <= j < k - 1 ==> !EndedBy(next, sid, es[1..], j);
    }
    if EndedByUser(next, sid, es[1..]) {
      var k :| 0 <= k < |es[1..]| && es[1..][k].UnregisterUser? && EndedBy(next, sid, es[1..], k)
               && forall j :: 0 <= j < k ==> !EndedBy(next, sid, es[1..], j);
      assert es[k + 1] == es[1..][k];
      forall j | 0 <= j < k + 1 ensures !EndedBy(session, sid, es, j) {
        assert j > 0 ==> !EndedBy(next, sid, es[1..], j - 1);
      }
    }
  }

  lemma EndedSessionLogsOutNoMore(s: State, es: seq<Event>, token: Bytes, sid: Bytes)
    requires Inv(s) && Legal(s, es, token) && sid in s.used && sid !in s.sessions
    ensures Logouts(Exec(s, es, token).log, sid) == Logouts(s.log, sid)
  {
    EndedSessionStaysSilent(s, es, token, sid);
    var t := Exec(s, es, token);
    assert t.log == s.log + t.log[|s.log|..];
    NoLogouts(s.log, t.log[|s.log|..], sid);
  }

  /** Over any run, a device is written exactly one Logout for a session, namely its own device, when
      it is the user's unregister that ends the session; else none is written to any. */
  lemma {:induction false} LogoutIffUserEnds(s: State, es: seq<Event>, token: Bytes, sid: Bytes)
    requires Inv(s) && Legal(s, es, token) && sid in s.sessions
    ensures Logouts(Exec(s, es, token).log, sid)
            == Logouts(s.log, sid) + if EndedByUser(s.sessions[sid], sid, es) then [s.sessions[sid].dev] else []
    decreases es
  {
    if es == [] {
    } else {
      var t, session := Step(s, es[0], token), s.sessions[sid];
      StepLogsOut(s, es[0], token, sid);
      StepEndsIff(s, es[0], token, sid);
      StepKeepsInv(s, es[0], token);
      assert EndedBy(session, sid, es, 0) <==> sid !in t.sessions;
      if sid in t.sessions {
        LogoutIffUserEnds(t, es[1..], token, sid);
        EndedByUserShift(session, t.sessions[sid], sid, es);
      } else {
        StaysUsed(s, es[0], token, sid);
        EndedSessionLogsOutNoMore(t, es[1..], token, sid);
        EndedAtOnce(session, sid, es);
      }
    }
  }

  lemma EndedAtOnce(session: Session, sid: Bytes, es: seq<Event>)
    requires es != [] && EndedBy(session, sid, es, 0)
    ensures EndedByUser(session, sid, es) <==> es[0].UnregisterUser? && es[0].user == session.user && session.confirmed
  {
  }

  /** The same from the start: a session that some run has opened, and any run after that. */
  lemma LogoutExact(before: seq<Event>, after: seq<Event>, token: Bytes, sid: Bytes)
    requires Legal(START, before, token) && sid in Exec(START, before, token).sessions
    requires Legal(Exec(START, before, token), after, token)
    ensures var session := Exec(START, before, token).sessions[sid];
            Logouts(Exec(Exec(START, before, token), after, token).log, sid)
            == if EndedByUser(session, sid, after) then [session.dev] else []
  {
    RunsKeepInv(START, before, token, sid);
    NoLogoutYet(Exec(START, before, token).log, sid);
    LogoutIffUserEnds(Exec(START, before, token), after, token, sid);
  }

  // ----- Closed connections -----

  /** The event closes this user's connection. */
  ghost predicate Closes(s: State, t: State, u: User) {
    s.log <= t.log && CloseUser(u) in t.log[|s.log|..]
  }

  lemma UnregisterDeviceClosesUsers(s: State, d: Device, order: seq<Bytes>, sid: Bytes)
    requires d in s.registered && Enumerates(order, SessionsOf(s, d)) && sid in s.sessions && s.sessions[sid].dev == d
    ensures Closes(s, DoUnregisterDevice(s, d, order), s.sessions[sid].user)
  {
    UnregisterCloses(s, d, order);
  }

  lemma LogoutCloses(s: State, sid: Bytes)
    requires sid in s.sessions
    ensures Closes(s, DoLogout(s, sid), s.sessions[sid].user)
  {
    assert DoLogout(s, sid).log[|s.log|..] == [CloseUser(s.sessions[sid].user)];
  }

  /** Every unregister closes its own connection, stale or not. */
  lemma UnregisterClosesItself(s: State, e: Event, token: Bytes)
    requires Enabled(s, e) && (e.UnregisterUser? || e.UnregisterDevice?)
    ensures var t := Step(s, e, token);
            |t.log| > |s.log| && s.log <= t.log && t.log[|s.log|] == if e.UnregisterUser? then CloseUser(e.user) else CloseDevice(e.dev)
  {
  }

  /** Whatever event ends a session, it closes the connection of the session's user. */
  lemma EndCloses(s: State, e: Event, token: Bytes, sid: Bytes)
    requires Inv(s) && Enabled(s, e) && sid in s.sessions && sid !in Step(s, e, token).sessions
    ensures Closes(s, Step(s, e, token), s.sessions[sid].user)
  {
    assert SessionOk(s, sid);
    StepEndsIff(s, e, token, sid);
    if e.UnregisterDevice? {
      UnregisterDeviceClosesUsers(s, e.dev, e.order, sid);
    } else if e.LoggedOff? {
      LogoutCloses(s, sid);
    } else {
      UnregisterClosesItself(s, e, token);
      var t := Step(s, e, token);
      assert t.log[|s.log|..][0] == CloseUser(e.user);
    }
  }

  lemma {:induction false} LogGrows(s: State, es: seq<Event>, token: Bytes)
    requires Legal(s, es, token)
    ensures s.log <= Exec(s, es, token).log
    decreases es
  {
    if es == [] {
    } else {
      StepLogGrows(s, es[0], token);
      LogGrows(Step(s, es[0], token), es[1..], token);
    }
  }

  lemma StepLogGrows(s: State, e: Event, token: Bytes)
    requires Enabled(s, e)
    ensures s.log <= Step(s, e, token).log
  {
  }

  /** Over any run: if the session is gone, its user's connection was closed meanwhile. */
  lemma {:induction false} GoneIsClosed(s: State, es: seq<Event>, token: Bytes, sid: Bytes)
    requires Inv(s) && Legal(s, es, token) && sid in s.sessions && sid !in Exec(s, es, token).sessions
    ensures Closes(s, Exec(s, es, token), s.sessions[sid].user)
    decreases es
  {
    if es == [] {
    } else {
      var t, user := Step(s, es[0], token), s.sessions[sid].user;
      StepKeepsInv(s, es[0], token);
      StepLogGrows(s, es[0], token);
      LogGrows(t, es[1..], token);
      var u := Exec(t, es[1..], token);
      if sid in t.sessions {
        StepEndsIff(s, es[0], token, sid);
        GoneIsClosed(t, es[1..], token, sid);
        ClosedLater(s, t, u, user);
      } else {
        EndCloses(s, es[0], token, sid);
        ClosedBefore(s, t, u, user);
      }
    }
  }

  lemma ClosedBefore(s: State, t: State, u: State, user: User)
    requires Closes(s, t, user) && t.log <= u.log
    ensures Closes(s, u, user)
  {
    var i :| 0 <= i < |t.log[|s.log|..]| && t.log[|s.log|..][i] == CloseUser(user);
    assert u.log[|s.log|..][i] == CloseUser(user);
  }

  lemma ClosedLater(s: State, t: State, u: State, user: User)
    requires s.log <= t.log && Closes(t, u, user)
    ensures Closes(s, u, user)
  {
    var i :| 0 <= i < |u.log[|t.log|..]| && u.log[|t.log|..][i] == CloseUser(user);
    assert u.log[|s.log|..][i + |t.log| - |s.log|] == CloseUser(user);
  }

  // ----- Users who enter -----

  /** A user who enters gets a session with the device registered under the id it asks for, and that
      device is written Login with the session's id; if there is none, the user is told so, and
      nothing else happens. */
  lemma EnteringExact(s: State, u: User, newSid: UniqueId, token: Bytes)
    requires Inv(s) && Enabled(s, RegisterUser(u, newSid))
    ensures var t := Step(s, RegisterUser(u, newSid), token);
            && |t.log| == |s.log| + 1 && s.log <= t.log && t.entered == s.entered + {u}
            && ((exists d :: d in s.registered && d.id == u.devid && t.log[|s.log|] == ToDevice(d, 1, newSid)
                             && t.sessions == s.sessions[newSid := Session(d, u, false)])
                || ((forall d :: d in s.registered ==> d.id != u.devid) && t.sessions == s.sessions
                    && t.log[|s.log|] == ToUser(u, LoginReply([], DeviceOffline))))
  {
    if u.devid in s.devices {
      assert s.devices[u.devid] in s.registered && s.devices[u.devid].id == u.devid;
    }
  }

  // ----- Commands and HTTP requests -----

  /** What was asked of a device besides its sessions. */
  function Asked(log: seq<Act>, d: Device): seq<(byte, Bytes)> {
    if log == [] then []
    else
      var a := log[|log| - 1];
      Asked(log[..|log| - 1], d) + if IsRequest(a, d) then [(a.typ, a.data)] else []
  }

  predicate IsRequest(a: Act, d: Device) { a.ToDevice? && a.dev == d && (a.typ == CMD || a.typ == HTTP) }

  /** The requests for a device id, in order. */
  function Requests(es: seq<Event>, devid: Bytes): seq<(byte, Bytes)> {
    if es == [] then [] else RequestOf(es[0], devid) + Requests(es[1..], devid)
  }

  function RequestOf(e: Event, devid: Bytes): seq<(byte, Bytes)> {
    match e
    case CmdReq(id, data) => if id == devid then [(5, data)] else []
    case HttpReq(id, data) => if id == devid then [(8, data)] else []
    case _ => []
  }

  lemma {:induction false} NotAsked(log: seq<Act>, more: seq<Act>, d: Device)
    requires forall i :: 0 <= i < |more| ==> !IsRequest(more[i], d)
    ensures Asked(log + more, d) == Asked(log, d)
  {
    if more == [] {
      assert log + more == log;
    } else {
      assert log + more == (log + more[..|more| - 1]) + [more[|more| - 1]];
      NotAsked(log, more[..|more| - 1], d);
      AskedAppend(log + more[..|more| - 1], more[|more| - 1], d);
    }
  }

  lemma AskedAppend(log: seq<Act>, a: Act, d: Device)
    ensures Asked(log + [a], d) == Asked(log, d) + if IsRequest(a, d) then [(a.typ, a.data)] else []
  {
    assert (log + [a])[..|log|] == log;
  }

  ghost predicate AsksNothing(s: State, t: State, d: Device) {
    s.log <= t.log && forall i :: |s.log| <= i < |t.log| ==> !IsRequest(t.log[i], d)
  }

  lemma RequestAsks(s: State, devid: Bytes, typ: byte, data: Bytes, d: Device)
    requires Inv(s) && d in s.registered && (typ == CMD || typ == HTTP)
    ensures Asked(DoRequest(s, devid, typ, data).log, d) == Asked(s.log, d) + if devid == d.id then [(typ, data)] else []
  {
    if devid in s.devices {
      AskedAppend(s.log, ToDevice(s.devices[devid], typ, data), d);
    }
  }

  lemma UserMessageAsksNothing(s: State, d: Device)
    requires Inv(s) && s.queue != []
    ensures AsksNothing(s, DoUserMessage(s), d)
  {
    var m := s.queue[0];
    if m.sid in s.sessions {
      assert SessionOk(s, m.sid);
      if m.body != Binary([]) {
        ForwardedIsForSession(s.sessions[m.sid].dev, m.sid, m.body);
      }
    }
  }

  lemma UnregisterAsksNothing(s: State, gone: Device, order: seq<Bytes>, d: Device)
    requires gone in s.registered ==> Enumerates(order, SessionsOf(s, gone))
    ensures AsksNothing(s, DoUnregisterDevice(s, gone, order), d)
  {
    if gone in s.registered {
      ClosingsExact(s.sessions, order);
    }
  }

  lemma LoginAckAsksNothing(s: State, k: Bytes, busy: bool, d: Device)
    ensures AsksNothing(s, DoLoginAck(s, k, busy), d)
  {
  }

  lemma RestAskNothing(s: State, e: Event, token: Bytes, d: Device)
    requires Enabled(s, e) && !e.CmdReq? && !e.HttpReq?
    requires !e.HandleUserMessage? && !e.UnregisterDevice? && !e.LoginAcked?
    ensures AsksNothing(s, Step(s, e, token), d)
  {
  }

  lemma OthersAskNothing(s: State, e: Event, token: Bytes, d: Device)
    requires Inv(s) && Enabled(s, e) && !e.CmdReq? && !e.HttpReq?
    ensures AsksNothing(s, Step(s, e, token), d)
  {
    match e
    case HandleUserMessage => UserMessageAsksNothing(s, d);
    case UnregisterDevice(gone, order) => UnregisterAsksNothing(s, gone, order, d);
    case LoginAcked(k, busy) => LoginAckAsksNothing(s, k, busy, d);
    case _ => RestAskNothing(s, e, token, d);
  }

  lemma AskedStays(s: State, t: State, d: Device)
    requires AsksNothing(s, t, d)
    ensures Asked(t.log, d) == Asked(s.log, d) == Asked(s.log, d) + []
  {
    assert t.log == s.log + t.log[|s.log|..];
    NotAsked(s.log, t.log[|s.log|..], d);
  }

  lemma StepAsks(s: State, e: Event, token: Bytes, d: Device)
    requires Inv(s) && Enabled(s, e) && d in s.registered
    ensures Asked(Step(s, e, token).log, d) == Asked(s.log, d) + RequestOf(e, d.id)
  {
    match e
    case CmdReq(devid, data) => RequestAsks(s, devid, CMD, data, d);
    case HttpReq(devid, data) => RequestAsks(s, devid, HTTP, data, d);
    case _ =>
      OthersAskNothing(s, e, token, d);
      AskedStays(s, Step(s, e, token), d);
  }

  /** As long as a device is registered, it is written exactly the commands and HTTP requests for its
      id, each under its message type, in order. */
  lemma {:induction false} RequestsDelivered(s: State, es: seq<Event>, token: Bytes, d: Device)
    requires Inv(s) && Legal(s, es, token) && d in s.registered && !Unregisters(es, d)
    ensures Asked(Exec(s, es, token).log, d) == Asked(s.log, d) + Requests(es, d.id)
    decreases es
  {
    if es == [] {
    } else {
      assert forall e :: e in es <==> e == es[0] || e in es[1..];
      StepAsks(s, es[0], token, d);
      StepKeepsInv(s, es[0], token);
      RegisteredStays(s, es[0], token, d);
      RequestsDelivered(Step(s, es[0], token), es[1..], token, d);
      Joined(Asked(s.log, d), RequestOf(es[0], d.id), Requests(es[1..], d.id));
    }
  }

  lemma RegisteredStays(s: State, e: Event, token: Bytes, d: Device)
    requires Inv(s) && Enabled(s, e) && d in s.registered && !(e.UnregisterDevice? && e.dev == d)
    ensures d in Step(s, e, token).registered
  {
  }

  // ----- What ends the process -----

  /** The loop goes down exactly at an empty file message from the device of a live session, or an
      empty binary message from the user of one. */
  lemma DownIff(s: State, e: Event, token: Bytes)
    requires Inv(s) && Enabled(s, e)
    ensures Step(s, e, token).down <==>
              || (e.FileMessage? && e.sid in s.sessions && e.data == [])
              || (e.HandleUserMessage? && s.queue[0].sid in s.sessions && s.queue[0].body == Binary([]))
  {
    if e.HandleUserMessage? && s.queue[0].sid in s.sessions {
      assert SessionOk(s, s.queue[0].sid);
    }
  }
}
