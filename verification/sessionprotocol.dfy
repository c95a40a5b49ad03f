/** The life of one terminal session as devices see it, over every run of the broker loop. */
module SessionProtocol {
  import opened ByteStrings
  import opened Inbound
  import opened BrokerSpec
  import opened BrokerRuns

  // ----- The protocol, as an automaton over the log -----

  predicate SessionType(typ: byte) {
    typ == LOGIN || typ == LOGOUT || typ == TERM_DATA || typ == WINSIZE || typ == FILE || typ == ACK
  }

  /** A write to a device that concerns this session: its payload starts with the sid. */
  predicate IsFor(a: Act, sid: Bytes) {
    a.ToDevice? && SessionType(a.typ) && |a.data| >= 32 && a.data[..32] == sid
  }

  datatype Phase = Idle | Pending(dev: Device) | Live(dev: Device) | Over(dev: Device) | Bad

  function Advance(p: Phase, a: Act, sid: Bytes): Phase {
    if a == Accepted(sid) then
      if p.Pending? || p.Live? then Live(p.dev) else Bad
    else if !IsFor(a, sid) then p
    else if a.typ == LOGIN then
      if p.Idle? then Pending(a.dev) else Bad
    else if p.Live? && p.dev == a.dev then
      if a.typ == LOGOUT then Over(p.dev) else p
    else Bad
  }

  function PhaseOf(log: seq<Act>, sid: Bytes): Phase {
    if log == [] then Idle else Advance(PhaseOf(log[..|log| - 1], sid), log[|log| - 1], sid)
  }

  lemma PhaseAppend(log: seq<Act>, a: Act, sid: Bytes)
    ensures PhaseOf(log + [a], sid) == Advance(PhaseOf(log, sid), a, sid)
  {
    assert (log + [a])[..|log|] == log;
  }

  // ----- The same in terms of positions in the log -----

  predicate HasLogin(log: seq<Act>, sid: Bytes) {
    exists k :: 0 <= k < |log| && IsFor(log[k], sid) && log[k].typ == LOGIN
  }

  /** All writes for the session go to one device. The first is its only Login; every other comes
      after that Login and after an accepted login acknowledgement; a Logout is the last. */
  predicate Grammar(log: seq<Act>, sid: Bytes) {
    && (forall i, j :: 0 <= i < j < |log| && IsFor(log[i], sid) && IsFor(log[j], sid) ==>
          log[i].dev == log[j].dev && log[j].typ != LOGIN && log[i].typ != LOGOUT)
    && (forall i :: 0 <= i < |log| && IsFor(log[i], sid) && log[i].typ != LOGIN ==>
          HasLogin(log[..i], sid) && Accepted(sid) in log[..i])
  }

  predicate PhaseFacts(log: seq<Act>, sid: Bytes, p: Phase) {
    && (p.Idle? ==> forall i :: 0 <= i < |log| ==> !IsFor(log[i], sid))
    && (p.Pending? || p.Live? || p.Over? ==>
          HasLogin(log, sid) && forall i :: 0 <= i < |log| && IsFor(log[i], sid) ==> log[i].dev == p.dev)
    && (p.Pending? || p.Live? ==> forall i :: 0 <= i < |log| && IsFor(log[i], sid) ==> log[i].typ != LOGOUT)
    && (p.Live? || p.Over? ==> Accepted(sid) in log)
  }

  lemma HasLoginAppend(log: seq<Act>, a: Act, sid: Bytes)
    ensures HasLogin(log, sid) || (IsFor(a, sid) && a.typ == LOGIN) ==> HasLogin(log + [a], sid)
  {
    if HasLogin(log, sid) {
      var k :| 0 <= k < |log| && IsFor(log[k], sid) && log[k].typ == LOGIN;
      assert (log + [a])[k] == log[k];
    } else {
      assert (log + [a])[|log|] == a;
    }
  }

  lemma FactsAppend(log: seq<Act>, a: Act, sid: Bytes, p: Phase)
    requires PhaseFacts(log, sid, p) && Advance(p, a, sid) != Bad
    ensures PhaseFacts(log + [a], sid, Advance(p, a, sid))
  {
    HasLoginAppend(log, a, sid);
    var next := log + [a];
    assert forall i :: 0 <= i < |log| ==> next[i] == log[i];
    assert next[|log|] == a;
  }

  lemma GrammarAppend(log: seq<Act>, a: Act, sid: Bytes, p: Phase)
    requires Grammar(log, sid) && PhaseFacts(log, sid, p) && p != Bad && Advance(p, a, sid) != Bad
    ensures Grammar(log + [a], sid)
  {
    var next := log + [a];
    assert next[|log|] == a && next[..|log|] == log;
    forall i | 0 <= i < |next| && IsFor(next[i], sid) && next[i].typ != LOGIN
      ensures HasLogin(next[..i], sid) && Accepted(sid) in next[..i]
    {
      if i < |log| {
        assert next[i] == log[i] && next[..i] == log[..i];
      }
    }
    forall i, j | 0 <= i < j < |next| && IsFor(next[i], sid) && IsFor(next[j], sid)
      ensures next[i].dev == next[j].dev && next[j].typ != LOGIN && next[i].typ != LOGOUT
    {
      assert next[i] == log[i];
      if j < |log| {
        assert next[j] == log[j];
      }
    }
  }

  /** The automaton accepts only logs that follow the grammar. */
  lemma {:induction false} PhaseGivesGrammar(log: seq<Act>, sid: Bytes)
    requires PhaseOf(log, sid) != Bad
    ensures PhaseFacts(log, sid, PhaseOf(log, sid)) && Grammar(log, sid)
    decreases log
  {
    if log == [] {
    } else {
      var before, a := log[..|log| - 1], log[|log| - 1];
      assert before + [a] == log;
      PhaseGivesGrammar(before, sid);
      FactsAppend(before, a, sid, PhaseOf(before, sid));
      GrammarAppend(before, a, sid, PhaseOf(before, sid));
    }
  }

  // ----- Every run follows it -----

  /** A session id not yet used has no writes; a live session waits or works as its `confirmed`
      says, with its own device; nothing has gone wrong for any id. */
  ghost predicate PhaseOk(s: State, sid: Bytes) {
    var p := PhaseOf(s.log, sid);
    && (sid !in s.used ==> p == Idle)
    && (sid in s.sessions ==>
          p == if s.sessions[sid].confirmed then Live(s.sessions[sid].dev) else Pending(s.sessions[sid].dev))
    && p != Bad
  }

  /** An event that writes nothing for the session, and neither opens nor confirms it. */
  lemma Unconcerned(s: State, t: State, a: Act, sid: Bytes)
    requires PhaseOk(s, sid) && t.log == s.log + [a] && t.used == s.used
    requires !IsFor(a, sid) && a != Accepted(sid)
    requires sid in t.sessions ==> sid in s.sessions && t.sessions[sid] == s.sessions[sid]
    ensures PhaseOk(t, sid)
  {
    PhaseAppend(s.log, a, sid);
  }

  lemma LoginPhase(s: State, t: State, dev: Device, u: User, newSid: UniqueId, sid: Bytes)
    requires newSid !in s.used && newSid !in s.sessions && PhaseOk(s, sid)
    requires t.log == s.log + [ToDevice(dev, LOGIN, newSid)] && t.used == s.used + {newSid}
    requires t.sessions == s.sessions[newSid := Session(dev, u, false)]
    ensures PhaseOk(t, sid)
  {
    assert newSid[..32] == newSid;
    PhaseAppend(s.log, ToDevice(dev, LOGIN, newSid), sid);
  }

  lemma RegisterUserPhase(s: State, u: User, newSid: UniqueId, sid: Bytes)
    requires Inv(s) && u in s.sids && u !in s.entered && newSid !in s.used && PhaseOk(s, sid)
    ensures PhaseOk(DoRegisterUser(s, u, newSid), sid)
  {
    var t := DoRegisterUser(s, u, newSid);
    assert newSid in s.sessions ==> SessionOk(s, newSid);
    if u.devid in s.devices {
      LoginPhase(s, t, s.devices[u.devid], u, newSid, sid);
    } else {
      UserBoundPhase(s, t, u, LoginReply(SidOf(s, u), DeviceOffline), sid);
    }
  }

  lemma UnregisterUserPhase(s: State, u: User, sid: Bytes)
    requires Inv(s) && u in s.sids && PhaseOk(s, sid)
    ensures PhaseOk(DoUnregisterUser(s, u), sid)
  {
    var k := SidOf(s, u);
    PhaseAppend(s.log, CloseUser(u), sid);
    if k in s.sessions {
      assert SessionOk(s, k);
      assert k[..32] == k;
      PhaseAppend(s.log + [CloseUser(u)], ToDevice(s.devices[u.devid], LOGOUT, k), sid);
    }
  }

  lemma AcceptedPhase(log: seq<Act>, k: Bytes, reply: Act, sid: Bytes)
    requires reply.ToUser?
    ensures PhaseOf(log + [Accepted(k), reply], sid) == Advance(PhaseOf(log, sid), Accepted(k), sid)
  {
    assert log + [Accepted(k), reply] == (log + [Accepted(k)]) + [reply];
    PhaseAppend(log, Accepted(k), sid);
    PhaseAppend(log + [Accepted(k)], reply, sid);
  }

  lemma LoginAckPhase(s: State, k: Bytes, busy: bool, sid: Bytes)
    requires Inv(s) && PhaseOk(s, sid)
    ensures PhaseOk(DoLoginAck(s, k, busy), sid)
  {
    if k in s.sessions {
      if busy {
        Unconcerned(s, DoLoginAck(s, k, busy), DoLoginAck(s, k, busy).log[|s.log|], sid);
      } else {
        AcceptedPhase(s.log, k, ToUser(s.sessions[k].user, LoginReply(k, NoError)), sid);
      }
    }
  }

  /** Whatever a user sends in a session is forwarded under the session's id, and is neither a
      Login nor a Logout. */
  lemma ForwardedIsForSession(dev: Device, sid: Bytes, body: Body)
    requires |sid| == 32 && body != Binary([])
    ensures match Forwarded(sid, body)
            case None => true
            case Some((typ, data)) =>
              IsFor(ToDevice(dev, typ, data), sid) && typ != LOGIN && typ != LOGOUT
  {
  }

  lemma LiveWrite(s: State, t: State, a: Act, k: Bytes, sid: Bytes)
    requires PhaseOk(s, sid) && t.log == s.log + [a] && t.used == s.used && t.sessions == s.sessions
    requires k in s.sessions && s.sessions[k].confirmed
    requires IsFor(a, k) && a.typ != LOGIN && a.typ != LOGOUT && a.dev == s.sessions[k].dev
    ensures PhaseOk(t, sid)
  {
    PhaseAppend(s.log, a, sid);
  }

  lemma UserMessagePhase(s: State, sid: Bytes)
    requires Inv(s) && s.queue != [] && PhaseOk(s, sid)
    ensures PhaseOk(DoUserMessage(s), sid)
  {
    var t, m := DoUserMessage(s), s.queue[0];
    if m.sid in s.sessions && m.body != Binary([]) && Forwarded(m.sid, m.body).Some? {
      assert m in s.queue && SessionOk(s, m.sid);
      var dev, out := s.sessions[m.sid].dev, Forwarded(m.sid, m.body).value;
      ForwardedIsForSession(dev, m.sid, m.body);
      LiveWrite(s, t, ToDevice(dev, out.0, out.1), m.sid, sid);
    } else {
      assert t.log == s.log && t.sessions == s.sessions && t.used == s.used;
    }
  }

  lemma UserBoundPhase(s: State, t: State, u: User, reply: Reply, sid: Bytes)
    requires PhaseOk(s, sid)
    requires t.log == s.log + [ToUser(u, reply)] && t.used == s.used && t.sessions == s.sessions
    ensures PhaseOk(t, sid)
  {
    Unconcerned(s, t, ToUser(u, reply), sid);
  }

  lemma TermMessagePhase(s: State, k: Bytes, data: Bytes, sid: Bytes)
    requires PhaseOk(s, sid)
    ensures PhaseOk(DoTermMessage(s, k, data), sid)
  {
    if k in s.sessions {
      UserBoundPhase(s, DoTermMessage(s, k, data), s.sessions[k].user, TermOut(data), sid);
    }
  }

  lemma FileMessagePhase(s: State, k: Bytes, data: Bytes, sid: Bytes)
    requires PhaseOk(s, sid)
    ensures PhaseOk(DoFileMessage(s, k, data), sid)
  {
    var t := DoFileMessage(s, k, data);
    if k in s.sessions && data != [] {
      var u := s.sessions[k].user;
      if data[0] == FILE_SEND { UserBoundPhase(s, t, u, OfferFile(data[1..]), sid); }
      else if data[0] == FILE_RECV { UserBoundPhase(s, t, u, AskForFile, sid); }
      else if data[0] == FILE_ACK { UserBoundPhase(s, t, u, FileAcked, sid); }
    }
  }

  /** Registration replies, commands and HTTP data are not session messages. */
  lemma DeviceBoundPhase(s: State, t: State, dev: Device, typ: byte, data: Bytes, sid: Bytes)
    requires PhaseOk(s, sid) && !SessionType(typ)
    requires t.log == s.log + [ToDevice(dev, typ, data)] && t.used == s.used && t.sessions == s.sessions
    ensures PhaseOk(t, sid)
  {
    Unconcerned(s, t, ToDevice(dev, typ, data), sid);
  }

  lemma RequestPhase(s: State, devid: Bytes, typ: byte, data: Bytes, sid: Bytes)
    requires PhaseOk(s, sid) && !SessionType(typ)
    ensures PhaseOk(DoRequest(s, devid, typ, data), sid)
  {
    if devid in s.devices {
      DeviceBoundPhase(s, DoRequest(s, devid, typ, data), s.devices[devid], typ, data, sid);
    }
  }

  lemma SilentPhase(s: State, t: State, sid: Bytes)
    requires PhaseOk(s, sid) && PhaseOf(t.log, sid) == PhaseOf(s.log, sid) && t.used == s.used
    requires sid in t.sessions ==> sid in s.sessions && t.sessions[sid] == s.sessions[sid]
    ensures PhaseOk(t, sid)
  {
  }

  lemma {:induction false} ClosingsExact(sessions: map<Bytes, Session>, order: seq<Bytes>)
    requires forall k :: k in order ==> k in sessions
    ensures |Closings(sessions, order)| == |order|
    ensures forall i :: 0 <= i < |order| ==> Closings(sessions, order)[i] == CloseUser(sessions[order[i]].user)
    decreases order
  {
    if order == [] {
    } else {
      ClosingsExact(sessions, order[..|order| - 1]);
    }
  }

  lemma {:induction false} ClosingsPhase(log: seq<Act>, sessions: map<Bytes, Session>, order: seq<Bytes>, sid: Bytes)
    requires forall k :: k in order ==> k in sessions
    ensures PhaseOf(log + Closings(sessions, order), sid) == PhaseOf(log, sid)
    decreases order
  {
    var closings := Closings(sessions, order);
    if order == [] {
      assert log + closings == log;
    } else {
      var last := |order| - 1;
      ClosingsExact(sessions, order);
      ClosingsPhase(log, sessions, order[..last], sid);
      assert log + closings == (log + closings[..last]) + [closings[last]];
      PhaseAppend(log + closings[..last], closings[last], sid);
    }
  }

  lemma UnregisterDevicePhase(s: State, d: Device, order: seq<Bytes>, sid: Bytes)
    requires PhaseOk(s, sid) && (d in s.registered ==> Enumerates(order, SessionsOf(s, d)))
    ensures PhaseOk(DoUnregisterDevice(s, d, order), sid)
  {
    PhaseAppend(s.log, CloseDevice(d), sid);
    if d in s.registered {
      ClosingsPhase(s.log + [CloseDevice(d)], s.sessions, order, sid);
    }
    SilentPhase(s, DoUnregisterDevice(s, d, order), sid);
  }

  lemma LogoutPhase(s: State, k: Bytes, sid: Bytes)
    requires PhaseOk(s, sid)
    ensures PhaseOk(DoLogout(s, k), sid)
  {
    if k in s.sessions {
      PhaseAppend(s.log, CloseUser(s.sessions[k].user), sid);
    }
  }

  lemma StepKeepsPhase(s: State, e: Event, token: Bytes, sid: Bytes)
    requires Inv(s) && Enabled(s, e) && PhaseOk(s, sid)
    ensures PhaseOk(Step(s, e, token), sid)
  {
    match e
    case RegisterUser(u, newSid) => RegisterUserPhase(s, u, newSid, sid);
    case UnregisterUser(u) => UnregisterUserPhase(s, u, sid);
    case LoginAcked(k, busy) => LoginAckPhase(s, k, busy, sid);
    case HandleUserMessage => UserMessagePhase(s, sid);
    case RegisterDevice(d) =>
      DeviceBoundPhase(s, DoRegisterDevice(s, d, token), d, REGISTER, RegisterReply(Judge(s, d, token)), sid);
    case CmdReq(devid, data) => RequestPhase(s, devid, CMD, data, sid);
    case HttpReq(devid, data) => RequestPhase(s, devid, HTTP, data, sid);
    case TermMessage(k, data) => TermMessagePhase(s, k, data, sid);
    case FileMessage(k, data) => FileMessagePhase(s, k, data, sid);
    case UnregisterDevice(d, order) => UnregisterDevicePhase(s, d, order, sid);
    case LoggedOff(k) => LogoutPhase(s, k, sid);
    case _ => SilentPhase(s, Step(s, e, token), sid);
  }

  lemma {:induction false} RunsKeepInv(s: State, es: seq<Event>, token: Bytes, sid: Bytes)
    requires Inv(s) && PhaseOk(s, sid) && Legal(s, es, token)
    ensures Inv(Exec(s, es, token)) && PhaseOk(Exec(s, es, token), sid)
    decreases es
  {
    if es == [] {
    } else {
      StepKeepsInv(s, es[0], token);
      StepKeepsPhase(s, es[0], token, sid);
      RunsKeepInv(Step(s, es[0], token), es[1..], token, sid);
    }
  }

  /** After any run, in whatever order the loop took its events, the tables are consistent and
      the writes for every session id follow the grammar. */
  lemma EveryRunFollowsTheProtocol(es: seq<Event>, token: Bytes, sid: Bytes)
    requires Legal(START, es, token)
    ensures var s := Exec(START, es, token);
            Inv(s) && PhaseOk(s, sid) && Grammar(s.log, sid)
  {
    StartInv();
    RunsKeepInv(START, es, token, sid);
    PhaseGivesGrammar(Exec(START, es, token).log, sid);
  }

  // ----- Ended sessions, and what keeps one alive -----

  /** The session stays ended, and what the log gained is not for it. */
  ghost predicate Quiet(s: State, t: State, sid: Bytes) {
    && sid in t.used && sid !in t.sessions && s.log <= t.log
    && forall i :: |s.log| <= i < |t.log| ==> !IsFor(t.log[i], sid)
  }

  lemma RegisterUserQuiet(s: State, u: User, newSid: UniqueId, sid: Bytes)
    requires newSid !in s.used && sid in s.used && sid !in s.sessions
    ensures Quiet(s, DoRegisterUser(s, u, newSid), sid)
  {
    assert newSid[..32] == newSid;
  }

  lemma UnregisterUserQuiet(s: State, u: User, sid: Bytes)
    requires Inv(s) && sid in s.used && sid !in s.sessions
    ensures Quiet(s, DoUnregisterUser(s, u), sid)
  {
    var k := SidOf(s, u);
    assert k in s.sessions ==> SessionOk(s, k) && k[..32] == k;
  }

  lemma UserMessageQuiet(s: State, sid: Bytes)
    requires Inv(s) && s.queue != [] && sid in s.used && sid !in s.sessions
    ensures Quiet(s, DoUserMessage(s), sid)
  {
    var t, m := DoUserMessage(s), s.queue[0];
    if m.sid in s.sessions && m.body != Binary([]) && Forwarded(m.sid, m.body).Some? {
      assert SessionOk(s, m.sid);
      var dev, out := s.sessions[m.sid].dev, Forwarded(m.sid, m.body).value;
      ForwardedIsForSession(dev, m.sid, m.body);
      assert t.log == s.log + [ToDevice(dev, out.0, out.1)];
    }
  }

  lemma RequestQuiet(s: State, devid: Bytes, typ: byte, data: Bytes, sid: Bytes)
    requires !SessionType(typ) && sid in s.used && sid !in s.sessions
    ensures Quiet(s, DoRequest(s, devid, typ, data), sid)
  {
  }

  lemma StepQuiet(s: State, e: Event, token: Bytes, sid: Bytes)
    requires Inv(s) && Enabled(s, e) && sid in s.used && sid !in s.sessions
    ensures Quiet(s, Step(s, e, token), sid)
  {
    match e
    case RegisterUser(u, newSid) => RegisterUserQuiet(s, u, newSid, sid);
    case UnregisterUser(u) => UnregisterUserQuiet(s, u, sid);
    case HandleUserMessage => UserMessageQuiet(s, sid);
    case CmdReq(devid, data) => RequestQuiet(s, devid, CMD, data, sid);
    case HttpReq(devid, data) => RequestQuiet(s, devid, HTTP, data, sid);
    case UnregisterDevice(d, order) => if d in s.registered { ClosingsExact(s.sessions, order); }
    case LoggedOff(k) => LogoutQuiet(s, k, sid);
    case LoginAcked(k, busy) => LoginAckQuiet(s, k, busy, sid);
    case FileMessage(k, data) => FileMessageQuiet(s, k, data, sid);
    case TermMessage(k, data) =>
    case _ => OtherEventQuiet(s, e, token, sid);
  }

  lemma OtherEventQuiet(s: State, e: Event, token: Bytes, sid: Bytes)
    requires Enabled(s, e) && sid in s.used && sid !in s.sessions
    requires e.UserConnects? || e.RegisterDevice? || e.UserReads?
    ensures Quiet(s, Step(s, e, token), sid)
  {
  }

  lemma FileMessageQuiet(s: State, k: Bytes, data: Bytes, sid: Bytes)
    requires sid in s.used && sid !in s.sessions
    ensures Quiet(s, DoFileMessage(s, k, data), sid)
  {
  }

  lemma LogoutQuiet(s: State, k: Bytes, sid: Bytes)
    requires sid in s.used && sid !in s.sessions
    ensures Quiet(s, DoLogout(s, k), sid)
  {
  }

  lemma LoginAckQuiet(s: State, k: Bytes, busy: bool, sid: Bytes)
    requires sid in s.used && sid !in s.sessions
    ensures Quiet(s, DoLoginAck(s, k, busy), sid)
  {
  }

  /** Once a session has ended, however the run goes on, it never comes back and nothing more is
      written to any device for it. */
  lemma {:induction false} EndedSessionStaysSilent(s: State, es: seq<Event>, token: Bytes, sid: Bytes)
    requires Inv(s) && Legal(s, es, token) && sid in s.used && sid !in s.sessions
    ensures Quiet(s, Exec(s, es, token), sid)
    decreases es
  {
    if es == [] {
    } else {
      StepQuiet(s, es[0], token, sid);
      StepKeepsInv(s, es[0], token);
      EndedSessionStaysSilent(Step(s, es[0], token), es[1..], token, sid);
    }
  }

  /** The same tables, queue and connections; the logs may differ. */
  ghost predicate Alike(s: State, t: State) { t == s.(log := t.log) }

  lemma SessionsAlike(s: State, t: State, d: Device)
    requires Alike(s, t)
    ensures SessionsOf(s, d) == SessionsOf(t, d)
  {
  }

  lemma DeviceEventsAlike(s: State, t: State, e: Event, token: Bytes)
    requires Alike(s, t) && Enabled(s, e) && (e.RegisterDevice? || e.UnregisterDevice?)
    ensures Enabled(t, e) && Alike(Step(s, e, token), Step(t, e, token))
  {
    if e.UnregisterDevice? {
      SessionsAlike(s, t, e.dev);
    }
  }

  lemma UserEventsAlike(s: State, t: State, e: Event, token: Bytes)
    requires Alike(s, t) && Enabled(s, e) && (e.RegisterUser? || e.UnregisterUser? || e.UserReads? || e.HandleUserMessage?)
    ensures Enabled(t, e) && Alike(Step(s, e, token), Step(t, e, token))
  {
  }

  /** What the loop does next does not depend on what it wrote before. */
  lemma StepAlike(s: State, t: State, e: Event, token: Bytes)
    requires Alike(s, t) && Enabled(s, e)
    ensures Enabled(t, e) && Alike(Step(s, e, token), Step(t, e, token))
  {
    match e
    case RegisterDevice(_) => DeviceEventsAlike(s, t, e, token);
    case UnregisterDevice(_, _) => DeviceEventsAlike(s, t, e, token);
    case RegisterUser(_, _) => UserEventsAlike(s, t, e, token);
    case UnregisterUser(_) => UserEventsAlike(s, t, e, token);
    case UserReads(_, _) => UserEventsAlike(s, t, e, token);
    case HandleUserMessage => UserEventsAlike(s, t, e, token);
    case _ =>
  }

  lemma {:induction false} RunAlike(s: State, t: State, es: seq<Event>, token: Bytes)
    requires Alike(s, t) && Legal(s, es, token)
    ensures Legal(t, es, token) && Alike(Exec(s, es, token), Exec(t, es, token))
    decreases es
  {
    if es == [] {
    } else {
      StepAlike(s, t, es[0], token);
      RunAlike(Step(s, es[0], token), Step(t, es[0], token), es[1..], token);
    }
  }

  lemma OneMoreEvent(s: State, a: Event, es: seq<Event>, token: Bytes)
    requires Enabled(s, a) && Legal(Step(s, a, token), es, token)
    ensures Legal(s, [a] + es, token) && Exec(s, [a] + es, token) == Exec(Step(s, a, token), es, token)
  {
    assert ([a] + es)[0] == a && ([a] + es)[1..] == es;
  }

  /** A stale unregister - a repeated one, or one for a connection that was never accepted - may come
      at any point of a run: the run ends with the same tables, the same waiting messages and the
      same connections as without it. */
  lemma StaleUnregister(s: State, d: Device, order: seq<Bytes>, es: seq<Event>, token: Bytes)
    requires d !in s.registered && !s.down && Legal(s, es, token)
    ensures var stale := [UnregisterDevice(d, order)] + es;
            Legal(s, stale, token) && Alike(Exec(s, es, token), Exec(s, stale, token))
  {
    var e := UnregisterDevice(d, order);
    RunAlike(s, Step(s, e, token), es, token);
    OneMoreEvent(s, e, es, token);
  }

  /** The conditions of a registration besides a free id: the configured token, if there is one, and
      a protocol version of at least 3. */
  predicate Credentials(d: Device, token: Bytes) { (token == [] || d.token == token) && d.proto >= 3 }

  /** A registration is accepted exactly when the id is free and the credentials are good: the device
      is entered under its id and told 0. Else no registration changes, and it is told 1. */
  lemma AdmissionExact(s: State, d: Device, token: Bytes)
    requires Enabled(s, RegisterDevice(d))
    ensures var t := Step(s, RegisterDevice(d), token);
            && |t.log| == |s.log| + 1 && t.log[..|s.log|] == s.log
            && var told := t.log[|s.log|];
               && told.ToDevice? && told.dev == d && told.typ == 0 && told.data != []
               && if d.id !in s.devices && Credentials(d, token) then
                    && t.registered == s.registered + {d} && t.devices == s.devices[d.id := d]
                    && told.data == [0] + Ascii("OK")
                  else
                    t.registered == s.registered && t.devices == s.devices && told.data[0] == 1
  {
  }

  ghost predicate Unregisters(es: seq<Event>, d: Device) { exists e :: e in es && e.UnregisterDevice? && e.dev == d }

  /** Some registration of this connection is accepted, and it is not unregistered after that. */
  ghost predicate Taken(s: State, es: seq<Event>, token: Bytes, d: Device)
    requires Legal(s, es, token)
    decreases es
  {
    && es != []
    && (Taken(Step(s, es[0], token), es[1..], token, d)
        || (es[0] == RegisterDevice(d) && d.id !in s.devices && Credentials(d, token) && !Unregisters(es[1..], d)))
  }

  /** Over any run, exactly the connections are registered whose registration was accepted, or that
      were registered before, and that were not unregistered since. */
  lemma {:induction false} RegisteredIffTaken(s: State, es: seq<Event>, token: Bytes, d: Device)
    requires Legal(s, es, token)
    ensures d in Exec(s, es, token).registered <==> Taken(s, es, token, d) || (d in s.registered && !Unregisters(es, d))
    decreases es
  {
    if es == [] {
    } else {
      assert forall e :: e in es <==> e == es[0] || e in es[1..];
      RegisteredIffTaken(Step(s, es[0], token), es[1..], token, d);
    }
  }

  /** A connection posts an unregister from its reader and one from its writer. Whatever happens
      between the two, the second is effective exactly when the connection's own registration was
      taken in between; else it changes nothing, then and over the rest of the run, even if another
      connection has taken the id since. */
  lemma SecondUnregister(s: State, d: Device, order: seq<Bytes>, between: seq<Event>, again: seq<Bytes>, after: seq<Event>, token: Bytes)
    requires Enabled(s, UnregisterDevice(d, order))
    requires var t := Step(s, UnregisterDevice(d, order), token);
             && Legal(t, between, token)
             && var u := Exec(t, between, token);
                Enabled(u, UnregisterDevice(d, again)) && Legal(u, after, token)
    ensures var t, second := Step(s, UnregisterDevice(d, order), token), UnregisterDevice(d, again);
            var u := Exec(t, between, token);
            && (Alike(u, Step(u, second, token)) <==> !Taken(t, between, token, d))
            && (!Taken(t, between, token, d) ==>
                  Legal(u, [second] + after, token) && Alike(Exec(u, after, token), Exec(u, [second] + after, token)))
  {
    var t := Step(s, UnregisterDevice(d, order), token);
    RegisteredIffTaken(t, between, token, d);
    if !Taken(t, between, token, d) {
      StaleUnregister(Exec(t, between, token), d, again, after, token);
    }
  }

  /** This does happen: `register` and `unregister` are taken in any order, so the first unregister
      may come before the registration of its own connection and the second after it. */
  lemma OvertakenRegistration(d: Device, token: Bytes)
    requires Credentials(d, token)
    ensures var first, run := [UnregisterDevice(d, []), RegisterDevice(d)], [UnregisterDevice(d, []), RegisterDevice(d), UnregisterDevice(d, [])];
            && Legal(START, first, token) && d in Exec(START, first, token).registered
            && Legal(START, run, token) && d !in Exec(START, run, token).registered
  {
    var unregister, register := UnregisterDevice(d, []), RegisterDevice(d);
    var s := Step(START, unregister, token);
    var t := Step(s, register, token);
    assert [register] + [] == [register] && [unregister] + [] == [unregister];
    OneMoreEvent(s, register, [], token);
    OneMoreEvent(START, unregister, [register], token);
    OneMoreEvent(t, unregister, [], token);
    OneMoreEvent(s, register, [unregister], token);
    OneMoreEvent(START, unregister, [register, unregister], token);
  }

  /** And when both come before it, the dead connection is registered, and holds its id for good:
      whatever happens, short of a third unregister that nobody posts, every other connection with
      the id is refused. */
  lemma DeadConnectionKeepsId(s: State, d: Device, order: seq<Bytes>, again: seq<Bytes>, es: seq<Event>, other: Device, token: Bytes)
    requires Inv(s) && Enabled(s, UnregisterDevice(d, order)) && other.id == d.id
    requires var t := Step(Step(s, UnregisterDevice(d, order), token), UnregisterDevice(d, again), token);
             && d.id !in t.devices && Credentials(d, token)
             && Legal(Step(t, RegisterDevice(d), token), es, token) && !Unregisters(es, d)
    ensures var t := Step(Step(s, UnregisterDevice(d, order), token), UnregisterDevice(d, again), token);
            var u := Exec(Step(t, RegisterDevice(d), token), es, token);
            && d in u.registered
            && (!u.down ==> Step(u, RegisterDevice(other), token).registered == u.registered)
  {
    var a := Step(s, UnregisterDevice(d, order), token);
    var t := Step(a, UnregisterDevice(d, again), token);
    StepKeepsInv(s, UnregisterDevice(d, order), token);
    StepKeepsInv(a, UnregisterDevice(d, again), token);
    StepKeepsInv(t, RegisterDevice(d), token);
    AdmissionExact(t, d, token);
    DeviceStays(Step(t, RegisterDevice(d), token), es, token, d);
  }

  /** An effective one removes exactly that connection: its entry and its sessions. Another
      unregister for it is then stale. */
  lemma EffectiveUnregister(s: State, d: Device, order: seq<Bytes>)
    requires Inv(s) && d in s.registered && Enumerates(order, SessionsOf(s, d))
    ensures var t := DoUnregisterDevice(s, d, order);
            && t.registered == s.registered - {d} && SessionsOf(t, d) == {}
            && (forall id :: id in t.devices <==> id in s.devices && s.devices[id] != d)
            && (forall id :: id in t.devices ==> t.devices[id] == s.devices[id])
            && (forall sid :: sid in t.sessions <==> sid in s.sessions && s.sessions[sid].dev != d)
            && (forall sid :: sid in t.sessions ==> t.sessions[sid] == s.sessions[sid])
  {
  }

  /** It closes the users of exactly the sessions it removes, each as often as it has sessions. */
  lemma UnregisterCloses(s: State, d: Device, order: seq<Bytes>)
    requires d in s.registered && Enumerates(order, SessionsOf(s, d))
    ensures var closed := DoUnregisterDevice(s, d, order).log[|s.log|..];
            && closed[0] == CloseDevice(d) && |closed| == 1 + |order|
            && (forall i :: 0 <= i < |order| && order[i] in s.sessions ==> closed[1 + i] == CloseUser(s.sessions[order[i]].user))
            && (forall sid :: sid in s.sessions && s.sessions[sid].dev == d ==> CloseUser(s.sessions[sid].user) in closed)
  {
    var closings := Closings(s.sessions, order);
    var closed := DoUnregisterDevice(s, d, order).log[|s.log|..];
    ClosingsExact(s.sessions, order);
    assert closed == [CloseDevice(d)] + closings;
    forall sid | sid in s.sessions && s.sessions[sid].dev == d ensures CloseUser(s.sessions[sid].user) in closed {
      assert sid in SessionsOf(s, d);
      var i :| 0 <= i < |order| && order[i] == sid;
      assert closed[1 + i] == CloseUser(s.sessions[sid].user);
    }
  }

  /** Over any run, a registered device stays registered under its id until its own connection is
      unregistered: no event about another connection with the same id takes it away. */
  lemma {:induction false} DeviceStays(s: State, es: seq<Event>, token: Bytes, d: Device)
    requires Inv(s) && Legal(s, es, token) && d in s.registered
    requires forall e :: e in es && e.UnregisterDevice? ==> e.dev != d
    ensures var t := Exec(s, es, token);
            d in t.registered && d.id in t.devices && t.devices[d.id] == d
    decreases es
  {
    if es == [] {
    } else {
      assert es[0] in es;
      StepKeepsInv(s, es[0], token);
      DeviceStays(Step(s, es[0], token), es[1..], token, d);
    }
  }

  /** The events that end a session. */
  predicate Ends(e: Event, session: Session, sid: Bytes) {
    || (e.UnregisterDevice? && e.dev == session.dev)
    || (e.UnregisterUser? && e.user == session.user)
    || e == LoggedOff(sid)
  }

  /** Over any run, a session lasts until its device or its user is unregistered or its device
      logs it out; unregister events of other connections do not end it. */
  lemma {:induction false} SessionStays(s: State, es: seq<Event>, token: Bytes, sid: Bytes)
    requires Inv(s) && Legal(s, es, token) && sid in s.sessions
    requires forall e :: e in es ==> !Ends(e, s.sessions[sid], sid)
    ensures var t := Exec(s, es, token);
            sid in t.sessions && t.sessions[sid].dev == s.sessions[sid].dev && t.sessions[sid].user == s.sessions[sid].user
    decreases es
  {
    if es == [] {
    } else {
      assert es[0] in es;
      SessionSurvives(s, es[0], token, sid);
      StepKeepsInv(s, es[0], token);
      var t := Step(s, es[0], token);
      forall e | e in es[1..] ensures !Ends(e, t.sessions[sid], sid) {
        assert e in es;
      }
      SessionStays(Step(s, es[0], token), es[1..], token, sid);
    }
  }

  /** Another user's unregister does not concern the session, whatever sid it carries. */
  lemma OtherUserLeaves(s: State, u: User, sid: Bytes)
    requires Inv(s) && u in s.sids && sid in s.sessions && s.sessions[sid].user != u
    ensures var t := DoUnregisterUser(s, u);
            sid in t.sessions && t.sessions[sid] == s.sessions[sid]
  {
    assert SidOf(s, u) != sid;
  }

  lemma UserLeaves(s: State, u: User, sid: Bytes)
    requires Inv(s) && sid in s.sessions && s.sessions[sid].user == u
    ensures var t := DoUnregisterUser(s, u);
            && (sid in t.sessions <==> !s.sessions[sid].confirmed)
            && (sid in t.sessions ==> t.sessions[sid] == s.sessions[sid])
  {
    assert SessionOk(s, sid);
  }

  lemma LoginAckEffect(s: State, k: Bytes, busy: bool, sid: Bytes)
    requires sid in s.sessions
    ensures var t := DoLoginAck(s, k, busy);
            sid in t.sessions && t.sessions[sid] == s.sessions[sid].(confirmed := s.sessions[sid].confirmed || (k == sid && !busy))
  {
  }

  /** The event ends the session, whose login has been acknowledged or not: its device is
      unregistered or logs it out, or its user is unregistered after the acknowledgement. */
  predicate EndsIf(session: Session, sid: Bytes, e: Event, acked: bool) {
    || (e.UnregisterDevice? && e.dev == session.dev)
    || e == LoggedOff(sid)
    || (e.UnregisterUser? && e.user == session.user && acked)
  }

  lemma DeviceLeaves(s: State, d: Device, order: seq<Bytes>, sid: Bytes)
    requires Inv(s) && sid in s.sessions && (d in s.registered ==> Enumerates(order, SessionsOf(s, d)))
    ensures var t := DoUnregisterDevice(s, d, order);
            && (sid in t.sessions <==> s.sessions[sid].dev != d)
            && (sid in t.sessions ==> t.sessions[sid] == s.sessions[sid])
  {
    assert SessionOk(s, sid);
  }

  lemma OthersKeepSession(s: State, e: Event, token: Bytes, sid: Bytes)
    requires Inv(s) && Enabled(s, e) && sid in s.sessions
    requires !e.UnregisterUser? && !e.UnregisterDevice? && !e.LoginAcked? && e != LoggedOff(sid)
    ensures var t := Step(s, e, token);
            sid in t.sessions && t.sessions[sid] == s.sessions[sid]
  {
    assert SessionOk(s, sid);
  }

  lemma StepEndsIff(s: State, e: Event, token: Bytes, sid: Bytes)
    requires Inv(s) && Enabled(s, e) && sid in s.sessions
    ensures var t, session := Step(s, e, token), s.sessions[sid];
            && (sid in t.sessions <==> !EndsIf(session, sid, e, session.confirmed))
            && (sid in t.sessions ==>
                  t.sessions[sid] == session.(confirmed := session.confirmed || e == LoginAcked(sid, false)))
  {
    if e.UnregisterUser? {
      if s.sessions[sid].user == e.user { UserLeaves(s, e.user, sid); } else { OtherUserLeaves(s, e.user, sid); }
    } else if e.UnregisterDevice? {
      DeviceLeaves(s, e.dev, e.order, sid);
    } else if e.LoginAcked? {
      LoginAckEffect(s, e.sid, e.busy, sid);
    } else if e == LoggedOff(sid) {
    } else {
      OthersKeepSession(s, e, token, sid);
    }
  }

  lemma SessionSurvives(s: State, e: Event, token: Bytes, sid: Bytes)
    requires Inv(s) && Enabled(s, e) && sid in s.sessions
    requires !Ends(e, s.sessions[sid], sid)
    ensures var t := Step(s, e, token);
            sid in t.sessions && t.sessions[sid].dev == s.sessions[sid].dev && t.sessions[sid].user == s.sessions[sid].user
  {
    StepEndsIff(s, e, token, sid);
  }

  /** The event at this position ends the session. */
  predicate EndedBy(session: Session, sid: Bytes, es: seq<Event>, k: nat)
    requires k < |es|
  {
    EndsIf(session, sid, es[k], session.confirmed || LoginAcked(sid, false) in es[..k])
  }

  lemma EndedByNext(session: Session, next: Session, sid: Bytes, es: seq<Event>, k: nat)
    requires k + 1 < |es| && next == session.(confirmed := session.confirmed || es[0] == LoginAcked(sid, false))
    ensures EndedBy(next, sid, es[1..], k) <==> EndedBy(session, sid, es, k + 1)
  {
    var acked, later := es[..k + 1], es[1..][..k];
    assert acked[0] == es[0] && acked[1..] == later;
    assert forall e :: e in acked <==> e == es[0] || e in later;
    assert es[1..][k] == es[k + 1];
  }

  lemma EndedByShift(session: Session, next: Session, sid: Bytes, es: seq<Event>)
    requires es != [] && next == session.(confirmed := session.confirmed || es[0] == LoginAcked(sid, false))
    ensures (forall k :: 0 <= k < |es| ==> !EndedBy(session, sid, es, k))
            <==> !EndedBy(session, sid, es, 0) && forall k :: 0 <= k < |es[1..]| ==> !EndedBy(next, sid, es[1..], k)
  {
    forall k | 0 <= k < |es| - 1 ensures EndedBy(next, sid, es[1..], k) <==> EndedBy(session, sid, es, k + 1) {
      EndedByNext(session, next, sid, es, k);
    }
    assert forall k :: 0 < k < |es| ==> (EndedBy(session, sid, es, k) <==> EndedBy(next, sid, es[1..], k - 1));
  }

  /** Over any run, a session is gone exactly when some event ended it. In particular it survives its
      user when every unregister of that user comes before the login is acknowledged. */
  lemma {:induction false} SessionLastsIff(s: State, es: seq<Event>, token: Bytes, sid: Bytes)
    requires Inv(s) && Legal(s, es, token) && sid in s.sessions
    ensures sid in Exec(s, es, token).sessions <==> forall k :: 0 <= k < |es| ==> !EndedBy(s.sessions[sid], sid, es, k)
    decreases es
  {
    if es == [] {
    } else {
      var t, session := Step(s, es[0], token), s.sessions[sid];
      StepEndsIff(s, es[0], token, sid);
      StepKeepsInv(s, es[0], token);
      assert EndedBy(session, sid, es, 0) <==> sid !in t.sessions;
      if sid in t.sessions {
        SessionLastsIff(t, es[1..], token, sid);
        EndedByShift(session, t.sessions[sid], sid, es);
      } else {
        StaysUsed(s, es[0], token, sid);
        EndedSessionStaysSilent(t, es[1..], token, sid);
      }
    }
  }

  lemma StaysUsed(s: State, e: Event, token: Bytes, sid: Bytes)
    requires Inv(s) && Enabled(s, e) && sid in s.sessions
    ensures sid in Step(s, e, token).used
  {
    assert SessionOk(s, sid);
  }
}
