/** The consistency of the broker loop's tables, which every event keeps. */
module BrokerRuns {
  import opened ByteStrings
  import opened BrokerSpec

  // ----- Consistency of the tables -----

  /** A device is registered exactly when the table has it under its id. */
  ghost predicate DevicesOk(s: State) {
    && (forall id :: id in s.devices ==> s.devices[id].id == id && s.devices[id] in s.registered)
    && (forall d :: d in s.registered ==> d.id in s.devices && s.devices[d.id] == d)
  }

  ghost predicate SessionOk(s: State, sid: Bytes)
    requires sid in s.sessions
  {
    var e := s.sessions[sid];
    && |sid| == 32 && sid in s.used
    && e.dev in s.registered && e.dev.id == e.user.devid
    && e.user in s.entered
    && SidOf(s, e.user) == if e.confirmed then sid else []
  }

  ghost predicate SessionsOk(s: State) {
    && (forall sid :: sid in s.sessions ==> SessionOk(s, sid))
    && (forall a, b :: a in s.sessions && b in s.sessions && a != b ==> s.sessions[a].user != s.sessions[b].user)
  }

  /** A user's sid, when it names a live session, names that user's own. */
  ghost predicate SidsOk(s: State) {
    && (forall u :: u in s.sids && s.sids[u] != [] ==> s.sids[u] in s.used)
    && (forall u :: u in s.sids && s.sids[u] in s.sessions ==> s.sessions[s.sids[u]].user == u)
    && (forall u :: u in s.sids && u !in s.entered ==> s.sids[u] == [])
  }

  /** Waiting user messages carry no sid, a spent one, or that of a confirmed session. */
  ghost predicate QueueOk(s: State) {
    forall m :: m in s.queue && m.sid != [] ==>
      m.sid in s.used && (m.sid in s.sessions ==> s.sessions[m.sid].confirmed)
  }

  ghost predicate Inv(s: State) {
    DevicesOk(s) && SessionsOk(s) && SidsOk(s) && QueueOk(s) && [] !in s.used
    && (forall u :: u in s.entered ==> u in s.sids)
  }

  lemma StartInv()
    ensures Inv(START)
  {
  }

  /** The log and a shorter queue do not matter. */
  lemma SameTables(s: State, t: State)
    requires Inv(s) && forall m :: m in t.queue ==> m in s.queue
    requires t == s.(log := t.log, queue := t.queue, down := t.down)
    ensures Inv(t)
  {
    assert forall sid :: sid in t.sessions ==> SessionOk(s, sid);
  }

  lemma RegisterDeviceKeepsInv(s: State, d: Device, token: Bytes)
    requires Inv(s)
    ensures Inv(DoRegisterDevice(s, d, token))
  {
  }

  lemma UnregisterDeviceKeepsInv(s: State, d: Device, order: seq<Bytes>)
    requires Inv(s) && (d in s.registered ==> Enumerates(order, SessionsOf(s, d)))
    ensures Inv(DoUnregisterDevice(s, d, order))
  {
  }

  lemma RegisterUserKeepsSessions(s: State, u: User, sid: UniqueId)
    requires Inv(s) && u in s.sids && u !in s.entered && sid !in s.used
    ensures SessionsOk(DoRegisterUser(s, u, sid))
  {
    var t := DoRegisterUser(s, u, sid);
    forall k | k in t.sessions ensures SessionOk(t, k) {
      assert k != sid ==> SessionOk(s, k);
    }
    assert forall k :: k in s.sessions ==> SessionOk(s, k) && s.sessions[k].user in s.entered;
  }

  lemma RegisterUserKeepsInv(s: State, u: User, sid: UniqueId)
    requires Inv(s) && u in s.sids && u !in s.entered && sid !in s.used
    ensures Inv(DoRegisterUser(s, u, sid))
  {
    var t := DoRegisterUser(s, u, sid);
    RegisterUserKeepsSessions(s, u, sid);
    forall m | m in t.queue && m.sid != []
      ensures m.sid in t.used && (m.sid in t.sessions ==> t.sessions[m.sid].confirmed)
    {
      assert m in s.queue;
    }
  }

  lemma UnregisterUserKeepsInv(s: State, u: User)
    requires Inv(s) && u in s.sids
    ensures Inv(DoUnregisterUser(s, u))
  {
  }

  lemma LoginAckKeepsInv(s: State, sid: Bytes, busy: bool)
    requires Inv(s)
    ensures Inv(DoLoginAck(s, sid, busy))
  {
    var t := DoLoginAck(s, sid, busy);
    if sid in s.sessions && !busy {
      assert SessionOk(s, sid);
      forall k | k in t.sessions ensures SessionOk(t, k) {
        assert SessionOk(s, k);
      }
    }
  }

  lemma LogoutKeepsInv(s: State, sid: Bytes)
    requires Inv(s)
    ensures Inv(DoLogout(s, sid))
  {
  }

  lemma UserMessageKeepsInv(s: State)
    requires Inv(s) && s.queue != []
    ensures Inv(DoUserMessage(s))
  {
    SameTables(s, DoUserMessage(s));
  }

  lemma UserReadsKeepsInv(s: State, u: User, body: Body)
    requires Inv(s) && u in s.sids
    ensures Inv(s.(queue := s.queue + [UserMessage(SidOf(s, u), body)]))
  {
    assert SidOf(s, u) in s.sessions ==> SessionOk(s, SidOf(s, u));
  }

  lemma UserConnectsKeepsInv(s: State, u: User)
    requires Inv(s) && u !in s.sids
    ensures Inv(s.(sids := s.sids[u := []]))
  {
    var t := s.(sids := s.sids[u := []]);
    assert forall sid :: sid in t.sessions ==> SessionOk(s, sid);
  }

  lemma StepKeepsInv(s: State, e: Event, token: Bytes)
    requires Inv(s) && Enabled(s, e)
    ensures Inv(Step(s, e, token))
  {
    match e
    case RegisterDevice(d) => RegisterDeviceKeepsInv(s, d, token);
    case RegisterUser(u, newSid) => RegisterUserKeepsInv(s, u, newSid);
    case UnregisterDevice(d, order) => UnregisterDeviceKeepsInv(s, d, order);
    case UnregisterUser(u) => UnregisterUserKeepsInv(s, u);
    case LoginAcked(sid, busy) => LoginAckKeepsInv(s, sid, busy);
    case LoggedOff(sid) => LogoutKeepsInv(s, sid);
    case UserReads(u, body) => UserReadsKeepsInv(s, u, body);
    case HandleUserMessage => UserMessageKeepsInv(s);
    case UserConnects(u) => UserConnectsKeepsInv(s, u);
    case _ => SameTables(s, Step(s, e, token));
  }
}
