/** What one request does after any run of the tunnel service: exactly which rows, ports and
    messages change. */
module TunnelEffects {
  import opened ByteStrings
  import opened AccessTokens
  import opened DbTime
  import opened TunnelMessages
  import opened Tunnels
  import opened TunnelRuns

  /** No row yet for the device port that is asked for. */
  ghost predicate NewTarget(s: Service, req: CreateReq) {
    forall i :: i in s.rows ==> !TunnelRuns.IsFor(s.rows[i], req)
  }

  /** Only revoked rows of one port are gone, and nothing else changed. */
  ghost predicate OnlyInactiveGone(before: Table, after: Table, port: int) {
    forall i :: i in before ==>
      if i in after then after[i] == before[i] else before[i].status == REVOKED && before[i].publicPort == port
  }

  /** The request names a device and a port, and the device is registered. */
  predicate Acceptable(online: set<Bytes>, req: CreateReq) { req.devid != [] && req.port != 0 && req.devid in online }

  ghost predicate LeastUsable(cfg: Config, rows: Table, busy: set<int>, port: int) {
    && cfg.low <= port <= cfg.high && Usable(rows, busy, port)
    && forall q :: cfg.low <= q < port ==> !Usable(rows, busy, q)
  }

  /** A port can be given out, and the generated tunnel id is not taken. */
  ghost predicate Insertable(cfg: Config, rows: Table, env: Env) {
    exists port :: LeastUsable(cfg, rows, env.busy, port) && IdFree(rows, port, env.uid)
  }

  lemma FirstFreeIsLeastUsable(cfg: Config, s: Service, busy: set<int>)
    requires Inv(s)
    ensures match FirstFree(s, busy + s.listeners, cfg.low, cfg.high)
            case Some(p) => forall port :: LeastUsable(cfg, s.rows, busy, port) <==> port == p
            case None => forall port :: !LeastUsable(cfg, s.rows, busy, port)
  {
    FreePort(s, busy + s.listeners, cfg.low, cfg.high);
    var free := FirstFree(s, busy + s.listeners, cfg.low, cfg.high);
    assert forall q :: Usable(s.rows, busy, q) <==> !Held(s.rows, q) && q !in busy + s.listeners;
    if free.Some? {
      assert Usable(s.rows, busy, free.value);
      assert forall q :: cfg.low <= q < free.value ==> !Usable(s.rows, busy, q);
    } else {
      assert forall q :: cfg.low <= q <= cfg.high ==> !Usable(s.rows, busy, q);
    }
  }

  /** What becomes of a create for a new target: nothing, or a row on the least usable port; and
      exactly when it succeeds, and when it fails only because the port cannot listen. */
  lemma NewTargetOutcome(cfg: Config, s: Service, online: set<Bytes>, request: CreateReq, env: Env) returns (port: int)
    requires Inv(s) && OnTheClock(env.now, cfg.offset)
    requires NewTarget(s, Normalized(cfg, request))
    ensures var req := Normalized(cfg, request);
            var (t, reply) := HandleCreate(cfg, s, online, request, env);
            && (reply.Done? <==> Acceptable(online, req) && Insertable(cfg, s.rows, env) && env.canListen)
            && (reply.NotListening? <==> Acceptable(online, req) && Insertable(cfg, s.rows, env) && !env.canListen)
            && (Acceptable(online, req) && LeastUsable(cfg, s.rows, env.busy, port) ==>
                  port !in s.listeners && t == Establish(cfg, s, req, env, port).0 && reply == Establish(cfg, s, req, env, port).1)
            && (!(Acceptable(online, req) && LeastUsable(cfg, s.rows, env.busy, port)) ==> t == s && !reply.Done?)
  {
    var req := Normalized(cfg, request);
    FreePort(s, env.busy + s.listeners, cfg.low, cfg.high);
    FirstFreeIsLeastUsable(cfg, s, env.busy);
    assert ByDevPort(s, req.devid, req.port, req.proto).None?;
    var free := FirstFree(s, env.busy + s.listeners, cfg.low, cfg.high);
    port := 0;
    if free.Some? {
      port := free.value;
      assert LeastUsable(cfg, s.rows, env.busy, free.value);
      InsertRefusedIffIdTaken(cfg, s, req, env, free.value);
    }
  }

  /** Exactly this row was added: active, for that target, on the least usable port, with a token
      that tells its tunnel id; it is listened for and announced. All other rows stayed, except
      revoked ones of its port. */
  ghost predicate Added(cfg: Config, s: Service, t: Service, req: CreateReq, env: Env, row: Row) {
    && s.nextId !in s.rows && s.nextId in t.rows && t.rows.Keys <= s.rows.Keys + {s.nextId}
    && t.rows[s.nextId] == row && row.status == ACTIVE && TunnelRuns.IsFor(row, req)
    && LeastUsable(cfg, s.rows, env.busy, row.publicPort) && OnlyInactiveGone(s.rows, t.rows, row.publicPort)
    && ParseTokenTunnelID(row.token) == Some(row.tunnelId)
    && t.listeners == s.listeners + {row.publicPort}
    && t.queue == s.queue + [Req(req.devid, BuildTunnelCreate(row.tunnelId, req.port, req.proto))]
  }

  /** No listener and no active row was added; at most revoked rows of the least usable port are gone. */
  ghost predicate NoneAdded(cfg: Config, s: Service, t: Service, env: Env) {
    && t.listeners == s.listeners && t.rows.Keys <= s.rows.Keys + {s.nextId}
    && (s.nextId in t.rows ==> t.rows[s.nextId].status == REVOKED)
    && (t.rows == s.rows || exists port :: LeastUsable(cfg, s.rows, env.busy, port) && OnlyInactiveGone(s.rows, t.rows, port))
  }

  lemma EstablishedRows(cfg: Config, s: Service, req: CreateReq, env: Env, port: int)
    requires Inv(s) && !Held(s.rows, port) && req.duration >= 0 && OnTheClock(env.now, cfg.offset)
    ensures var (t, reply) := Establish(cfg, s, req, env, port);
            && s.nextId !in s.rows && t.rows.Keys <= s.rows.Keys + {s.nextId} && OnlyInactiveGone(s.rows, t.rows, port)
            && t.nextId >= s.nextId
            && (s.nextId in t.rows ==> t.rows[s.nextId].devid == req.devid && t.rows[s.nextId].expire == Expiry(cfg, req, env))
            && (reply.Done? ==> s.nextId in t.rows && t.rows[s.nextId] == NewRow(cfg, req, env, port))
            && (!reply.Done? ==> t.listeners == s.listeners && (s.nextId in t.rows ==> t.rows[s.nextId].status == REVOKED))
  {
    EstablishTells(s, NewRow(cfg, req, env, port), env.canListen);
    InsertRefusedIffIdTaken(cfg, s, req, env, port);
  }

  lemma Established(cfg: Config, s: Service, req: CreateReq, env: Env, port: int)
    requires Inv(s) && LeastUsable(cfg, s.rows, env.busy, port) && port !in s.listeners
    requires req.duration >= 0 && OnTheClock(env.now, cfg.offset)
    ensures var (t, reply) := Establish(cfg, s, req, env, port);
            match reply
            case Done(row) => row == NewRow(cfg, req, env, port) && Added(cfg, s, t, req, env, row)
            case _ => NoneAdded(cfg, s, t, env)
  {
    EstablishedRows(cfg, s, req, env, port);
    NewRowOk(cfg, req, env, port);
  }

  lemma NewTargetExact(cfg: Config, s: Service, online: set<Bytes>, request: CreateReq, env: Env)
    requires Inv(s) && OnTheClock(env.now, cfg.offset) && NewTarget(s, Normalized(cfg, request))
    ensures var req := Normalized(cfg, request);
            var (t, reply) := HandleCreate(cfg, s, online, request, env);
            && (reply.Done? <==> Acceptable(online, req) && Insertable(cfg, s.rows, env) && env.canListen)
            && match reply
               case Done(row) => row == NewRow(cfg, req, env, row.publicPort) && Added(cfg, s, t, req, env, row)
               case _ => NoneAdded(cfg, s, t, env)
  {
    var req := Normalized(cfg, request);
    var port := NewTargetOutcome(cfg, s, online, request, env);
    if Acceptable(online, req) && LeastUsable(cfg, s.rows, env.busy, port) {
      Established(cfg, s, req, env, port);
    }
  }

  lemma WantedRowIsNew(cfg: Config, request: CreateReq, env: Env, port: int)
    requires OnTheClock(env.now, cfg.offset)
    ensures OnTheClock(DueAt(cfg, request, env), cfg.offset)
    ensures NewRow(cfg, Normalized(cfg, request), env, port) == WantedRow(cfg, request, env, port)
  {
    NormalizedExact(cfg, request, env);
    TunnelIdText(env.uid);
    var req, tunnelId := Normalized(cfg, request), GenTunnelID(env.uid);
    RowFields(req, port, tunnelId, GenAccessToken(env.signature, tunnelId), Expiry(cfg, req, env), FormatDBTime(env.now, cfg.offset));
  }

  /** After any run, a create for a target that has no row succeeds exactly when the request is
      acceptable, a port of the range is usable, the generated id is free and listening works. It
      then adds exactly the row it answers with, which is the one asked for; else it adds none. */
  lemma NewTunnelExact(cfg: Config, es: seq<Event>, request: CreateReq, env: Env)
    requires Legal(cfg, INIT, es) && OnTheClock(env.now, cfg.offset)
    requires forall i :: i in Exec(cfg, INIT, es).svc.rows ==> !Wants(request, Exec(cfg, INIT, es).svc.rows[i])
    ensures var w, req := Exec(cfg, INIT, es), request.(proto := WantedProto(request));
            var (t, reply) := HandleCreate(cfg, w.svc, w.online, request, env);
            && (reply.Done? <==> Acceptable(w.online, request) && Insertable(cfg, w.svc.rows, env) && env.canListen)
            && OnTheClock(DueAt(cfg, request, env), cfg.offset)
            && match reply
               case Done(row) =>
                 row == WantedRow(cfg, request, env, row.publicPort) && Added(cfg, w.svc, t, req, env, row)
               case _ => NoneAdded(cfg, w.svc, t, env)
  {
    Reachable(cfg, INIT, es);
    NormalizedExact(cfg, request, env);
    var w := Exec(cfg, INIT, es);
    NewTargetExact(cfg, w.svc, w.online, request, env);
    var reply := HandleCreate(cfg, w.svc, w.online, request, env).1;
    if reply.Done? {
      WantedRowIsNew(cfg, request, env, reply.row.publicPort);
    }
  }

  ghost predicate Known(s: Service, request: CreateReq) { exists i :: i in s.rows && Wants(request, s.rows[i]) }

  lemma RefusedForNew(cfg: Config, s: Service, online: set<Bytes>, request: CreateReq, env: Env)
    requires Inv(s) && OnTheClock(env.now, cfg.offset) && NewTarget(s, Normalized(cfg, request))
    requires Acceptable(online, Normalized(cfg, request))
    ensures var (t, reply) := HandleCreate(cfg, s, online, request, env);
            && !reply.Invalid? && !reply.Offline? && !reply.NotUpdated?
            && (reply.NoPort? <==> forall p :: !LeastUsable(cfg, s.rows, env.busy, p))
            && (reply.NotCreated? <==> exists p :: LeastUsable(cfg, s.rows, env.busy, p) && !IdFree(s.rows, p, env.uid))
            && (reply.NoPort? ==> t == s)
  {
    var req := Normalized(cfg, request);
    FreePort(s, env.busy + s.listeners, cfg.low, cfg.high);
    FirstFreeIsLeastUsable(cfg, s, env.busy);
    assert ByDevPort(s, req.devid, req.port, req.proto).None?;
    var free := FirstFree(s, env.busy + s.listeners, cfg.low, cfg.high);
    if free.Some? {
      assert LeastUsable(cfg, s.rows, env.busy, free.value);
      InsertRefusedIffIdTaken(cfg, s, req, env, free.value);
    }
  }

  lemma LeastUsableExists(cfg: Config, rows: Table, busy: set<int>, p: int)
    requires cfg.low <= p <= cfg.high && Usable(rows, busy, p)
    ensures exists q :: LeastUsable(cfg, rows, busy, q)
    decreases p - cfg.low
  {
    if LeastUsable(cfg, rows, busy, p) {
    } else {
      var q :| cfg.low <= q < p && Usable(rows, busy, q);
      LeastUsableExists(cfg, rows, busy, q);
    }
  }

  /** Why a create is refused: no device or port is named, the device is not registered, or the target
      has no row and no port of the range is usable. Nothing changes then. An insert fails exactly
      when the generated id is taken, an update never. */
  ghost predicate Refusals(cfg: Config, s: Service, online: set<Bytes>, request: CreateReq, env: Env, t: Service, reply: Reply) {
    && (reply.Invalid? <==> request.devid == [] || request.port == 0)
    && (reply.Offline? <==> request.devid != [] && request.port != 0 && request.devid !in online)
    && (reply.NoPort? <==> Acceptable(online, request) && !Known(s, request)
                           && forall p :: cfg.low <= p <= cfg.high ==> !Usable(s.rows, env.busy, p))
    && (reply.NotCreated? <==> Acceptable(online, request) && !Known(s, request)
                               && exists p :: LeastUsable(cfg, s.rows, env.busy, p) && !IdFree(s.rows, p, env.uid))
    && !reply.NotUpdated?
    && (reply.Invalid? || reply.Offline? || reply.NoPort? ==> t == s)
  }

  lemma KnownRefusals(cfg: Config, s: Service, online: set<Bytes>, request: CreateReq, env: Env, i: nat)
    requires Inv(s) && OnTheClock(env.now, cfg.offset) && Acceptable(online, request) && i in s.rows && Wants(request, s.rows[i])
    ensures var (t, reply) := HandleCreate(cfg, s, online, request, env);
            Refusals(cfg, s, online, request, env, t, reply)
  {
    var req := Normalized(cfg, request);
    NormalizedExact(cfg, request, env);
    TheOnlyRow(s, req, i);
    RefreshKeepsInv(cfg, s, req, env, i);
    RefreshReplies(cfg, s, req, env, i);
  }

  lemma NewRefusals(cfg: Config, s: Service, online: set<Bytes>, request: CreateReq, env: Env)
    requires Inv(s) && OnTheClock(env.now, cfg.offset) && Acceptable(online, request) && !Known(s, request)
    ensures var (t, reply) := HandleCreate(cfg, s, online, request, env);
            Refusals(cfg, s, online, request, env, t, reply)
  {
    NormalizedExact(cfg, request, env);
    RefusedForNew(cfg, s, online, request, env);
    forall p | cfg.low <= p <= cfg.high && Usable(s.rows, env.busy, p)
      ensures exists q :: LeastUsable(cfg, s.rows, env.busy, q)
    {
      LeastUsableExists(cfg, s.rows, env.busy, p);
    }
  }

  /** After any run, these are the reasons for a refusal, and there is no other. */
  lemma RefusedExact(cfg: Config, es: seq<Event>, request: CreateReq, env: Env)
    requires Legal(cfg, INIT, es) && OnTheClock(env.now, cfg.offset)
    ensures var w := Exec(cfg, INIT, es);
            var (t, reply) := HandleCreate(cfg, w.svc, w.online, request, env);
            Refusals(cfg, w.svc, w.online, request, env, t, reply)
  {
    Reachable(cfg, INIT, es);
    var w := Exec(cfg, INIT, es);
    CreateGuards(cfg, w.svc, w.online, request, env);
    if Acceptable(w.online, request) {
      if i :| i in w.svc.rows && Wants(request, w.svc.rows[i]) {
        KnownRefusals(cfg, w.svc, w.online, request, env, i);
      } else {
        NewRefusals(cfg, w.svc, w.online, request, env);
      }
    }
  }

  lemma RefreshReplies(cfg: Config, s: Service, req: CreateReq, env: Env, i: nat)
    requires i in s.rows && req.duration >= 0 && OnTheClock(env.now, cfg.offset)
    ensures var reply := Refresh(cfg, s, req, env, i).1;
            reply.Done? || reply.NotListening? || reply.NotUpdated?
  {
  }

  lemma RevokeOne(s: Service, i: nat, now: Bytes)
    requires Inv(s) && i in s.rows
    ensures ByTunnelId(s, s.rows[i].tunnelId) == Some(i)
    ensures Revoke(s.rows, s.rows[i].tunnelId, now) == s.rows[i := s.rows[i].(status := REVOKED, updated := now)]
  {
    assert forall j :: j in s.rows && j != i ==> Apart(s.rows[j], s.rows[i]);
  }

  /** Deleting a tunnel revokes its one row and touches no other, stops its listener and no other,
      and queues one revoke message, for its device. */
  lemma DeleteExact(cfg: Config, es: seq<Event>, i: nat, at: Instant)
    requires Legal(cfg, INIT, es) && OnTheClock(at, cfg.offset) && i in Exec(cfg, INIT, es).svc.rows
    ensures var s := Exec(cfg, INIT, es).svc;
            var row := s.rows[i];
            var (t, found) := HandleDelete(cfg, s, row.tunnelId, at);
            && found && t.rows == s.rows[i := row.(status := REVOKED, updated := FormatDBTime(at, cfg.offset))]
            && t.listeners == s.listeners - {row.publicPort}
            && t.queue == s.queue + [Req(row.devid, BuildTunnelRevoke(row.tunnelId))]
  {
    Reachable(cfg, INIT, es);
    var s := Exec(cfg, INIT, es).svc;
    RevokeOne(s, i, FormatDBTime(at, cfg.offset));
    DeleteTells(s, i, FormatDBTime(at, cfg.offset));
  }

  /** Deleting a tunnel that has no row changes nothing and says so. */
  lemma DeleteUnknown(cfg: Config, es: seq<Event>, tunnelId: Bytes, at: Instant)
    requires Legal(cfg, INIT, es) && OnTheClock(at, cfg.offset)
    requires forall i :: i in Exec(cfg, INIT, es).svc.rows ==> Exec(cfg, INIT, es).svc.rows[i].tunnelId != tunnelId
    ensures HandleDelete(cfg, Exec(cfg, INIT, es).svc, tunnelId, at) == (Exec(cfg, INIT, es).svc, false)
  {
  }

  // ----- The messages of a sweep -----

  /** The message that tells the device of this row that its tunnel is gone. */
  function RevokeOf(r: Row): Req { Req(r.devid, BuildTunnelRevoke(r.tunnelId)) }

  lemma RevokesDiffer(s: Service, i: nat, j: nat)
    requires Inv(s) && i in s.rows && j in s.rows && i != j
    ensures RevokeOf(s.rows[i]) != RevokeOf(s.rows[j])
  {
    assert Apart(s.rows[i], s.rows[j]);
    TrimField(s.rows[i].tunnelId, 64);
    TrimField(s.rows[j].tunnelId, 64);
  }

  ghost predicate Revokes(rows: Table, ids: seq<nat>, online: set<Bytes>, m: Req)
    requires forall i :: i in ids ==> i in rows
  {
    exists i :: i in ids && rows[i].devid in online && m == RevokeOf(rows[i])
  }

  lemma RevokesOneMore(rows: Table, ids: seq<nat>, online: set<Bytes>, m: Req)
    requires ids != [] && forall i :: i in ids ==> i in rows
    ensures var front, last := ids[..|ids| - 1], rows[ids[|ids| - 1]];
            Revokes(rows, ids, online, m) <==> Revokes(rows, front, online, m) || (last.devid in online && m == RevokeOf(last))
  {
    assert forall i :: i in ids <==> i in ids[..|ids| - 1] || i == ids[|ids| - 1];
  }

  lemma LastRevokesAnew(s: Service, ids: seq<nat>, online: set<Bytes>)
    requires Inv(s) && ids != [] && (forall i :: i in ids ==> i in s.rows) && forall j, k :: 0 <= j < k < |ids| ==> ids[j] != ids[k]
    ensures !Revokes(s.rows, ids[..|ids| - 1], online, RevokeOf(s.rows[ids[|ids| - 1]]))
  {
    forall i | i in ids[..|ids| - 1] ensures RevokeOf(s.rows[i]) != RevokeOf(s.rows[ids[|ids| - 1]]) {
      RevokesDiffer(s, i, ids[|ids| - 1]);
    }
  }

  lemma {:induction false} RevocationsExact(s: Service, ids: seq<nat>, online: set<Bytes>)
    requires Inv(s) && (forall i :: i in ids ==> i in s.rows) && forall j, k :: 0 <= j < k < |ids| ==> ids[j] != ids[k]
    ensures var ms := Revocations(s.rows, ids, online);
            && (forall m :: m in ms <==> Revokes(s.rows, ids, online, m))
            && (forall j, k :: 0 <= j < k < |ms| ==> ms[j] != ms[k])
    decreases ids
  {
    if ids == [] {
    } else {
      var front := ids[..|ids| - 1];
      RevocationsExact(s, front, online);
      LastRevokesAnew(s, ids, online);
      var before, ms := Revocations(s.rows, front, online), Revocations(s.rows, ids, online);
      forall m ensures m in ms <==> Revokes(s.rows, ids, online, m) {
        assert m in before <==> Revokes(s.rows, front, online, m);
        RevokesOneMore(s.rows, ids, online, m);
      }
    }
  }

  /** After any run, a sweep queues exactly one revoke message for each row that it deactivates and
      whose device is registered, for that device, and no other. */
  lemma SweepQueuesExactly(cfg: Config, es: seq<Event>, at: Instant)
    requires Legal(cfg, INIT, es) && OnTheClock(at, cfg.offset)
    ensures var w, now := Exec(cfg, INIT, es), FormatDBTime(at, cfg.offset);
            var t := Sweep(cfg, w.svc, w.online, at);
            && w.svc.queue <= t.queue
            && var ms := t.queue[|w.svc.queue|..];
               && (forall m :: m in ms <==> exists i :: i in w.svc.rows && IsExpired(w.svc.rows[i], now)
                                                        && w.svc.rows[i].devid in w.online && m == RevokeOf(w.svc.rows[i]))
               && (forall j, k :: 0 <= j < k < |ms| ==> ms[j] != ms[k])
  {
    Reachable(cfg, INIT, es);
    var w, now := Exec(cfg, INIT, es), FormatDBTime(at, cfg.offset);
    var ids := ExpiredIds(w.svc.rows, w.svc.nextId, now);
    assert forall i :: i in ids <==> i in w.svc.rows && IsExpired(w.svc.rows[i], now);
    RevocationsExact(w.svc, ids, w.online);
    forall m ensures m in Revocations(w.svc.rows, ids, w.online)
                     <==> exists i :: i in w.svc.rows && IsExpired(w.svc.rows[i], now) && w.svc.rows[i].devid in w.online && m == RevokeOf(w.svc.rows[i])
    {
      assert Revokes(w.svc.rows, ids, w.online, m) <==> m in Revocations(w.svc.rows, ids, w.online);
    }
    assert Sweep(cfg, w.svc, w.online, at).queue[|w.svc.queue|..] == Revocations(w.svc.rows, ids, w.online);
  }
}
