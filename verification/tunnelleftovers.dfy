/** What the client of a device knows after a run, exactly: its active tunnels, and those left over
    from creates that announced a tunnel and then could not listen for it. */
module TunnelLeftovers {
  import opened ByteStrings
  import opened DbTime
  import opened TunnelMessages
  import opened TunnelClient
  import opened Tunnels
  import opened TunnelRuns
  import opened TunnelEffects

  // ----- What leaves a tunnel behind at a client, and what takes it away -----

  /** The create of a new tunnel that can do everything but listen on its port. */
  ghost predicate CannotListen(cfg: Config, w: World, request: CreateReq, env: Env) {
    var req := Normalized(cfg, request);
    && Acceptable(w.online, req) && NewTarget(w.svc, req)
    && Insertable(cfg, w.svc.rows, env) && !env.canListen
  }

  /** The event tells this device to open this tunnel, and then the port cannot listen. */
  ghost predicate Leaves(cfg: Config, w: World, e: Event, devid: Bytes, id: Bytes) {
    && e.Create? && CannotListen(cfg, w, e.request, e.env)
    && e.request.devid == devid && GenTunnelID(e.env.uid) == id
    && ProtoFits(Normalized(cfg, e.request).proto)
  }

  ghost predicate RowFor(r: Row, devid: Bytes, id: Bytes) { r.devid == devid && r.tunnelId == id }

  /** A delete that finds the tunnel, or a sweep that takes its row. */
  ghost predicate Clears(cfg: Config, w: World, e: Event, devid: Bytes, id: Bytes)
    requires Enabled(cfg, w, e)
  {
    match e
    case Delete(tunnelId, _) => tunnelId == id && exists i :: i in w.svc.rows && RowFor(w.svc.rows[i], devid, id)
    case Expire(at) =>
      exists i :: i in w.svc.rows && RowFor(w.svc.rows[i], devid, id) && IsExpired(w.svc.rows[i], FormatDBTime(at, cfg.offset))
    case _ => false
  }

  ghost predicate NeverCleared(cfg: Config, w: World, es: seq<Event>, devid: Bytes, id: Bytes)
    requires Legal(cfg, w, es)
    decreases es
  {
    es == [] || (!Clears(cfg, w, es[0], devid, id) && NeverCleared(cfg, Step(cfg, w, es[0]), es[1..], devid, id))
  }

  /** Some event left the tunnel behind, and none has cleared it since. */
  ghost predicate LeftOver(cfg: Config, w: World, es: seq<Event>, devid: Bytes, id: Bytes)
    requires Legal(cfg, w, es)
    decreases es
  {
    && es != []
    && var t := Step(cfg, w, es[0]);
       || LeftOver(cfg, t, es[1..], devid, id)
       || (Leaves(cfg, w, es[0], devid, id) && NeverCleared(cfg, t, es[1..], devid, id))
  }

  /** `CannotListen` is when the handler says so of a new tunnel. */
  lemma CannotListenIffReply(cfg: Config, w: World, request: CreateReq, env: Env)
    requires Inv(w.svc) && OnTheClock(env.now, cfg.offset)
    ensures var req := Normalized(cfg, request);
            CannotListen(cfg, w, request, env)
            <==> HandleCreate(cfg, w.svc, w.online, request, env).1.NotListening? && NewTarget(w.svc, req)
  {
    if NewTarget(w.svc, Normalized(cfg, request)) {
      var _ := NewTargetOutcome(cfg, w.svc, w.online, request, env);
    }
  }

  // ----- The invariant -----

  /** An active tunnel of the device whose create message the client can read. */
  ghost predicate Open(rows: Table, devid: Bytes, id: Bytes) {
    exists i :: i in rows && rows[i].status == ACTIVE && RowFor(rows[i], devid, id) && ProtoFits(rows[i].proto)
  }

  /** Messages and rows are of devices that have registered once; one that was not lost since is
      still registered. */
  ghost predicate Placed(w: World) {
    && (forall m :: m in w.svc.queue ==> m.devid in w.clients)
    && (forall i :: i in w.svc.rows ==> w.svc.rows[i].devid in w.clients)
    && (forall d :: d in w.clients && d !in w.lost ==> d in w.online)
  }

  /** The client knows, or will know, a tunnel exactly when it is open or `kept`. */
  ghost predicate Exact(w: World, devid: Bytes, id: Bytes, kept: bool) {
    && (kept ==> devid in w.clients)
    && (devid in w.clients && devid !in w.lost ==>
          (id in Pending(w.clients[devid], w.svc.queue, devid) <==> Open(w.svc.rows, devid, id) || kept))
  }

  /** Opening and closing concern only rows of this tunnel. */
  lemma OpenSame(before: Table, after: Table, devid: Bytes, id: Bytes)
    requires forall i :: i in before && before[i].status == ACTIVE && RowFor(before[i], devid, id) ==> i in after && after[i] == before[i]
    requires forall i :: i in after && after[i].status == ACTIVE && RowFor(after[i], devid, id) ==> i in before && after[i] == before[i]
    ensures Open(before, devid, id) <==> Open(after, devid, id)
  {
    if Open(before, devid, id) {
      var i :| i in before && before[i].status == ACTIVE && RowFor(before[i], devid, id) && ProtoFits(before[i].proto);
      assert i in after && after[i] == before[i];
    }
  }

  // ----- Create -----

  lemma RefreshOpens(cfg: Config, s: Service, req: CreateReq, env: Env, k: nat, devid: Bytes, id: Bytes)
    requires Inv(s) && k in s.rows && TunnelRuns.IsFor(s.rows[k], req) && req.duration >= 0 && OnTheClock(env.now, cfg.offset)
    ensures var rows := Refresh(cfg, s, req, env, k).0.rows;
            if RowFor(s.rows[k], devid, id) then
              (Open(rows, devid, id) <==> ProtoFits(req.proto)) && (Open(s.rows, devid, id) ==> ProtoFits(req.proto))
            else Open(rows, devid, id) <==> Open(s.rows, devid, id)
  {
    RefreshRow(cfg, s, req, env, k);
    OthersApart(s, k);
    var rows := Refresh(cfg, s, req, env, k).0.rows;
    if RowFor(s.rows[k], devid, id) {
      assert ProtoFits(req.proto) ==> k in rows && RowFor(rows[k], devid, id) && ProtoFits(rows[k].proto);
    } else {
      OpenSame(s.rows, rows, devid, id);
    }
  }

  /** When a row is added under a tunnel id that no active row has, it alone can be open under it. */
  lemma AddedOpens(before: Table, after: Table, k: nat, row: Row, added: bool)
    requires forall i :: i in before && before[i].status == ACTIVE ==> before[i].tunnelId != row.tunnelId
    requires forall i :: i in after && i != k ==> i in before && after[i] == before[i]
    requires if added then row.status == ACTIVE && k in after && after[k] == row else k in after ==> after[k].status != ACTIVE
    ensures Open(after, row.devid, row.tunnelId) <==> added && ProtoFits(row.proto)
    ensures !Open(before, row.devid, row.tunnelId)
  {
    assert added ==> RowFor(after[k], row.devid, row.tunnelId);
  }

  lemma EstablishOpensItsOwn(cfg: Config, s: Service, req: CreateReq, env: Env, port: int)
    requires Inv(s) && !Held(s.rows, port) && req.duration >= 0 && OnTheClock(env.now, cfg.offset)
    requires IdFree(s.rows, port, env.uid)
    ensures var (t, reply) := Establish(cfg, s, req, env, port);
            var id := GenTunnelID(env.uid);
            (Open(t.rows, req.devid, id) <==> reply.Done? && ProtoFits(req.proto)) && !Open(s.rows, req.devid, id)
  {
    EstablishedRows(cfg, s, req, env, port);
    assert forall i :: i in s.rows && s.rows[i].status == ACTIVE ==> i in DeleteInactive(s.rows, port);
    var (t, reply) := Establish(cfg, s, req, env, port);
    AddedOpens(s.rows, t.rows, s.nextId, NewRow(cfg, req, env, port), reply.Done?);
  }

  lemma EstablishOpensNoOther(cfg: Config, s: Service, req: CreateReq, env: Env, port: int, devid: Bytes, id: Bytes)
    requires Inv(s) && !Held(s.rows, port) && req.duration >= 0 && OnTheClock(env.now, cfg.offset)
    requires !(IdFree(s.rows, port, env.uid) && req.devid == devid && GenTunnelID(env.uid) == id)
    ensures Open(Establish(cfg, s, req, env, port).0.rows, devid, id) <==> Open(s.rows, devid, id)
  {
    InsertRefusedIffIdTaken(cfg, s, req, env, port);
    EstablishedRows(cfg, s, req, env, port);
    OpenSame(s.rows, Establish(cfg, s, req, env, port).0.rows, devid, id);
  }

  lemma EstablishOpens(cfg: Config, s: Service, req: CreateReq, env: Env, port: int, devid: Bytes, id: Bytes)
    requires Inv(s) && !Held(s.rows, port) && req.duration >= 0 && OnTheClock(env.now, cfg.offset)
    ensures var (t, reply) := Establish(cfg, s, req, env, port);
            if IdFree(s.rows, port, env.uid) && req.devid == devid && GenTunnelID(env.uid) == id then
              (Open(t.rows, devid, id) <==> reply.Done? && ProtoFits(req.proto)) && !Open(s.rows, devid, id)
            else Open(t.rows, devid, id) <==> Open(s.rows, devid, id)
  {
    if IdFree(s.rows, port, env.uid) && req.devid == devid && GenTunnelID(env.uid) == id {
      EstablishOpensItsOwn(cfg, s, req, env, port);
    } else {
      EstablishOpensNoOther(cfg, s, req, env, port, devid, id);
    }
  }

  /** A create changes what is open, and what is queued, for one tunnel at most: the one announced. */
  lemma CreateOpens(cfg: Config, w: World, e: Event, devid: Bytes, id: Bytes) returns (tunnelId: Bytes)
    requires e.Create? && Enabled(cfg, w, e) && Inv(w.svc)
    ensures var s, t, req := w.svc, Step(cfg, w, e).svc, Normalized(cfg, e.request);
            var announced := t.queue == s.queue + [Req(req.devid, BuildTunnelCreate(tunnelId, req.port, req.proto))];
            && |tunnelId| <= 64 && NoTrailingNul(tunnelId)
            && (announced || t.queue == s.queue)
            && (announced ==> req.devid in w.online)
            && (Leaves(cfg, w, e, devid, id) ==> announced)
            && (if announced && req.devid == devid && tunnelId == id then
                  && (Leaves(cfg, w, e, devid, id) || Open(t.rows, devid, id)) == ProtoFits(req.proto)
                  && (Open(s.rows, devid, id) ==> ProtoFits(req.proto))
                else (Open(t.rows, devid, id) <==> Open(s.rows, devid, id)) && !Leaves(cfg, w, e, devid, id))
  {
    var req, env := Normalized(cfg, e.request), e.env;
    tunnelId := GenTunnelID(env.uid);
    TunnelIdFits(env.uid);
    CannotListenIffReply(cfg, w, e.request, env);
    match ByDevPort(w.svc, req.devid, req.port, req.proto)
    case Some(k) =>
      assert !NewTarget(w.svc, req);
      if Acceptable(w.online, req) {
        tunnelId := w.svc.rows[k].tunnelId;
        RefreshOpens(cfg, w.svc, req, env, k, devid, id);
        RefreshAnnounces(cfg, w.svc, req, env, k);
      }
    case None =>
      FreePort(w.svc, env.busy + w.svc.listeners, cfg.low, cfg.high);
      match FirstFree(w.svc, env.busy + w.svc.listeners, cfg.low, cfg.high)
      case None =>
      case Some(port) =>
        InsertRefusedIffIdTaken(cfg, w.svc, req, env, port);
        EstablishOpens(cfg, w.svc, req, env, port, devid, id);
  }

  lemma CreateExact(cfg: Config, w: World, e: Event, devid: Bytes, id: Bytes, kept: bool)
    requires e.Create? && Enabled(cfg, w, e) && WorldInv(w) && Exact(w, devid, id, kept)
    ensures Exact(Step(cfg, w, e), devid, id, kept || Leaves(cfg, w, e, devid, id))
  {
    var u, req := Step(cfg, w, e), Normalized(cfg, e.request);
    var tunnelId := CreateOpens(cfg, w, e, devid, id);
    if devid in u.clients && devid !in u.lost && u.svc.queue != w.svc.queue {
      var before := Pending(w.clients[devid], w.svc.queue, devid);
      PendingAppend(w.clients[devid], w.svc.queue, Req(req.devid, BuildTunnelCreate(tunnelId, req.port, req.proto)), devid);
      if devid == req.devid {
        ApplyCreate(before, tunnelId, req.port, req.proto);
      }
    }
  }

  // ----- Delete and sweep -----

  lemma DeleteOpens(s: Service, k: nat, now: Bytes, devid: Bytes, id: Bytes)
    requires Inv(s) && k in s.rows
    ensures var row := s.rows[k];
            Open(Revoke(s.rows, row.tunnelId, now), devid, id) <==> Open(s.rows, devid, id) && !RowFor(row, devid, id)
    ensures s.rows[k].tunnelId == id ==>
              (RowFor(s.rows[k], devid, id) <==> exists i :: i in s.rows && RowFor(s.rows[i], devid, id))
  {
    OthersApart(s, k);
    if !RowFor(s.rows[k], devid, id) {
      OpenSame(s.rows, Revoke(s.rows, s.rows[k].tunnelId, now), devid, id);
    }
  }

  lemma DeletedExactly(w: World, u: World, k: nat, now: Bytes, devid: Bytes, id: Bytes, kept: bool)
    requires Inv(w.svc) && Exact(w, devid, id, kept) && k in w.svc.rows
    requires u.clients == w.clients && u.lost == w.lost
    requires var row := w.svc.rows[k];
             && u.svc.rows == Revoke(w.svc.rows, row.tunnelId, now)
             && u.svc.queue == w.svc.queue + [Req(row.devid, BuildTunnelRevoke(row.tunnelId))]
    ensures Exact(u, devid, id, kept && !RowFor(w.svc.rows[k], devid, id))
  {
    var row := w.svc.rows[k];
    DeleteOpens(w.svc, k, now, devid, id);
    if devid in w.clients {
      PendingAppend(w.clients[devid], w.svc.queue, Req(row.devid, BuildTunnelRevoke(row.tunnelId)), devid);
      ApplyRevoke(Pending(w.clients[devid], w.svc.queue, devid), row.tunnelId);
    }
  }

  lemma DeleteExactly(cfg: Config, w: World, e: Event, devid: Bytes, id: Bytes, kept: bool)
    requires e.Delete? && Enabled(cfg, w, e) && Inv(w.svc) && Exact(w, devid, id, kept)
    ensures Exact(Step(cfg, w, e), devid, id, kept && !Clears(cfg, w, e, devid, id))
  {
    match ByTunnelId(w.svc, e.tunnelId)
    case None =>
    case Some(k) =>
      DeleteOpens(w.svc, k, FormatDBTime(e.at, cfg.offset), devid, id);
      DeletedExactly(w, Step(cfg, w, e), k, FormatDBTime(e.at, cfg.offset), devid, id, kept);
  }

  /** A sweep's messages take exactly the tunnels of its rows out of what the client will know. */
  lemma {:induction false} SweptFromClient(tunnels: Targets, queue: seq<Req>, rows: Table, ids: seq<nat>, online: set<Bytes>, devid: Bytes, id: Bytes)
    requires devid in online && forall i :: i in ids ==> i in rows && RowOk(rows[i])
    ensures id in Pending(tunnels, queue + Revocations(rows, ids, online), devid)
            <==> id in Pending(tunnels, queue, devid) && forall k :: k in ids ==> !RowFor(rows[k], devid, id)
    decreases ids
  {
    var sent := queue + Revocations(rows, ids, online);
    if ids == [] {
      assert sent == queue;
    } else {
      var last := |ids| - 1;
      var row, front := rows[ids[last]], queue + Revocations(rows, ids[..last], online);
      SweptFromClient(tunnels, queue, rows, ids[..last], online, devid, id);
      assert forall k :: k in ids <==> k in ids[..last] || k == ids[last];
      if row.devid in online {
        var m := Req(row.devid, BuildTunnelRevoke(row.tunnelId));
        assert sent == front + [m];
        PendingAppend(tunnels, front, m, devid);
        ApplyRevoke(Pending(tunnels, front, devid), row.tunnelId);
      } else {
        assert sent == front;
      }
    }
  }

  lemma SweepOpens(s: Service, now: Bytes, devid: Bytes, id: Bytes)
    requires Inv(s)
    ensures var taken := exists i :: i in s.rows && RowFor(s.rows[i], devid, id) && IsExpired(s.rows[i], now);
            && (taken <==> exists k :: k in ExpiredIds(s.rows, s.nextId, now) && RowFor(s.rows[k], devid, id))
            && (Open(FlipExpired(s.rows, now), devid, id) <==> Open(s.rows, devid, id) && !taken)
  {
    var rows, ids := FlipExpired(s.rows, now), ExpiredIds(s.rows, s.nextId, now);
    assert forall i :: i in ids <==> i in s.rows && IsExpired(s.rows[i], now);
    if k :| k in s.rows && RowFor(s.rows[k], devid, id) && IsExpired(s.rows[k], now) {
      OthersApart(s, k);
      assert k in ids;
    } else {
      OpenSame(s.rows, rows, devid, id);
    }
  }

  lemma SweepExactly(cfg: Config, w: World, e: Event, devid: Bytes, id: Bytes, kept: bool)
    requires e.Expire? && Enabled(cfg, w, e) && Inv(w.svc) && Placed(w) && Exact(w, devid, id, kept)
    ensures Exact(Step(cfg, w, e), devid, id, kept && !Clears(cfg, w, e, devid, id))
  {
    var now := FormatDBTime(e.at, cfg.offset);
    SweepOpens(w.svc, now, devid, id);
    if devid in w.clients && devid !in w.lost {
      SweptFromClient(w.clients[devid], w.svc.queue, w.svc.rows, ExpiredIds(w.svc.rows, w.svc.nextId, now), w.online, devid, id);
    }
  }

  // ----- The queue and the devices -----

  lemma {:induction false} NothingPending(tunnels: Targets, queue: seq<Req>, devid: Bytes)
    requires forall m :: m in queue ==> m.devid != devid
    ensures Pending(tunnels, queue, devid) == tunnels
    decreases queue
  {
    if queue == [] {
    } else {
      assert queue[0] in queue;
      NothingPending(tunnels, queue[1..], devid);
    }
  }

  lemma OtherExactly(cfg: Config, w: World, e: Event, devid: Bytes, id: Bytes, kept: bool)
    requires (e.Up? || e.Down? || e.Deliver?) && Enabled(cfg, w, e) && Placed(w) && Exact(w, devid, id, kept)
    ensures Exact(Step(cfg, w, e), devid, id, kept)
  {
    if e.Up? && devid !in w.clients {
      NothingPending(map[], w.svc.queue, devid);
    }
  }

  lemma CreateRowsPlaced(cfg: Config, w: World, e: Event)
    requires e.Create? && Enabled(cfg, w, e) && Placed(w) && WorldInv(w)
    ensures var rows := HandleCreate(cfg, w.svc, w.online, e.request, e.env).0.rows;
            forall i :: i in rows ==> rows[i].devid in w.clients
  {
    var s, req := w.svc, Normalized(cfg, e.request);
    if Acceptable(w.online, req) {
      match ByDevPort(s, req.devid, req.port, req.proto)
      case Some(k) => RefreshRow(cfg, s, req, e.env, k);
      case None =>
        FreePort(s, e.env.busy + s.listeners, cfg.low, cfg.high);
        var free := FirstFree(s, e.env.busy + s.listeners, cfg.low, cfg.high);
        if free.Some? {
          EstablishedRows(cfg, s, req, e.env, free.value);
        }
    }
  }

  lemma CreatePlaced(cfg: Config, w: World, e: Event)
    requires e.Create? && Enabled(cfg, w, e) && Placed(w) && WorldInv(w)
    ensures Placed(Step(cfg, w, e))
  {
    CreateRowsPlaced(cfg, w, e);
    var _ := CreateOpens(cfg, w, e, [], []);
  }

  lemma StepPlaced(cfg: Config, w: World, e: Event)
    requires Enabled(cfg, w, e) && Placed(w) && WorldInv(w)
    ensures Placed(Step(cfg, w, e))
  {
    match e
    case Create(_, _) => CreatePlaced(cfg, w, e);
    case Delete(_, _) =>
    case Expire(at) =>
      RevocationsPlaced(w, ExpiredIds(w.svc.rows, w.svc.nextId, FormatDBTime(at, cfg.offset)));
    case _ =>
  }

  lemma {:induction false} RevocationsPlaced(w: World, ids: seq<nat>)
    requires Placed(w) && forall i :: i in ids ==> i in w.svc.rows
    ensures forall m :: m in Revocations(w.svc.rows, ids, w.online) ==> m.devid in w.clients
    decreases ids
  {
    if ids == [] {
    } else {
      RevocationsPlaced(w, ids[..|ids| - 1]);
    }
  }

  /** Each event keeps the client exact, adding or clearing at most what the event says. */
  lemma StepExact(cfg: Config, w: World, e: Event, devid: Bytes, id: Bytes, kept: bool)
    requires Enabled(cfg, w, e) && WorldInv(w) && Placed(w) && Exact(w, devid, id, kept)
    ensures Exact(Step(cfg, w, e), devid, id, Leaves(cfg, w, e, devid, id) || (kept && !Clears(cfg, w, e, devid, id)))
  {
    match e
    case Create(_, _) => CreateExact(cfg, w, e, devid, id, kept);
    case Delete(_, _) => DeleteExactly(cfg, w, e, devid, id, kept);
    case Expire(_) => SweepExactly(cfg, w, e, devid, id, kept);
    case _ => OtherExactly(cfg, w, e, devid, id, kept);
  }

  lemma {:induction false} RunExact(cfg: Config, w: World, es: seq<Event>, devid: Bytes, id: Bytes, kept: bool)
    requires Legal(cfg, w, es) && WorldInv(w) && Placed(w) && Exact(w, devid, id, kept)
    ensures Exact(Exec(cfg, w, es), devid, id,
                  LeftOver(cfg, w, es, devid, id) || (kept && NeverCleared(cfg, w, es, devid, id)))
    decreases es
  {
    if es == [] {
    } else {
      StepExact(cfg, w, es[0], devid, id, kept);
      StepPlaced(cfg, w, es[0]);
      StepKeepsInv(cfg, w, es[0]);
      RunExact(cfg, Step(cfg, w, es[0]), es[1..], devid, id,
               Leaves(cfg, w, es[0], devid, id) || (kept && !Clears(cfg, w, es[0], devid, id)));
    }
  }

  /** After any run, once the queue is drained: the client of a device that stayed registered knows
      a tunnel exactly when it is an active one of the device with a readable protocol name, or
      was left over by a create that could not listen and not cleared since. */
  lemma DrainedClientExact(cfg: Config, es: seq<Event>, devid: Bytes, id: Bytes)
    requires Legal(cfg, INIT, es)
    requires var w := Exec(cfg, INIT, es);
             w.svc.queue == [] && devid in w.clients && devid !in w.lost
    ensures var w := Exec(cfg, INIT, es);
            id in w.clients[devid] <==> Open(w.svc.rows, devid, id) || LeftOver(cfg, INIT, es, devid, id)
  {
    RunExact(cfg, INIT, es, devid, id, false);
  }

  /** In an empty service, a create that cannot listen queues its message and leaves nothing open. */
  lemma FirstCreateFails(cfg: Config, w: World, request: CreateReq, env: Env)
    requires w.svc == EMPTY && OnTheClock(env.now, cfg.offset) && !env.canListen
    requires cfg.low <= cfg.high && cfg.low !in env.busy && Acceptable(w.online, Normalized(cfg, request))
    ensures var t := HandleCreate(cfg, w.svc, w.online, request, env).0;
            |t.queue| == 1 && forall devid, id :: !Open(t.rows, devid, id)
    ensures CannotListen(cfg, w, request, env)
  {
    var req := Normalized(cfg, request);
    assert LeastUsable(cfg, w.svc.rows, env.busy, cfg.low) && IdFree(w.svc.rows, cfg.low, env.uid);
    var port := NewTargetOutcome(cfg, w.svc, w.online, request, env);
    FirstFreeIsLeastUsable(cfg, w.svc, env.busy);
    EstablishedRows(cfg, w.svc, req, env, cfg.low);
  }

  lemma ThreeSteps(cfg: Config, w: World, a: Event, b: Event, c: Event, devid: Bytes, id: Bytes)
    requires Enabled(cfg, w, a) && Enabled(cfg, Step(cfg, w, a), b) && Enabled(cfg, Step(cfg, Step(cfg, w, a), b), c)
    requires Leaves(cfg, Step(cfg, w, a), b, devid, id) && c.Deliver?
    ensures Legal(cfg, w, [a, b, c]) && Exec(cfg, w, [a, b, c]) == Step(cfg, Step(cfg, Step(cfg, w, a), b), c)
    ensures LeftOver(cfg, w, [a, b, c], devid, id)
  {
    assert [a, b, c][1..] == [b, c] && [b, c][1..] == [c] && [c][1..] == [];
    var t := Step(cfg, w, a);
    var u := Step(cfg, t, b);
    assert Legal(cfg, u, [c]) && Legal(cfg, t, [b, c]);
    assert Exec(cfg, u, [c]) == Step(cfg, u, c) && Exec(cfg, t, [b, c]) == Exec(cfg, u, [c]);
    assert NeverCleared(cfg, u, [c], devid, id);
    assert LeftOver(cfg, t, [b, c], devid, id);
  }

  /** Clients do know tunnels that have no active row: it takes one device, one create whose port
      cannot listen, and the delivery of its message. */
  lemma LeftOverIsReachable(cfg: Config, request: CreateReq, env: Env)
    requires OnTheClock(env.now, cfg.offset) && !env.canListen
    requires cfg.low <= cfg.high && cfg.low !in env.busy
    requires request.devid != [] && request.port != 0 && ProtoFits(Normalized(cfg, request).proto)
    ensures var es, id := [Up(request.devid), Create(request, env), Deliver], GenTunnelID(env.uid);
            && Legal(cfg, INIT, es)
            && var w := Exec(cfg, INIT, es);
               && w.svc.queue == [] && request.devid in w.clients && request.devid !in w.lost
               && id in w.clients[request.devid] && !Open(w.svc.rows, request.devid, id)
               && LeftOver(cfg, INIT, es, request.devid, id)
  {
    var devid, id := request.devid, GenTunnelID(env.uid);
    var up := Step(cfg, INIT, Up(devid));
    FirstCreateFails(cfg, up, request, env);
    ThreeSteps(cfg, INIT, Up(devid), Create(request, env), Deliver, devid, id);
    DrainedClientExact(cfg, [Up(devid), Create(request, env), Deliver], devid, id);
  }
}
