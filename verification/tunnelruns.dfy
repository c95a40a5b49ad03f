/** Whole runs of the tunnel service together with its devices: the FIFO queue is drained by
    the broker into each registered device's client, which handles messages in arrival order. */
module TunnelRuns {
  import opened ByteStrings
  import opened DbTime
  import opened AccessTokens
  import opened TunnelMessages
  import opened TunnelClient
  import opened Tunnels

  /** `lost` holds the devices that were ever disconnected, or were ever sent a message too
      long for a frame: about their clients nothing is claimed. */
  datatype World = World(svc: Service, online: set<Bytes>, clients: map<Bytes, Targets>, lost: set<Bytes>)

  const INIT := World(EMPTY, {}, map[], {})

  datatype Event =
    | Create(request: CreateReq, env: Env)
    | Delete(tunnelId: Bytes, at: Instant)
    | Expire(at: Instant)
    | Up(devid: Bytes)
    | Down(devid: Bytes)
    | Deliver

  predicate Enabled(cfg: Config, w: World, e: Event) {
    match e
    case Create(_, env) => OnTheClock(env.now, cfg.offset)
    case Delete(_, at) => OnTheClock(at, cfg.offset)
    case Expire(at) => OnTheClock(at, cfg.offset)
    case Up(devid) => devid !in w.online
    case Down(_) => true
    case Deliver => w.svc.queue != []
  }

  function ApplyReq(tunnels: Targets, data: Bytes): Targets {
    if |data| <= 0xFFFF then Apply(tunnels, data) else tunnels
  }

  /** The broker's `httpReq` case: the head of the queue goes to its device, if registered. */
  function DeliverHead(w: World): World
    requires w.svc.queue != []
  {
    var r := w.svc.queue[0];
    var w1 := w.(svc := w.svc.(queue := w.svc.queue[1..]));
    if r.devid in w.online && r.devid in w.clients
    then w1.(clients := w.clients[r.devid := ApplyReq(w.clients[r.devid], r.data)])
    else w1
  }

  function Step(cfg: Config, w: World, e: Event): World
    requires Enabled(cfg, w, e)
  {
    match e
    case Create(request, env) =>
      w.(svc := HandleCreate(cfg, w.svc, w.online, request, env).0,
         lost := if 67 + |request.proto| > 0xFFFF then w.lost + {request.devid} else w.lost)
    case Delete(tunnelId, at) => w.(svc := HandleDelete(cfg, w.svc, tunnelId, at).0)
    case Expire(at) => w.(svc := Sweep(cfg, w.svc, w.online, at))
    case Up(devid) =>
      w.(online := w.online + {devid},
         clients := w.clients[devid := if devid in w.clients then w.clients[devid] else map[]])
    case Down(devid) => w.(online := w.online - {devid}, lost := w.lost + {devid})
    case Deliver => DeliverHead(w)
  }

  predicate Legal(cfg: Config, w: World, es: seq<Event>)
    decreases es
  {
    es != [] ==> Enabled(cfg, w, es[0]) && Legal(cfg, Step(cfg, w, es[0]), es[1..])
  }

  function Exec(cfg: Config, w: World, es: seq<Event>): World
    requires Legal(cfg, w, es)
    decreases es
  {
    if es == [] then w else Exec(cfg, Step(cfg, w, es[0]), es[1..])
  }

  // ----- What a client will know once the queue is drained -----

  function Pending(tunnels: Targets, queue: seq<Req>, devid: Bytes): Targets
    decreases queue
  {
    if queue == [] then tunnels
    else Pending(if queue[0].devid == devid then ApplyReq(tunnels, queue[0].data) else tunnels, queue[1..], devid)
  }

  lemma {:induction false} PendingAppend(tunnels: Targets, queue: seq<Req>, r: Req, devid: Bytes)
    ensures var before := Pending(tunnels, queue, devid);
            Pending(tunnels, queue + [r], devid) == if r.devid == devid then ApplyReq(before, r.data) else before
    decreases queue
  {
    if queue == [] {
      assert queue + [r] == [r];
      assert [r][1..] == [];
    } else {
      assert (queue + [r])[1..] == queue[1..] + [r];
      PendingAppend(if queue[0].devid == devid then ApplyReq(tunnels, queue[0].data) else tunnels, queue[1..], r, devid);
    }
  }

  /** What the client's table must say about an active row. */
  predicate Known(tunnels: Targets, r: Row) {
    ProtoFits(r.proto) ==>
      r.tunnelId in tunnels && tunnels[r.tunnelId] == Target(r.devicePort % 0x1_0000, r.proto)
  }

  predicate Follows(w: World, r: Row) {
    && r.devid in w.online && r.devid in w.clients
    && Known(Pending(w.clients[r.devid], w.svc.queue, r.devid), r)
  }

  /** Every active row of a device that stayed registered is, or is about to be, known to it. */
  ghost predicate Agree(w: World) {
    forall i :: i in w.svc.rows && w.svc.rows[i].status == ACTIVE && w.svc.rows[i].devid !in w.lost ==>
      Follows(w, w.svc.rows[i])
  }

  lemma ApplyCreate(tunnels: Targets, tunnelId: Bytes, port: int, proto: Bytes)
    requires 67 + |proto| <= 0xFFFF && |tunnelId| <= 64 && NoTrailingNul(tunnelId)
    ensures ApplyReq(tunnels, BuildTunnelCreate(tunnelId, port, proto))
            == if ProtoFits(proto) then tunnels[tunnelId := Target(port % 0x1_0000, proto)] else tunnels
  {
    CreateOutcome(tunnelId, port, proto);
    TrimField(tunnelId, 64);
  }

  lemma ApplyRevoke(tunnels: Targets, tunnelId: Bytes)
    requires |tunnelId| <= 64 && NoTrailingNul(tunnelId)
    ensures ApplyReq(tunnels, BuildTunnelRevoke(tunnelId)) == tunnels - {tunnelId}
  {
    RevokeDispatched(tunnelId);
  }

  /** A message queued for one device does not change what another will know. */
  lemma OthersFollow(w: World, u: World, m: Req, r: Row)
    requires Follows(w, r) && r.devid != m.devid
    requires u.clients == w.clients && u.online == w.online && u.svc.queue == w.svc.queue + [m]
    ensures Follows(u, r)
  {
    PendingAppend(w.clients[r.devid], w.svc.queue, m, r.devid);
  }

  /** A queued create message makes its own row known and leaves the others as they were. */
  lemma CreateQueued(w: World, u: World, tunnelId: Bytes, req: CreateReq, r: Row)
    requires |tunnelId| <= 64 && NoTrailingNul(tunnelId) && 67 + |req.proto| <= 0xFFFF
    requires u.clients == w.clients && u.online == w.online
    requires u.svc.queue == w.svc.queue + [Req(req.devid, BuildTunnelCreate(tunnelId, req.port, req.proto))]
    requires if r.tunnelId == tunnelId then IsFor(r, req) && r.devid in w.online && r.devid in w.clients
             else Follows(w, r)
    ensures Follows(u, r)
  {
    PendingAppend(w.clients[r.devid], w.svc.queue, Req(req.devid, BuildTunnelCreate(tunnelId, req.port, req.proto)), r.devid);
    ApplyCreate(Pending(w.clients[r.devid], w.svc.queue, r.devid), tunnelId, req.port, req.proto);
  }

  predicate IsFor(r: Row, req: CreateReq) { r.devid == req.devid && r.devicePort == req.port && r.proto == req.proto }

  /** The row existed with the same names before, and was active. */
  predicate Carried(rows: Table, i: nat, r: Row) {
    i in rows && rows[i].status == ACTIVE && rows[i].tunnelId == r.tunnelId && SameTarget(rows[i], r)
  }

  /** One create message was queued, for the one tunnel id whose row was written. */
  ghost predicate Announced(s: Service, t: Service, req: CreateReq, tunnelId: Bytes) {
    && |tunnelId| <= 64 && NoTrailingNul(tunnelId)
    && t.queue == s.queue + [Req(req.devid, BuildTunnelCreate(tunnelId, req.port, req.proto))]
    && forall i :: i in t.rows && t.rows[i].status == ACTIVE ==>
         if t.rows[i].tunnelId == tunnelId then IsFor(t.rows[i], req) else Carried(s.rows, i, t.rows[i])
  }

  lemma RefreshQueues(cfg: Config, s: Service, req: CreateReq, env: Env, id: nat)
    requires Inv(s) && id in s.rows && req.duration >= 0 && OnTheClock(env.now, cfg.offset)
    ensures Refresh(cfg, s, req, env, id).0.queue
            == s.queue + [Req(req.devid, BuildTunnelCreate(s.rows[id].tunnelId, req.port, req.proto))]
  {
    UpdateKeepsTable(s.rows, s.nextId, s.rows[id].tunnelId, env.signature, Expiry(cfg, req, env), req.creator,
                     FormatDBTime(env.now, cfg.offset));
    RefreshTells(s, req, env.canListen, id, GenAccessToken(env.signature, s.rows[id].tunnelId), Expiry(cfg, req, env),
                 FormatDBTime(env.now, cfg.offset));
  }

  lemma RefreshAnnounces(cfg: Config, s: Service, req: CreateReq, env: Env, id: nat)
    requires Inv(s) && id in s.rows && IsFor(s.rows[id], req) && req.duration >= 0 && OnTheClock(env.now, cfg.offset)
    ensures Announced(s, Refresh(cfg, s, req, env, id).0, req, s.rows[id].tunnelId)
  {
    RefreshQueues(cfg, s, req, env, id);
    RefreshRow(cfg, s, req, env, id);
    OthersApart(s, id);
    var rows := Refresh(cfg, s, req, env, id).0.rows;
    forall i | i in rows && rows[i].status == ACTIVE
      ensures if rows[i].tunnelId == s.rows[id].tunnelId then IsFor(rows[i], req) else Carried(s.rows, i, rows[i])
    {
      assert i != id ==> rows[i] == s.rows[i];
    }
  }

  lemma EstablishAnnounces(cfg: Config, s: Service, req: CreateReq, env: Env, port: int)
    requires req.duration >= 0 && OnTheClock(env.now, cfg.offset) && TableOk(s.rows, s.nextId)
    ensures var (t, reply) := Establish(cfg, s, req, env, port);
            if reply.NotCreated? then t.queue == s.queue && t.rows == DeleteInactive(s.rows, port)
            else Announced(s, t, req, GenTunnelID(env.uid))
  {
    TunnelIdFits(env.uid);
    var (t, reply) := Establish(cfg, s, req, env, port);
    if !reply.NotCreated? {
      forall i | i in t.rows && t.rows[i].status == ACTIVE
        ensures if t.rows[i].tunnelId == GenTunnelID(env.uid) then IsFor(t.rows[i], req) else Carried(s.rows, i, t.rows[i])
      {
        if i != s.nextId {
          assert i in DeleteInactive(s.rows, port);
        }
      }
    }
  }

  /** Create either queues nothing and activates nothing, or announces one tunnel. */
  lemma CreateEffect(cfg: Config, s: Service, online: set<Bytes>, request: CreateReq, env: Env) returns (tunnelId: Bytes)
    requires Inv(s) && OnTheClock(env.now, cfg.offset)
    ensures var t := HandleCreate(cfg, s, online, request, env).0;
            var req := Normalized(cfg, request);
            || (t.queue == s.queue && forall i :: i in t.rows && t.rows[i].status == ACTIVE ==> Carried(s.rows, i, t.rows[i]))
            || (t.queue != s.queue && req.devid in online && Announced(s, t, req, tunnelId))
  {
    var req := Normalized(cfg, request);
    tunnelId := GenTunnelID(env.uid);
    if req.devid != [] && req.port != 0 && req.devid in online {
      match ByDevPort(s, req.devid, req.port, req.proto)
      case Some(id) =>
        tunnelId := s.rows[id].tunnelId;
        RefreshAnnounces(cfg, s, req, env, id);
      case None =>
        match FirstFree(s, env.busy + s.listeners, cfg.low, cfg.high)
        case None =>
        case Some(port) => EstablishAnnounces(cfg, s, req, env, port);
    }
  }

  lemma CreateKeepsAgree(cfg: Config, w: World, e: Event)
    requires e.Create? && Enabled(cfg, w, e) && Inv(w.svc) && Agree(w) && w.online <= w.clients.Keys
    ensures Agree(Step(cfg, w, e))
  {
    var u, req := Step(cfg, w, e), Normalized(cfg, e.request);
    var tunnelId := CreateEffect(cfg, w.svc, w.online, e.request, e.env);
    forall i | i in u.svc.rows && u.svc.rows[i].status == ACTIVE && u.svc.rows[i].devid !in u.lost
      ensures Follows(u, u.svc.rows[i])
    {
      var r := u.svc.rows[i];
      if u.svc.queue == w.svc.queue || r.tunnelId != tunnelId {
        assert Follows(w, w.svc.rows[i]) && Follows(w, r);
      }
      if u.svc.queue != w.svc.queue {
        if r.devid != req.devid {
          OthersFollow(w, u, Req(req.devid, BuildTunnelCreate(tunnelId, req.port, req.proto)), r);
        } else {
          CreateQueued(w, u, tunnelId, req, r);
        }
      }
    }
  }

  lemma RevokeQueued(w: World, u: World, devid: Bytes, tunnelId: Bytes, r: Row)
    requires |tunnelId| <= 64 && NoTrailingNul(tunnelId)
    requires u.clients == w.clients && u.online == w.online
    requires u.svc.queue == w.svc.queue + [Req(devid, BuildTunnelRevoke(tunnelId))]
    requires r.tunnelId != tunnelId && Follows(w, r)
    ensures Follows(u, r)
  {
    PendingAppend(w.clients[r.devid], w.svc.queue, Req(devid, BuildTunnelRevoke(tunnelId)), r.devid);
    ApplyRevoke(Pending(w.clients[r.devid], w.svc.queue, r.devid), tunnelId);
  }

  lemma DeleteKeepsAgree(cfg: Config, w: World, e: Event)
    requires e.Delete? && Enabled(cfg, w, e) && Inv(w.svc) && Agree(w)
    ensures Agree(Step(cfg, w, e))
  {
    var u := Step(cfg, w, e);
    match ByTunnelId(w.svc, e.tunnelId)
    case None =>
    case Some(id) =>
      forall i | i in u.svc.rows && u.svc.rows[i].status == ACTIVE && u.svc.rows[i].devid !in u.lost
        ensures Follows(u, u.svc.rows[i])
      {
        assert u.svc.rows[i] == w.svc.rows[i] && w.svc.rows[i].tunnelId != e.tunnelId;
        RevokeQueued(w, u, w.svc.rows[id].devid, e.tunnelId, w.svc.rows[i]);
      }
  }

  lemma {:induction false} SweepQueued(w: World, u: World, rows: Table, ids: seq<nat>, r: Row)
    requires forall i :: i in ids ==> i in rows && RowOk(rows[i]) && rows[i].tunnelId != r.tunnelId
    requires u.clients == w.clients && u.online == w.online
    requires u.svc.queue == w.svc.queue + Revocations(rows, ids, w.online)
    requires Follows(w, r)
    ensures Follows(u, r)
    decreases ids
  {
    if ids == [] {
      assert u.svc.queue == w.svc.queue;
    } else {
      var k := |ids| - 1;
      var row := rows[ids[k]];
      var mid := u.(svc := u.svc.(queue := w.svc.queue + Revocations(rows, ids[..k], w.online)));
      SweepQueued(w, mid, rows, ids[..k], r);
      if row.devid in w.online {
        assert u.svc.queue == mid.svc.queue + [Req(row.devid, BuildTunnelRevoke(row.tunnelId))];
        RevokeQueued(mid, u, row.devid, row.tunnelId, r);
      } else {
        assert u.svc.queue == mid.svc.queue;
      }
    }
  }

  lemma SweepKeepsAgree(cfg: Config, w: World, e: Event)
    requires e.Expire? && Enabled(cfg, w, e) && Inv(w.svc) && Agree(w)
    ensures Agree(Step(cfg, w, e))
  {
    var u, text := Step(cfg, w, e), FormatDBTime(e.at, cfg.offset);
    var ids := ExpiredIds(w.svc.rows, w.svc.nextId, text);
    forall i | i in u.svc.rows && u.svc.rows[i].status == ACTIVE && u.svc.rows[i].devid !in u.lost
      ensures Follows(u, u.svc.rows[i])
    {
      assert u.svc.rows[i] == w.svc.rows[i] && i !in ids;
      forall j | j in ids ensures w.svc.rows[j].tunnelId != w.svc.rows[i].tunnelId {
        assert Apart(w.svc.rows[i], w.svc.rows[j]);
      }
      SweepQueued(w, u, w.svc.rows, ids, w.svc.rows[i]);
    }
  }

  ghost predicate WorldInv(w: World) { Inv(w.svc) && w.online <= w.clients.Keys && Agree(w) }

  lemma StepKeepsInv(cfg: Config, w: World, e: Event)
    requires WorldInv(w) && Enabled(cfg, w, e)
    ensures WorldInv(Step(cfg, w, e))
  {
    var u := Step(cfg, w, e);
    match e
    case Create(request, env) =>
      CreateKeepsInv(cfg, w.svc, w.online, request, env);
      CreateKeepsAgree(cfg, w, e);
    case Delete(tunnelId, at) =>
      DeleteKeepsInv(cfg, w.svc, tunnelId, at);
      DeleteKeepsAgree(cfg, w, e);
    case Expire(at) =>
      SweepKeepsInv(cfg, w.svc, w.online, at);
      SweepKeepsAgree(cfg, w, e);
    case _ =>
      forall i | i in u.svc.rows && u.svc.rows[i].status == ACTIVE && u.svc.rows[i].devid !in u.lost
        ensures Follows(u, u.svc.rows[i])
      {
        assert Follows(w, w.svc.rows[i]);
      }
  }

  /** Every reachable state satisfies the table, port, token and agreement invariants. */
  lemma {:induction false} Reachable(cfg: Config, w: World, es: seq<Event>)
    requires WorldInv(w) && Legal(cfg, w, es)
    ensures WorldInv(Exec(cfg, w, es))
    decreases es
  {
    if es == [] {
    } else {
      StepKeepsInv(cfg, w, es[0]);
      Reachable(cfg, Step(cfg, w, es[0]), es[1..]);
    }
  }

  /** Once the queue is drained, the client of a device that stayed registered has every active
      tunnel of that device with the right protocol, and with the right port exactly when the
      port fits the message's 16 bits. */
  lemma DrainedClientAgrees(cfg: Config, es: seq<Event>, i: nat)
    requires Legal(cfg, INIT, es)
    requires var w := Exec(cfg, INIT, es);
             && w.svc.queue == [] && i in w.svc.rows && w.svc.rows[i].status == ACTIVE
             && w.svc.rows[i].devid !in w.lost && ProtoFits(w.svc.rows[i].proto)
    ensures var w := Exec(cfg, INIT, es);
            var r := w.svc.rows[i];
            && r.devid in w.online && r.devid in w.clients && r.tunnelId in w.clients[r.devid]
            && w.clients[r.devid][r.tunnelId].proto == r.proto
            && (w.clients[r.devid][r.tunnelId].port == r.devicePort <==> 0 <= r.devicePort <= 0xFFFF)
  {
    Reachable(cfg, INIT, es);
    var w := Exec(cfg, INIT, es);
    assert Follows(w, w.svc.rows[i]);
  }

  /** A port that can be given out: no active row holds it and nobody else listens on it. */
  predicate Usable(rows: Table, busy: set<int>, port: int) { !Held(rows, port) && port !in busy }

  /** No port leaks: after any run, the allocator returns the least usable port of the range, and
      fails only when there is none; the service's own listeners never stand in the way. */
  lemma AllocationExact(cfg: Config, es: seq<Event>, busy: set<int>)
    requires Legal(cfg, INIT, es)
    ensures var s := Exec(cfg, INIT, es).svc;
            match FirstFree(s, busy + s.listeners, cfg.low, cfg.high)
            case Some(p) =>
              && cfg.low <= p <= cfg.high && Usable(s.rows, busy, p)
              && forall q :: cfg.low <= q < p ==> !Usable(s.rows, busy, q)
            case None => forall q :: cfg.low <= q <= cfg.high ==> !Usable(s.rows, busy, q)
  {
    Reachable(cfg, INIT, es);
    var s := Exec(cfg, INIT, es).svc;
    FreePort(s, busy + s.listeners, cfg.low, cfg.high);
  }

  /** After any run, deleting a tunnel makes its port available again: the next allocation gives
      out that port or a smaller one. */
  lemma DeletedPortReturns(cfg: Config, es: seq<Event>, i: nat, at: Instant, busy: set<int>)
    requires Legal(cfg, INIT, es) && OnTheClock(at, cfg.offset)
    requires var s := Exec(cfg, INIT, es).svc;
             i in s.rows && cfg.low <= s.rows[i].publicPort <= cfg.high && s.rows[i].publicPort !in busy
    ensures var s := Exec(cfg, INIT, es).svc;
            var (t, found) := HandleDelete(cfg, s, s.rows[i].tunnelId, at);
            var free := FirstFree(t, busy + t.listeners, cfg.low, cfg.high);
            found && !Held(t.rows, s.rows[i].publicPort) && free.Some? && free.value <= s.rows[i].publicPort
  {
    Reachable(cfg, INIT, es);
    var s := Exec(cfg, INIT, es).svc;
    var row := s.rows[i];
    assert forall j :: j in s.rows && j != i ==> Apart(s.rows[j], row);
    DeleteKeepsInv(cfg, s, row.tunnelId, at);
    RevokeKeepsInv(s, i, FormatDBTime(at, cfg.offset));
    var t := HandleDelete(cfg, s, row.tunnelId, at).0;
    FreePort(t, busy + t.listeners, cfg.low, cfg.high);
  }

  lemma RefreshRow(cfg: Config, s: Service, req: CreateReq, env: Env, i: nat)
    requires Inv(s) && i in s.rows && req.duration >= 0 && OnTheClock(env.now, cfg.offset)
    ensures var rows := Refresh(cfg, s, req, env, i).0.rows;
            && rows.Keys == s.rows.Keys
            && (forall j :: j in rows && j != i ==> rows[j] == s.rows[j])
            && Renewed(cfg, req, env, s.rows[i], rows[i])
  {
    var row := s.rows[i];
    var expire, now := Expiry(cfg, req, env), FormatDBTime(env.now, cfg.offset);
    UpdateKeepsTable(s.rows, s.nextId, row.tunnelId, env.signature, expire, req.creator, now);
    ParseInvertsGen(env.signature, row.tunnelId);
    UpdatedRow(s.rows, row.tunnelId, GenAccessToken(env.signature, row.tunnelId), expire, req.creator, now, i);
    forall j | j in s.rows && j != i ensures s.rows[j].tunnelId != row.tunnelId {
      assert Apart(s.rows[j], row);
    }
  }

  /** Same tunnel id, target, public port and creation; active, with a new expiry and a token of
      its own. */
  predicate Renewed(cfg: Config, req: CreateReq, env: Env, before: Row, after: Row)
    requires req.duration >= 0 && OnTheClock(env.now, cfg.offset)
  {
    && after == before.(status := ACTIVE, token := after.token, expire := Expiry(cfg, req, env),
                        creator := req.creator, updated := FormatDBTime(env.now, cfg.offset))
    && after.token == GenAccessToken(env.signature, before.tunnelId)
    && ParseTokenTunnelID(after.token) == Some(after.tunnelId)
  }

  lemma RefreshListeners(cfg: Config, s: Service, req: CreateReq, env: Env, k: nat)
    requires Inv(s) && k in s.rows && req.duration >= 0 && OnTheClock(env.now, cfg.offset)
    ensures var port := s.rows[k].publicPort;
            Refresh(cfg, s, req, env, k).0.listeners
            == if port in s.listeners || env.canListen then s.listeners + {port} else s.listeners
  {
    UpdateKeepsTable(s.rows, s.nextId, s.rows[k].tunnelId, env.signature, Expiry(cfg, req, env), req.creator,
                     FormatDBTime(env.now, cfg.offset));
    RefreshTells(s, req, env.canListen, k, GenAccessToken(env.signature, s.rows[k].tunnelId), Expiry(cfg, req, env),
                 FormatDBTime(env.now, cfg.offset));
  }

  lemma RefreshAnswers(cfg: Config, s: Service, req: CreateReq, env: Env, i: nat)
    requires Inv(s) && i in s.rows && req.duration >= 0 && OnTheClock(env.now, cfg.offset)
    ensures Refresh(cfg, s, req, env, i).1.Done? <==> s.rows[i].publicPort in s.listeners || env.canListen
  {
    UpdateKeepsTable(s.rows, s.nextId, s.rows[i].tunnelId, env.signature, Expiry(cfg, req, env), req.creator,
                     FormatDBTime(env.now, cfg.offset));
    RefreshTells(s, req, env.canListen, i, GenAccessToken(env.signature, s.rows[i].tunnelId), Expiry(cfg, req, env),
                 FormatDBTime(env.now, cfg.offset));
  }

  lemma TheOnlyRow(s: Service, req: CreateReq, i: nat)
    requires Inv(s) && i in s.rows && IsFor(s.rows[i], req)
    ensures ByDevPort(s, req.devid, req.port, req.proto) == Some(i)
  {
    assert forall j :: j in s.rows && j != i ==> Apart(s.rows[j], s.rows[i]);
  }

  /** After any run, creating a tunnel for a device port that has a row renews that row and
      touches no other. */
  lemma RefreshKeepsTunnel(cfg: Config, es: seq<Event>, request: CreateReq, env: Env, i: nat)
    requires Legal(cfg, INIT, es) && OnTheClock(env.now, cfg.offset)
    requires var s := Exec(cfg, INIT, es).svc;
             i in s.rows && Wants(request, s.rows[i])
    requires request.port != 0 && request.devid != [] && request.devid in Exec(cfg, INIT, es).online
    ensures var w := Exec(cfg, INIT, es);
            var rows := HandleCreate(cfg, w.svc, w.online, request, env).0.rows;
            && rows.Keys == w.svc.rows.Keys
            && (forall j :: j in rows && j != i ==> rows[j] == w.svc.rows[j])
            && OnTheClock(DueAt(cfg, request, env), cfg.offset)
            && rows[i] == w.svc.rows[i].(status := 1, token := GenAccessToken(env.signature, w.svc.rows[i].tunnelId),
                                         expire := FormatDBTime(DueAt(cfg, request, env), cfg.offset),
                                         creator := request.creator, updated := FormatDBTime(env.now, cfg.offset))
    ensures var w, row := Exec(cfg, INIT, es), Exec(cfg, INIT, es).svc.rows[i];
            var t := HandleCreate(cfg, w.svc, w.online, request, env).0;
            && t.queue == w.svc.queue + [Req(request.devid, BuildTunnelCreate(row.tunnelId, request.port, WantedProto(request)))]
            && t.listeners == if row.publicPort in w.svc.listeners || env.canListen then w.svc.listeners + {row.publicPort} else w.svc.listeners
    ensures var w := Exec(cfg, INIT, es);
            HandleCreate(cfg, w.svc, w.online, request, env).1.Done? <==> w.svc.rows[i].publicPort in w.svc.listeners || env.canListen
  {
    Reachable(cfg, INIT, es);
    var w, req := Exec(cfg, INIT, es), Normalized(cfg, request);
    NormalizedExact(cfg, request, env);
    TheOnlyRow(w.svc, req, i);
    RefreshQueues(cfg, w.svc, req, env, i);
    RefreshListeners(cfg, w.svc, req, env, i);
    RefreshRow(cfg, w.svc, req, env, i);
    RefreshAnswers(cfg, w.svc, req, env, i);
  }

  lemma SweepPorts(cfg: Config, s: Service, online: set<Bytes>, at: Instant, i: nat)
    requires Inv(s) && OnTheClock(at, cfg.offset) && i in s.rows
    ensures var text := FormatDBTime(at, cfg.offset);
            var t := Sweep(cfg, s, online, at);
            if IsExpired(s.rows[i], text) then !Held(t.rows, s.rows[i].publicPort) && s.rows[i].publicPort !in t.listeners
            else s.rows[i].publicPort in s.listeners ==> s.rows[i].publicPort in t.listeners
  {
    var text := FormatDBTime(at, cfg.offset);
    var ids := ExpiredIds(s.rows, s.nextId, text);
    assert forall j :: j in s.rows && j != i ==> Apart(s.rows[i], s.rows[j]);
    if IsExpired(s.rows[i], text) {
      assert i in ids;
    } else {
      assert i !in ids;
    }
  }
}
