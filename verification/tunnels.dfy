/** The tunnel service: the table with its UNIQUE columns, the listening proxy ports, the queue
    of messages to devices, and what create, refresh, delete and the expiry sweep do to them. */
module Tunnels {
  import opened ByteStrings
  import opened AccessTokens
  import opened DbTime
  import opened TunnelMessages

  datatype Row = Row(
    tunnelId: Bytes, devid: Bytes, devicePort: int, proto: Bytes, publicPort: int, token: Bytes,
    expire: Bytes, status: int, creator: Bytes, created: Bytes, updated: Bytes)

  const REVOKED := 0
  const ACTIVE := 1

  /** Rows by primary key, which only ever counts up. */
  type Table = map<nat, Row>

  /** `httpReq`: bytes for a device, queued for the broker. */
  datatype Req = Req(devid: Bytes, data: Bytes)

  datatype Service = Service(rows: Table, nextId: nat, listeners: set<int>, queue: seq<Req>)

  const EMPTY := Service(map[], 0, {}, [])

  datatype Config = Config(low: int, high: int, defaultDuration: nat, offset: int)

  datatype CreateReq = CreateReq(devid: Bytes, port: int, proto: Bytes, duration: int, creator: Bytes)

  /** What one request meets: the clock, a fresh unique id, the HMAC's result, the ports other
      programs hold, and whether listening on a new port works. */
  datatype Env = Env(now: Instant, uid: UniqueId, signature: Signature, busy: set<int>, canListen: bool)

  datatype Reply = Invalid | Offline | NotUpdated | NoPort | NotCreated | NotListening | Done(row: Row)

  function GenTunnelID(uid: UniqueId): Bytes { Ascii("tun-") + uid[..12] }

  // ----- Queries -----

  /** The first row, by primary key below `n`, that a WHERE clause selects. */
  function First(rows: Table, n: nat, where: Row -> bool): (id: Option<nat>)
    ensures id.Some? ==> id.value < n && id.value in rows && where(rows[id.value])
    ensures id.None? ==> forall i :: 0 <= i < n && i in rows ==> !where(rows[i])
  {
    if n == 0 then None
    else match First(rows, n - 1, where)
      case Some(i) => Some(i)
      case None => if n - 1 in rows && where(rows[n - 1]) then Some(n - 1) else None
  }

  /** `GetTunnelByDevPort`. At most one row can match, so the ORDER BY has nothing to order. */
  function ByDevPort(s: Service, devid: Bytes, port: int, proto: Bytes): Option<nat> {
    First(s.rows, s.nextId, (r: Row) => r.devid == devid && r.devicePort == port && r.proto == proto)
  }

  function ByTunnelId(s: Service, tunnelId: Bytes): Option<nat> {
    First(s.rows, s.nextId, (r: Row) => r.tunnelId == tunnelId)
  }

  function IsPortUsed(s: Service, port: int): bool {
    First(s.rows, s.nextId, (r: Row) => r.publicPort == port && r.status == ACTIVE).Some?
  }

  /** Primary keys below `n` of the active rows whose expiry is at most `now`, as text. */
  function ExpiredIds(rows: Table, n: nat, now: Bytes): (ids: seq<nat>)
    ensures forall i :: i in ids <==> i < n && i in rows && IsExpired(rows[i], now)
    ensures forall j, k :: 0 <= j < k < |ids| ==> ids[j] < ids[k]
  {
    if n == 0 then []
    else
      var ids := ExpiredIds(rows, n - 1, now);
      assert forall j :: 0 <= j < |ids| ==> ids[j] in ids;
      if n - 1 in rows && IsExpired(rows[n - 1], now) then ids + [n - 1] else ids
  }

  predicate IsExpired(r: Row, now: Bytes) { r.status == ACTIVE && TextAtMost(r.expire, now) }

  // ----- Changes to the table -----

  /** INSERT, refused when a UNIQUE column repeats. */
  function Insert(rows: Table, id: nat, row: Row): Option<Table> {
    if Conflicts(rows, row) then None else Some(rows[id := row])
  }

  predicate Conflicts(rows: Table, row: Row) {
    exists i :: i in rows && (rows[i].tunnelId == row.tunnelId || rows[i].publicPort == row.publicPort || rows[i].token == row.token)
  }

  /** `UpdateTunnelByID`, refused when another row already has the token. */
  function Update(rows: Table, tunnelId: Bytes, token: Bytes, expire: Bytes, creator: Bytes, now: Bytes): Option<Table> {
    if exists i :: i in rows && rows[i].tunnelId != tunnelId && rows[i].token == token then None
    else Some(map i | i in rows :: if rows[i].tunnelId == tunnelId
                                   then rows[i].(token := token, expire := expire, status := ACTIVE, creator := creator, updated := now)
                                   else rows[i])
  }

  function Revoke(rows: Table, tunnelId: Bytes, now: Bytes): Table {
    map i | i in rows :: if rows[i].tunnelId == tunnelId then rows[i].(status := REVOKED, updated := now) else rows[i]
  }

  /** `DeleteInactiveTunnelByPublicPort`. */
  function DeleteInactive(rows: Table, port: int): Table {
    map i | i in rows && !(rows[i].publicPort == port && rows[i].status != ACTIVE) :: rows[i]
  }

  /** The UPDATE of `CleanExpiredTunnels`. */
  function FlipExpired(rows: Table, now: Bytes): Table {
    map i | i in rows :: if IsExpired(rows[i], now) then rows[i].(status := REVOKED, updated := now) else rows[i]
  }

  // ----- Ports -----

  /** `AllocatePort`'s scan: the first candidate that no active row holds and that can be probed. */
  function FirstFree(s: Service, taken: set<int>, candidate: int, high: int): Option<int>
    decreases high - candidate
  {
    if candidate > high then None
    else if !IsPortUsed(s, candidate) && candidate !in taken then Some(candidate)
    else FirstFree(s, taken, candidate + 1, high)
  }

  /** `StartTunnelProxyServer`: a port that already listens is reused. */
  function StartProxy(listeners: set<int>, port: int, canListen: bool): Option<set<int>> {
    if port in listeners then Some(listeners) else if canListen then Some(listeners + {port}) else None
  }

  // ----- Handlers -----

  function Normalized(cfg: Config, req: CreateReq): CreateReq {
    req.(proto := if req.proto == [] then Ascii("http") else req.proto,
         duration := if req.duration <= 0 then cfg.defaultDuration else req.duration)
  }

  /** What a request asks for: a row of this device, port and protocol, "http" if it names none. */
  function WantedProto(request: CreateReq): Bytes {
    if request.proto == [] then [104, 116, 116, 112] else request.proto
  }

  predicate Wants(request: CreateReq, r: Row) {
    r.devid == request.devid && r.devicePort == request.port && r.proto == WantedProto(request)
  }

  /** When a tunnel that is created or renewed now is to expire: after the duration asked for, or the
      default one if that is not positive. */
  function DueAt(cfg: Config, request: CreateReq, env: Env): Instant {
    env.now + (if request.duration <= 0 then cfg.defaultDuration else request.duration) * SECOND
  }

  lemma NormalizedFields(cfg: Config, request: CreateReq)
    ensures var req := Normalized(cfg, request);
            && req.duration == (if request.duration <= 0 then cfg.defaultDuration else request.duration)
            && req.proto == WantedProto(request)
            && req.devid == request.devid && req.port == request.port && req.creator == request.creator
  {
    HttpText();
  }

  lemma NormalizedExact(cfg: Config, request: CreateReq, env: Env)
    requires OnTheClock(env.now, cfg.offset)
    ensures var req := Normalized(cfg, request);
            && req.devid == request.devid && req.port == request.port && req.creator == request.creator
            && req.proto == WantedProto(request)
            && OnTheClock(DueAt(cfg, request, env), cfg.offset)
            && Expiry(cfg, req, env) == FormatDBTime(DueAt(cfg, request, env), cfg.offset)
  {
    NormalizedFields(cfg, request);
  }

  lemma HttpText()
    ensures Ascii("http") == [104, 116, 116, 112]
  {
  }

  lemma TunText()
    ensures Ascii("tun-") == [116, 117, 110, 45]
  {
  }

  /** The row a new tunnel is to get. */
  function WantedRow(cfg: Config, request: CreateReq, env: Env, port: int): Row
    requires OnTheClock(env.now, cfg.offset) && OnTheClock(DueAt(cfg, request, env), cfg.offset)
  {
    var tunnelId, now := [116, 117, 110, 45] + env.uid[..12], FormatDBTime(env.now, cfg.offset);
    Row(tunnelId, request.devid, request.port, WantedProto(request), port, GenAccessToken(env.signature, tunnelId),
        FormatDBTime(DueAt(cfg, request, env), cfg.offset), 1, request.creator, now, now)
  }

  function Expiry(cfg: Config, req: CreateReq, env: Env): Bytes
    requires req.duration >= 0 && OnTheClock(env.now, cfg.offset)
  {
    FormatDBTime(env.now + req.duration * SECOND, cfg.offset)
  }

  /** A row is updated and announced, and its port started. */
  function RefreshWith(s: Service, req: CreateReq, canListen: bool, id: nat, token: Bytes, expire: Bytes, now: Bytes): (Service, Reply)
    requires id in s.rows
  {
    var row := s.rows[id];
    match Update(s.rows, row.tunnelId, token, expire, req.creator, now)
    case None => (s, NotUpdated)
    case Some(rows) =>
      var s1 := s.(rows := rows, queue := s.queue + [Req(req.devid, BuildTunnelCreate(row.tunnelId, req.port, req.proto))]);
      match StartProxy(s.listeners, row.publicPort, canListen)
      case None => (s1, NotListening)
      case Some(listeners) => (s1.(listeners := listeners), Done(rows[id]))
  }

  /** The branch of `handleTunnelCreate` for a device port that already has a row. */
  function Refresh(cfg: Config, s: Service, req: CreateReq, env: Env, id: nat): (Service, Reply)
    requires id in s.rows && req.duration >= 0 && OnTheClock(env.now, cfg.offset)
  {
    RefreshWith(s, req, env.canListen, id, GenAccessToken(env.signature, s.rows[id].tunnelId), Expiry(cfg, req, env),
                FormatDBTime(env.now, cfg.offset))
  }

  function RowWith(req: CreateReq, port: int, tunnelId: Bytes, token: Bytes, expire: Bytes, now: Bytes): Row {
    Row(tunnelId, req.devid, req.port, req.proto, port, token, expire, ACTIVE, req.creator, now, now)
  }

  function NewRow(cfg: Config, req: CreateReq, env: Env, port: int): Row
    requires req.duration >= 0 && OnTheClock(env.now, cfg.offset)
  {
    var tunnelId := GenTunnelID(env.uid);
    RowWith(req, port, tunnelId, GenAccessToken(env.signature, tunnelId), Expiry(cfg, req, env), FormatDBTime(env.now, cfg.offset))
  }

  /** A row is inserted in the place of revoked ones of its port, announced, and its port started. */
  function EstablishRow(s: Service, row: Row, canListen: bool): (Service, Reply) {
    var rows := DeleteInactive(s.rows, row.publicPort);
    match Insert(rows, s.nextId, row)
    case None => (s.(rows := rows), NotCreated)
    case Some(inserted) =>
      var s1 := Service(inserted, s.nextId + 1, s.listeners,
                        s.queue + [Req(row.devid, BuildTunnelCreate(row.tunnelId, row.devicePort, row.proto))]);
      match StartProxy(s.listeners, row.publicPort, canListen)
      case None => (s1.(rows := Revoke(inserted, row.tunnelId, row.created)), NotListening)
      case Some(listeners) => (s1.(listeners := listeners), Done(row))
  }

  /** Its other branch, once a port is allocated. */
  function Establish(cfg: Config, s: Service, req: CreateReq, env: Env, port: int): (Service, Reply)
    requires req.duration >= 0 && OnTheClock(env.now, cfg.offset)
  {
    EstablishRow(s, NewRow(cfg, req, env, port), env.canListen)
  }

  /** `handleTunnelCreate`. */
  function HandleCreate(cfg: Config, s: Service, online: set<Bytes>, request: CreateReq, env: Env): (Service, Reply)
    requires OnTheClock(env.now, cfg.offset)
  {
    var req := Normalized(cfg, request);
    if req.devid == [] || req.port == 0 then (s, Invalid)
    else if req.devid !in online then (s, Offline)
    else match ByDevPort(s, req.devid, req.port, req.proto)
      case Some(id) => Refresh(cfg, s, req, env, id)
      case None =>
        match FirstFree(s, env.busy + s.listeners, cfg.low, cfg.high)
        case None => (s, NoPort)
        case Some(port) => Establish(cfg, s, req, env, port)
  }

  function DeleteRow(s: Service, id: nat, now: Bytes): Service
    requires id in s.rows
  {
    var row := s.rows[id];
    s.(rows := Revoke(s.rows, row.tunnelId, now),
       listeners := s.listeners - {row.publicPort},
       queue := s.queue + [Req(row.devid, BuildTunnelRevoke(row.tunnelId))])
  }

  /** `handleTunnelDelete`; the result says whether the tunnel was found. */
  function HandleDelete(cfg: Config, s: Service, tunnelId: Bytes, now: Instant): (Service, bool)
    requires OnTheClock(now, cfg.offset)
  {
    match ByTunnelId(s, tunnelId)
    case None => (s, false)
    case Some(id) => (DeleteRow(s, id, FormatDBTime(now, cfg.offset)), true)
  }

  function Ports(rows: Table, ids: seq<nat>): set<int>
    requires forall i :: i in ids ==> i in rows
  {
    set i | i in ids :: rows[i].publicPort
  }

  /** The revoke messages of a sweep: one for each row whose device is registered. */
  function Revocations(rows: Table, ids: seq<nat>, online: set<Bytes>): seq<Req>
    requires forall i :: i in ids ==> i in rows
  {
    if ids == [] then []
    else
      var id := ids[|ids| - 1];
      Revocations(rows, ids[..|ids| - 1], online)
      + if rows[id].devid in online then [Req(rows[id].devid, BuildTunnelRevoke(rows[id].tunnelId))] else []
  }

  /** One round of `startTunnelCleanupScheduler`. */
  function Sweep(cfg: Config, s: Service, online: set<Bytes>, now: Instant): Service
    requires OnTheClock(now, cfg.offset)
  {
    var text := FormatDBTime(now, cfg.offset);
    var expired := ExpiredIds(s.rows, s.nextId, text);
    s.(rows := FlipExpired(s.rows, text),
       listeners := s.listeners - Ports(s.rows, expired),
       queue := s.queue + Revocations(s.rows, expired, online))
  }

  // ----- What each change leaves -----

  lemma UpdatedRow(rows: Table, tunnelId: Bytes, token: Bytes, expire: Bytes, creator: Bytes, now: Bytes, i: nat)
    requires i in rows && Update(rows, tunnelId, token, expire, creator, now).Some?
    ensures var r, t := rows[i], Update(rows, tunnelId, token, expire, creator, now).value;
            && t.Keys == rows.Keys && (r.tunnelId != tunnelId ==> t[i] == r)
            && (r.tunnelId == tunnelId ==>
                  && t[i].token == token && t[i].expire == expire && t[i].creator == creator && t[i].updated == now
                  && t[i].status == 1 && t[i].tunnelId == tunnelId && t[i].publicPort == r.publicPort
                  && SameTarget(t[i], r) && t[i].created == r.created)
  {
  }

  lemma FlippedRow(rows: Table, now: Bytes, i: nat)
    requires i in rows
    ensures var t := FlipExpired(rows, now);
            t.Keys == rows.Keys && t[i] == if IsExpired(rows[i], now) then rows[i].(status := 0, updated := now) else rows[i]
  {
  }

  /** Requests without a device or a port, or for a device that is not registered, change nothing. */
  lemma CreateGuards(cfg: Config, s: Service, online: set<Bytes>, request: CreateReq, env: Env)
    requires OnTheClock(env.now, cfg.offset)
    ensures request.devid == [] || request.port == 0 ==> HandleCreate(cfg, s, online, request, env) == (s, Invalid)
    ensures request.devid != [] && request.port != 0 && request.devid !in online ==>
              HandleCreate(cfg, s, online, request, env) == (s, Offline)
  {
    NormalizedFields(cfg, request);
  }

  lemma RowFields(req: CreateReq, port: int, tunnelId: Bytes, token: Bytes, expire: Bytes, now: Bytes)
    ensures var r := RowWith(req, port, tunnelId, token, expire, now);
            && r.tunnelId == tunnelId && r.token == token && r.expire == expire && r.created == now && r.updated == now
            && r.devid == req.devid && r.devicePort == req.port && r.proto == req.proto && r.publicPort == port
            && r.status == 1 && r.creator == req.creator
  {
  }

  lemma TunnelIdText(uid: UniqueId)
    ensures GenTunnelID(uid) == [116, 117, 110, 45] + uid[..12]
  {
    TunText();
  }

  /** A new tunnel is announced; one that cannot listen is revoked before the answer. */
  lemma EstablishTells(s: Service, row: Row, canListen: bool)
    requires row.publicPort !in s.listeners
    ensures var (t, reply) := EstablishRow(s, row, canListen);
            && (reply.NotListening? || reply.Done? ==>
                  && t.queue == s.queue + [Req(row.devid, BuildTunnelCreate(row.tunnelId, row.devicePort, row.proto))]
                  && s.nextId in t.rows && t.rows[s.nextId].status == (if canListen then row.status else 0)
                  && (reply.Done? <==> canListen)
                  && t.listeners == if canListen then s.listeners + {row.publicPort} else s.listeners)
            && (reply.NotCreated? ==> t.queue == s.queue && t.listeners == s.listeners)
  {
  }

  lemma RefreshTells(s: Service, req: CreateReq, canListen: bool, id: nat, token: Bytes, expire: Bytes, now: Bytes)
    requires id in s.rows
    ensures var (t, reply) := RefreshWith(s, req, canListen, id, token, expire, now);
            var port := s.rows[id].publicPort;
            !reply.NotUpdated? ==>
              && t.queue == s.queue + [Req(req.devid, BuildTunnelCreate(s.rows[id].tunnelId, req.port, req.proto))]
              && t.listeners == (if port in s.listeners || canListen then s.listeners + {port} else s.listeners)
              && (reply.Done? <==> port in s.listeners || canListen)
  {
  }

  /** A delete that finds its tunnel tells the device and stops the port. */
  lemma DeleteTells(s: Service, id: nat, now: Bytes)
    requires id in s.rows
    ensures var t := DeleteRow(s, id, now);
            && t.listeners == s.listeners - {s.rows[id].publicPort}
            && t.queue == s.queue + [Req(s.rows[id].devid, BuildTunnelRevoke(s.rows[id].tunnelId))]
            && t.rows == Revoke(s.rows, s.rows[id].tunnelId, now)
  {
  }

  // ----- The invariant -----

  predicate SameTarget(r: Row, q: Row) { r.devid == q.devid && r.devicePort == q.devicePort && r.proto == q.proto }

  predicate Apart(r: Row, q: Row) {
    r.tunnelId != q.tunnelId && r.publicPort != q.publicPort && r.token != q.token && !SameTarget(r, q)
  }

  predicate RowOk(r: Row) {
    && |r.tunnelId| <= 64 && NoTrailingNul(r.tunnelId)
    && ParseTokenTunnelID(r.token) == Some(r.tunnelId)
    && (r.status == ACTIVE || r.status == REVOKED)
  }

  /** An active row holds this public port. */
  predicate Held(rows: Table, port: int) {
    exists i :: i in rows && rows[i].publicPort == port && rows[i].status == ACTIVE
  }

  /** Rows are well formed, and no two share a tunnel id, a public port, a token or a target. */
  ghost predicate TableOk(rows: Table, nextId: nat) {
    && (forall i :: i in rows ==> i < nextId && RowOk(rows[i]))
    && (forall i, j :: i in rows && j in rows && i != j ==> Apart(rows[i], rows[j]))
  }

  /** Every listening port belongs to an active row. */
  ghost predicate Backed(rows: Table, listeners: set<int>) {
    forall p :: p in listeners ==> Held(rows, p)
  }

  ghost predicate Inv(s: Service) { TableOk(s.rows, s.nextId) && Backed(s.rows, s.listeners) }

  lemma TunnelIdFits(uid: UniqueId)
    ensures |GenTunnelID(uid)| == 16 && NoTrailingNul(GenTunnelID(uid))
  {
    assert HexDigit(uid[11]);
  }

  /** A row of another tunnel cannot have a token made for this one. */
  lemma TokenTellsTunnel(r: Row, signature: Signature, tunnelId: Bytes)
    requires RowOk(r) && r.tunnelId != tunnelId
    ensures r.token != GenAccessToken(signature, tunnelId)
  {
    ParseInvertsGen(signature, tunnelId);
  }

  lemma PortUsedIffHeld(s: Service, port: int)
    requires Inv(s)
    ensures IsPortUsed(s, port) <==> Held(s.rows, port)
  {
  }

  /** No row that stays when the port is given out has the tunnel id that will be generated. */
  predicate IdFree(rows: Table, port: int, uid: UniqueId) {
    forall i :: i in rows && !(rows[i].publicPort == port && rows[i].status != ACTIVE) ==> rows[i].tunnelId != GenTunnelID(uid)
  }

  lemma IdFreeAmongKept(rows: Table, port: int, uid: UniqueId)
    ensures IdFree(rows, port, uid) <==> forall i :: i in DeleteInactive(rows, port) ==> rows[i].tunnelId != GenTunnelID(uid)
  {
    assert forall i :: i in DeleteInactive(rows, port) <==> i in rows && !(rows[i].publicPort == port && rows[i].status != ACTIVE);
  }

  /** An insert is refused exactly when the generated tunnel id is already in the table. */
  lemma InsertRefusedIffIdTaken(cfg: Config, s: Service, req: CreateReq, env: Env, port: int)
    requires Inv(s) && !Held(s.rows, port) && req.duration >= 0 && OnTheClock(env.now, cfg.offset)
    ensures Establish(cfg, s, req, env, port).1.NotCreated? <==> !IdFree(s.rows, port, env.uid)
  {
    IdFreeAmongKept(s.rows, port, env.uid);
    var rows, tunnelId := DeleteInactive(s.rows, port), GenTunnelID(env.uid);
    forall i | i in rows
      ensures rows[i].publicPort != port
      ensures rows[i].tunnelId != tunnelId ==> rows[i].token != GenAccessToken(env.signature, tunnelId)
    {
      if rows[i].tunnelId != tunnelId {
        TokenTellsTunnel(rows[i], env.signature, tunnelId);
      }
    }
  }

  lemma OthersApart(s: Service, k: nat)
    requires Inv(s) && k in s.rows
    ensures forall i :: i in s.rows && i != k ==> s.rows[i].tunnelId != s.rows[k].tunnelId
  {
    assert forall i :: i in s.rows && i != k ==> Apart(s.rows[i], s.rows[k]);
  }

  /** Ports whose active rows stay active keep their backing. */
  lemma StaysBacked(rows: Table, changed: Table, listeners: set<int>)
    requires Backed(rows, listeners)
    requires forall i :: i in rows && rows[i].status == ACTIVE && rows[i].publicPort in listeners ==>
               i in changed && changed[i].status == ACTIVE && changed[i].publicPort == rows[i].publicPort
    ensures Backed(changed, listeners)
  {
    forall p | p in listeners ensures Held(changed, p) {
      var i :| i in rows && rows[i].publicPort == p && rows[i].status == ACTIVE;
      assert i in changed && changed[i].publicPort == p && changed[i].status == ACTIVE;
    }
  }

  lemma UpdateKeepsTable(rows: Table, nextId: nat, tunnelId: Bytes, signature: Signature, expire: Bytes, creator: Bytes, now: Bytes)
    requires TableOk(rows, nextId)
    ensures var r := Update(rows, tunnelId, GenAccessToken(signature, tunnelId), expire, creator, now);
            r.Some? && TableOk(r.value, nextId)
  {
    var token := GenAccessToken(signature, tunnelId);
    ParseInvertsGen(signature, tunnelId);
    forall i | i in rows && rows[i].tunnelId != tunnelId ensures rows[i].token != token {
      TokenTellsTunnel(rows[i], signature, tunnelId);
    }
    var changed := Update(rows, tunnelId, token, expire, creator, now).value;
    forall i, j | i in changed && j in changed && i != j ensures Apart(changed[i], changed[j]) {
      assert Apart(rows[i], rows[j]);
    }
  }

  /** After the update, the row's own port may listen too. */
  lemma UpdateKeepsInv(s: Service, id: nat, signature: Signature, expire: Bytes, creator: Bytes, now: Bytes)
    requires Inv(s) && id in s.rows
    ensures var row := s.rows[id];
            var r := Update(s.rows, row.tunnelId, GenAccessToken(signature, row.tunnelId), expire, creator, now);
            r.Some? && TableOk(r.value, s.nextId) && Backed(r.value, s.listeners + {row.publicPort})
  {
    var row := s.rows[id];
    UpdateKeepsTable(s.rows, s.nextId, row.tunnelId, signature, expire, creator, now);
    var rows := Update(s.rows, row.tunnelId, GenAccessToken(signature, row.tunnelId), expire, creator, now).value;
    StaysBacked(s.rows, rows, s.listeners);
    assert id in rows && rows[id].status == ACTIVE && rows[id].publicPort == row.publicPort;
  }

  lemma RefreshKeepsInv(cfg: Config, s: Service, req: CreateReq, env: Env, id: nat)
    requires Inv(s) && id in s.rows && req.duration >= 0 && OnTheClock(env.now, cfg.offset)
    ensures var (t, reply) := Refresh(cfg, s, req, env, id);
            Inv(t) && !reply.NotUpdated?
  {
    UpdateKeepsInv(s, id, env.signature, Expiry(cfg, req, env), req.creator, FormatDBTime(env.now, cfg.offset));
  }

  lemma RevokeKeepsTable(rows: Table, nextId: nat, tunnelId: Bytes, now: Bytes)
    requires TableOk(rows, nextId)
    ensures TableOk(Revoke(rows, tunnelId, now), nextId)
  {
    var changed := Revoke(rows, tunnelId, now);
    forall i, j | i in changed && j in changed && i != j ensures Apart(changed[i], changed[j]) {
      assert Apart(rows[i], rows[j]);
    }
  }

  lemma RevokedPortIsFree(rows: Table, nextId: nat, id: nat, now: Bytes)
    requires TableOk(rows, nextId) && id in rows
    ensures !Held(Revoke(rows, rows[id].tunnelId, now), rows[id].publicPort)
    ensures forall i :: i in rows && i != id ==> Revoke(rows, rows[id].tunnelId, now)[i] == rows[i]
  {
    assert forall i :: i in rows && i != id ==> Apart(rows[i], rows[id]);
  }

  lemma RevokeKeepsInv(s: Service, id: nat, now: Bytes)
    requires Inv(s) && id in s.rows
    ensures var rows := Revoke(s.rows, s.rows[id].tunnelId, now);
            && Inv(s.(rows := rows, listeners := s.listeners - {s.rows[id].publicPort}))
            && !Held(rows, s.rows[id].publicPort)
  {
    var row := s.rows[id];
    RevokeKeepsTable(s.rows, s.nextId, row.tunnelId, now);
    RevokedPortIsFree(s.rows, s.nextId, id, now);
    StaysBacked(s.rows, Revoke(s.rows, row.tunnelId, now), s.listeners - {row.publicPort});
  }

  lemma DeleteInactiveKeepsInv(s: Service, port: int)
    requires Inv(s)
    ensures Inv(s.(rows := DeleteInactive(s.rows, port)))
    ensures !Held(s.rows, port) ==> forall i :: i in DeleteInactive(s.rows, port) ==> s.rows[i].publicPort != port
  {
    StaysBacked(s.rows, DeleteInactive(s.rows, port), s.listeners);
  }

  lemma InsertKeepsTable(rows: Table, nextId: nat, row: Row)
    requires TableOk(rows, nextId) && RowOk(row) && Insert(rows, nextId, row).Some?
    requires forall i :: i in rows ==> !SameTarget(rows[i], row)
    ensures TableOk(rows[nextId := row], nextId + 1)
  {
    forall i | i in rows ensures Apart(rows[i], row) && Apart(row, rows[i]) {
    }
  }

  lemma NewRowOk(cfg: Config, req: CreateReq, env: Env, port: int)
    requires req.duration >= 0 && OnTheClock(env.now, cfg.offset)
    ensures RowOk(NewRow(cfg, req, env, port))
  {
    TunnelIdFits(env.uid);
    ParseInvertsGen(env.signature, GenTunnelID(env.uid));
  }

  /** The table after an insert, and the same after the row just inserted is revoked again. */
  lemma InsertKeepsInv(s: Service, row: Row, now: Bytes)
    requires Inv(s) && RowOk(row) && row.status == ACTIVE && Insert(s.rows, s.nextId, row).Some?
    requires forall i :: i in s.rows ==> !SameTarget(s.rows[i], row)
    ensures var rows := s.rows[s.nextId := row];
            && TableOk(rows, s.nextId + 1) && Backed(rows, s.listeners + {row.publicPort})
            && TableOk(Revoke(rows, row.tunnelId, now), s.nextId + 1)
            && Backed(Revoke(rows, row.tunnelId, now), s.listeners)
  {
    var rows := s.rows[s.nextId := row];
    InsertKeepsTable(s.rows, s.nextId, row);
    StaysBacked(s.rows, rows, s.listeners);
    assert s.nextId in rows && Held(rows, row.publicPort);
    RevokeKeepsTable(rows, s.nextId + 1, row.tunnelId, now);
    UndoInsertStaysBacked(s, row, now);
  }

  lemma UndoInsertStaysBacked(s: Service, row: Row, now: Bytes)
    requires Inv(s) && Insert(s.rows, s.nextId, row).Some?
    ensures Backed(Revoke(s.rows[s.nextId := row], row.tunnelId, now), s.listeners)
  {
    var revoked := Revoke(s.rows[s.nextId := row], row.tunnelId, now);
    assert forall i :: i in s.rows ==> s.rows[i].tunnelId != row.tunnelId && revoked[i] == s.rows[i];
    StaysBacked(s.rows, revoked, s.listeners);
  }

  lemma EstablishKeepsInv(cfg: Config, s: Service, req: CreateReq, env: Env, port: int)
    requires Inv(s) && !Held(s.rows, port) && ByDevPort(s, req.devid, req.port, req.proto).None?
    requires req.duration >= 0 && OnTheClock(env.now, cfg.offset)
    ensures Inv(Establish(cfg, s, req, env, port).0)
  {
    DeleteInactiveKeepsInv(s, port);
    var row, s1 := NewRow(cfg, req, env, port), s.(rows := DeleteInactive(s.rows, port));
    NewRowOk(cfg, req, env, port);
    if Insert(s1.rows, s.nextId, row).Some? {
      InsertKeepsInv(s1, row, row.created);
    }
  }

  lemma FreePort(s: Service, taken: set<int>, candidate: int, high: int)
    requires Inv(s)
    ensures match FirstFree(s, taken, candidate, high)
            case Some(p) => candidate <= p <= high && !Held(s.rows, p) && p !in taken
                            && forall q :: candidate <= q < p ==> Held(s.rows, q) || q in taken
            case None => forall q :: candidate <= q <= high ==> Held(s.rows, q) || q in taken
    decreases high - candidate
  {
    if candidate > high {
    } else {
      PortUsedIffHeld(s, candidate);
      FreePort(s, taken, candidate + 1, high);
    }
  }

  lemma CreateKeepsInv(cfg: Config, s: Service, online: set<Bytes>, request: CreateReq, env: Env)
    requires Inv(s) && OnTheClock(env.now, cfg.offset)
    ensures var (t, reply) := HandleCreate(cfg, s, online, request, env);
            Inv(t) && !reply.NotUpdated?
  {
    var req := Normalized(cfg, request);
    if req.devid != [] && req.port != 0 && req.devid in online {
      match ByDevPort(s, req.devid, req.port, req.proto)
      case Some(id) => RefreshKeepsInv(cfg, s, req, env, id);
      case None =>
        FreePort(s, env.busy + s.listeners, cfg.low, cfg.high);
        match FirstFree(s, env.busy + s.listeners, cfg.low, cfg.high)
        case None =>
        case Some(port) => EstablishKeepsInv(cfg, s, req, env, port);
    }
  }

  lemma DeleteKeepsInv(cfg: Config, s: Service, tunnelId: Bytes, now: Instant)
    requires Inv(s) && OnTheClock(now, cfg.offset)
    ensures Inv(HandleDelete(cfg, s, tunnelId, now).0)
  {
    match ByTunnelId(s, tunnelId)
    case None =>
    case Some(id) => RevokeKeepsInv(s, id, FormatDBTime(now, cfg.offset));
  }

  lemma SweepKeepsInv(cfg: Config, s: Service, online: set<Bytes>, now: Instant)
    requires Inv(s) && OnTheClock(now, cfg.offset)
    ensures Inv(Sweep(cfg, s, online, now))
  {
    var t, text := Sweep(cfg, s, online, now), FormatDBTime(now, cfg.offset);
    forall i, j | i in t.rows && j in t.rows && i != j ensures Apart(t.rows[i], t.rows[j]) {
      assert Apart(s.rows[i], s.rows[j]);
    }
    forall i | i in s.rows && IsExpired(s.rows[i], text) ensures s.rows[i].publicPort !in t.listeners {
      assert i in ExpiredIds(s.rows, s.nextId, text);
    }
    StaysBacked(s.rows, t.rows, t.listeners);
  }
}
