/** The tunnel service as the server runs it: handlers that change the stored rows, the set of
    listening ports and the message queue in place. */
module TunnelService {
  import opened ByteStrings
  import opened AccessTokens
  import opened DbTime
  import opened TunnelMessages
  import opened Tunnels

  class TunnelServer {
    const cfg: Config
    var rows: Table
    var nextId: nat
    var listeners: set<int>
    var queue: seq<Req>

    ghost function Abs(): Service reads this { Service(rows, nextId, listeners, queue) }

    constructor (cfg: Config)
      ensures Abs() == EMPTY && this.cfg == cfg
    {
      this.cfg, rows, nextId, listeners, queue := cfg, map[], 0, {}, [];
    }

    /** `AllocatePort`: scans the range upwards; `busy` are the ports other programs hold. */
    method AllocatePort(busy: set<int>) returns (port: Option<int>)
      ensures port == FirstFree(Abs(), busy + listeners, cfg.low, cfg.high)
    {
      var candidate := cfg.low;
      while candidate <= cfg.high
        invariant FirstFree(Abs(), busy + listeners, cfg.low, cfg.high)
                  == FirstFree(Abs(), busy + listeners, candidate, cfg.high)
        decreases cfg.high - candidate
      {
        var s := Service(rows, nextId, listeners, queue);
        if !IsPortUsed(s, candidate) && candidate !in busy && candidate !in listeners {
          return Some(candidate);
        }
        candidate := candidate + 1;
      }
      return None;
    }

    /** `EnsureTunnelProxyServer`. */
    method EnsureProxy(port: int, canListen: bool) returns (ok: bool)
      modifies this`listeners
      ensures match StartProxy(old(listeners), port, canListen)
              case None => !ok && listeners == old(listeners)
              case Some(started) => ok && listeners == started
    {
      if port in listeners { return true; }
      if !canListen { return false; }
      listeners := listeners + {port};
      return true;
    }

    /** `StopTunnelProxyServer`. */
    method StopProxy(port: int)
      modifies this`listeners
      ensures listeners == old(listeners) - {port}
    {
      if port in listeners {
        listeners := listeners - {port};
      }
    }

    /** `handleTunnelCreate` for a device port that already has the row `id`. */
    method RefreshTunnel(req: CreateReq, env: Env, id: nat) returns (reply: Reply)
      requires id in rows && req.duration >= 0 && OnTheClock(env.now, cfg.offset)
      modifies this
      ensures Abs() == Refresh(cfg, old(Abs()), req, env, id).0
      ensures reply == Refresh(cfg, old(Abs()), req, env, id).1
    {
      var row := rows[id];
      var token := GenAccessToken(env.signature, row.tunnelId);
      var updated := Update(rows, row.tunnelId, token, Expiry(cfg, req, env), req.creator, FormatDBTime(env.now, cfg.offset));
      if updated.None? { return NotUpdated; }
      rows := updated.value;
      queue := queue + [Req(req.devid, BuildTunnelCreate(row.tunnelId, req.port, req.proto))];
      var ok := EnsureProxy(row.publicPort, env.canListen);
      return if ok then Done(rows[id]) else NotListening;
    }

    /** `handleTunnelCreate` for a new device port, from the allocated public port on. */
    method EstablishTunnel(req: CreateReq, env: Env, port: int) returns (reply: Reply)
      requires req.duration >= 0 && OnTheClock(env.now, cfg.offset)
      modifies this
      ensures Abs() == Establish(cfg, old(Abs()), req, env, port).0
      ensures reply == Establish(cfg, old(Abs()), req, env, port).1
    {
      var row := NewRow(cfg, req, env, port);
      var table := DeleteInactive(rows, port);
      var inserted := Insert(table, nextId, row);
      rows := table;
      if inserted.None? { return NotCreated; }
      rows, nextId := inserted.value, nextId + 1;
      queue := queue + [Req(req.devid, BuildTunnelCreate(row.tunnelId, req.port, req.proto))];
      var ok := EnsureProxy(port, env.canListen);
      if !ok {
        rows := Revoke(inserted.value, row.tunnelId, row.created);
        return NotListening;
      }
      return Done(row);
    }

    method HandleTunnelCreate(online: set<Bytes>, request: CreateReq, env: Env) returns (reply: Reply)
      requires Inv(Abs()) && OnTheClock(env.now, cfg.offset)
      modifies this
      ensures Abs() == HandleCreate(cfg, old(Abs()), online, request, env).0
      ensures reply == HandleCreate(cfg, old(Abs()), online, request, env).1
      ensures Inv(Abs())
    {
      CreateKeepsInv(cfg, Abs(), online, request, env);
      var req := Normalized(cfg, request);
      if req.devid == [] || req.port == 0 { return Invalid; }
      if req.devid !in online { return Offline; }
      var existing := ByDevPort(Service(rows, nextId, listeners, queue), req.devid, req.port, req.proto);
      if existing.Some? {
        reply := RefreshTunnel(req, env, existing.value);
      } else {
        var port := AllocatePort(env.busy);
        if port.None? { return NoPort; }
        reply := EstablishTunnel(req, env, port.value);
      }
    }

    method HandleTunnelDelete(tunnelId: Bytes, now: Instant) returns (found: bool)
      requires Inv(Abs()) && OnTheClock(now, cfg.offset)
      modifies this
      ensures Abs() == HandleDelete(cfg, old(Abs()), tunnelId, now).0
      ensures found == HandleDelete(cfg, old(Abs()), tunnelId, now).1
      ensures Inv(Abs())
    {
      DeleteKeepsInv(cfg, Abs(), tunnelId, now);
      var id := ByTunnelId(Service(rows, nextId, listeners, queue), tunnelId);
      if id.None? { return false; }
      var row := rows[id.value];
      rows := Revoke(rows, tunnelId, FormatDBTime(now, cfg.offset));
      StopProxy(row.publicPort);
      queue := queue + [Req(row.devid, BuildTunnelRevoke(row.tunnelId))];
      return true;
    }

    /** The scheduler's loop over the expired rows: stop each port and notify its device. */
    method Retire(table: Table, expired: seq<nat>, online: set<Bytes>)
      requires forall i :: i in expired ==> i in table
      modifies this`listeners, this`queue
      ensures listeners == old(listeners) - Ports(table, expired)
      ensures queue == old(queue) + Revocations(table, expired, online)
    {
      var k := 0;
      while k < |expired|
        invariant 0 <= k <= |expired|
        invariant listeners == old(listeners) - Ports(table, expired[..k])
        invariant queue == old(queue) + Revocations(table, expired[..k], online)
      {
        var row := table[expired[k]];
        assert expired[..k + 1][..k] == expired[..k];
        assert Ports(table, expired[..k + 1]) == Ports(table, expired[..k]) + {row.publicPort};
        StopProxy(row.publicPort);
        if row.devid in online {
          queue := queue + [Req(row.devid, BuildTunnelRevoke(row.tunnelId))];
        }
        k := k + 1;
      }
      assert expired[..k] == expired;
    }

    /** One round of the cleanup scheduler: flip the expired rows, then retire each. */
    method CleanUp(online: set<Bytes>, now: Instant)
      requires Inv(Abs()) && OnTheClock(now, cfg.offset)
      modifies this
      ensures Abs() == Sweep(cfg, old(Abs()), online, now)
      ensures Inv(Abs())
    {
      SweepKeepsInv(cfg, Abs(), online, now);
      var text := FormatDBTime(now, cfg.offset);
      var table, expired := rows, ExpiredIds(rows, nextId, text);
      rows := FlipExpired(rows, text);
      Retire(table, expired, online);
    }
  }
}
