/** When an active tunnel has its listener: unless the last create for its target could not listen. */
module TunnelListeners {
  import opened ByteStrings
  import opened DbTime
  import opened Tunnels
  import opened TunnelRuns
  import opened TunnelEffects

  /** A create for the target of this row that names a registered device. */
  predicate Asks(w: World, e: Event, q: Row) {
    e.Create? && Wants(e.request, q) && Acceptable(w.online, e.request)
  }

  /** It cannot listen: no row of the target has a port that listens already, and no new one can. */
  ghost predicate Unheard(w: World, e: Event, q: Row) {
    e.Create? && !e.env.canListen && forall i :: i in w.svc.rows && SameTarget(w.svc.rows[i], q) ==> w.svc.rows[i].publicPort !in w.svc.listeners
  }

  ghost predicate NeverAsked(cfg: Config, w: World, es: seq<Event>, q: Row)
    requires Legal(cfg, w, es)
    decreases es
  {
    es == [] || (!Asks(w, es[0], q) && NeverAsked(cfg, Step(cfg, w, es[0]), es[1..], q))
  }

  /** The last create for the target could not listen. */
  ghost predicate LastUnheard(cfg: Config, w: World, es: seq<Event>, q: Row)
    requires Legal(cfg, w, es)
    decreases es
  {
    && es != []
    && var t := Step(cfg, w, es[0]);
       || LastUnheard(cfg, t, es[1..], q)
       || (Asks(w, es[0], q) && Unheard(w, es[0], q) && NeverAsked(cfg, t, es[1..], q))
  }

  /** The active rows of the target all have no listener, or all have one. */
  ghost predicate Mute(s: Service, q: Row, mute: bool) {
    forall i :: i in s.rows && s.rows[i].status == ACTIVE && SameTarget(s.rows[i], q) ==>
      (s.rows[i].publicPort !in s.listeners <==> mute)
  }

  /** Active rows of the target that are there afterwards were there before, on ports that listen as
      they did. */
  ghost predicate LeavesTarget(s: Service, t: Service, q: Row) {
    forall i :: i in t.rows && t.rows[i].status == ACTIVE && SameTarget(t.rows[i], q) ==>
      i in s.rows && t.rows[i] == s.rows[i] && (t.rows[i].publicPort in t.listeners <==> s.rows[i].publicPort in s.listeners)
  }

  lemma StaysMute(s: Service, t: Service, q: Row, mute: bool)
    requires Mute(s, q, mute) && LeavesTarget(s, t, q)
    ensures Mute(t, q, mute)
  {
  }

  /** One row is renewed, and its port may start to listen: other targets do not notice. */
  lemma RenewalMutes(s: Service, t: Service, k: nat, listens: bool, q: Row)
    requires Inv(s) && k in s.rows && t.rows.Keys == s.rows.Keys
    requires forall j :: j in t.rows && j != k ==> t.rows[j] == s.rows[j]
    requires SameTarget(t.rows[k], s.rows[k]) && t.rows[k].publicPort == s.rows[k].publicPort
    requires t.listeners == if listens then s.listeners + {s.rows[k].publicPort} else s.listeners
    ensures if SameTarget(q, s.rows[k]) then Mute(t, q, !listens && s.rows[k].publicPort !in s.listeners)
            else LeavesTarget(s, t, q)
  {
    forall i | i in s.rows && i != k
      ensures !SameTarget(s.rows[i], s.rows[k]) && s.rows[i].publicPort != s.rows[k].publicPort
    {
      assert Apart(s.rows[i], s.rows[k]);
    }
  }

  lemma RefreshMutes(cfg: Config, s: Service, req: CreateReq, env: Env, k: nat, q: Row)
    requires Inv(s) && k in s.rows && TunnelRuns.IsFor(s.rows[k], req) && req.duration >= 0 && OnTheClock(env.now, cfg.offset)
    ensures var t := Refresh(cfg, s, req, env, k).0;
            if TunnelRuns.IsFor(q, req) then Mute(t, q, !env.canListen && s.rows[k].publicPort !in s.listeners)
            else LeavesTarget(s, t, q)
  {
    RefreshRow(cfg, s, req, env, k);
    RefreshListeners(cfg, s, req, env, k);
    RenewalMutes(s, Refresh(cfg, s, req, env, k).0, k, env.canListen || s.rows[k].publicPort in s.listeners, q);
  }

  lemma AddedMutes(cfg: Config, s: Service, t: Service, req: CreateReq, env: Env, row: Row, q: Row)
    requires Inv(s) && NewTarget(s, req) && Added(cfg, s, t, req, env, row)
    ensures if TunnelRuns.IsFor(q, req) then Mute(t, q, false) else LeavesTarget(s, t, q)
  {
    forall i | i in t.rows && i != s.nextId && t.rows[i].status == ACTIVE
      ensures i in s.rows && t.rows[i] == s.rows[i] && t.rows[i].publicPort != row.publicPort
    {
      assert i in s.rows;
    }
  }

  lemma NoneAddedMutes(cfg: Config, s: Service, t: Service, req: CreateReq, env: Env, q: Row)
    requires Inv(s) && NewTarget(s, req) && NoneAdded(cfg, s, t, env)
    ensures LeavesTarget(s, t, q)
    ensures TunnelRuns.IsFor(q, req) ==> Mute(t, q, true) && Mute(t, q, false)
  {
    forall i | i in t.rows && t.rows[i].status == ACTIVE ensures i in s.rows && t.rows[i] == s.rows[i] {
      assert i != s.nextId;
    }
  }

  lemma EstablishMutes(cfg: Config, s: Service, req: CreateReq, env: Env, port: int, q: Row)
    requires Inv(s) && NewTarget(s, req) && LeastUsable(cfg, s.rows, env.busy, port) && port !in s.listeners
    requires req.duration >= 0 && OnTheClock(env.now, cfg.offset)
    ensures var t := Establish(cfg, s, req, env, port).0;
            if TunnelRuns.IsFor(q, req) then Mute(t, q, !env.canListen) else LeavesTarget(s, t, q)
  {
    Established(cfg, s, req, env, port);
    var (t, reply) := Establish(cfg, s, req, env, port);
    if reply.Done? {
      assert env.canListen;
      AddedMutes(cfg, s, t, req, env, reply.row, q);
    } else {
      NoneAddedMutes(cfg, s, t, req, env, q);
    }
  }

  lemma CreateMutes(cfg: Config, w: World, e: Event, q: Row, mute: bool)
    requires e.Create? && Enabled(cfg, w, e) && Inv(w.svc) && Mute(w.svc, q, mute)
    ensures Mute(Step(cfg, w, e).svc, q, if Asks(w, e, q) then Unheard(w, e, q) else mute)
  {
    var s, t, req := w.svc, Step(cfg, w, e).svc, Normalized(cfg, e.request);
    NormalizedExact(cfg, e.request, e.env);
    if Acceptable(w.online, req) {
      match ByDevPort(s, req.devid, req.port, req.proto)
      case Some(k) =>
        RefreshMutes(cfg, s, req, e.env, k, q);
        assert forall i :: i in s.rows && i != k ==> Apart(s.rows[i], s.rows[k]);
      case None =>
        var port := NewTargetOutcome(cfg, s, w.online, e.request, e.env);
        if LeastUsable(cfg, s.rows, e.env.busy, port) {
          EstablishMutes(cfg, s, req, e.env, port, q);
        }
    }
  }

  lemma DeleteLeaves(cfg: Config, s: Service, tunnelId: Bytes, at: Instant, q: Row)
    requires Inv(s) && OnTheClock(at, cfg.offset)
    ensures LeavesTarget(s, HandleDelete(cfg, s, tunnelId, at).0, q)
  {
    match ByTunnelId(s, tunnelId)
    case None =>
    case Some(k) =>
      RevokeOne(s, k, FormatDBTime(at, cfg.offset));
      RevokeLeaves(s, DeleteRow(s, k, FormatDBTime(at, cfg.offset)), k, q);
  }

  lemma RevokeLeaves(s: Service, t: Service, k: nat, q: Row)
    requires Inv(s) && k in s.rows && t.rows.Keys == s.rows.Keys && t.rows[k].status == REVOKED
    requires forall i :: i in s.rows && i != k ==> t.rows[i] == s.rows[i]
    requires t.listeners == s.listeners - {s.rows[k].publicPort}
    ensures LeavesTarget(s, t, q)
  {
    assert forall i :: i in s.rows && i != k ==> Apart(s.rows[i], s.rows[k]);
  }

  lemma SweepLeaves(cfg: Config, s: Service, online: set<Bytes>, at: Instant, q: Row)
    requires Inv(s) && OnTheClock(at, cfg.offset)
    ensures LeavesTarget(s, Sweep(cfg, s, online, at), q)
  {
    var t := Sweep(cfg, s, online, at);
    forall i | i in t.rows && t.rows[i].status == ACTIVE
      ensures t.rows[i] == s.rows[i] && (t.rows[i].publicPort in t.listeners <==> s.rows[i].publicPort in s.listeners)
    {
      SweepPorts(cfg, s, online, at, i);
    }
  }

  lemma StepMutes(cfg: Config, w: World, e: Event, q: Row, mute: bool)
    requires Enabled(cfg, w, e) && WorldInv(w) && Mute(w.svc, q, mute)
    ensures Mute(Step(cfg, w, e).svc, q, if Asks(w, e, q) then Unheard(w, e, q) else mute)
  {
    match e
    case Create(_, _) => CreateMutes(cfg, w, e, q, mute);
    case Delete(tunnelId, at) => DeleteLeaves(cfg, w.svc, tunnelId, at, q);
    case Expire(at) => SweepLeaves(cfg, w.svc, w.online, at, q);
    case _ =>
  }

  lemma {:induction false} RunMutes(cfg: Config, w: World, es: seq<Event>, q: Row, mute: bool)
    requires Legal(cfg, w, es) && WorldInv(w) && Mute(w.svc, q, mute)
    ensures Mute(Exec(cfg, w, es).svc, q, LastUnheard(cfg, w, es, q) || (mute && NeverAsked(cfg, w, es, q)))
    decreases es
  {
    if es == [] {
    } else {
      StepMutes(cfg, w, es[0], q, mute);
      StepKeepsInv(cfg, w, es[0]);
      RunMutes(cfg, Step(cfg, w, es[0]), es[1..], q, if Asks(w, es[0], q) then Unheard(w, es[0], q) else mute);
    }
  }

  /** After any run, an active tunnel has a listener exactly unless the last create for its target,
      which for an active tunnel then was a renewal, could not listen. */
  lemma ActiveListensUnlessUnheard(cfg: Config, es: seq<Event>, i: nat)
    requires Legal(cfg, INIT, es)
    requires var s := Exec(cfg, INIT, es).svc;
             i in s.rows && s.rows[i].status == ACTIVE
    ensures var s := Exec(cfg, INIT, es).svc;
            s.rows[i].publicPort in s.listeners <==> !LastUnheard(cfg, INIT, es, s.rows[i])
  {
    RunMutes(cfg, INIT, es, Exec(cfg, INIT, es).svc.rows[i], false);
  }
}
