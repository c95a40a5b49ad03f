/** The life of a tunnel over a run: active from its creation or renewal until the first sweep at
    or after its expiry, and revoked from then on. */
module TunnelLifetime {
  import opened ByteStrings
  import opened DbTime
  import opened Tunnels
  import opened TunnelRuns
  import opened TunnelEffects

  // ----- Every stored expiry is the text of an instant -----

  ghost predicate ExpiresAt(cfg: Config, r: Row, x: Instant) {
    OnTheClock(x, cfg.offset) && r.expire == FormatDBTime(x, cfg.offset)
  }

  ghost predicate Dated(cfg: Config, rows: Table) {
    forall i :: i in rows ==> exists x: Instant :: ExpiresAt(cfg, rows[i], x)
  }

  /** What a create leaves of the table: its own row, due at the right time, and the others. */
  ghost predicate CreateKeeps(s: Service, t: Service, req: CreateReq, expire: Bytes) {
    && t.nextId >= s.nextId
    && (forall i :: i in t.rows && i !in s.rows ==> i == s.nextId)
    && (forall i :: i in s.rows && i !in t.rows ==> s.rows[i].status == REVOKED)
    && (forall i :: i in t.rows ==> (i in s.rows && t.rows[i] == s.rows[i]) || t.rows[i].expire == expire)
    && (forall i :: i in s.rows && i in t.rows && !TunnelRuns.IsFor(s.rows[i], req) ==> t.rows[i] == s.rows[i])
  }

  lemma RefreshKeeps(cfg: Config, s: Service, req: CreateReq, env: Env, k: nat)
    requires Inv(s) && k in s.rows && TunnelRuns.IsFor(s.rows[k], req) && req.duration >= 0 && OnTheClock(env.now, cfg.offset)
    ensures CreateKeeps(s, Refresh(cfg, s, req, env, k).0, req, Expiry(cfg, req, env))
  {
    RefreshRow(cfg, s, req, env, k);
  }

  lemma EstablishKeeps(cfg: Config, s: Service, req: CreateReq, env: Env, port: int)
    requires Inv(s) && !Held(s.rows, port) && req.duration >= 0 && OnTheClock(env.now, cfg.offset)
    ensures CreateKeeps(s, Establish(cfg, s, req, env, port).0, req, Expiry(cfg, req, env))
  {
    EstablishedRows(cfg, s, req, env, port);
    var t := Establish(cfg, s, req, env, port).0;
    assert forall i :: i in t.rows ==> i in s.rows || i == s.nextId;
  }

  lemma CreateRows(cfg: Config, s: Service, online: set<Bytes>, request: CreateReq, env: Env)
    requires Inv(s) && OnTheClock(env.now, cfg.offset)
    ensures var req := Normalized(cfg, request);
            CreateKeeps(s, HandleCreate(cfg, s, online, request, env).0, req, Expiry(cfg, req, env))
  {
    var req := Normalized(cfg, request);
    if Acceptable(online, req) {
      match ByDevPort(s, req.devid, req.port, req.proto)
      case Some(k) => RefreshKeeps(cfg, s, req, env, k);
      case None =>
        FreePort(s, env.busy + s.listeners, cfg.low, cfg.high);
        var free := FirstFree(s, env.busy + s.listeners, cfg.low, cfg.high);
        if free.Some? {
          EstablishKeeps(cfg, s, req, env, free.value);
        }
    }
  }

  lemma SameExpiry(cfg: Config, before: Table, after: Table)
    requires Dated(cfg, before) && forall i :: i in after ==> i in before && after[i].expire == before[i].expire
    ensures Dated(cfg, after)
  {
    forall i | i in after ensures exists y: Instant :: ExpiresAt(cfg, after[i], y) {
      var y: Instant :| ExpiresAt(cfg, before[i], y);
      assert ExpiresAt(cfg, after[i], y);
    }
  }

  lemma StaysDated(cfg: Config, before: Table, after: Table, x: Instant)
    requires Dated(cfg, before) && OnTheClock(x, cfg.offset)
    requires forall i :: i in after ==> (i in before && after[i] == before[i]) || after[i].expire == FormatDBTime(x, cfg.offset)
    ensures Dated(cfg, after)
  {
    forall i | i in after ensures exists y: Instant :: ExpiresAt(cfg, after[i], y) {
      if i in before && after[i] == before[i] {
      } else {
        assert ExpiresAt(cfg, after[i], x);
      }
    }
  }

  lemma CreateDated(cfg: Config, s: Service, online: set<Bytes>, request: CreateReq, env: Env)
    requires Inv(s) && OnTheClock(env.now, cfg.offset) && Dated(cfg, s.rows)
    ensures Dated(cfg, HandleCreate(cfg, s, online, request, env).0.rows)
  {
    CreateRows(cfg, s, online, request, env);
    NormalizedExact(cfg, request, env);
    StaysDated(cfg, s.rows, HandleCreate(cfg, s, online, request, env).0.rows, DueAt(cfg, request, env));
  }

  lemma OthersKeepExpiry(cfg: Config, w: World, e: Event)
    requires Enabled(cfg, w, e) && !e.Create?
    ensures var rows := Step(cfg, w, e).svc.rows;
            forall i :: i in rows ==> i in w.svc.rows && rows[i].expire == w.svc.rows[i].expire
  {
  }

  lemma StepDated(cfg: Config, w: World, e: Event)
    requires Enabled(cfg, w, e) && WorldInv(w) && Dated(cfg, w.svc.rows)
    ensures Dated(cfg, Step(cfg, w, e).svc.rows)
  {
    if e.Create? {
      CreateDated(cfg, w.svc, w.online, e.request, e.env);
    } else {
      OthersKeepExpiry(cfg, w, e);
      SameExpiry(cfg, w.svc.rows, Step(cfg, w, e).svc.rows);
    }
  }

  lemma {:induction false} RunDated(cfg: Config, w: World, es: seq<Event>)
    requires Legal(cfg, w, es) && WorldInv(w) && Dated(cfg, w.svc.rows)
    ensures Dated(cfg, Exec(cfg, w, es).svc.rows)
    decreases es
  {
    if es == [] {
    } else {
      StepDated(cfg, w, es[0]);
      StepKeepsInv(cfg, w, es[0]);
      RunDated(cfg, Step(cfg, w, es[0]), es[1..]);
    }
  }

  // ----- One sweep -----

  ghost predicate DueBy(x: Instant, at: Instant) { x / SECOND <= at / SECOND }

  lemma ExpiredIffDue(cfg: Config, r: Row, x: Instant, at: Instant)
    requires ExpiresAt(cfg, r, x) && InRange(x, cfg.offset) && InRange(at, cfg.offset)
    ensures IsExpired(r, FormatDBTime(at, cfg.offset)) <==> r.status == ACTIVE && DueBy(x, at)
  {
    TextOrderIsTimeOrder(x, at, cfg.offset);
  }

  /** A sweep takes a row exactly when it is active and due; it then frees its port, and else
      touches neither row nor port. */
  ghost predicate SweptExactly(cfg: Config, s: Service, t: Service, at: Instant, i: nat, x: Instant)
    requires i in s.rows && OnTheClock(at, cfg.offset)
  {
    var r := s.rows[i];
    var due := r.status == ACTIVE && DueBy(x, at);
    && (i in ExpiredIds(s.rows, s.nextId, FormatDBTime(at, cfg.offset)) <==> due)
    && i in t.rows
    && (due ==> t.rows[i] == r.(status := 0, updated := FormatDBTime(at, cfg.offset)) && !Held(t.rows, r.publicPort) && r.publicPort !in t.listeners)
    && (!due ==> t.rows[i] == r && (r.publicPort in s.listeners ==> r.publicPort in t.listeners))
  }

  lemma SweepRow(cfg: Config, s: Service, online: set<Bytes>, at: Instant, i: nat, x: Instant)
    requires Inv(s) && i in s.rows && InRange(at, cfg.offset) && InRange(x, cfg.offset) && ExpiresAt(cfg, s.rows[i], x)
    ensures SweptExactly(cfg, s, Sweep(cfg, s, online, at), at, i, x)
  {
    ExpiredIffDue(cfg, s.rows[i], x, at);
    FlippedRow(s.rows, FormatDBTime(at, cfg.offset), i);
    SweepPorts(cfg, s, online, at, i);
  }

  /** After any run, every row expires at some instant, and a sweep within the years 0 to 9999
      treats it by that instant. */
  lemma SweepExact(cfg: Config, es: seq<Event>, at: Instant, i: nat) returns (x: Instant)
    requires Legal(cfg, INIT, es) && InRange(at, cfg.offset) && i in Exec(cfg, INIT, es).svc.rows
    ensures var w := Exec(cfg, INIT, es);
            && ExpiresAt(cfg, w.svc.rows[i], x)
            && (InRange(x, cfg.offset) ==> SweptExactly(cfg, w.svc, Sweep(cfg, w.svc, w.online, at), at, i, x))
  {
    Reachable(cfg, INIT, es);
    RunDated(cfg, INIT, es);
    var w := Exec(cfg, INIT, es);
    x :| ExpiresAt(cfg, w.svc.rows[i], x);
    if InRange(x, cfg.offset) {
      SweepRow(cfg, w.svc, w.online, at, i, x);
    }
  }

  // ----- The whole life -----

  /** A delete of this tunnel, or a create for its target. */
  predicate Touches(e: Event, r: Row) {
    || (e.Delete? && e.tunnelId == r.tunnelId)
    || (e.Create? && Wants(e.request, r))
  }

  ghost predicate Undisturbed(cfg: Config, es: seq<Event>, r: Row) {
    forall e :: e in es ==> !Touches(e, r) && (e.Expire? ==> InRange(e.at, cfg.offset))
  }

  /** Some sweep comes at or after this expiry. */
  ghost predicate SweptAfter(es: seq<Event>, x: Instant) { exists e :: e in es && e.Expire? && DueBy(x, e.at) }

  /** The row is gone, or revoked and still of the same tunnel and target. */
  ghost predicate Ended(s: Service, i: nat, r: Row) {
    && i < s.nextId
    && (i in s.rows ==> s.rows[i].status == REVOKED && SameTarget(s.rows[i], r) && s.rows[i].tunnelId == r.tunnelId)
  }

  lemma CreateLeavesOther(cfg: Config, s: Service, online: set<Bytes>, request: CreateReq, env: Env, i: nat)
    requires Inv(s) && OnTheClock(env.now, cfg.offset)
    requires i in s.rows && s.rows[i].status == ACTIVE && !Wants(request, s.rows[i])
    ensures var t := HandleCreate(cfg, s, online, request, env).0;
            i in t.rows && t.rows[i] == s.rows[i]
  {
    NormalizedExact(cfg, request, env);
    CreateRows(cfg, s, online, request, env);
  }

  lemma SweepLeavesOrEnds(cfg: Config, s: Service, online: set<Bytes>, at: Instant, i: nat, x: Instant)
    requires Inv(s) && i in s.rows && s.rows[i].status == ACTIVE
    requires ExpiresAt(cfg, s.rows[i], x) && InRange(x, cfg.offset) && InRange(at, cfg.offset)
    ensures var t := Sweep(cfg, s, online, at);
            if DueBy(x, at) then Ended(t, i, s.rows[i]) else i in t.rows && t.rows[i] == s.rows[i]
  {
    ExpiredIffDue(cfg, s.rows[i], x, at);
  }

  lemma StepStays(cfg: Config, w: World, e: Event, i: nat, x: Instant)
    requires Enabled(cfg, w, e) && Inv(w.svc) && i in w.svc.rows
    requires var r := w.svc.rows[i];
             && r.status == ACTIVE && ExpiresAt(cfg, r, x) && InRange(x, cfg.offset)
             && !Touches(e, r) && (e.Expire? ==> InRange(e.at, cfg.offset))
    ensures var t := Step(cfg, w, e).svc;
            if e.Expire? && DueBy(x, e.at) then Ended(t, i, w.svc.rows[i])
            else i in t.rows && t.rows[i] == w.svc.rows[i]
  {
    match e
    case Create(request, env) => CreateLeavesOther(cfg, w.svc, w.online, request, env, i);
    case Expire(at) => SweepLeavesOrEnds(cfg, w.svc, w.online, at, i, x);
    case _ =>
  }

  lemma StepStaysEnded(cfg: Config, w: World, e: Event, i: nat, r: Row)
    requires Enabled(cfg, w, e) && Inv(w.svc) && Ended(w.svc, i, r) && !Touches(e, r)
    ensures Ended(Step(cfg, w, e).svc, i, r)
  {
    if e.Create? {
      NormalizedExact(cfg, e.request, e.env);
      CreateRows(cfg, w.svc, w.online, e.request, e.env);
    }
  }

  lemma {:induction false} StaysEnded(cfg: Config, w: World, es: seq<Event>, i: nat, r: Row)
    requires Legal(cfg, w, es) && WorldInv(w) && Ended(w.svc, i, r) && Undisturbed(cfg, es, r)
    ensures Ended(Exec(cfg, w, es).svc, i, r)
    decreases es
  {
    if es == [] {
    } else {
      assert es[0] in es;
      StepStaysEnded(cfg, w, es[0], i, r);
      StepKeepsInv(cfg, w, es[0]);
      StaysEnded(cfg, Step(cfg, w, es[0]), es[1..], i, r);
    }
  }

  lemma {:induction false} Lifetime(cfg: Config, w: World, es: seq<Event>, i: nat, x: Instant)
    requires Legal(cfg, w, es) && WorldInv(w) && i in w.svc.rows
    requires var r := w.svc.rows[i];
             r.status == ACTIVE && ExpiresAt(cfg, r, x) && InRange(x, cfg.offset) && Undisturbed(cfg, es, r)
    ensures var t := Exec(cfg, w, es).svc;
            if SweptAfter(es, x) then Ended(t, i, w.svc.rows[i]) else i in t.rows && t.rows[i] == w.svc.rows[i]
    decreases es
  {
    if es == [] {
    } else {
      assert es[0] in es;
      assert forall e :: e in es <==> e == es[0] || e in es[1..];
      var u, r := Step(cfg, w, es[0]), w.svc.rows[i];
      StepStays(cfg, w, es[0], i, x);
      StepKeepsInv(cfg, w, es[0]);
      if es[0].Expire? && DueBy(x, es[0].at) {
        StaysEnded(cfg, u, es[1..], i, r);
      } else {
        Lifetime(cfg, u, es[1..], i, x);
      }
    }
  }

  lemma RenewedRow(cfg: Config, s: Service, req: CreateReq, env: Env, k: nat)
    requires Inv(s) && k in s.rows && req.duration >= 0 && OnTheClock(env.now, cfg.offset)
    ensures var (t, reply) := Refresh(cfg, s, req, env, k);
            k in t.rows && t.rows[k].status == ACTIVE && t.rows[k].expire == Expiry(cfg, req, env)
            && (reply.Done? ==> t.rows[k] == reply.row)
  {
    RefreshRow(cfg, s, req, env, k);
  }

  /** The row a successful create answers with is in the table, active and due at its time. */
  lemma DoneRow(cfg: Config, s: Service, online: set<Bytes>, request: CreateReq, env: Env) returns (i: nat)
    requires Inv(s) && OnTheClock(env.now, cfg.offset)
    requires HandleCreate(cfg, s, online, request, env).1.Done?
    ensures var (t, reply) := HandleCreate(cfg, s, online, request, env);
            && i in t.rows && t.rows[i] == reply.row && reply.row.status == ACTIVE
            && ExpiresAt(cfg, reply.row, DueAt(cfg, request, env))
  {
    var req := Normalized(cfg, request);
    NormalizedExact(cfg, request, env);
    match ByDevPort(s, req.devid, req.port, req.proto)
    case Some(k) =>
      i := k;
      RenewedRow(cfg, s, req, env, k);
    case None =>
      i := s.nextId;
      FreePort(s, env.busy + s.listeners, cfg.low, cfg.high);
      EstablishedRows(cfg, s, req, env, FirstFree(s, env.busy + s.listeners, cfg.low, cfg.high).value);
  }

  /** A tunnel created or renewed at some time, after any run, and neither deleted nor renewed
      since: the row that is answered is in the table and active. It stays exactly so until a sweep
      comes at or after its expiry, which is its creation time plus its duration, and is revoked or
      gone from then on. */
  lemma TunnelLivesUntilSwept(cfg: Config, before: seq<Event>, request: CreateReq, env: Env, after: seq<Event>) returns (i: nat)
    requires Legal(cfg, INIT, before) && OnTheClock(env.now, cfg.offset) && InRange(DueAt(cfg, request, env), cfg.offset)
    requires var w, e := Exec(cfg, INIT, before), Create(request, env);
             && HandleCreate(cfg, w.svc, w.online, request, env).1.Done?
             && Legal(cfg, Step(cfg, w, e), after)
             && Undisturbed(cfg, after, HandleCreate(cfg, w.svc, w.online, request, env).1.row)
    ensures var w := Exec(cfg, INIT, before);
            var row, u := HandleCreate(cfg, w.svc, w.online, request, env).1.row, Step(cfg, w, Create(request, env));
            var t := Exec(cfg, u, after).svc;
            && i in u.svc.rows && u.svc.rows[i] == row && row.status == ACTIVE
            && if SweptAfter(after, DueAt(cfg, request, env)) then Ended(t, i, row) else i in t.rows && t.rows[i] == row
  {
    Reachable(cfg, INIT, before);
    var w := Exec(cfg, INIT, before);
    i := DoneRow(cfg, w.svc, w.online, request, env);
    StepKeepsInv(cfg, w, Create(request, env));
    Lifetime(cfg, Step(cfg, w, Create(request, env)), after, i, DueAt(cfg, request, env));
  }
}
