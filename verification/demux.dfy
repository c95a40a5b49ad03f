/** Routing of device responses: legacy proxy connections are found by device and 18-byte
    source address, token-proxy streams by stream id. */
module ResponseRouting {
  import opened ByteStrings
  import opened TunnelMessages

  datatype Key = Key(devid: Bytes, addr: Bytes)

  /** `httpProxyCons` (device and address to connection), what each connection was sent and
      whether it was closed, `tunnelProxyConns` (live stream to tunnel id), and the one value each
      stream's handler takes from its reply channel. */
  datatype State = State(
    legacy: map<Key, nat>,
    out: map<nat, seq<Bytes>>,
    closed: set<nat>,
    streams: map<Bytes, Bytes>,
    replies: map<Bytes, Option<Bytes>>)

  const EMPTY := State(map[], map[], {}, map[], map[])

  datatype Event =
    | Response(devid: Bytes, data: Payload)
    | OpenLegacy(key: Key, conn: nat)
    | DropLegacy(key: Key)
    | OpenStream(streamId: Bytes, tunnelId: Bytes)
    | DropStream(streamId: Bytes)

  /** A response that is not tunnel data is a chunk for the address in its first 18 bytes. */
  predicate IsChunk(data: Payload) { |data| >= 18 && ParseTunnelData(data).None? }

  function ToLegacy(s: State, key: Key, chunk: Bytes): State {
    if key !in s.legacy then s
    else
      var conn := s.legacy[key];
      if chunk == [] then s.(closed := s.closed + {conn})
      else if conn in s.closed || conn !in s.out then s
      else s.(out := s.out[conn := s.out[conn] + [chunk]])
  }

  function ToStream(s: State, d: TunnelData): State {
    if d.direction != 1 || d.streamId !in s.streams || s.streams[d.streamId] != d.tunnelId then s
    else if d.payload == [] then s.(streams := s.streams - {d.streamId})
    else if d.streamId in s.replies && s.replies[d.streamId].None? then
      s.(replies := s.replies[d.streamId := Some(d.payload)])
    else s
  }

  /** `handleHttpProxyResp`. */
  function Respond(s: State, devid: Bytes, data: Payload): State
    requires |data| >= 18
  {
    match ParseTunnelData(data)
    case Some(d) => ToStream(s, d)
    case None => ToLegacy(s, Key(devid, data[..18]), data[18..])
  }

  function Step(s: State, e: Event): State
    requires Enabled(s, e)
  {
    match e
    case Response(devid, data) => Respond(s, devid, data)
    case OpenLegacy(key, conn) => s.(legacy := s.legacy[key := conn], out := s.out[conn := []])
    case DropLegacy(key) => s.(legacy := s.legacy - {key})
    case OpenStream(streamId, tunnelId) =>
      s.(streams := s.streams[streamId := tunnelId], replies := s.replies[streamId := None])
    case DropStream(streamId) => s.(streams := s.streams - {streamId})
  }

  /** `readLoop` passes on responses of at least 18 bytes; live source addresses are distinct,
      connections and stream ids are new. */
  predicate Enabled(s: State, e: Event) {
    match e
    case Response(_, data) => |data| >= 18
    case OpenLegacy(key, conn) => key !in s.legacy && conn !in s.out
    case OpenStream(streamId, _) => streamId !in s.replies
    case _ => true
  }

  predicate Legal(s: State, es: seq<Event>)
    decreases es
  {
    es != [] ==> Enabled(s, es[0]) && Legal(Step(s, es[0]), es[1..])
  }

  function Exec(s: State, es: seq<Event>): State
    requires Legal(s, es)
    decreases es
  {
    if es == [] then s else Exec(Step(s, es[0]), es[1..])
  }

  // ----- What each connection and each stream is owed, read off the events alone -----

  /** The chunks with this key, in order, until the first empty one or until the key is dropped. */
  function Owed(es: seq<Event>, key: Key): seq<Bytes> {
    if es == [] then []
    else match es[0]
      case Response(devid, data) =>
        if IsChunk(data) && key == Key(devid, data[..18]) then
          if |data| == 18 then [] else [data[18..]] + Owed(es[1..], key)
        else Owed(es[1..], key)
      case DropLegacy(k) => if k == key then [] else Owed(es[1..], key)
      case _ => Owed(es[1..], key)
  }

  /** The first payload with this stream and tunnel id, if it is not empty. */
  function FirstReply(es: seq<Event>, streamId: Bytes, tunnelId: Bytes): Option<Bytes> {
    if es == [] then None
    else match es[0]
      case Response(_, data) =>
        var d := ParseTunnelData(data);
        if d.Some? && d.value.direction == 1 && d.value.streamId == streamId && d.value.tunnelId == tunnelId then
          if d.value.payload == [] then None else Some(d.value.payload)
        else FirstReply(es[1..], streamId, tunnelId)
      case DropStream(id) => if id == streamId then None else FirstReply(es[1..], streamId, tunnelId)
      case _ => FirstReply(es[1..], streamId, tunnelId)
  }

  // ----- Exactness over every run -----

  predicate Inv(s: State) {
    && (forall k :: k in s.legacy ==> s.legacy[k] in s.out)
    && (forall k, l :: k in s.legacy && l in s.legacy && s.legacy[k] == s.legacy[l] ==> k == l)
    && s.closed <= s.out.Keys
    && s.streams.Keys <= s.replies.Keys
  }

  lemma StepKeepsInv(s: State, e: Event)
    requires Inv(s) && Enabled(s, e)
    ensures Inv(Step(s, e))
    ensures s.out.Keys <= Step(s, e).out.Keys && s.replies.Keys <= Step(s, e).replies.Keys
  {
  }

  /** A connection no longer in the table, or already closed, is never written again. */
  lemma {:induction false} OutSettled(s: State, es: seq<Event>, conn: nat)
    requires Inv(s) && Legal(s, es) && conn in s.out
    requires conn in s.closed || forall k :: k in s.legacy ==> s.legacy[k] != conn
    ensures conn in Exec(s, es).out && Exec(s, es).out[conn] == s.out[conn]
    decreases es
  {
    if es == [] {
    } else {
      StepKeepsInv(s, es[0]);
      OutSettled(Step(s, es[0]), es[1..], conn);
    }
  }

  /** What one event adds for a key, and whether it ends the key's turn. */
  function Sent(e: Event, key: Key): seq<Bytes> {
    if e.Response? && IsChunk(e.data) && key == Key(e.devid, e.data[..18]) && |e.data| > 18
    then [e.data[18..]] else []
  }

  predicate Ends(e: Event, key: Key) {
    || e == DropLegacy(key)
    || (e.Response? && IsChunk(e.data) && key == Key(e.devid, e.data[..18]) && |e.data| == 18)
  }

  lemma OwedStep(es: seq<Event>, key: Key)
    requires es != []
    ensures Owed(es, key) == if Ends(es[0], key) then [] else Sent(es[0], key) + Owed(es[1..], key)
  {
    assert [] + Owed(es[1..], key) == Owed(es[1..], key);
  }

  lemma OutStep(s: State, e: Event, key: Key)
    requires Inv(s) && Enabled(s, e) && key in s.legacy && s.legacy[key] !in s.closed
    ensures var t := Step(s, e);
            && Inv(t)
            && s.legacy[key] in t.out && t.out[s.legacy[key]] == s.out[s.legacy[key]] + Sent(e, key)
            && (key in t.legacy && s.legacy[key] !in t.closed <==> !Ends(e, key))
            && (key in t.legacy ==> t.legacy[key] == s.legacy[key])
            && (Ends(e, key) ==> Sent(e, key) == [])
            && (forall k :: k in t.legacy && k != key ==> t.legacy[k] != s.legacy[key])
  {
    StepKeepsInv(s, e);
    assert s.out[s.legacy[key]] + [] == s.out[s.legacy[key]];
    if e.Response? && IsChunk(e.data) && key == Key(e.devid, e.data[..18]) {
      assert |e.data| == 18 <==> e.data[18..] == [];
    }
  }

  lemma {:induction false} OutExact(s: State, es: seq<Event>, key: Key)
    requires Inv(s) && Legal(s, es)
    requires key in s.legacy && s.legacy[key] !in s.closed
    ensures var conn := s.legacy[key];
            conn in Exec(s, es).out && Exec(s, es).out[conn] == s.out[conn] + Owed(es, key)
    decreases es
  {
    if es == [] {
    } else {
      var conn, t := s.legacy[key], Step(s, es[0]);
      OutStep(s, es[0], key);
      if key in t.legacy && conn !in t.closed {
        OutExact(t, es[1..], key);
        assert s.out[conn] + (Sent(es[0], key) + Owed(es[1..], key)) == t.out[conn] + Owed(es[1..], key);
      } else {
        OutSettled(t, es[1..], conn);
        assert s.out[conn] + Sent(es[0], key) == t.out[conn];
      }
      OwedStep(es, key);
    }
  }

  lemma {:induction false} ReplySettled(s: State, es: seq<Event>, streamId: Bytes)
    requires Inv(s) && Legal(s, es) && streamId in s.replies
    requires s.replies[streamId].Some? || streamId !in s.streams
    ensures streamId in Exec(s, es).replies && Exec(s, es).replies[streamId] == s.replies[streamId]
    decreases es
  {
    if es == [] {
    } else {
      StepKeepsInv(s, es[0]);
      ReplySettled(Step(s, es[0]), es[1..], streamId);
    }
  }

  lemma {:induction false} ReplyExact(s: State, es: seq<Event>, streamId: Bytes)
    requires Inv(s) && Legal(s, es)
    requires streamId in s.streams && s.replies[streamId] == None
    ensures streamId in Exec(s, es).replies
    ensures Exec(s, es).replies[streamId] == FirstReply(es, streamId, s.streams[streamId])
    decreases es
  {
    if es == [] {
    } else {
      var t := Step(s, es[0]);
      StepKeepsInv(s, es[0]);
      if streamId in t.streams && t.replies[streamId] == None {
        ReplyExact(t, es[1..], streamId);
      } else {
        ReplySettled(t, es[1..], streamId);
      }
    }
  }

  lemma {:induction false} ExecSplit(s: State, es: seq<Event>, fs: seq<Event>)
    requires Legal(s, es + fs) && Inv(s)
    ensures Legal(s, es) && Legal(Exec(s, es), fs) && Exec(s, es + fs) == Exec(Exec(s, es), fs)
    ensures Inv(Exec(s, es))
    decreases es
  {
    if es == [] {
      assert es + fs == fs;
    } else {
      assert (es + fs)[1..] == es[1..] + fs;
      StepKeepsInv(s, es[0]);
      ExecSplit(Step(s, es[0]), es[1..], fs);
    }
  }

  /** In every run from the start, under any interleaving: a legacy connection has been sent
      exactly what it is owed from the moment it was opened. */
  lemma LegacyConnectionExact(before: seq<Event>, key: Key, conn: nat, after: seq<Event>)
    requires Legal(EMPTY, before + ([OpenLegacy(key, conn)] + after))
    ensures var s := Exec(EMPTY, before + ([OpenLegacy(key, conn)] + after));
            conn in s.out && s.out[conn] == Owed(after, key)
  {
    var e := OpenLegacy(key, conn);
    ExecSplit(EMPTY, before, [e] + after);
    var s := Exec(EMPTY, before);
    assert ([e] + after)[1..] == after;
    StepKeepsInv(s, e);
    OutExact(Step(s, e), after, key);
  }

  /** And a token-proxy stream is answered with exactly its first reply. */
  lemma TokenStreamExact(before: seq<Event>, streamId: Bytes, tunnelId: Bytes, after: seq<Event>)
    requires Legal(EMPTY, before + ([OpenStream(streamId, tunnelId)] + after))
    ensures var s := Exec(EMPTY, before + ([OpenStream(streamId, tunnelId)] + after));
            streamId in s.replies && s.replies[streamId] == FirstReply(after, streamId, tunnelId)
  {
    var e := OpenStream(streamId, tunnelId);
    ExecSplit(EMPTY, before, [e] + after);
    var s := Exec(EMPTY, before);
    assert ([e] + after)[1..] == after;
    StepKeepsInv(s, e);
    ReplyExact(Step(s, e), after, streamId);
  }

  /** The mutable tables and the handler that the broker loop calls. */
  class Router {
    var legacy: map<Key, nat>
    var out: map<nat, seq<Bytes>>
    var closed: set<nat>
    var streams: map<Bytes, Bytes>
    var replies: map<Bytes, Option<Bytes>>

    ghost function Abs(): State reads this { State(legacy, out, closed, streams, replies) }

    constructor ()
      ensures Abs() == EMPTY
    {
      legacy, out, closed, streams, replies := map[], map[], {}, map[], map[];
    }

    method HandleHttpProxyResp(devid: Bytes, data: Payload)
      requires |data| >= 18 && Inv(Abs())
      modifies this
      ensures Abs() == Step(old(Abs()), Response(devid, data)) && Inv(Abs())
    {
      StepKeepsInv(Abs(), Response(devid, data));
      var parsed := ParseTunnelData(data);
      if parsed.Some? {
        var d := parsed.value;
        if d.direction == 1 && d.streamId in streams {
          if streams[d.streamId] != d.tunnelId { return; }
          if d.payload == [] {
            streams := streams - {d.streamId};
            return;
          }
          if replies[d.streamId].None? {
            replies := replies[d.streamId := Some(d.payload)];
          }
        }
        return;
      }
      var key, chunk := Key(devid, data[..18]), data[18..];
      if key in legacy {
        var conn := legacy[key];
        if chunk == [] {
          closed := closed + {conn};
        } else if conn !in closed {
          out := out[conn := out[conn] + [chunk]];
        }
      }
    }

    /** The registration in `doHttpProxy` and in the tunnel port's handler. */
    method Open(key: Key, conn: nat)
      requires key !in legacy && conn !in out
      modifies this
      ensures Abs() == Step(old(Abs()), OpenLegacy(key, conn))
    {
      legacy, out := legacy[key := conn], out[conn := []];
    }

    /** The registration in `handleTokenProxy`. */
    method Register(streamId: Bytes, tunnelId: Bytes)
      requires streamId !in replies
      modifies this
      ensures Abs() == Step(old(Abs()), OpenStream(streamId, tunnelId))
    {
      streams, replies := streams[streamId := tunnelId], replies[streamId := None];
    }
  }
}
