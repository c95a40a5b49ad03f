/** The messages that travel in `msgTypeHttp` frames: tunnel data, tunnel create and revoke,
    and the legacy HTTP proxy header; how the client's `handleHTTP` tells them apart. */
module TunnelMessages {
  import opened ByteStrings

  /** The payload of one frame. */
  type Payload = s: Bytes | |s| <= 0xFFFF

  datatype TunnelData = TunnelData(tunnelId: Bytes, streamId: Bytes, direction: byte, payload: Bytes)
  datatype TunnelCreate = TunnelCreate(tunnelId: Bytes, port: nat, proto: Bytes)
  datatype Legacy = Legacy(src: Bytes, ip: Bytes, port: nat, payload: Bytes)

  const HEADER := 101

  // ----- Tunnel data -----

  /** `buildTunnelDataMsg`, on both sides. */
  function BuildTunnelData(tunnelId: Bytes, streamId: Bytes, direction: byte, data: Bytes): (msg: Bytes)
    ensures |msg| == HEADER + |data|
  {
    Field(tunnelId, 64) + Field(streamId, 32) + [direction] + Put32(|data|) + data
  }

  /** `parseTunnelDataMsg`, on both sides (they test the same conditions in another order). */
  function ParseTunnelData(data: Payload): Option<TunnelData> {
    if |data| < HEADER then None
    else
      var streamId := TrimNuls(data[64..96]);
      var len := Get32(data[97..101]);
      if streamId == [] || data[96] > 1 || |data| < HEADER + len then None
      else Some(TunnelData(TrimNuls(data[..64]), streamId, data[96], data[HEADER..HEADER + len]))
  }

  lemma DataFields(tunnelId: Bytes, streamId: Bytes, direction: byte, data: Bytes)
    ensures var msg := BuildTunnelData(tunnelId, streamId, direction, data);
            && msg[..64] == Field(tunnelId, 64)
            && msg[64..96] == Field(streamId, 32)
            && msg[96] == direction
            && msg[97..101] == Put32(|data|)
            && msg[101..] == data
            && Get32(msg[97..101]) == |data| % 0x1_0000_0000
  {
    Get32Put32(|data|);
  }

  /** What the fixed fields of a data message can carry. */
  predicate DataFits(tunnelId: Bytes, streamId: Bytes, direction: byte) {
    && |tunnelId| <= 64 && NoTrailingNul(tunnelId)
    && 0 < |streamId| <= 32 && NoTrailingNul(streamId)
    && direction <= 1
  }

  /** What a data message in one frame parses to: its fields as far as they carry them. */
  lemma DataParses(tunnelId: Bytes, streamId: Bytes, direction: byte, data: Bytes)
    requires HEADER + |data| <= 0xFFFF
    ensures var stream := TrimNuls(Field(streamId, 32));
            ParseTunnelData(BuildTunnelData(tunnelId, streamId, direction, data))
            == if stream == [] || direction > 1 then None
               else Some(TunnelData(TrimNuls(Field(tunnelId, 64)), stream, direction, data))
  {
    var msg := BuildTunnelData(tunnelId, streamId, direction, data);
    DataFields(tunnelId, streamId, direction, data);
    assert msg[HEADER..HEADER + |data|] == msg[HEADER..] == data;
  }

  /** A data message in one frame parses back to its fields exactly when they fit. */
  lemma DataRoundTrip(tunnelId: Bytes, streamId: Bytes, direction: byte, data: Bytes)
    requires HEADER + |data| <= 0xFFFF
    ensures ParseTunnelData(BuildTunnelData(tunnelId, streamId, direction, data))
              == Some(TunnelData(tunnelId, streamId, direction, data))
            <==> DataFits(tunnelId, streamId, direction)
  {
    DataParses(tunnelId, streamId, direction, data);
    TrimField(tunnelId, 64);
    TrimField(streamId, 32);
  }

  /** Nothing is lost in parsing: whatever parses is rebuilt to the bytes it was read from. */
  lemma ParseThenBuild(data: Payload)
    requires ParseTunnelData(data).Some?
    ensures var d := ParseTunnelData(data).value;
            BuildTunnelData(d.tunnelId, d.streamId, d.direction, d.payload) == data[..HEADER + |d.payload|]
  {
    var d := ParseTunnelData(data).value;
    FieldTrim(data[..64]);
    FieldTrim(data[64..96]);
    Put32Get32(data[97..101]);
    var n := HEADER + |d.payload|;
    assert data[..n] == data[..64] + data[64..96] + [data[96]] + data[97..101] + data[101..n];
  }

  // ----- Create and revoke -----

  /** `buildTunnelCreateMsg`: port and protocol length are cut to their fields. */
  function BuildTunnelCreate(tunnelId: Bytes, port: int, proto: Bytes): (msg: Bytes)
    ensures |msg| == 67 + |proto|
  {
    Field(tunnelId, 64) + Put16(port) + [|proto| % 256] + proto
  }

  /** The client's `parseTunnelCreateMsg`. */
  function ParseTunnelCreate(data: Bytes): Option<TunnelCreate> {
    if |data| < 67 then None
    else
      var n: nat := data[66];
      if |data| != 67 + n then None
      else Some(TunnelCreate(TrimNuls(data[..64]), Get16(data[64..66]), data[67..67 + n]))
  }

  /** `buildTunnelRevokeMsg`. */
  function BuildTunnelRevoke(tunnelId: Bytes): Bytes { Field(tunnelId, 64) }

  // ----- The legacy proxy header -----

  /** `tcpAddr2Bytes`: the port, then the 4- or 16-byte address copied into 16 bytes. */
  function TcpAddr2Bytes(port: int, ip: Bytes): (b: Bytes)
    ensures |b| == 18
  {
    Put16(port) + Field(ip, 16)
  }

  /** Connections from different addresses or ports have different keys, for addresses of one kind. */
  lemma KeysDiffer(port1: int, ip1: Bytes, port2: int, ip2: Bytes)
    requires 0 <= port1 <= 0xFFFF && 0 <= port2 <= 0xFFFF && |ip1| == |ip2| <= 16
    ensures TcpAddr2Bytes(port1, ip1) == TcpAddr2Bytes(port2, ip2) <==> port1 == port2 && ip1 == ip2
  {
    var a, b := TcpAddr2Bytes(port1, ip1), TcpAddr2Bytes(port2, ip2);
    assert a[..2] == Put16(port1) && b[..2] == Put16(port2) && a[2..] == Field(ip1, 16) && b[2..] == Field(ip2, 16);
    Get16Put16(port1);
    Get16Put16(port2);
    assert Field(ip1, 16)[..|ip1|] == ip1 && Field(ip2, 16)[..|ip2|] == ip2;
  }

  /** `genDestAddr` of an address that parsed: four address bytes and a port. */
  function GenDestAddr(ip: Bytes, port: int): (b: Bytes)
    ensures |b| == 6
  {
    Field(ip, 4) + Put16(port)
  }

  /** `HttpProxyWriter.Write` sends a flag byte to devices of protocol 4 and up; for protocol 3,
      and on the raw websocket path, there is none. */
  function BuildLegacy(flag: Option<bool>, src: Bytes, dest: Bytes, payload: Bytes): Bytes {
    (match flag case None => [] case Some(https) => [if https then 1 else 0]) + src + dest + payload
  }

  /** The header part of the client's `handleLegacyHTTPProxy`. */
  function ParseLegacy(data: Bytes): Option<Legacy> {
    var offset := if |data| >= 19 && data[0] <= 1 then 1 else 0;
    if |data| < offset + 24 then None
    else
      var dest := data[offset + 18..offset + 24];
      Some(Legacy(data[offset..offset + 18], dest[..4], Get16(dest[4..6]), data[offset + 24..]))
  }

  /** The header is recovered exactly when a flag was sent or the source port cannot look like one. */
  lemma LegacyRecovered(flag: Option<bool>, srcPort: int, srcIp: Bytes, ip: Bytes, port: int, payload: Bytes)
    requires 0 <= srcPort <= 0xFFFF && 0 <= port <= 0xFFFF && |ip| == 4
    ensures var src := TcpAddr2Bytes(srcPort, srcIp);
            ParseLegacy(BuildLegacy(flag, src, GenDestAddr(ip, port), payload)) == Some(Legacy(src, ip, port, payload))
            <==> flag.Some? || srcPort >= 512
  {
    var src, dest := TcpAddr2Bytes(srcPort, srcIp), GenDestAddr(ip, port);
    var data := BuildLegacy(flag, src, dest, payload);
    var at := if flag.Some? then 1 else 0;
    assert data[at..at + 18] == src && data[at + 18..at + 24] == dest && data[at + 24..] == payload;
    assert data[at] == srcPort / 256;
    assert dest[..4] == ip && dest[4..6] == Put16(port);
    Get16Put16(port);
    if flag.None? && srcPort < 512 && ParseLegacy(data).Some? {
      assert |ParseLegacy(data).value.payload| == |payload| - 1;
    }
  }

  /** `HttpProxyWriter.Write` to a device of some protocol version. */
  function WriteLegacy(proto: byte, https: bool, src: Bytes, dest: Bytes, payload: Bytes): Bytes {
    BuildLegacy(if proto > 3 then Some(https) else None, src, dest, payload)
  }

  /** A request is recovered exactly when the device has protocol 4 or more or the source port is at
      least 512; in the first case the first byte says whether the target speaks HTTPS. */
  lemma WrittenLegacyRecovered(proto: byte, https: bool, srcPort: int, srcIp: Bytes, ip: Bytes, port: int, payload: Bytes)
    requires 0 <= srcPort <= 0xFFFF && 0 <= port <= 0xFFFF && |ip| == 4
    ensures var src := TcpAddr2Bytes(srcPort, srcIp);
            var data := WriteLegacy(proto, https, src, GenDestAddr(ip, port), payload);
            && (ParseLegacy(data) == Some(Legacy(src, ip, port, payload)) <==> proto >= 4 || srcPort >= 512)
            && (proto >= 4 ==> (data[0] == 1 <==> https) && (data[0] == 0 <==> !https))
  {
    LegacyRecovered(if proto > 3 then Some(https) else None, srcPort, srcIp, ip, port, payload);
  }

  // ----- Telling them apart -----

  /** What `handleHTTP` decides to do with a message. */
  datatype Action =
    | Proxy(tunnelId: Bytes, streamId: Bytes, request: Bytes)
    | Ignore
    | Open(tunnelId: Bytes, port: int, proto: Bytes)
    | Close(tunnelId: Bytes)
    | ProxyLegacy(legacy: Option<Legacy>)

  function HandleHTTP(data: Payload): Action {
    match ParseTunnelData(data)
    case Some(d) => if d.direction == 0 then Proxy(d.tunnelId, d.streamId, d.payload) else Ignore
    case None =>
      match ParseTunnelCreate(data)
      case Some(c) => Open(c.tunnelId, c.port, c.proto)
      case None =>
        if |data| == 64 then Close(TrimNuls(data)) else ProxyLegacy(ParseLegacy(data))
  }

  /** A data request is proxied with its own fields exactly when they fit. */
  lemma RequestDispatched(tunnelId: Bytes, streamId: Bytes, request: Bytes)
    requires HEADER + |request| <= 0xFFFF
    ensures HandleHTTP(BuildTunnelData(tunnelId, streamId, 0, request)) == Proxy(tunnelId, streamId, request)
            <==> DataFits(tunnelId, streamId, 0)
  {
    DataRoundTrip(tunnelId, streamId, 0, request);
  }

  /** A response that comes the wrong way is ignored. */
  lemma ResponseIgnored(tunnelId: Bytes, streamId: Bytes, chunk: Bytes)
    requires HEADER + |chunk| <= 0xFFFF && DataFits(tunnelId, streamId, 1)
    ensures HandleHTTP(BuildTunnelData(tunnelId, streamId, 1, chunk)) == Ignore
  {
    DataRoundTrip(tunnelId, streamId, 1, chunk);
  }

  /** A protocol name that a create message can carry without being taken for tunnel data:
      at most 33 bytes, or else bytes 29 to 33 do not form a direction and a covered length. */
  predicate ProtoFits(proto: Bytes) {
    && |proto| <= 255
    && (|proto| <= 33 || proto[29] > 1 || Get32(proto[30..34]) > |proto| - 34)
  }

  lemma CreateFields(tunnelId: Bytes, port: int, proto: Bytes)
    ensures var msg := BuildTunnelCreate(tunnelId, port, proto);
            && msg[..64] == Field(tunnelId, 64)
            && msg[64..66] == Put16(port)
            && Get16(msg[64..66]) == port % 0x1_0000
            && msg[66] == |proto| % 256
            && msg[67..] == proto
  {
    Get16Put16(port);
  }

  /** A create message seen as tunnel data: its stream id would hold the port and the
      length byte, its direction and length would come from the protocol name. */
  lemma CreateAsData(tunnelId: Bytes, port: int, proto: Bytes)
    requires 34 <= |proto| <= 255
    ensures ParseTunnelData(BuildTunnelCreate(tunnelId, port, proto)).None?
            <==> proto[29] > 1 || Get32(proto[30..34]) > |proto| - 34
  {
    var msg := BuildTunnelCreate(tunnelId, port, proto);
    CreateFields(tunnelId, port, proto);
    assert msg[96] == proto[29];
    assert msg[97..101] == msg[67..][30..34];
    assert msg[64..96][2] == |proto|;
  }

  /** What becomes of a create message: with a fitting protocol name it opens the tunnel,
      with any other it neither opens nor closes one. */
  lemma CreateOutcome(tunnelId: Bytes, port: int, proto: Bytes)
    requires 67 + |proto| <= 0xFFFF
    ensures var action := HandleHTTP(BuildTunnelCreate(tunnelId, port, proto));
            if ProtoFits(proto) then action == Open(TrimNuls(Field(tunnelId, 64)), port % 0x1_0000, proto)
            else !action.Open? && !action.Close?
  {
    var msg := BuildTunnelCreate(tunnelId, port, proto);
    CreateFields(tunnelId, port, proto);
    if 34 <= |proto| <= 255 {
      CreateAsData(tunnelId, port, proto);
    }
    if |proto| <= 255 {
      assert msg[67..67 + |proto|] == proto;
    }
  }

  /** The client opens the tunnel the server meant exactly when id, port and protocol fit. */
  lemma CreateDispatched(tunnelId: Bytes, port: int, proto: Bytes)
    requires 67 + |proto| <= 0xFFFF
    ensures HandleHTTP(BuildTunnelCreate(tunnelId, port, proto)) == Open(tunnelId, port, proto)
            <==> |tunnelId| <= 64 && NoTrailingNul(tunnelId) && 0 <= port <= 0xFFFF && ProtoFits(proto)
  {
    CreateOutcome(tunnelId, port, proto);
    TrimField(tunnelId, 64);
  }

  /** A revoke message closes the tunnel it was built for exactly when the id fits its field. */
  lemma RevokeDispatched(tunnelId: Bytes)
    ensures HandleHTTP(BuildTunnelRevoke(tunnelId)) == Close(TrimNuls(Field(tunnelId, 64)))
    ensures HandleHTTP(BuildTunnelRevoke(tunnelId)) == Close(tunnelId)
            <==> |tunnelId| <= 64 && NoTrailingNul(tunnelId)
  {
    TrimField(tunnelId, 64);
  }
}
