/** Tunnel messages on the connection between server and client: of any size, written as one frame,
    whatever follows. */
module TunnelWire {
  import opened ByteStrings
  import opened Frames
  import opened Inbound
  import opened TunnelMessages

  /** The first frame the client takes from its connection. */
  function FirstFrame(stream: Bytes): Frame
    requires Decode(stream, CLIENT_MAX_TYPE).frames != []
  {
    Decode(stream, CLIENT_MAX_TYPE).frames[0]
  }

  /** The client's first frame is the message if it fits, and else a shorter one. */
  lemma FirstFrameOf(data: Bytes, tail: Bytes)
    ensures var stream := WriteMsg(HTTP, data) + tail;
            && Decode(stream, CLIENT_MAX_TYPE).frames != []
            && FirstFrame(stream).typ == HTTP && |FirstFrame(stream).data| <= MAX_FRAME
            && (|data| <= MAX_FRAME ==> FirstFrame(stream).data == data)
            && (|data| > MAX_FRAME ==> |FirstFrame(stream).data| < |data|)
  {
    DecodeFrame(HTTP, data, tail, CLIENT_MAX_TYPE);
  }

  /** No message makes the client proxy a request, or open a tunnel, longer than what is left of it
      after the header. */
  lemma ActionIsShorter(data: Payload)
    ensures HandleHTTP(data).Proxy? ==> HEADER + |HandleHTTP(data).request| <= |data|
    ensures HandleHTTP(data).Open? ==> |data| == 67 + |HandleHTTP(data).proto|
  {
  }

  /** A data request of any size, written to the device, is proxied as it was meant exactly when its
      ids fit their fields and the whole fits one frame. */
  lemma RequestReachesClient(tunnelId: Bytes, streamId: Bytes, request: Bytes, tail: Bytes)
    ensures var stream := WriteMsg(HTTP, BuildTunnelData(tunnelId, streamId, 0, request)) + tail;
            && Decode(stream, CLIENT_MAX_TYPE).frames != [] && |FirstFrame(stream).data| <= MAX_FRAME
            && (HandleHTTP(FirstFrame(stream).data) == Proxy(tunnelId, streamId, request)
                <==> DataFits(tunnelId, streamId, 0) && HEADER + |request| <= MAX_FRAME)
  {
    var data := BuildTunnelData(tunnelId, streamId, 0, request);
    FirstFrameOf(data, tail);
    ActionIsShorter(FirstFrame(WriteMsg(HTTP, data) + tail).data);
    if HEADER + |request| <= MAX_FRAME {
      RequestDispatched(tunnelId, streamId, request);
    }
  }

  /** The same for a create message; a protocol name that fits its field also fits the frame. */
  lemma CreateReachesClient(tunnelId: Bytes, port: int, proto: Bytes, tail: Bytes)
    ensures var stream := WriteMsg(HTTP, BuildTunnelCreate(tunnelId, port, proto)) + tail;
            && Decode(stream, CLIENT_MAX_TYPE).frames != [] && |FirstFrame(stream).data| <= MAX_FRAME
            && (HandleHTTP(FirstFrame(stream).data) == Open(tunnelId, port, proto)
                <==> |tunnelId| <= 64 && NoTrailingNul(tunnelId) && 0 <= port <= 0xFFFF && ProtoFits(proto))
  {
    var data := BuildTunnelCreate(tunnelId, port, proto);
    FirstFrameOf(data, tail);
    ActionIsShorter(FirstFrame(WriteMsg(HTTP, data) + tail).data);
    if 67 + |proto| <= MAX_FRAME {
      CreateDispatched(tunnelId, port, proto);
    }
  }

  /** The client sends no response that exceeds a frame; one that fits is what the server parses,
      exactly when the ids fit. */
  lemma ResponseReachesServer(tunnelId: Bytes, streamId: Bytes, chunk: Bytes, tail: Bytes)
    ensures var written := ClientWriteMsg(HTTP, BuildTunnelData(tunnelId, streamId, 1, chunk));
            && (written.Some? <==> HEADER + |chunk| <= MAX_FRAME)
            && (written.Some? ==>
                  var d := Decode(written.value + tail, SERVER_MAX_TYPE);
                  && d.frames != [] && d.frames[0].typ == HTTP && |d.frames[0].data| <= MAX_FRAME
                  && (ParseTunnelData(d.frames[0].data) == Some(TunnelData(tunnelId, streamId, 1, chunk))
                      <==> DataFits(tunnelId, streamId, 1)))
  {
    var data := BuildTunnelData(tunnelId, streamId, 1, chunk);
    DecodeFrame(HTTP, data, tail, SERVER_MAX_TYPE);
    if |data| <= MAX_FRAME {
      DataRoundTrip(tunnelId, streamId, 1, chunk);
    }
  }
}
