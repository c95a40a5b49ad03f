/** From the browser to the client's shell: what the page sends, what the broker makes of it, and
    what the client understands of the frame. */
module BrowserInput {
  import opened ByteStrings
  import opened Frames
  import opened Inbound
  import opened BrokerSpec

  /** What a user does in the page, besides acknowledging output. */
  datatype Input =
    | Keys(data: Bytes)
    | FileChunk(data: Bytes)
    | Resize(cols: nat, rows: nat)
    | Upload(size: nat, name: Bytes)
    | CancelUpload

  /** The message the page sends for it. */
  function Message(i: Input): (body: Body)
    ensures body != Binary([])
  {
    match i
    case Keys(data) => Binary([0] + data)
    case FileChunk(data) => Binary([1, FILE_DATA] + data)
    case Resize(cols, rows) => Winsize(cols, rows)
    case Upload(size, name) => FileInfo(size, name)
    case CancelUpload => FileCanceled
  }

  /** What the client does with a frame of its session. */
  datatype Effect = Effect(sid: Bytes, input: Input) | Nothing

  /** `handleTermData`, `handleWinsize` and the parsing in `handleFile`. */
  function Understand(f: Frame): Effect {
    var b := f.data;
    if |b| < 32 then Nothing
    else if f.typ == TERM_DATA then Effect(b[..32], Keys(b[32..]))
    else if f.typ == WINSIZE && |b| >= 36 then Effect(b[..32], Resize(Get16(b[32..34]), Get16(b[34..36])))
    else if f.typ == FILE && |b| >= 33 then
      if b[32] == FILE_INFO && |b| >= 37 then Effect(b[..32], Upload(Get32(b[33..37]), b[37..]))
      else if b[32] == FILE_DATA then Effect(b[..32], FileChunk(b[33..]))
      else if b[32] == FILE_ABORT then Effect(b[..32], CancelUpload)
      else Nothing
    else Nothing
  }

  /** What the fixed fields and one frame can hold. */
  predicate Fits(i: Input) {
    match i
    case Keys(data) => 32 + |data| <= MAX_FRAME
    case FileChunk(data) => 33 + |data| <= MAX_FRAME
    case Resize(cols, rows) => cols <= 0xFFFF && rows <= 0xFFFF
    case Upload(size, name) => size <= 0xFFFF_FFFF && 37 + |name| <= MAX_FRAME
    case CancelUpload => true
  }

  function ToFrame(sid: Bytes, i: Input): Frame
    requires |sid| == 32
  {
    var out := Forwarded(sid, Message(i)).value;
    Frame(out.0, out.1)
  }

  /** What a whole frame means: numbers keep what their fields can hold. */
  function Meaning(i: Input): Input {
    match i
    case Resize(cols, rows) => Resize(cols % 0x1_0000, rows % 0x1_0000)
    case Upload(size, name) => Upload(size % 0x1_0000_0000, name)
    case _ => i
  }

  lemma ResizeUnderstood(sid: Bytes, cols: nat, rows: nat)
    requires |sid| == 32
    ensures Understand(ToFrame(sid, Resize(cols, rows))) == Effect(sid, Meaning(Resize(cols, rows)))
  {
    var b := sid + Put16(cols) + Put16(rows);
    assert ToFrame(sid, Resize(cols, rows)) == Frame(WINSIZE, b);
    assert b[..32] == sid;
    assert b[32..34] == Put16(cols);
    assert b[34..36] == b[34..] == Put16(rows);
    Get16Put16(cols);
    Get16Put16(rows);
  }

  lemma UploadUnderstood(sid: Bytes, size: nat, name: Bytes)
    requires |sid| == 32
    ensures Understand(ToFrame(sid, Upload(size, name))) == Effect(sid, Meaning(Upload(size, name)))
  {
    var b := sid + [FILE_INFO] + Put32(size) + name;
    assert ToFrame(sid, Upload(size, name)) == Frame(FILE, b);
    assert b[..32] == sid && b[32] == FILE_INFO;
    assert b[33..37] == Put32(size);
    assert b[37..] == name;
    Get32Put32(size);
  }

  lemma ChunkUnderstood(sid: Bytes, data: Bytes)
    requires |sid| == 32
    ensures Understand(ToFrame(sid, FileChunk(data))) == Effect(sid, FileChunk(data))
  {
    var b := sid + [FILE_DATA] + data;
    assert ([1, FILE_DATA] + data)[1..] == [FILE_DATA] + data;
    assert sid + ([FILE_DATA] + data) == b;
    assert ToFrame(sid, FileChunk(data)) == Frame(FILE, b);
    assert b[..32] == sid && b[33..] == data;
  }

  /** Of a whole frame the client understands what was meant, up to the width of the numbers. */
  lemma UnderstoodFrame(sid: Bytes, i: Input)
    requires |sid| == 32
    ensures Understand(ToFrame(sid, i)) == Effect(sid, Meaning(i))
  {
    match i
    case Resize(cols, rows) => ResizeUnderstood(sid, cols, rows);
    case Upload(size, name) => UploadUnderstood(sid, size, name);
    case FileChunk(data) => ChunkUnderstood(sid, data);
    case Keys(data) =>
      var b := ToFrame(sid, i).data;
      assert b == sid + data;
      assert b[..32] == sid && b[32..] == data;
    case CancelUpload =>
      assert ToFrame(sid, i).data[..32] == sid;
  }

  /** The length of an input's frame. */
  function Length(i: Input): nat {
    match i
    case Keys(data) => 32 + |data|
    case FileChunk(data) => 33 + |data|
    case Resize(_, _) => 36
    case Upload(_, name) => 37 + |name|
    case CancelUpload => 33
  }

  lemma LengthOfFrame(sid: Bytes, i: Input)
    requires |sid| == 32
    ensures |ToFrame(sid, i).data| == Length(i)
  {
  }

  /** No frame means an input that is longer than itself. */
  lemma LengthOfEffect(f: Frame)
    ensures Understand(f).Effect? ==> Length(Understand(f).input) <= |f.data|
  {
  }

  lemma FitsIff(i: Input)
    ensures Fits(i) <==> Meaning(i) == i && Length(i) <= MAX_FRAME
  {
  }

  /** Written to the device's connection, whatever follows, the input is what the client takes from
      it exactly when it fits. */
  lemma InputReachesClient(sid: Bytes, i: Input, tail: Bytes)
    requires |sid| == 32
    ensures var f := ToFrame(sid, i);
            var d := Decode(WriteMsg(f.typ, f.data) + tail, CLIENT_MAX_TYPE);
            d.frames != [] && (Understand(d.frames[0]) == Effect(sid, i) <==> Fits(i))
  {
    var f := ToFrame(sid, i);
    DecodeFrame(f.typ, f.data, tail, CLIENT_MAX_TYPE);
    UnderstoodFrame(sid, i);
    LengthOfFrame(sid, i);
    LengthOfEffect(Decode(WriteMsg(f.typ, f.data) + tail, CLIENT_MAX_TYPE).frames[0]);
    FitsIff(i);
  }

  /** The frames of a user's messages, byte by byte: the type, the session id, then the message's own
      fields, numbers with their most significant byte first. Other texts write nothing. */
  lemma ForwardedBytes(sid: Bytes, body: Body)
    requires |sid| == 32 && body != Binary([])
    ensures match body
            case Binary(data) => Forwarded(sid, body) == Some((if data[0] == 1 then 7 else 3, sid + data[1..]))
            case Winsize(cols, rows) =>
              && Forwarded(sid, body).Some?
              && var (typ, b) := Forwarded(sid, body).value;
                 && typ == 4 && |b| == 36 && b[..32] == sid
                 && 256 * (b[32] as int) + b[33] == cols % 0x1_0000 && 256 * (b[34] as int) + b[35] == rows % 0x1_0000
            case Ack(n) =>
              && Forwarded(sid, body).Some?
              && var (typ, b) := Forwarded(sid, body).value;
                 typ == 9 && |b| == 34 && b[..32] == sid && 256 * (b[32] as int) + b[33] == n % 0x1_0000
            case FileInfo(size, name) =>
              && Forwarded(sid, body).Some?
              && var (typ, b) := Forwarded(sid, body).value;
                 && typ == 7 && |b| == 37 + |name| && b[..32] == sid && b[32] == 2 && b[37..] == name
                 && 0x100_0000 * (b[33] as int) + 0x1_0000 * (b[34] as int) + 0x100 * (b[35] as int) + b[36] == size % 0x1_0000_0000
            case FileCanceled => Forwarded(sid, body) == Some((7, sid + [5]))
            case OtherText => Forwarded(sid, body) == None
  {
    match body
    case Winsize(cols, rows) =>
      BigEndian(cols);
      BigEndian(rows);
    case Ack(n) => BigEndian(n);
    case FileInfo(size, name) => BigEndian(size);
    case FileCanceled =>
      var none: Bytes := Zeros(0);
      assert sid + none == sid;
    case _ =>
  }

  /** What the page makes of the number in a login message. */
  function LoginOutcome(code: nat): LoginError {
    if code == 0x01 then DeviceOffline else if code == 0x02 then DeviceBusy else NoError
  }

  lemma LoginUnderstood(err: LoginError)
    ensures LoginOutcome(LoginCode(err)) == err && (LoginCode(err) == 0 <==> err == NoError)
  {
  }
}
