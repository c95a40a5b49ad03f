/** Byte strings, fixed-width big-endian numbers and the padding helpers that every
    message of the protocol uses. A Go `string` or `[]byte` is a `Bytes` throughout. */
module ByteStrings {

  type byte = b: int | 0 <= b < 256

  type Bytes = seq<byte>

  /** What `GenUniqueID` returns: 32 hexadecimal digits. */
  type UniqueId = s: Bytes | |s| == 32 && forall i :: 0 <= i < |s| ==> HexDigit(s[i])
    witness seq(32, _ => 48)

  datatype Option<+T> = None | Some(value: T)

  /** The bytes of an ASCII text. */
  function Ascii(s: string): (b: Bytes)
    ensures |b| == |s|
  {
    seq(|s|, i requires 0 <= i < |s| => s[i] as int % 256)
  }

  predicate HexDigit(b: byte) { 48 <= b <= 57 || 97 <= b <= 102 }

  /** `binary.BigEndian.PutUint16` of a value converted with `uint16(n)`, which wraps. */
  function Put16(n: int): (b: Bytes)
    ensures |b| == 2
  {
    [n % 0x1_0000 / 256, n % 256]
  }

  function Get16(b: Bytes): (n: nat)
    requires |b| >= 2
    ensures n < 0x1_0000
  {
    var hi: int, lo: int := b[0], b[1];
    256 * hi + lo
  }

  /** `binary.BigEndian.PutUint32` of a value converted with `uint32(n)`. */
  function Put32(n: int): (b: Bytes)
    ensures |b| == 4
  {
    Put16(n % 0x1_0000_0000 / 0x1_0000) + Put16(n)
  }

  function Get32(b: Bytes): (n: nat)
    requires |b| >= 4
    ensures n < 0x1_0000_0000
  {
    Get16(b) * 0x1_0000 + Get16(b[2..])
  }

  /** Most significant byte first. */
  lemma BigEndian(n: int)
    ensures 0x100 * (Put16(n)[0] as int) + Put16(n)[1] == n % 0x1_0000
    ensures 0x100_0000 * (Put32(n)[0] as int) + 0x1_0000 * (Put32(n)[1] as int) + 0x100 * (Put32(n)[2] as int) + Put32(n)[3]
            == n % 0x1_0000_0000
  {
    Get16Put16(n);
    Get32Put32(n);
    assert Put32(n)[2..][0] == Put32(n)[2] && Put32(n)[2..][1] == Put32(n)[3];
  }

  lemma ModOfMod(n: int, a: int, b: int)
    requires a > 0 && b > 0
    ensures a * b > 0 && n % (a * b) % b == n % b
  {
    var q, m := n / (a * b), n % (a * b);
    assert n == b * (a * q) + m;
    var x, y := n / b, m / b;
    assert n == b * x + n % b && m == b * y + m % b;
    assert b * (x - a * q - y) == m % b - n % b;
    SmallMultiple(x - a * q - y, b, m % b - n % b);
  }

  lemma SmallMultiple(k: int, b: int, d: int)
    requires b > 0 && b * k == d && -b < d < b
    ensures d == 0
  {
    assert k >= 1 ==> b * k >= b;
    assert k <= -1 ==> b * k <= -b;
  }

  lemma Get16Put16(n: int)
    ensures Get16(Put16(n)) == n % 0x1_0000
  {
    ModOfMod(n, 256, 256);
  }

  lemma Get32Put32(n: int)
    ensures Get32(Put32(n)) == n % 0x1_0000_0000
  {
    var m := n % 0x1_0000_0000;
    Get16Put16(m / 0x1_0000);
    Get16Put16(n);
    assert Put32(n)[2..] == Put16(n);
    ModOfMod(n, 0x1_0000, 0x1_0000);
    assert Get16(Put32(n)) == Get16(Put16(m / 0x1_0000));
  }

  /** The four bytes `Get32` reads are the ones `Put32` writes for that number. */
  lemma Put32Get32(b: Bytes)
    requires |b| == 4
    ensures Put32(Get32(b)) == b
  {
    var hi, lo := Get16(b), Get16(b[2..]);
    var n := Get32(b);
    assert n % 0x1_0000_0000 == n && n / 0x1_0000 == hi && n % 0x1_0000 == lo;
    assert n % 256 == lo % 256;
    assert Put16(hi) == b[..2] && Put16(n) == b[2..];
  }

  function Zeros(n: nat): (z: Bytes)
    ensures |z| == n && forall i :: 0 <= i < n ==> z[i] == 0
  {
    seq(n, _ => 0)
  }

  /** `copy(buf[:n], s)` into a zeroed field of `n` bytes: truncates or pads with NULs. */
  function Field(s: Bytes, n: nat): (f: Bytes)
    ensures |f| == n
    ensures forall i :: 0 <= i < n ==> f[i] == if i < |s| then s[i] else 0
  {
    if |s| >= n then s[..n] else s + Zeros(n - |s|)
  }

  /** `strings.TrimRight(s, "\x00")`. */
  function TrimNuls(s: Bytes): (t: Bytes)
    ensures |t| <= |s| && t == s[..|t|]
    ensures NoTrailingNul(t)
    ensures forall i :: |t| <= i < |s| ==> s[i] == 0
  {
    if |s| > 0 && s[|s| - 1] == 0 then TrimNuls(s[..|s| - 1]) else s
  }

  predicate NoTrailingNul(s: Bytes) { |s| == 0 || s[|s| - 1] != 0 }

  /** A fixed-width field gives back exactly the names that fit it and do not end in NUL. */
  lemma TrimField(s: Bytes, n: nat)
    ensures TrimNuls(Field(s, n)) == s <==> |s| <= n && NoTrailingNul(s)
  {
    var f := Field(s, n);
    var t := TrimNuls(f);
    if |s| <= n && NoTrailingNul(s) {
      assert f[..|s|] == s;
      assert |s| > 0 ==> f[|s| - 1] == s[|s| - 1];
      assert forall i :: |s| <= i < n ==> f[i] == 0;
    }
  }

  /** Trimming loses nothing that the field width does not restore. */
  lemma FieldTrim(f: Bytes)
    ensures Field(TrimNuls(f), |f|) == f
  {
  }

  /** `bytes.Split(s, []byte{sep})`. */
  function Split(s: Bytes, sep: byte): (parts: seq<Bytes>)
    ensures |parts| > 0
    ensures forall p :: p in parts ==> sep !in p && |p| <= |s|
  {
    if s == [] then [[]]
    else
      var rest := Split(s[1..], sep);
      if s[0] == sep then [[]] + rest else [[s[0]] + rest[0]] + rest[1..]
  }

  /** `strings.Join(parts, sep)`. */
  function Join(parts: seq<Bytes>, sep: byte): Bytes {
    if parts == [] then [] else if |parts| == 1 then parts[0]
    else parts[0] + [sep] + Join(parts[1..], sep)
  }

  lemma {:induction false} SplitNone(a: Bytes, sep: byte)
    requires sep !in a
    ensures Split(a, sep) == [a]
  {
    if a == [] {
    } else {
      SplitNone(a[1..], sep);
      assert a[0] in a && [a[0]] + a[1..] == a;
    }
  }

  lemma {:induction false} SplitConcat(a: Bytes, b: Bytes, sep: byte)
    ensures Split(a + [sep] + b, sep) == Split(a, sep) + Split(b, sep)
  {
    var s := a + [sep] + b;
    if a == [] {
      assert s[1..] == b;
    } else {
      assert s[0] == a[0] && s[1..] == a[1..] + [sep] + b;
      SplitConcat(a[1..], b, sep);
      SplitHead(a, sep);
      SplitHead(s, sep);
      HeadConcat(a[0], Split(a[1..], sep), Split(b, sep), sep);
    }
  }

  function Head(c: byte, parts: seq<Bytes>, sep: byte): seq<Bytes>
    requires parts != []
  {
    if c == sep then [[]] + parts else [[c] + parts[0]] + parts[1..]
  }

  lemma SplitHead(s: Bytes, sep: byte)
    requires s != []
    ensures Split(s, sep) == Head(s[0], Split(s[1..], sep), sep)
  {
  }

  lemma HeadConcat(c: byte, a: seq<Bytes>, b: seq<Bytes>, sep: byte)
    requires a != []
    ensures Head(c, a + b, sep) == Head(c, a, sep) + b
  {
    assert (a + b)[0] == a[0] && (a + b)[1..] == a[1..] + b;
  }

  lemma SplitFirst(a: Bytes, b: Bytes, sep: byte)
    requires sep !in a
    ensures Split(a + [sep] + b, sep) == [a] + Split(b, sep)
  {
    SplitConcat(a, b, sep);
    SplitNone(a, sep);
  }

  lemma {:induction false} SplitJoin(parts: seq<Bytes>, sep: byte)
    requires parts != [] && forall p :: p in parts ==> sep !in p
    ensures Split(Join(parts, sep), sep) == parts
  {
    assert parts[0] in parts;
    if |parts| == 1 {
      SplitNone(parts[0], sep);
    } else {
      SplitJoin(parts[1..], sep);
      SplitFirst(parts[0], Join(parts[1..], sep), sep);
    }
  }
}
