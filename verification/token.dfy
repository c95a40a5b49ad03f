/** Access tokens: base64url without padding (sections 3.2 and 5 of RFC 4648) of a signature,
    a dot, and base64url of the tunnel id. The HMAC signature is any 32 bytes. */
module AccessTokens {
  import opened ByteStrings

  type Signature = s: Bytes | |s| == 32 witness Zeros(32)

  type sextet = v: int | 0 <= v < 64

  const DOT: byte := 46

  /** The URL-safe alphabet: A-Z, a-z, 0-9, '-' and '_'. */
  function Char(v: sextet): (c: byte)
    ensures Value(c) == Some(v) && c != DOT && c != 10 && c != 13
  {
    if v < 26 then 65 + v else if v < 52 then 71 + v else if v < 62 then v - 4 else if v == 62 then 45 else 95
  }

  function Value(c: byte): Option<sextet> {
    if 65 <= c <= 90 then Some(c - 65)
    else if 97 <= c <= 122 then Some(c - 71)
    else if 48 <= c <= 57 then Some(c + 4)
    else if c == 45 then Some(62)
    else if c == 95 then Some(63)
    else None
  }

  /** Regrouping bytes into sextets, the last one filled up with zero bits. */
  function Sextets(b: Bytes): seq<sextet> {
    if |b| == 0 then []
    else if |b| == 1 then [b[0] / 4, b[0] % 4 * 16]
    else if |b| == 2 then [b[0] / 4, b[0] % 4 * 16 + b[1] / 16, b[1] % 16 * 4]
    else [b[0] / 4, b[0] % 4 * 16 + b[1] / 16, b[1] % 16 * 4 + b[2] / 64, b[2] % 64] + Sextets(b[3..])
  }

  function Chars(v: seq<sextet>): (s: Bytes)
    ensures |s| == |v| && forall i :: 0 <= i < |v| ==> s[i] == Char(v[i])
  {
    seq(|v|, i requires 0 <= i < |v| => Char(v[i]))
  }

  function Encode(b: Bytes): Bytes { Chars(Sextets(b)) }

  /** The decoder skips line breaks and refuses any other foreign character. */
  function Values(s: Bytes): Option<seq<sextet>> {
    if s == [] then Some([])
    else if s[0] == 10 || s[0] == 13 then Values(s[1..])
    else match (Value(s[0]), Values(s[1..]))
      case (Some(v), Some(rest)) => Some([v] + rest)
      case _ => None
  }

  /** Regrouping sextets into bytes; one left-over sextet is an error, spare bits are dropped. */
  function FromSextets(v: seq<sextet>): Option<Bytes> {
    if |v| == 0 then Some([])
    else if |v| == 1 then None
    else
      var b0 := v[0] as int * 4 + v[1] / 16;
      if |v| == 2 then Some([b0])
      else
        var b1 := v[1] % 16 as int * 16 + v[2] / 4;
        if |v| == 3 then Some([b0, b1])
        else match FromSextets(v[4..])
          case None => None
          case Some(rest) => Some([b0, b1, v[2] % 4 as int * 64 + v[3]] + rest)
  }

  function Decode(s: Bytes): Option<Bytes> {
    match Values(s)
    case None => None
    case Some(v) => FromSextets(v)
  }

  /** `GenAccessToken`, for whatever signature the HMAC gives. */
  function GenAccessToken(signature: Signature, tunnelId: Bytes): Bytes {
    Encode(signature) + [DOT] + Encode(tunnelId)
  }

  /** `splitToken`: everything before and after the first dot. */
  function SplitToken(token: Bytes): Option<(Bytes, Bytes)> {
    if token == [] then None
    else if token[0] == DOT then Some(([], token[1..]))
    else match SplitToken(token[1..])
      case None => None
      case Some((a, b)) => Some(([token[0]] + a, b))
  }

  /** `ParseTokenTunnelID`. */
  function ParseTokenTunnelID(token: Bytes): Option<Bytes> {
    match SplitToken(token)
    case None => None
    case Some((_, tunnelPart)) => Decode(tunnelPart)
  }

  /** The bits of three bytes, cut into four sextets and put together again. */
  lemma Regroup(b0: byte, b1: byte, b2: byte, v0: sextet, v1: sextet, v2: sextet, v3: sextet)
    requires v0 == b0 / 4 && v1 == b0 % 4 * 16 + b1 / 16 && v2 == b1 % 16 * 4 + b2 / 64 && v3 == b2 % 64
    ensures v0 as int * 4 + v1 / 16 == b0
    ensures v1 % 16 as int * 16 + v2 / 4 == b1
    ensures v2 % 4 as int * 64 + v3 == b2
  {
  }

  /** Four sextets more in front give three bytes more. */
  lemma FromSextetsStep(v: seq<sextet>)
    requires |v| >= 4
    ensures var b0: byte := v[0] as int * 4 + v[1] / 16;
            var b1: byte := v[1] % 16 as int * 16 + v[2] / 4;
            var b2: byte := v[2] % 4 as int * 64 + v[3];
            FromSextets(v) == match FromSextets(v[4..])
                              case None => None
                              case Some(rest) => Some([b0, b1, b2] + rest)
  {
  }

  lemma {:induction false} FromSextetsInverts(b: Bytes)
    ensures FromSextets(Sextets(b)) == Some(b)
  {
    var v := Sextets(b);
    if |b| == 0 {
    } else if |b| == 1 {
      Regroup(b[0], 0, 0, v[0], v[1], 0, 0);
      assert b == [b[0]];
    } else if |b| == 2 {
      Regroup(b[0], b[1], 0, v[0], v[1], v[2], 0);
      assert b == [b[0], b[1]];
    } else {
      FromSextetsInverts(b[3..]);
      Regroup(b[0], b[1], b[2], v[0], v[1], v[2], v[3]);
      assert v[4..] == Sextets(b[3..]);
      FromSextetsStep(v);
      assert b == [b[0], b[1], b[2]] + b[3..];
    }
  }

  lemma {:induction false} ValuesInvertsChars(v: seq<sextet>)
    ensures Values(Chars(v)) == Some(v)
  {
    if v == [] {
    } else {
      assert Chars(v)[1..] == Chars(v[1..]);
      ValuesInvertsChars(v[1..]);
      assert [v[0]] + v[1..] == v;
    }
  }

  lemma DecodeInvertsEncode(b: Bytes)
    ensures Decode(Encode(b)) == Some(b)
  {
    FromSextetsInverts(b);
    ValuesInvertsChars(Sextets(b));
  }

  lemma {:induction false} SplitAtFirstDot(a: Bytes, b: Bytes)
    requires DOT !in a
    ensures SplitToken(a + [DOT] + b) == Some((a, b))
  {
    var t := a + [DOT] + b;
    if a == [] {
      assert t[1..] == b;
    } else {
      assert a[0] in a;
      assert t[1..] == a[1..] + [DOT] + b;
      SplitAtFirstDot(a[1..], b);
      assert [a[0]] + a[1..] == a;
    }
  }

  /** A token tells the id of its tunnel, whatever its length, content and signature. */
  lemma ParseInvertsGen(signature: Signature, tunnelId: Bytes)
    ensures ParseTokenTunnelID(GenAccessToken(signature, tunnelId)) == Some(tunnelId)
  {
    SplitAtFirstDot(Encode(signature), Encode(tunnelId));
    DecodeInvertsEncode(tunnelId);
  }

  /** Hence tokens of different tunnels differ, even under colliding signatures. */
  lemma TokensDiffer(s1: Signature, id1: Bytes, s2: Signature, id2: Bytes)
    requires id1 != id2
    ensures GenAccessToken(s1, id1) != GenAccessToken(s2, id2)
  {
    ParseInvertsGen(s1, id1);
    ParseInvertsGen(s2, id2);
  }

  /** Both parts of a token can be read back: it is the one of its signature and tunnel. */
  lemma TokenParts(signature: Signature, tunnelId: Bytes)
    ensures var parts := SplitToken(GenAccessToken(signature, tunnelId));
            && parts.Some? && DOT !in parts.value.0
            && Decode(parts.value.0) == Some(signature) && Decode(parts.value.1) == Some(tunnelId)
  {
    SplitAtFirstDot(Encode(signature), Encode(tunnelId));
    DecodeInvertsEncode(signature);
    DecodeInvertsEncode(tunnelId);
  }

  /** The examples of section 10 of RFC 4648 without their padding, and one for the two characters
      of the URL-safe alphabet of section 5. */
  lemma Examples()
    ensures Encode([102]) == [90, 103]
    ensures Encode([102, 111]) == [90, 109, 56]
    ensures Encode([102, 111, 111]) == [90, 109, 57, 118]
    ensures Encode([251, 255, 191]) == [45, 95, 45, 95]
  {
    Group(102, 111, 111);
    Group(251, 255, 191);
  }

  lemma Group(b0: byte, b1: byte, b2: byte)
    ensures Encode([b0, b1, b2]) == [Char(b0 / 4), Char(b0 % 4 * 16 + b1 / 16), Char(b1 % 16 * 4 + b2 / 64), Char(b2 % 64)]
  {
    var b: Bytes := [b0, b1, b2];
    var none: Bytes := b[3..];
    assert none == [] && Sextets(none) == [];
    var v := Sextets(b);
    assert |b| == 3 && |v| == 4;
    assert v == [b0 / 4, b0 % 4 * 16 + b1 / 16, b1 % 16 * 4 + b2 / 64, b2 % 64];
    assert Encode(b) == Chars(v);
  }

  /** Line breaks do not count. */
  lemma {:induction false} LineBreaksSkipped(a: Bytes, b: Bytes, c: byte)
    requires c == 10 || c == 13
    ensures Decode(a + [c] + b) == Decode(a + b)
    ensures Values(a + [c] + b) == Values(a + b)
  {
    if a == [] {
      assert a + [c] + b == [c] + b && ([c] + b)[1..] == b && a + b == b;
    } else {
      assert (a + [c] + b)[1..] == a[1..] + [c] + b && (a + b)[1..] == a[1..] + b;
      LineBreaksSkipped(a[1..], b, c);
    }
  }

  /** Any other byte outside the alphabet, padding included, makes the text invalid. */
  lemma {:induction false} ForeignRefused(s: Bytes, i: nat)
    requires i < |s| && Value(s[i]).None? && s[i] != 10 && s[i] != 13
    ensures Decode(s).None? && Values(s).None?
  {
    if i == 0 {
    } else {
      ForeignRefused(s[1..], i - 1);
    }
  }

  /** The alphabet, and nothing else: letters, digits, `-` and `_`. */
  lemma Alphabet(c: byte)
    ensures Value(c).Some? <==> 65 <= c <= 90 || 97 <= c <= 122 || 48 <= c <= 57 || c == 45 || c == 95
  {
  }
}
