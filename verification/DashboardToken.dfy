/** Dashboard session tokens: `v1.<payload>.<signature>` with both parts in base64url without padding. */
module DashboardToken {
  import opened Tasks

  type Byte = b: nat | b < 256

  type Sextet = v: nat | v < 64

  // ------------------------------------------------------------------------ base64url

  function Symbol(v: Sextet): char {
    if v < 26 then ('A' as int + v) as char
    else if v < 52 then ('a' as int + (v - 26)) as char
    else if v < 62 then ('0' as int + (v - 52)) as char
    else if v == 62 then '-'
    else '_'
  }

  /** The decoder's table: both alphabets are accepted, because `-` and `_` are first mapped to `+` and `/`. */
  function Value(c: char): Option<Sextet> {
    if 'A' <= c <= 'Z' then Some(c as int - 'A' as int)
    else if 'a' <= c <= 'z' then Some(26 + (c as int - 'a' as int))
    else if '0' <= c <= '9' then Some(52 + (c as int - '0' as int))
    else if c == '-' || c == '+' then Some(62)
    else if c == '_' || c == '/' then Some(63)
    else None
  }

  /** `base64.urlsafe_b64encode`: whole groups of three bytes, then a padded tail. */
  function PaddedEncode(x: seq<Byte>): string {
    if x == [] then ""
    else if |x| == 1 then [Symbol(x[0] / 4), Symbol(x[0] % 4 * 16), '=', '=']
    else if |x| == 2 then [Symbol(x[0] / 4), Symbol(x[0] % 4 * 16 + x[1] / 16), Symbol(x[1] % 16 * 4), '=']
    else Quad(x[0], x[1], x[2]) + PaddedEncode(x[3..])
  }

  function Quad(a: Byte, b: Byte, c: Byte): string {
    [Symbol(a / 4), Symbol(a % 4 * 16 + b / 16), Symbol(b % 16 * 4 + c / 64), Symbol(c % 64)]
  }

  function StripPadding(s: string): string {
    if s != "" && s[|s| - 1] == '=' then StripPadding(s[..|s| - 1]) else s
  }

  function Encode(x: seq<Byte>): string { StripPadding(PaddedEncode(x)) }

  /**
    `binascii.a2b_base64` in its lenient mode: characters outside the alphabet are skipped, and padding that completes
    a group ends the input. `quad` counts the symbols of the current group, `left` holds the bits not yet written.
   */
  function Scan(s: string, quad: nat, left: nat, pads: nat): Option<seq<Byte>>
    requires quad <= 3 && left < (match quad case 0 => 1 case 1 => 64 case 2 => 16 case _ => 4)
  {
    if s == "" then
      if quad == 0 then Some([]) else None
    else if s[0] == '=' then
      if quad >= 2 then
        if quad + pads + 1 >= 4 then Some([]) else Scan(s[1..], quad, left, pads + 1)
      else Scan(s[1..], quad, left, pads)
    else
      match Value(s[0])
      case None => Scan(s[1..], quad, left, pads)
      case Some(v) =>
        if quad == 0 then Scan(s[1..], 1, v, 0)
        else if quad == 1 then Prepend(left * 4 + v / 16, Scan(s[1..], 2, v % 16, 0))
        else if quad == 2 then Prepend(left * 16 + v / 4, Scan(s[1..], 3, v % 4, 0))
        else Prepend(left * 64 + v, Scan(s[1..], 0, 0, 0))
  }

  function Prepend(b: Byte, rest: Option<seq<Byte>>): Option<seq<Byte>> {
    match rest case None => None case Some(r) => Some([b] + r)
  }

  predicate Ascii(s: string) { forall c | c in s :: c as int < 128 }

  function Pads(n: nat): string { seq(n, i => '=') }

  /** `urlsafe_b64decode(value + "=" * (-len(value) % 4))`; text outside ASCII is an error. */
  function Decode(s: string): Option<seq<Byte>> {
    if Ascii(s) then Scan(s + Pads((-|s|) % 4), 0, 0, 0) else None
  }

  predicate InAlphabet(s: string) { forall c | c in s :: Value(c).Some? && c as int < 128 }

  lemma SymbolHasItsValue(v: Sextet)
    ensures Value(Symbol(v)) == Some(v) && Symbol(v) as int < 128
  {
  }

  /** The unpadded text of a group that is not whole. */
  function Tail(x: seq<Byte>): string
    requires |x| < 3
  {
    if x == [] then ""
    else if |x| == 1 then [Symbol(x[0] / 4), Symbol(x[0] % 4 * 16)]
    else [Symbol(x[0] / 4), Symbol(x[0] % 4 * 16 + x[1] / 16), Symbol(x[1] % 16 * 4)]
  }

  function PadCount(n: nat): nat { if n % 3 == 0 then 0 else 3 - n % 3 }

  function Unpadded(x: seq<Byte>): string {
    if |x| < 3 then Tail(x) else Quad(x[0], x[1], x[2]) + Unpadded(x[3..])
  }

  lemma {:induction false} PaddingIsStripped(s: string, n: nat)
    requires InAlphabet(s)
    ensures StripPadding(s + Pads(n)) == s
  {
    var t := s + Pads(n);
    if n == 0 {
      assert t == s;
      if s != "" { assert s[|s| - 1] in s; }
    } else {
      PaddingIsStripped(s, n - 1);
      assert t[..|t| - 1] == s + Pads(n - 1);
    }
  }

  lemma TailIsInAlphabet(x: seq<Byte>)
    requires |x| < 3
    ensures InAlphabet(Tail(x))
  {
    if |x| == 1 {
      SymbolHasItsValue(x[0] / 4);
      SymbolHasItsValue(x[0] % 4 * 16);
    } else if |x| == 2 {
      SymbolHasItsValue(x[0] / 4);
      SymbolHasItsValue(x[0] % 4 * 16 + x[1] / 16);
      SymbolHasItsValue(x[1] % 16 * 4);
    }
  }

  lemma QuadIsInAlphabet(a: Byte, b: Byte, c: Byte)
    ensures InAlphabet(Quad(a, b, c))
  {
    SymbolHasItsValue(a / 4);
    SymbolHasItsValue(a % 4 * 16 + b / 16);
    SymbolHasItsValue(b % 16 * 4 + c / 64);
    SymbolHasItsValue(c % 64);
  }

  function TextLength(n: nat): nat { 4 * (n / 3) + if n % 3 == 0 then 0 else n % 3 + 1 }

  lemma {:induction false} UnpaddedLength(x: seq<Byte>)
    ensures |Unpadded(x)| == TextLength(|x|)
  {
    if |x| >= 3 {
      UnpaddedLength(x[3..]);
    }
  }

  /** `-len(text) % 4` recovers the padding that was stripped. */
  lemma LengthDeterminesPadding(n: nat)
    ensures (0 - TextLength(n)) % 4 == PadCount(n)
  {
    var q, r := n / 3, if n % 3 == 0 then 0 else n % 3 + 1;
    assert TextLength(n) == 4 * q + r;
    assert (-(4 * q + r)) % 4 == (-r) % 4;
  }

  lemma {:induction false} UnpaddedIsInAlphabet(x: seq<Byte>)
    ensures InAlphabet(Unpadded(x))
  {
    if |x| < 3 {
      TailIsInAlphabet(x);
    } else {
      QuadIsInAlphabet(x[0], x[1], x[2]);
      UnpaddedIsInAlphabet(x[3..]);
    }
  }

  lemma PadCountStep(n: nat)
    requires n >= 3
    ensures PadCount(n) == PadCount(n - 3)
  {
  }

  lemma PaddedTail(x: seq<Byte>)
    requires |x| < 3
    ensures PaddedEncode(x) == Tail(x) + Pads(PadCount(|x|))
  {
  }

  lemma {:induction false} PaddedIsUnpaddedAndPadding(x: seq<Byte>)
    ensures PaddedEncode(x) == Unpadded(x) + Pads(PadCount(|x|))
  {
    if |x| >= 3 {
      PaddedIsUnpaddedAndPadding(x[3..]);
      PadCountStep(|x|);
      var q, u, p := Quad(x[0], x[1], x[2]), Unpadded(x[3..]), Pads(PadCount(|x|));
      assert q + (u + p) == (q + u) + p;
    } else {
      PaddedTail(x);
    }
  }

  /** What the encoder prints: only symbols of the alphabet, and a length that determines the padding again. */
  lemma EncodeIsUnpadded(x: seq<Byte>)
    ensures Encode(x) == Unpadded(x) && InAlphabet(Encode(x))
    ensures Encode(x) + Pads((-|Encode(x)|) % 4) == PaddedEncode(x)
  {
    UnpaddedIsInAlphabet(x);
    UnpaddedLength(x);
    LengthDeterminesPadding(|x|);
    PaddedIsUnpaddedAndPadding(x);
    PaddingIsStripped(Unpadded(x), PadCount(|x|));
  }

  lemma ScanSymbol(v: Sextet, rest: string, quad: nat, left: nat, pads: nat)
    requires quad <= 3 && left < (match quad case 0 => 1 case 1 => 64 case 2 => 16 case _ => 4)
    ensures Scan([Symbol(v)] + rest, quad, left, pads)
         == if quad == 0 then Scan(rest, 1, v, 0)
            else if quad == 1 then Prepend(left * 4 + v / 16, Scan(rest, 2, v % 16, 0))
            else if quad == 2 then Prepend(left * 16 + v / 4, Scan(rest, 3, v % 4, 0))
            else Prepend(left * 64 + v, Scan(rest, 0, 0, 0))
  {
    SymbolHasItsValue(v);
    assert ([Symbol(v)] + rest)[1..] == rest;
  }

  lemma BitsRegroup(a: Byte, b: Byte, c: Byte)
    ensures var v1, v2 := a % 4 * 16 + b / 16, b % 16 * 4 + c / 64;
      a / 4 * 4 + v1 / 16 == a && v1 % 16 * 16 + v2 / 4 == b && v2 % 4 * 64 + c % 64 == c
  {
  }

  lemma ScanFour(v0: Sextet, v1: Sextet, v2: Sextet, v3: Sextet, rest: string, decoded: seq<Byte>, pads: nat)
    requires Scan(rest, 0, 0, 0) == Some(decoded)
    ensures Scan([Symbol(v0), Symbol(v1), Symbol(v2), Symbol(v3)] + rest, 0, 0, pads)
         == Some([v0 * 4 + v1 / 16, v1 % 16 * 16 + v2 / 4, v2 % 4 * 64 + v3] + decoded)
  {
    var s3 := [Symbol(v3)] + rest;
    var s2 := [Symbol(v2)] + s3;
    var s1 := [Symbol(v1)] + s2;
    assert [Symbol(v0), Symbol(v1), Symbol(v2), Symbol(v3)] + rest == [Symbol(v0)] + s1;
    ScanSymbol(v0, s1, 0, 0, pads);
    ScanSymbol(v1, s2, 1, v0, 0);
    ScanSymbol(v2, s3, 2, v1 % 16, 0);
    ScanSymbol(v3, rest, 3, v2 % 4, 0);
    PrependThree(v0 * 4 + v1 / 16, v1 % 16 * 16 + v2 / 4, v2 % 4 * 64 + v3, decoded);
  }

  lemma PrependThree(a: Byte, b: Byte, c: Byte, decoded: seq<Byte>)
    ensures Prepend(a, Prepend(b, Prepend(c, Some(decoded)))) == Some([a, b, c] + decoded)
  {
    assert [a] + ([b] + ([c] + decoded)) == [a, b, c] + decoded;
  }

  lemma ScanQuad(a: Byte, b: Byte, c: Byte, rest: string, decoded: seq<Byte>, pads: nat)
    requires Scan(rest, 0, 0, 0) == Some(decoded)
    ensures Scan(Quad(a, b, c) + rest, 0, 0, pads) == Some([a, b, c] + decoded)
  {
    BitsRegroup(a, b, c);
    ScanFour(a / 4, a % 4 * 16 + b / 16, b % 16 * 4 + c / 64, c % 64, rest, decoded, pads);
  }

  lemma ScanTailOfOne(a: Byte)
    ensures Scan(PaddedEncode([a]), 0, 0, 0) == Some([a])
  {
    var v0, v1 := a / 4, a % 4 * 16;
    var s1 := [Symbol(v1)] + Pads(2);
    assert PaddedEncode([a]) == [Symbol(v0)] + s1;
    ScanSymbol(v0, s1, 0, 0, 0);
    ScanSymbol(v1, Pads(2), 1, v0, 0);
    assert Pads(2)[1..] == Pads(1);
    assert Scan(Pads(1), 2, v1 % 16, 1) == Some([]);
    assert Scan(Pads(2), 2, v1 % 16, 0) == Some([]);
    assert v0 * 4 + v1 / 16 == a && [a] + [] == [a];
  }

  lemma ScanTailOfTwo(a: Byte, b: Byte)
    ensures Scan(PaddedEncode([a, b]), 0, 0, 0) == Some([a, b])
  {
    var v0, v1, v2 := a / 4, a % 4 * 16 + b / 16, b % 16 * 4;
    var s2 := [Symbol(v2)] + Pads(1);
    var s1 := [Symbol(v1)] + s2;
    assert PaddedEncode([a, b]) == [Symbol(v0)] + s1;
    ScanSymbol(v0, s1, 0, 0, 0);
    ScanSymbol(v1, s2, 1, v0, 0);
    ScanSymbol(v2, Pads(1), 2, v1 % 16, 0);
    assert Scan(Pads(1), 3, v2 % 4, 0) == Some([]);
    assert v0 * 4 + v1 / 16 == a && v1 % 16 * 16 + v2 / 4 == b;
    assert [a] + ([b] + []) == [a, b];
  }

  lemma {:induction false} ScanInvertsPaddedEncode(x: seq<Byte>)
    ensures Scan(PaddedEncode(x), 0, 0, 0) == Some(x)
  {
    if |x| == 1 {
      assert x == [x[0]];
      ScanTailOfOne(x[0]);
    } else if |x| == 2 {
      assert x == [x[0], x[1]];
      ScanTailOfTwo(x[0], x[1]);
    } else if |x| >= 3 {
      ScanInvertsPaddedEncode(x[3..]);
      ScanQuad(x[0], x[1], x[2], PaddedEncode(x[3..]), x[3..], 0);
      assert [x[0], x[1], x[2]] + x[3..] == x;
    }
  }

  /** Every byte string survives encoding and decoding, and its text holds neither a dot nor padding. */
  lemma DecodeInvertsEncode(x: seq<Byte>)
    ensures Decode(Encode(x)) == Some(x)
    ensures '.' !in Encode(x) && '=' !in Encode(x)
  {
    EncodeIsUnpadded(x);
    ScanInvertsPaddedEncode(x);
  }

  // --------------------------------------------------------------------------- tokens

  datatype Claims = Claims(sub: Option<string>, role: Option<string>, iat: Option<int>, exp: Option<int>, nonce: Option<string>)

  datatype Principal = Principal(name: string, role: string)

  /** HMAC-SHA256 and the JSON encoder and decoder, as functions; `loads` is None for whatever raises. */
  datatype Codec = Codec(mac: (string, string) -> seq<Byte>, dumps: Claims -> seq<Byte>, loads: seq<Byte> -> Option<Claims>)

  /** The decoder reads back what the encoder wrote. */
  ghost predicate RoundTrips(codec: Codec) { forall c :: codec.loads(codec.dumps(c)) == Some(c) }

  /** `int(now or time.time())`: an explicit zero counts as missing. */
  function Current(now: Option<int>, wall: int): int { if now.Some? && now.value != 0 then now.value else wall }

  function Clamp(ttl: int): int { Max(300, Min(ttl, 43_200)) }

  const OPERATOR := "operator"
  const SUBJECT := "jayla-operator"

  /** The claims of a token issued at t. */
  function IssuedClaims(t: int, ttl: int, nonce: string): Claims {
    Claims(Some(SUBJECT), Some(OPERATOR), Some(t), Some(t + Clamp(ttl)), Some(nonce))
  }

  function Issue(codec: Codec, secret: string, ttl: int, now: Option<int>, wall: int, nonce: string): (string, int) {
    var current := Current(now, wall);
    var encoded := Encode(codec.dumps(IssuedClaims(current, ttl, nonce)));
    ("v1." + encoded + "." + Encode(codec.mac(secret, encoded)), current + Clamp(ttl))
  }

  function Before(s: string): (r: Option<string>)
    ensures r.Some? ==> |r.value| < |s| && s[|r.value|] == '.' && s[..|r.value|] == r.value && '.' !in r.value
  {
    if s == "" then None
    else if s[0] == '.' then Some("")
    else match Before(s[1..]) case None => None case Some(r) => Some([s[0]] + r)
  }

  datatype Parts = Parts(version: string, encoded: string, signature: string)

  /** `token.split(".", 2)`, which must give three parts; dots after the second stay in the third. */
  function SplitToken(token: string): Option<Parts> {
    match Before(token)
    case None => None
    case Some(version) =>
      var rest := token[|version| + 1..];
      match Before(rest)
      case None => None
      case Some(encoded) => Some(Parts(version, encoded, rest[|encoded| + 1..]))
  }

  function Verify(codec: Codec, secret: string, token: string, now: Option<int>, wall: int): Option<Principal> {
    match SplitToken(token)
    case None => None
    case Some(p) =>
      if p.version != "v1" || |secret| < 32 || !Ascii(p.encoded) then None
      else if Decode(p.signature) != Some(codec.mac(secret, p.encoded)) then None
      else
        match Decode(p.encoded)
        case None => None
        case Some(bytes) =>
          match codec.loads(bytes)
          case None => None
          case Some(claims) => Accept(claims, Current(now, wall))
  }

  function Accept(claims: Claims, current: int): Option<Principal> {
    if claims.role != Some(OPERATOR) then None
    else if Or(claims.exp, 0) <= current || Or(claims.iat, current + 1) > current + 60 then None
    else Some(Principal(if claims.sub.Some? && claims.sub.value != "" then claims.sub.value else SUBJECT, OPERATOR))
  }

  function Or(x: Option<int>, default: int): int { if x.Some? then x.value else default }

  lemma {:induction false} BeforeDot(a: string, b: string)
    requires '.' !in a
    ensures Before(a + "." + b) == Some(a)
  {
    var s := a + "." + b;
    if a == "" {
      assert s[0] == '.';
    } else {
      BeforeDot(a[1..], b);
      assert a[0] in a && s[0] == a[0] && s[1..] == a[1..] + "." + b;
      assert [a[0]] + a[1..] == a;
    }
  }

  lemma TokensSplit(encoded: string, signature: string)
    requires '.' !in encoded
    ensures SplitToken("v1." + encoded + "." + signature) == Some(Parts("v1", encoded, signature))
  {
    var token := "v1." + encoded + "." + signature;
    var rest := encoded + "." + signature;
    assert token == "v1" + "." + rest;
    BeforeDot("v1", rest);
    assert token[3..] == rest;
    BeforeDot(encoded, signature);
    assert rest[|encoded| + 1..] == signature;
  }

  lemma IssuedClaimsAreAccepted(t: int, ttl: int, nonce: string, u: int)
    ensures var r := Accept(IssuedClaims(t, ttl, nonce), u);
      && (r.Some? <==> t - 60 <= u < t + Clamp(ttl))
      && (r.Some? ==> r.value == Principal(SUBJECT, OPERATOR))
  {
  }

  lemma WellFormedTokens(codec: Codec, secret: string, claims: Claims, signature: seq<Byte>, now: Option<int>, wall: int)
    requires RoundTrips(codec)
    ensures var encoded := Encode(codec.dumps(claims));
      Verify(codec, secret, "v1." + encoded + "." + Encode(signature), now, wall)
      == if |secret| < 32 || signature != codec.mac(secret, encoded) then None else Accept(claims, Current(now, wall))
  {
    var encoded := Encode(codec.dumps(claims));
    EncodeIsUnpadded(codec.dumps(claims));
    DecodeInvertsEncode(codec.dumps(claims));
    DecodeInvertsEncode(signature);
    TokensSplit(encoded, Encode(signature));
    assert codec.loads(codec.dumps(claims)) == Some(claims);
  }

  /**
    Which claims are accepted under a good signature: the operator's, unexpired, and not issued more than a minute in the
    future; a missing expiry counts as zero, and a missing issue time as fine.
   */
  lemma AcceptedClaimsMean(codec: Codec, secret: string, claims: Claims, now: Option<int>, wall: int)
    requires RoundTrips(codec) && |secret| >= 32
    ensures var encoded := Encode(codec.dumps(claims));
      var u := if now.Some? && now.value != 0 then now.value else wall;
      var result := Verify(codec, secret, "v1." + encoded + "." + Encode(codec.mac(secret, encoded)), now, wall);
      && (result.Some? <==>
            && claims.role == Some("operator")
            && (if claims.exp.Some? then claims.exp.value else 0) > u && (claims.iat.Some? ==> claims.iat.value <= u + 60))
      && (result.Some? ==>
            && result.value.role == "operator"
            && (claims.sub.Some? && claims.sub.value != "" ==> result.value.name == claims.sub.value))
  {
    WellFormedTokens(codec, secret, claims, codec.mac(secret, Encode(codec.dumps(claims))), now, wall);
  }

  /** Nothing unsigned is accepted: any accepted text is a version, a payload and the MAC of that payload under the secret. */
  lemma AcceptedTokensAreSigned(codec: Codec, secret: string, token: string, now: Option<int>, wall: int)
    returns (encoded: string, signature: string)
    requires Verify(codec, secret, token, now, wall).Some?
    ensures token == "v1." + encoded + "." + signature && '.' !in encoded
    ensures |secret| >= 32 && Decode(signature) == Some(codec.mac(secret, encoded)) && Decode(encoded).Some?
  {
    var p := SplitToken(token).value;
    encoded, signature := p.encoded, p.signature;
    PartsMakeTheToken(token);
    assert "v1" + "." == "v1.";
  }

  lemma PartsMakeTheToken(token: string)
    requires SplitToken(token).Some?
    ensures var p := SplitToken(token).value; token == p.version + "." + p.encoded + "." + p.signature && '.' !in p.encoded
  {
    var p := SplitToken(token).value;
    var rest := token[|p.version| + 1..];
    assert token == p.version + [token[|p.version|]] + rest;
    assert rest == p.encoded + [rest[|p.encoded|]] + p.signature;
  }

  lemma GroupThenRest(a: Byte, b: Byte, c: Byte, rest: seq<Byte>)
    ensures Encode([a, b, c] + rest) == Quad(a, b, c) + Encode(rest)
  {
    var x := [a, b, c] + rest;
    assert x[3..] == rest;
    EncodeIsUnpadded(x);
    EncodeIsUnpadded(rest);
  }

  lemma ShortTexts(x: seq<Byte>)
    requires |x| < 3
    ensures Encode(x) == Tail(x)
  {
    EncodeIsUnpadded(x);
  }

  /** The test vectors of section 10 of RFC 4648 without their padding, and the two symbols of the URL-safe alphabet. */
  lemma TestVectors()
    ensures Encode([]) == "" && Encode([102]) == "Zg" && Encode([102, 111]) == "Zm8" && Encode([251, 255]) == "-_8"
    ensures Encode([102, 111, 111] + []) == "Zm9v" && Encode([102, 111, 111] + [98]) == "Zm9vYg"
    ensures Encode([102, 111, 111] + [98, 97]) == "Zm9vYmE" && Encode([102, 111, 111] + ([98, 97, 114] + [])) == "Zm9vYmFy"
  {
    ShortTexts([]);
    ShortTexts([102]);
    ShortTexts([102, 111]);
    ShortTexts([251, 255]);
    ShortTexts([98]);
    ShortTexts([98, 97]);
    GroupThenRest(102, 111, 111, []);
    GroupThenRest(102, 111, 111, [98]);
    GroupThenRest(102, 111, 111, [98, 97]);
    GroupThenRest(98, 97, 114, []);
    GroupThenRest(102, 111, 111, [98, 97, 114] + []);
  }

  lemma IssuedTokensAreJudged(codec: Codec, issuer: string, secret: string, ttl: int, issuedAt: Option<int>, issuedWall: int,
                              nonce: string, now: Option<int>, wall: int)
    requires RoundTrips(codec)
    ensures var t, u := Current(issuedAt, issuedWall), Current(now, wall);
      var (token, expires) := Issue(codec, issuer, ttl, issuedAt, issuedWall, nonce);
      var encoded := Encode(codec.dumps(IssuedClaims(t, ttl, nonce)));
      var result := Verify(codec, secret, token, now, wall);
      && expires == t + Clamp(ttl)
      && (result.Some? <==>
            |secret| >= 32 && codec.mac(issuer, encoded) == codec.mac(secret, encoded) && t - 60 <= u < t + Clamp(ttl))
      && (result.Some? ==> result.value == Principal(SUBJECT, OPERATOR))
  {
    var t := Current(issuedAt, issuedWall);
    var claims := IssuedClaims(t, ttl, nonce);
    WellFormedTokens(codec, secret, claims, codec.mac(issuer, Encode(codec.dumps(claims))), now, wall);
    IssuedClaimsAreAccepted(t, ttl, nonce, Current(now, wall));
  }

  /**
    A token issued at time t under one secret verifies at time u under another exactly when the verifier's secret has
    at least 32 characters, gives the same MAC, and t - 60 <= u < t + the clamped lifetime.
   */
  lemma IssuedTokensVerify(codec: Codec, issuer: string, secret: string, ttl: int, issuedAt: Option<int>, issuedWall: int,
                           nonce: string, now: Option<int>, wall: int)
    requires RoundTrips(codec)
    ensures var t := if issuedAt.Some? && issuedAt.value != 0 then issuedAt.value else issuedWall;
      var u := if now.Some? && now.value != 0 then now.value else wall;
      var life := if ttl < 300 then 300 else if ttl > 43_200 then 43_200 else ttl;
      var (token, expires) := Issue(codec, issuer, ttl, issuedAt, issuedWall, nonce);
      var claims := Claims(Some("jayla-operator"), Some("operator"), Some(t), Some(t + life), Some(nonce));
      var encoded := Encode(codec.dumps(claims));
      var result := Verify(codec, secret, token, now, wall);
      && expires == t + life
      && (result.Some? <==>
            |secret| >= 32 && codec.mac(issuer, encoded) == codec.mac(secret, encoded) && t - 60 <= u < t + life)
      && (result.Some? ==> result.value == Principal("jayla-operator", "operator"))
  {
    IssuedTokensAreJudged(codec, issuer, secret, ttl, issuedAt, issuedWall, nonce, now, wall);
  }
}
