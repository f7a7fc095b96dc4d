/** utils/JWT.php: a hand-rolled JSON Web Token (RFC 7519) in the compact
    serialisation of section 7.1 of RFC 7515, signed with HS256 (section
    3.2 of RFC 7518). HMAC-SHA256 and JSON are the uninterpreted functions
    of `Runtime`; PHP's `base64_encode` and `base64_decode` and the url-safe
    alphabet of section 5 of RFC 4648 are modelled concretely. */
module Jwt {
  import opened Common
  import opened Text
  import opened Validator

  /** A character of the standard alphabet of section 4 of RFC 4648. */
  predicate InAlphabet(c: char) {
    ('A' <= c <= 'Z') || ('a' <= c <= 'z') || ('0' <= c <= '9') || c == '+' || c == '/'
  }

  /** A character of the url-safe alphabet of section 5 of RFC 4648. */
  predicate UrlSafeChar(c: char) {
    ('A' <= c <= 'Z') || ('a' <= c <= 'z') || ('0' <= c <= '9') || c == '-' || c == '_'
  }

  /** The characters `base64_encode` can write: the alphabet and '='. */
  predicate EncodedChar(c: char) {
    c == '=' || InAlphabet(c)
  }

  /** Six bits, the value one base64 character stands for. */
  type Sextet = v: int | 0 <= v < 64

  /** The character of the standard alphabet for a sextet. */
  function B64Char(v: Sextet): (c: char)
    ensures InAlphabet(c) && c != '.' && c != '=' && c != '-' && c != '_'
    ensures c == '+' || c == '/' || UrlSafeChar(c)
  {
    if v < 26 then ('A' as int + v) as char
    else if v < 52 then ('a' as int + v - 26) as char
    else if v < 62 then ('0' as int + v - 52) as char
    else if v == 62 then '+'
    else '/'
  }

  /** The sextet a character of the standard alphabet stands for. */
  function SextetOf(c: char): (v: Sextet)
    requires InAlphabet(c)
    ensures B64Char(v) == c
  {
    if 'A' <= c <= 'Z' then c as int - 'A' as int
    else if 'a' <= c <= 'z' then c as int - 'a' as int + 26
    else if '0' <= c <= '9' then c as int - '0' as int + 52
    else if c == '+' then 62
    else 63
  }

  /** Each sextet has its own character. */
  lemma SextetOfChar(v: Sextet)
    ensures SextetOf(B64Char(v)) == v
  {
  }

  /** One group of one to three bytes as four characters, padded with
      '=' when the group is short. */
  function Quantum(b: Bytes): (r: string)
    requires 1 <= |b| <= 3
    ensures |r| == 4
    ensures forall i :: 0 <= i < 4 ==> EncodedChar(r[i])
  {
    var x := b[0] as int;
    if |b| == 1 then
      [B64Char(x / 4), B64Char((x % 4) * 16), '=', '=']
    else
      var y := b[1] as int;
      if |b| == 2 then
        [B64Char(x / 4), B64Char((x % 4) * 16 + y / 16), B64Char((y % 16) * 4), '=']
      else
        var z := b[2] as int;
        [B64Char(x / 4), B64Char((x % 4) * 16 + y / 16), B64Char((y % 16) * 4 + z / 64), B64Char(z % 64)]
  }

  /** `base64_encode`: each group of three bytes becomes four characters,
      and a final group of one or two bytes is padded with '='. */
  function Base64(b: Bytes): (r: string)
    ensures |r| % 4 == 0
    ensures forall i :: 0 <= i < |r| ==> EncodedChar(r[i])
    decreases |b|
  {
    if |b| == 0 then ""
    else if |b| <= 3 then Quantum(b)
    else
      var q, rest := Quantum(b[..3]), Base64(b[3..]);
      assert forall i :: 4 <= i < |q + rest| ==> (q + rest)[i] == rest[i - 4];
      q + rest
  }

  /** The sextets PHP's non-strict `base64_decode` reads: every character
      outside the standard alphabet, '=' and the url-safe '-' and '_'
      included, is skipped. */
  function Sextets(s: string): (v: seq<Sextet>)
    ensures |v| <= |s|
  {
    if s == [] then []
    else (if InAlphabet(s[0]) then [SextetOf(s[0])] else []) + Sextets(s[1..])
  }

  /** Four sextets make three bytes; a final two or three make one or two,
      and a single sextet left over is dropped. */
  function DecodeSextets(v: seq<Sextet>): (r: Bytes)
    ensures |r| == (3 * |v|) / 4
    decreases |v|
  {
    if |v| < 2 then []
    else
      var v0, v1 := v[0] as int, v[1] as int;
      var b0 := (v0 * 4 + v1 / 16) as uint8;
      if |v| == 2 then [b0]
      else
        var v2 := v[2] as int;
        var b1 := ((v1 % 16) * 16 + v2 / 4) as uint8;
        if |v| == 3 then [b0, b1]
        else [b0, b1, ((v2 % 4) * 64 + v[3] as int) as uint8] + DecodeSextets(v[4..])
  }

  /** PHP's `base64_decode` in its default, non-strict mode. */
  function Base64Decode(s: string): Bytes {
    DecodeSextets(Sextets(s))
  }

  lemma {:induction false} SextetsConcat(a: string, b: string)
    ensures Sextets(a + b) == Sextets(a) + Sextets(b)
  {
    if a == [] {
      assert a + b == b;
    } else {
      assert (a + b)[0] == a[0] && (a + b)[1..] == a[1..] + b;
      SextetsConcat(a[1..], b);
      var h: seq<Sextet> := if InAlphabet(a[0]) then [SextetOf(a[0])] else [];
      assert Sextets(a + b) == h + Sextets(a[1..] + b);
      assert Sextets(a) == h + Sextets(a[1..]);
    }
  }

  /** A string of alphabet characters gives one sextet per character, in
      order. */
  lemma {:induction false} SextetsOfAlphabet(s: string)
    requires forall i :: 0 <= i < |s| ==> InAlphabet(s[i])
    ensures |Sextets(s)| == |s| && forall i :: 0 <= i < |s| ==> B64Char(Sextets(s)[i]) == s[i]
  {
    if s != [] {
      SextetsOfAlphabet(s[1..]);
      var v := Sextets(s);
      assert v == [SextetOf(s[0])] + Sextets(s[1..]);
      forall i | 0 < i < |s|
        ensures B64Char(v[i]) == s[i]
      {
        assert v[i] == Sextets(s[1..])[i - 1];
      }
    }
  }

  /** A character outside the alphabet is lost. */
  lemma {:induction false} SextetsDrop(s: string, k: nat)
    requires k < |s| && !InAlphabet(s[k])
    ensures |Sextets(s)| < |s|
  {
    if k > 0 {
      SextetsDrop(s[1..], k - 1);
    }
  }

  /** The sextets of a quantum: one more than its bytes; the padding is
      skipped. */
  lemma QuantumSextets(b: Bytes)
    requires 1 <= |b| <= 3
    ensures var x := b[0] as int;
      && (|b| == 1 ==> Sextets(Quantum(b)) == [x / 4, (x % 4) * 16])
      && (|b| == 2 ==> var y := b[1] as int; Sextets(Quantum(b)) == [x / 4, (x % 4) * 16 + y / 16, (y % 16) * 4])
      && (|b| == 3 ==> var y, z := b[1] as int, b[2] as int;
            Sextets(Quantum(b)) == [x / 4, (x % 4) * 16 + y / 16, (y % 16) * 4 + z / 64, z % 64])
  {
    var q := Quantum(b);
    assert q == [q[0]] + ([q[1]] + ([q[2]] + ([q[3]] + [])));
    SextetsConcat([q[0]], [q[1]] + ([q[2]] + ([q[3]] + [])));
    SextetsConcat([q[1]], [q[2]] + ([q[3]] + []));
    SextetsConcat([q[2]], [q[3]] + []);
    var x := b[0] as int;
    SextetOfChar(x / 4);
    if |b| == 1 {
      SextetOfChar((x % 4) * 16);
    } else {
      var y := b[1] as int;
      SextetOfChar((x % 4) * 16 + y / 16);
      if |b| == 2 {
        SextetOfChar((y % 16) * 4);
      } else {
        var z := b[2] as int;
        SextetOfChar((y % 16) * 4 + z / 64);
        SextetOfChar(z % 64);
      }
    }
  }

  /** The bit arithmetic of one group undone. */
  lemma Regroup(x: int, y: int, z: int)
    requires 0 <= x < 256 && 0 <= y < 256 && 0 <= z < 256
    ensures (x / 4) * 4 + ((x % 4) * 16 + y / 16) / 16 == x
    ensures (x / 4) * 4 + ((x % 4) * 16) / 16 == x
    ensures (((x % 4) * 16 + y / 16) % 16) * 16 + ((y % 16) * 4 + z / 64) / 4 == y
    ensures (((x % 4) * 16 + y / 16) % 16) * 16 + ((y % 16) * 4) / 4 == y
    ensures (((y % 16) * 4 + z / 64) % 4) * 64 + z % 64 == z
  {
  }

  /** Decoding a quantum's sextets, followed by any others, gives the
      quantum's bytes followed by the decoding of the others; a short
      quantum ends the input. */
  lemma QuantumDecodes(b: Bytes, w: seq<Sextet>)
    requires 1 <= |b| <= 3 && (|b| < 3 ==> w == [])
    ensures DecodeSextets(Sextets(Quantum(b)) + w) == b + DecodeSextets(w)
  {
    QuantumSextets(b);
    var v := Sextets(Quantum(b)) + w;
    var x := b[0] as int;
    if |b| == 1 {
      Regroup(x, 0, 0);
      assert v == [x / 4, (x % 4) * 16];
    } else if |b| == 2 {
      var y := b[1] as int;
      Regroup(x, y, 0);
      assert v == [x / 4, (x % 4) * 16 + y / 16, (y % 16) * 4];
    } else {
      var y, z := b[1] as int, b[2] as int;
      Regroup(x, y, z);
      assert v[4..] == w;
      assert DecodeSextets(v)[..3] == b;
    }
  }

  /** `base64_decode` inverts `base64_encode`. */
  lemma {:induction false} Base64RoundTrip(b: Bytes)
    ensures Base64Decode(Base64(b)) == b
    decreases |b|
  {
    if 1 <= |b| <= 3 {
      QuantumDecodes(b, []);
      assert Sextets(Quantum(b)) + [] == Sextets(Quantum(b));
    } else if |b| > 3 {
      SextetsConcat(Quantum(b[..3]), Base64(b[3..]));
      Base64RoundTrip(b[3..]);
      QuantumDecodes(b[..3], Sextets(Base64(b[3..])));
      assert b[..3] + b[3..] == b;
    }
  }

  /** `str_replace(['+', '/', '='], ['-', '_', ''], $s)`. */
  function UrlSafe(s: string): (r: string)
    ensures |r| <= |s|
  {
    if s == [] then ""
    else
      var c := if s[0] == '+' then "-" else if s[0] == '/' then "_" else if s[0] == '=' then "" else [s[0]];
      c + UrlSafe(s[1..])
  }

  lemma {:induction false} UrlSafeChars(s: string)
    requires forall i :: 0 <= i < |s| ==> EncodedChar(s[i])
    ensures forall i :: 0 <= i < |UrlSafe(s)| ==> UrlSafeChar(UrlSafe(s)[i])
  {
    if s != [] {
      UrlSafeChars(s[1..]);
    }
  }

  lemma {:induction false} UrlSafeConcat(a: string, b: string)
    ensures UrlSafe(a + b) == UrlSafe(a) + UrlSafe(b)
  {
    if a == [] {
      assert a + b == b;
    } else {
      assert (a + b)[0] == a[0] && (a + b)[1..] == a[1..] + b;
      UrlSafeConcat(a[1..], b);
      var c := if a[0] == '+' then "-" else if a[0] == '/' then "_" else if a[0] == '=' then "" else [a[0]];
      assert UrlSafe(a + b) == c + UrlSafe(a[1..] + b);
      assert UrlSafe(a) == c + UrlSafe(a[1..]);
    }
  }

  /** `base64UrlEncode`. */
  function B64Url(b: Bytes): string {
    UrlSafe(Base64(b))
  }

  /** The output of `base64UrlEncode` uses only the url-safe alphabet: no
      '+', '/' or '=', and in particular no '.', so it never splits a
      token segment. */
  lemma B64UrlAlphabet(b: Bytes)
    ensures forall i :: 0 <= i < |B64Url(b)| ==> UrlSafeChar(B64Url(b)[i])
    ensures '.' !in B64Url(b) && '+' !in B64Url(b) && '/' !in B64Url(b) && '=' !in B64Url(b)
  {
    UrlSafeChars(Base64(b));
    var s := B64Url(b);
    forall c | c in s
      ensures UrlSafeChar(c)
    {
      var i :| 0 <= i < |s| && s[i] == c;
    }
  }

  /** Without padding, `n` bytes take ceil(4n/3) characters. */
  lemma {:induction false} B64UrlLength(b: Bytes)
    ensures |B64Url(b)| == (4 * |b| + 2) / 3
    decreases |b|
  {
    if 1 <= |b| <= 3 {
      var q := Quantum(b);
      assert q == [q[0]] + ([q[1]] + ([q[2]] + ([q[3]] + [])));
      UrlSafeConcat([q[0]], [q[1]] + ([q[2]] + ([q[3]] + [])));
      UrlSafeConcat([q[1]], [q[2]] + ([q[3]] + []));
      UrlSafeConcat([q[2]], [q[3]] + []);
    } else if |b| > 3 {
      UrlSafeConcat(Quantum(b[..3]), Base64(b[3..]));
      B64UrlLength(b[..3]);
      B64UrlLength(b[3..]);
    }
  }

  /** `strtr($s, '-_', '+/')`: the url-safe alphabet back to the standard
      one. */
  function Standard(s: string): (r: string)
    ensures |r| == |s|
    ensures forall i :: 0 <= i < |s| ==> r[i] == if s[i] == '-' then '+' else if s[i] == '_' then '/' else s[i]
  {
    seq(|s|, i requires 0 <= i < |s| => if s[i] == '-' then '+' else if s[i] == '_' then '/' else s[i])
  }

  /** Decoding a segment of `base64UrlEncode`: back to the standard
      alphabet, then `base64_decode`. */
  function UrlDecode(s: string): Bytes {
    Base64Decode(Standard(s))
  }

  lemma {:induction false} StandardUrlSafe(s: string)
    requires forall i :: 0 <= i < |s| ==> EncodedChar(s[i])
    ensures Sextets(Standard(UrlSafe(s))) == Sextets(s)
  {
    if s != [] {
      var c := if s[0] == '+' then "-" else if s[0] == '/' then "_" else if s[0] == '=' then "" else [s[0]];
      var t := UrlSafe(s[1..]);
      assert UrlSafe(s) == c + t;
      assert Standard(c + t) == Standard(c) + Standard(t);
      SextetsConcat(Standard(c), Standard(t));
      assert s == [s[0]] + s[1..];
      SextetsConcat([s[0]], s[1..]);
      StandardUrlSafe(s[1..]);
    }
  }

  /** Decoding a url-safe segment inverts `base64UrlEncode`. */
  lemma UrlRoundTrip(b: Bytes)
    ensures UrlDecode(B64Url(b)) == b
  {
    StandardUrlSafe(Base64(b));
    Base64RoundTrip(b);
  }

  /** `base64UrlEncode` is injective: distinct HMACs sign differently. */
  lemma B64UrlInjective(a: Bytes, b: Bytes)
    requires B64Url(a) == B64Url(b)
    ensures a == b
  {
    UrlRoundTrip(a);
    UrlRoundTrip(b);
  }

  /** Feeding a url-safe segment to `base64_decode` as it is loses every
      '-' and '_'; a segment with one of them is then never re-encoded to
      itself, because fewer characters are left than it had. */
  lemma DroppedCharsChangeSegment(seg: string)
    requires exists k :: 0 <= k < |seg| && (seg[k] == '-' || seg[k] == '_')
    ensures B64Url(Base64Decode(seg)) != seg
  {
    var k :| 0 <= k < |seg| && (seg[k] == '-' || seg[k] == '_');
    SextetsDrop(seg, k);
    var m := |Sextets(seg)|;
    B64UrlLength(Base64Decode(seg));
    assert |Base64Decode(seg)| == (3 * m) / 4;
    assert (4 * ((3 * m) / 4) + 2) / 3 <= m;
  }

  /** A segment without '-' or '_' reads the same either way. */
  lemma PlainSegment(seg: string)
    requires '-' !in seg && '_' !in seg
    ensures Base64Decode(seg) == UrlDecode(seg)
  {
    assert Standard(seg) == seg;
  }

  /** `json_encode(['typ' => 'JWT', 'alg' => 'HS256'])`: the ASCII bytes
      of {"typ":"JWT","alg":"HS256"}. */
  function HeaderJson(): Bytes {
    [123, 34, 116, 121, 112, 34, 58, 34, 74, 87, 84, 34, 44, 34, 97, 108, 103, 34, 58, 34, 72, 83, 50, 53, 54, 34, 125]
  }

  /** Without '+' or '/' the url-safe form has no '-' or '_' either. */
  lemma {:induction false} UrlSafePlain(s: string)
    requires forall i :: 0 <= i < |s| ==> EncodedChar(s[i])
    requires '+' !in s && '/' !in s
    ensures '-' !in UrlSafe(s) && '_' !in UrlSafe(s)
  {
    if s != [] {
      assert s[0] in s;
      assert forall c :: c in s[1..] ==> c in s;
      UrlSafePlain(s[1..]);
    }
  }

  /** No '+' or '/' in the encoding of `g + rest` when there is none in
      the quantum of `g` or the encoding of `rest`. */
  lemma PlainCons(g: Bytes, rest: Bytes)
    requires |g| == 3 && rest != []
    requires '+' !in Quantum(g) && '/' !in Quantum(g) && '+' !in Base64(rest) && '/' !in Base64(rest)
    ensures '+' !in Base64(g + rest) && '/' !in Base64(g + rest)
  {
    assert (g + rest)[..3] == g && (g + rest)[3..] == rest;
  }

  /** The quanta of the header bytes, one group at a time. */
  lemma HeaderQuantum0()
    ensures Quantum([123, 34, 116]) == "eyJ0"
  {
  }

  lemma HeaderQuantum1()
    ensures Quantum([121, 112, 34]) == "eXAi"
  {
  }

  lemma HeaderQuantum2()
    ensures Quantum([58, 34, 74]) == "OiJK"
  {
  }

  lemma HeaderQuantum3()
    ensures Quantum([87, 84, 34]) == "V1Qi"
  {
  }

  lemma HeaderQuantum4()
    ensures Quantum([44, 34, 97]) == "LCJh"
  {
  }

  lemma HeaderQuantum5()
    ensures Quantum([108, 103, 34]) == "bGci"
  {
  }

  lemma HeaderQuantum6()
    ensures Quantum([58, 34, 72]) == "OiJI"
  {
  }

  lemma HeaderQuantum7()
    ensures Quantum([83, 50, 53]) == "UzI1"
  {
  }

  lemma HeaderQuantum8()
    ensures Quantum([54, 34, 125]) == "NiJ9"
  {
  }

  /** The header as its nine groups of three bytes. */
  lemma HeaderGroups()
    ensures HeaderJson() == [123, 34, 116] + ([121, 112, 34] + ([58, 34, 74] + ([87, 84, 34] + ([44, 34, 97] + ([108, 103, 34] + ([58, 34, 72] + ([83, 50, 53] + [54, 34, 125])))))))
  {
  }

  /** Quantum by quantum, the header's encoding avoids '+' and '/'. */
  lemma HeaderChain()
    ensures '+' !in Base64([123, 34, 116] + ([121, 112, 34] + ([58, 34, 74] + ([87, 84, 34] + ([44, 34, 97] + ([108, 103, 34] + ([58, 34, 72] + ([83, 50, 53] + [54, 34, 125])))))))) && '/' !in Base64([123, 34, 116] + ([121, 112, 34] + ([58, 34, 74] + ([87, 84, 34] + ([44, 34, 97] + ([108, 103, 34] + ([58, 34, 72] + ([83, 50, 53] + [54, 34, 125]))))))))
  {
    HeaderQuantum0();
    HeaderQuantum1();
    HeaderQuantum2();
    HeaderQuantum3();
    HeaderQuantum4();
    HeaderQuantum5();
    HeaderQuantum6();
    HeaderQuantum7();
    HeaderQuantum8();
    var g0: Bytes := [123, 34, 116];
    var g1: Bytes := [121, 112, 34];
    var g2: Bytes := [58, 34, 74];
    var g3: Bytes := [87, 84, 34];
    var g4: Bytes := [44, 34, 97];
    var g5: Bytes := [108, 103, 34];
    var g6: Bytes := [58, 34, 72];
    var g7: Bytes := [83, 50, 53];
    var g8: Bytes := [54, 34, 125];
    var r8 := g8;
    assert Base64(r8) == Quantum(g8);
    var r7 := g7 + r8;
    PlainCons(g7, r8);
    var r6 := g6 + r7;
    PlainCons(g6, r7);
    var r5 := g5 + r6;
    PlainCons(g5, r6);
    var r4 := g4 + r5;
    PlainCons(g4, r5);
    var r3 := g3 + r4;
    PlainCons(g3, r4);
    var r2 := g2 + r3;
    PlainCons(g2, r3);
    var r1 := g1 + r2;
    PlainCons(g1, r2);
    var r0 := g0 + r1;
    PlainCons(g0, r1);
    assert r0 == [123, 34, 116] + ([121, 112, 34] + ([58, 34, 74] + ([87, 84, 34] + ([44, 34, 97] + ([108, 103, 34] + ([58, 34, 72] + ([83, 50, 53] + [54, 34, 125])))))));
  }

  /** The base64 form of the header has no '+' or '/'. */
  lemma HeaderBase64Plain()
    ensures '+' !in Base64(HeaderJson()) && '/' !in Base64(HeaderJson())
  {
    HeaderGroups();
    HeaderChain();
  }

  /** The header segment, "eyJ0eXAiOiJKV1QiLCJhbGciOiJIUzI1NiJ9",
      contains neither '-' nor '_'. */
  lemma HeaderSegmentPlain()
    ensures '-' !in B64Url(HeaderJson()) && '_' !in B64Url(HeaderJson())
  {
    HeaderBase64Plain();
    UrlSafePlain(Base64(HeaderJson()));
  }

  /** `init`: the secret and lifetime from the environment, defaulting to
      'default_secret_key' and 86400 seconds. */
  datatype JwtConfig = JwtConfig(secret: string, expire: int)

  function Init(secretEnv: Option<string>, expireEnv: Option<int>): (c: JwtConfig)
    ensures secretEnv.None? ==> c.secret == "default_secret_key"
    ensures expireEnv.None? ==> c.expire == 86400
    ensures secretEnv.Some? ==> c.secret == secretEnv.value
    ensures expireEnv.Some? ==> c.expire == expireEnv.value
  {
    JwtConfig(secretEnv.GetOr("default_secret_key"), expireEnv.GetOr(86400))
  }

  /** The signature segment over the first two segments. */
  function Sign(cfg: JwtConfig, h: string, p: string, rt: Runtime): string {
    B64Url(rt.hmacSha256(cfg.secret, h + "." + p))
  }

  /** The payload `encode` signs: the claims with `iat` set to the first
      clock reading and `exp` to the second reading plus the lifetime. */
  function Stamped(claims: Claims, iat: int, expClock: int, cfg: JwtConfig): (r: Claims)
    ensures r.Keys == claims.Keys + {"iat", "exp"}
    ensures r["iat"] == Num(iat) && r["exp"] == Num(expClock + cfg.expire)
    ensures forall k :: k in claims && k != "iat" && k != "exp" ==> r[k] == claims[k]
  {
    claims["iat" := Num(iat)]["exp" := Num(expClock + cfg.expire)]
  }

  /** `encode`: the two `time()` reads are the separate parameters `iat`
      and `expClock`. */
  function Encode(claims: Claims, iat: int, expClock: int, cfg: JwtConfig, rt: Runtime): string {
    var h := B64Url(HeaderJson());
    var p := B64Url(rt.jsonEncode(Stamped(claims, iat, expClock, cfg)));
    h + "." + p + "." + Sign(cfg, h, p, rt)
  }

  /** `isset($payload['exp']) && $payload['exp'] < time()`: a number, or
      a string that is an integer numeral, compared with the clock as a
      number. */
  predicate Expired(claims: Claims, now: int) {
    && "exp" in claims
    && match claims["exp"]
       case Num(n) => n < now
       case Text(t) => IntegerString(t).Some? && IntegerString(t).value < now
       case Null => false
  }

  /** The checks of `decode` once the first two segments are decoded: the
      third must be the signature recomputed from their re-encoding, the
      payload must be a JSON object, and it must not be expired. */
  function Verified(parts: seq<string>, header: Bytes, payload: Bytes, now: int, cfg: JwtConfig, rt: Runtime): Option<Claims>
    requires |parts| == 3
  {
    if Sign(cfg, B64Url(header), B64Url(payload), rt) != parts[2] then None
    else
      match rt.jsonDecode(payload)
      case None => None
      case Some(claims) => if Expired(claims, now) then None else Some(claims)
  }

  /** `decode` as written: the url-safe segments go to `base64_decode`
      unchanged. None stands for both of its falsy results, `false` (wrong
      segment count, bad signature, expired) and the null that
      `json_decode` gives for a payload that is not a JSON object. */
  function DecodeAsWritten(token: string, now: int, cfg: JwtConfig, rt: Runtime): Option<Claims> {
    var parts := Explode(token, '.');
    if |parts| != 3 then None
    else Verified(parts, Base64Decode(parts[0]), Base64Decode(parts[1]), now, cfg, rt)
  }

  /** `decode` with the url-safe alphabet mapped back before decoding, the
      inverse of `base64UrlEncode` that the signature check relies on. */
  function Decode(token: string, now: int, cfg: JwtConfig, rt: Runtime): Option<Claims> {
    var parts := Explode(token, '.');
    if |parts| != 3 then None
    else Verified(parts, UrlDecode(parts[0]), UrlDecode(parts[1]), now, cfg, rt)
  }

  /** Splitting a token made of three '.'-free segments gives them back. */
  lemma ThreeSegments(a: string, b: string, c: string)
    requires '.' !in a && '.' !in b && '.' !in c
    ensures Explode(a + "." + b + "." + c, '.') == [a, b, c]
  {
    var bc := b + ['.'] + c;
    assert a + "." + b + "." + c == a + ['.'] + bc;
    ExplodeCons(a, '.', bc);
    ExplodeCons(b, '.', c);
    ExplodeNoSep(c, '.');
  }

  /** An encoded token is exactly three '.'-joined segments: the header,
      the stamped payload, and the HMAC over the first two. */
  lemma EncodeSegments(claims: Claims, iat: int, expClock: int, cfg: JwtConfig, rt: Runtime)
    ensures var h := B64Url(HeaderJson());
      var p := B64Url(rt.jsonEncode(Stamped(claims, iat, expClock, cfg)));
      Explode(Encode(claims, iat, expClock, cfg, rt), '.') == [h, p, Sign(cfg, h, p, rt)]
  {
    var h := B64Url(HeaderJson());
    var p := B64Url(rt.jsonEncode(Stamped(claims, iat, expClock, cfg)));
    B64UrlAlphabet(HeaderJson());
    B64UrlAlphabet(rt.jsonEncode(Stamped(claims, iat, expClock, cfg)));
    B64UrlAlphabet(rt.hmacSha256(cfg.secret, h + "." + p));
    ThreeSegments(h, p, Sign(cfg, h, p, rt));
  }

  /** What `decode` accepts: three segments, whose third is the signature
      recomputed under the secret, and a payload that is not expired. */
  lemma DecodeAccepts(token: string, now: int, cfg: JwtConfig, rt: Runtime)
    ensures Decode(token, now, cfg, rt).Some? <==>
      var parts := Explode(token, '.');
      && |parts| == 3
      && Sign(cfg, B64Url(UrlDecode(parts[0])), B64Url(UrlDecode(parts[1])), rt) == parts[2]
      && rt.jsonDecode(UrlDecode(parts[1])).Some?
      && !Expired(rt.jsonDecode(UrlDecode(parts[1])).value, now)
  {
  }

  /** Round trip: when the JSON codec round-trips the payload, `decode`
      returns the stamped payload for as long as now <= exp, and rejects
      it afterwards. */
  lemma RoundTrip(claims: Claims, iat: int, expClock: int, now: int, cfg: JwtConfig, rt: Runtime)
    requires var payload := rt.jsonEncode(Stamped(claims, iat, expClock, cfg));
      rt.jsonDecode(payload) == Some(Stamped(claims, iat, expClock, cfg))
    ensures now <= expClock + cfg.expire ==>
      Decode(Encode(claims, iat, expClock, cfg, rt), now, cfg, rt) == Some(Stamped(claims, iat, expClock, cfg))
    ensures now > expClock + cfg.expire ==>
      Decode(Encode(claims, iat, expClock, cfg, rt), now, cfg, rt) == None
  {
    var stamped := Stamped(claims, iat, expClock, cfg);
    var h := B64Url(HeaderJson());
    var p := B64Url(rt.jsonEncode(stamped));
    var token := Encode(claims, iat, expClock, cfg, rt);
    EncodeSegments(claims, iat, expClock, cfg, rt);
    var parts := Explode(token, '.');
    assert parts == [h, p, Sign(cfg, h, p, rt)];
    UrlRoundTrip(HeaderJson());
    UrlRoundTrip(rt.jsonEncode(stamped));
    assert Decode(token, now, cfg, rt) == Verified(parts, HeaderJson(), rt.jsonEncode(stamped), now, cfg, rt);
    assert Expired(stamped, now) <==> expClock + cfg.expire < now by {
      assert stamped["exp"] == Num(expClock + cfg.expire);
    }
  }

  /** As written, a token whose first two segments have no '-' or '_' is
      decoded as intended. */
  lemma PlainSegmentsAgree(token: string, now: int, cfg: JwtConfig, rt: Runtime)
    requires var parts := Explode(token, '.');
      |parts| == 3 ==> '-' !in parts[0] && '_' !in parts[0] && '-' !in parts[1] && '_' !in parts[1]
    ensures DecodeAsWritten(token, now, cfg, rt) == Decode(token, now, cfg, rt)
  {
    var parts := Explode(token, '.');
    if |parts| == 3 {
      PlainSegment(parts[0]);
      PlainSegment(parts[1]);
    }
  }

  /** As written, the round trip holds for a payload whose segment has no
      '-' or '_' (the header segment has neither). */
  lemma RoundTripAsWritten(claims: Claims, iat: int, expClock: int, now: int, cfg: JwtConfig, rt: Runtime)
    requires var payload := rt.jsonEncode(Stamped(claims, iat, expClock, cfg));
      && '-' !in B64Url(payload) && '_' !in B64Url(payload)
      && rt.jsonDecode(payload) == Some(Stamped(claims, iat, expClock, cfg))
    ensures now <= expClock + cfg.expire ==>
      DecodeAsWritten(Encode(claims, iat, expClock, cfg, rt), now, cfg, rt) == Some(Stamped(claims, iat, expClock, cfg))
    ensures now > expClock + cfg.expire ==>
      DecodeAsWritten(Encode(claims, iat, expClock, cfg, rt), now, cfg, rt) == None
  {
    var h := B64Url(HeaderJson());
    var p := B64Url(rt.jsonEncode(Stamped(claims, iat, expClock, cfg)));
    EncodeSegments(claims, iat, expClock, cfg, rt);
    HeaderSegmentPlain();
    PlainSegmentsAgree(Encode(claims, iat, expClock, cfg, rt), now, cfg, rt);
    RoundTrip(claims, iat, expClock, now, cfg, rt);
  }

  /** As written, a token whose payload segment contains '-' or '_' is
      rejected however fresh it is: `base64_decode` drops those
      characters, the re-encoded payload differs from the segment, and the
      signature is recomputed over the different message. The one
      assumption is that HMAC-SHA256 tells the two messages apart. */
  lemma DashedPayloadRejectedAsWritten(claims: Claims, iat: int, expClock: int, now: int, cfg: JwtConfig, rt: Runtime)
    requires var h, p := B64Url(HeaderJson()), B64Url(rt.jsonEncode(Stamped(claims, iat, expClock, cfg)));
      && (exists k :: 0 <= k < |p| && (p[k] == '-' || p[k] == '_'))
      && rt.hmacSha256(cfg.secret, h + "." + B64Url(Base64Decode(p))) != rt.hmacSha256(cfg.secret, h + "." + p)
    ensures var p := B64Url(rt.jsonEncode(Stamped(claims, iat, expClock, cfg)));
      B64Url(Base64Decode(p)) != p
    ensures DecodeAsWritten(Encode(claims, iat, expClock, cfg, rt), now, cfg, rt) == None
  {
    var h := B64Url(HeaderJson());
    var p := B64Url(rt.jsonEncode(Stamped(claims, iat, expClock, cfg)));
    DroppedCharsChangeSegment(p);
    EncodeSegments(claims, iat, expClock, cfg, rt);
    HeaderSegmentPlain();
    PlainSegment(h);
    UrlRoundTrip(HeaderJson());
    var parts := Explode(Encode(claims, iat, expClock, cfg, rt), '.');
    assert parts == [h, p, Sign(cfg, h, p, rt)];
    assert B64Url(Base64Decode(parts[0])) == h;
    if Sign(cfg, h, B64Url(Base64Decode(p)), rt) == Sign(cfg, h, p, rt) {
      B64UrlInjective(rt.hmacSha256(cfg.secret, h + "." + B64Url(Base64Decode(p))), rt.hmacSha256(cfg.secret, h + "." + p));
    }
  }

  /** The characters '"', 'a', '~' (the start of a JSON string "a~…")
      encode to "ImF-": an e-mail address with a '~' can put a '-' into
      the payload segment. */
  lemma TildeGivesDash()
    ensures B64Url([34, 97, 126]) == "ImF-"
  {
    assert Quantum([34, 97, 126]) == "ImF+";
    assert "ImF+"[1..] == "mF+" && "mF+"[1..] == "F+" && "F+"[1..] == "+";
  }

  /** A token whose third segment is not the recomputed signature is
      rejected, whatever its payload says. */
  lemma ForgedSignatureRejected(h: string, p: string, s: string, now: int, cfg: JwtConfig, rt: Runtime)
    requires '.' !in h && '.' !in p && '.' !in s
    requires s != Sign(cfg, B64Url(UrlDecode(h)), B64Url(UrlDecode(p)), rt)
    ensures Decode(h + "." + p + "." + s, now, cfg, rt) == None
  {
    ThreeSegments(h, p, s);
  }

  /** A token with fewer or more than three segments is rejected. */
  lemma WrongSegmentCountRejected(token: string, now: int, cfg: JwtConfig, rt: Runtime)
    requires |Explode(token, '.')| != 3
    ensures Decode(token, now, cfg, rt) == None
    ensures DecodeAsWritten(token, now, cfg, rt) == None
  {
  }
}
