/** middleware/AuthMiddleware.php: the bearer-token gate. The checks run
    in a fixed order and the first failure answers 401: header present,
    Bearer format (section 2.1 of RFC 6750), token accepted by
    `JWT::decode`, user still present. */
module AuthMiddleware {
  import opened Common
  import opened Text
  import opened Jwt
  import opened Users

  /** PCRE's `\s`: space, tab, line feed, vertical tab, form feed, carriage
      return. */
  predicate IsRegexSpace(c: char) {
    c == ' ' || c == '\t' || c == '\n' || c == '\U{B}' || c == '\U{C}' || c == '\r'
  }

  /** ASCII case folding, as the `/i` flag applies it. */
  function Lower(c: char): char {
    if 'A' <= c <= 'Z' then (c as int + 32) as char else c
  }

  /** "Bearer", in any case, starts at `i`. */
  predicate BearerAt(s: string, i: nat) {
    i + 6 <= |s| && forall k :: 0 <= k < 6 ==> Lower(s[i + k]) == "bearer"[k]
  }

  /** The length of the run of `\s` characters starting at `j`. */
  function SpaceRun(s: string, j: nat): (n: nat)
    requires j <= |s|
    ensures j + n <= |s|
    ensures forall p :: j <= p < j + n ==> IsRegexSpace(s[p])
    ensures j + n == |s| || !IsRegexSpace(s[j + n])
    decreases |s| - j
  {
    if j < |s| && IsRegexSpace(s[j]) then 1 + SpaceRun(s, j + 1) else 0
  }

  /** How far `.*` reaches from `j`: up to the first line feed. */
  function LineEnd(s: string, j: nat): (e: nat)
    requires j <= |s|
    ensures j <= e <= |s|
    ensures forall p :: j <= p < e ==> s[p] != '\n'
    ensures e == |s| || s[e] == '\n'
    decreases |s| - j
  {
    if j == |s| || s[j] == '\n' then j else LineEnd(s, j + 1)
  }

  /** `$` without the /m flag: the end, or just before a final line feed. */
  predicate DollarAt(s: string, e: nat) {
    e == |s| || (e == |s| - 1 && s[e] == '\n')
  }

  /** `Bearer\s+(.*)$` matches with "Bearer" at `i`, the whitespace run
      ending at `j` and the captured group `s[j..e]`. */
  predicate Matches(s: string, i: nat, j: nat, e: nat) {
    && BearerAt(s, i) && i + 6 < j <= e <= |s|
    && (forall p :: i + 6 <= p < j ==> IsRegexSpace(s[p]))
    && (forall p :: j <= p < e ==> s[p] != '\n')
    && DollarAt(s, e)
  }

  /** Backtracking `\s+` from `k` characters down to one; for each, `.*`
      takes the rest of the line and `$` must follow. */
  function TryRun(s: string, i: nat, k: nat): Option<string>
    requires BearerAt(s, i) && i + 6 + k <= |s|
    decreases k
  {
    if k == 0 then None
    else
      var j := i + 6 + k;
      var e := LineEnd(s, j);
      if DollarAt(s, e) then Some(s[j..e]) else TryRun(s, i, k - 1)
  }

  /** The unanchored search: start positions are tried left to right. */
  function MatchFrom(s: string, i: nat): Option<string>
    decreases |s| - i
  {
    if i + 6 > |s| then None
    else if BearerAt(s, i) then
      match TryRun(s, i, SpaceRun(s, i + 6))
      case Some(t) => Some(t)
      case None => MatchFrom(s, i + 1)
    else MatchFrom(s, i + 1)
  }

  /** `preg_match('/Bearer\s+(.*)$/i', $header, $matches)` and `$matches[1]`. */
  function BearerToken(header: string): Option<string> {
    MatchFrom(header, 0)
  }

  /** The capture of a match runs to the end of the line: `.*` cannot
      stop short of it and still meet `$`. */
  lemma MatchEnd(s: string, i: nat, j: nat, e: nat)
    requires Matches(s, i, j, e)
    ensures e == LineEnd(s, j)
  {
  }

  /** The whitespace of a match lies within the run after "Bearer". */
  lemma RunBound(s: string, i: nat, j: nat, e: nat)
    requires Matches(s, i, j, e)
    ensures j <= i + 6 + SpaceRun(s, i + 6)
  {
  }

  /** The match PCRE reports among those starting at `lo` or later: the
      leftmost start `i`, and at that start the longest whitespace run. */
  ghost predicate FirstFrom(s: string, lo: nat, i: nat, j: nat) {
    forall i': nat, j': nat, e': nat :: lo <= i' && Matches(s, i', j', e') ==> i <= i' && (i' == i ==> j' <= j)
  }

  lemma {:induction false} TryRunSound(s: string, i: nat, k: nat)
    requires BearerAt(s, i) && k <= SpaceRun(s, i + 6)
    ensures TryRun(s, i, k).Some? ==>
      exists j: nat, e: nat :: && Matches(s, i, j, e) && TryRun(s, i, k).value == s[j..e]
                               && forall j': nat, e': nat :: Matches(s, i, j', e') && j' <= i + 6 + k ==> j' <= j
    decreases k
  {
    if k > 0 {
      var j := i + 6 + k;
      var e := LineEnd(s, j);
      if DollarAt(s, e) {
        assert Matches(s, i, j, e);
      } else {
        TryRunSound(s, i, k - 1);
        if TryRun(s, i, k - 1).Some? {
          var j0: nat, e0: nat :| && Matches(s, i, j0, e0) && TryRun(s, i, k - 1).value == s[j0..e0]
                                  && forall j': nat, e': nat :: Matches(s, i, j', e') && j' <= i + 6 + (k - 1) ==> j' <= j0;
          forall j': nat, e': nat | Matches(s, i, j', e') && j' <= i + 6 + k
            ensures j' <= j0
          {
            if j' == j {
              MatchEnd(s, i, j', e');
              assert false;
            }
          }
        }
      }
    }
  }

  /** Once some whitespace run after the "Bearer" at `i` leads to a match,
      the greedy first try, with `k` characters, succeeds too. */
  lemma TryRunComplete(s: string, i: nat, k: nat, j: nat, e: nat)
    requires BearerAt(s, i) && k <= SpaceRun(s, i + 6)
    requires Matches(s, i, j, e) && j <= i + 6 + k
    ensures TryRun(s, i, k).Some?
  {
    var e' := LineEnd(s, i + 6 + k);
    if i + 6 + k <= e {
      assert e' == e;
    }
    assert DollarAt(s, e');
  }

  lemma {:induction false} MatchFromSound(s: string, i: nat)
    ensures MatchFrom(s, i).Some? ==>
      exists i0: nat, j: nat, e: nat :: && i <= i0 && Matches(s, i0, j, e) && MatchFrom(s, i).value == s[j..e]
                                        && FirstFrom(s, i, i0, j)
    decreases |s| - i
  {
    if i + 6 <= |s| {
      var n := SpaceRun(s, i + 6);
      if BearerAt(s, i) && TryRun(s, i, n).Some? {
        TryRunSound(s, i, n);
        var j: nat, e: nat :| && Matches(s, i, j, e) && TryRun(s, i, n).value == s[j..e]
                              && forall j': nat, e': nat :: Matches(s, i, j', e') && j' <= i + 6 + n ==> j' <= j;
        forall i': nat, j': nat, e': nat | i <= i' && Matches(s, i', j', e')
          ensures i <= i' && (i' == i ==> j' <= j)
        {
          if i' == i {
            RunBound(s, i, j', e');
          }
        }
        assert FirstFrom(s, i, i, j);
      } else {
        MatchFromSound(s, i + 1);
        if MatchFrom(s, i + 1).Some? {
          var i0: nat, j: nat, e: nat :| && i + 1 <= i0 && Matches(s, i0, j, e) && MatchFrom(s, i + 1).value == s[j..e]
                                         && FirstFrom(s, i + 1, i0, j);
          forall i': nat, j': nat, e': nat | i <= i' && Matches(s, i', j', e')
            ensures i0 <= i' && (i' == i0 ==> j' <= j)
          {
            if i' == i {
              RunBound(s, i, j', e');
              TryRunComplete(s, i, n, j', e');
              assert false;
            }
          }
          assert FirstFrom(s, i, i0, j);
        }
      }
    }
  }

  lemma {:induction false} MatchFromComplete(s: string, i: nat, i': nat, j: nat, e: nat)
    requires i <= i' && Matches(s, i', j, e)
    ensures MatchFrom(s, i).Some?
    decreases |s| - i
  {
    if BearerAt(s, i) && TryRun(s, i, SpaceRun(s, i + 6)).Some? {
    } else if i == i' {
      var n := SpaceRun(s, i + 6);
      assert j <= i + 6 + n;
      TryRunComplete(s, i, n, j, e);
    } else {
      MatchFromComplete(s, i + 1, i', j, e);
    }
  }

  /** The header has the Bearer format exactly when the regular expression
      matches somewhere, and the token is then the group PCRE captures:
      the match starts at the leftmost "Bearer" that can match, takes the
      longest whitespace run after it that still leads to a match, and the
      group is the rest of that line, up to the end or a final line feed. */
  lemma BearerTokenMeaning(header: string)
    ensures BearerToken(header).Some? <==> exists i: nat, j: nat, e: nat :: Matches(header, i, j, e)
    ensures BearerToken(header).Some? ==>
      exists i: nat, j: nat, e: nat :: && Matches(header, i, j, e) && BearerToken(header).value == header[j..e]
                                       && FirstFrom(header, 0, i, j) && e == LineEnd(header, j)
  {
    MatchFromSound(header, 0);
    if BearerToken(header).Some? {
      var i: nat, j: nat, e: nat :| && 0 <= i && Matches(header, i, j, e) && BearerToken(header).value == header[j..e]
                                     && FirstFrom(header, 0, i, j);
      MatchEnd(header, i, j, e);
    }
    if exists i: nat, j: nat, e: nat :: Matches(header, i, j, e) {
      var i, j, e :| Matches(header, i, j, e);
      MatchFromComplete(header, 0, i, j, e);
    }
  }

  /** The usual header "Bearer <token>", for a token with no line feed
      that does not start with whitespace, yields that token. */
  lemma StandardHeader(token: string)
    requires '\n' !in token && (token == [] || !IsRegexSpace(token[0]))
    ensures BearerToken("Bearer " + token) == Some(token)
  {
    var s := "Bearer " + token;
    assert s[..7] == "Bearer " && s[7..] == token;
    assert BearerAt(s, 0) by {
      forall k | 0 <= k < 6
        ensures Lower(s[k]) == "bearer"[k]
      {
        assert s[k] == "Bearer "[k];
      }
    }
    assert IsRegexSpace(s[6]);
    assert SpaceRun(s, 7) == 0 by {
      if 7 < |s| {
        assert s[7] == token[0];
      }
    }
    assert SpaceRun(s, 6) == 1;
    var e := LineEnd(s, 7);
    assert e == |s|;
    assert s[7..|s|] == token;
    assert TryRun(s, 0, 1) == Some(token);
  }

  /** The outcome of `authenticate`: a 401 with its message, or the user,
      without password, that becomes `$currentUser`. */
  datatype AuthResult = Denied(code: int, message: string) | Authenticated(user: Profile)

  /** The user the token's `userId` claim names, looked up with
      `findById`; a claim that is not a string names nobody. */
  function ClaimedUser(claims: Claims, um: UserModel): Option<Profile>
    reads um
  {
    if "userId" in claims && claims["userId"].Text? then um.FindById(claims["userId"].s) else None
  }

  /** `authenticate` as a decision: each check runs only when all earlier
      ones passed. A payload that is empty counts as rejected, as the
      empty PHP array is falsy. A payload without `userId` makes reading it
      raise a warning, which the error handler answers with a 500. */
  function AuthOutcome(authorization: Option<string>, now: int, cfg: JwtConfig, rt: Runtime, um: UserModel): AuthResult
    reads um
  {
    if authorization.None? then Denied(401, "No authorization token provided")
    else
      match BearerToken(authorization.value)
      case None => Denied(401, "Invalid authorization format")
      case Some(token) =>
        match Decode(token, now, cfg, rt)
        case None => Denied(401, "Invalid or expired token")
        case Some(claims) =>
          if claims == map[] then Denied(401, "Invalid or expired token")
          else if "userId" !in claims then Denied(500, "Internal server error")
          else
            match ClaimedUser(claims, um)
            case None => Denied(401, "User not found")
            case Some(u) => Authenticated(u)
  }

  /** Every failure is a 401 but one: a valid token whose payload lacks
      `userId` ends in the error handler's 500. A success hands out exactly
      the stored user named by a valid token, without its password. */
  lemma AuthenticateMeaning(authorization: Option<string>, now: int, cfg: JwtConfig, rt: Runtime, um: UserModel)
    ensures var r := AuthOutcome(authorization, now, cfg, rt, um);
      && (r.Denied? ==> r.code == 401 || r == Denied(500, "Internal server error"))
      && (r == Denied(500, "Internal server error") <==>
            && authorization.Some?
            && BearerToken(authorization.value).Some?
            && var claims := Decode(BearerToken(authorization.value).value, now, cfg, rt);
               claims.Some? && claims.value != map[] && "userId" !in claims.value)
      && (r.Authenticated? <==>
            && authorization.Some?
            && BearerToken(authorization.value).Some?
            && var claims := Decode(BearerToken(authorization.value).value, now, cfg, rt);
               claims.Some? && claims.value != map[] && ClaimedUser(claims.value, um).Some?)
      && (r.Authenticated? ==> exists id :: id in um.users && r.user == ProfileOf(id, um.users[id]))
  {
    var r := AuthOutcome(authorization, now, cfg, rt, um);
    if r.Authenticated? {
      var claims := Decode(BearerToken(authorization.value).value, now, cfg, rt).value;
      var id := Canonical(claims["userId"].s);
      assert id in um.users && r.user == ProfileOf(id, um.users[id]);
    }
  }

  /** An encoded token has no line feed and does not start with
      whitespace, so the Bearer header carries it whole. */
  lemma EncodedTokenPlain(claims: Claims, iat: int, expClock: int, cfg: JwtConfig, rt: Runtime)
    ensures var token := Encode(claims, iat, expClock, cfg, rt);
      '\n' !in token && (token == [] || !IsRegexSpace(token[0]))
  {
    var h := B64Url(HeaderJson());
    var p := B64Url(rt.jsonEncode(Stamped(claims, iat, expClock, cfg)));
    B64UrlAlphabet(HeaderJson());
    B64UrlAlphabet(rt.jsonEncode(Stamped(claims, iat, expClock, cfg)));
    B64UrlAlphabet(rt.hmacSha256(cfg.secret, h + "." + p));
    JoinedPlain(h, p, Sign(cfg, h, p, rt));
  }

  lemma JoinedPlain(h: string, p: string, g: string)
    requires forall i :: 0 <= i < |h| ==> UrlSafeChar(h[i])
    requires forall i :: 0 <= i < |p| ==> UrlSafeChar(p[i])
    requires forall i :: 0 <= i < |g| ==> UrlSafeChar(g[i])
    ensures var t := h + "." + p + "." + g;
      '\n' !in t && (t == [] || !IsRegexSpace(t[0]))
  {
    var t := h + "." + p + "." + g;
    forall i | 0 <= i < |t|
      ensures t[i] == '.' || UrlSafeChar(t[i])
    {
      if i < |h| {
        assert t[i] == h[i];
      } else if i == |h| || i == |h| + 1 + |p| {
      } else if i < |h| + 1 + |p| {
        assert t[i] == p[i - |h| - 1];
      } else {
        assert t[i] == g[i - |h| - 2 - |p|];
      }
    }
  }

  /** A token issued by `encode` for an existing user's id, presented as
      "Bearer <token>" before it expires, authenticates that user, given
      that the JSON decoder inverts the encoder. */
  lemma IssuedTokenAuthenticates(claims: Claims, iat: int, expClock: int, now: int,
                                 cfg: JwtConfig, rt: Runtime, um: UserModel, id: Id)
    requires var payload := rt.jsonEncode(Stamped(claims, iat, expClock, cfg));
      rt.jsonDecode(payload) == Some(Stamped(claims, iat, expClock, cfg))
    requires now <= expClock + cfg.expire
    requires "userId" in claims && claims["userId"] == Text(id) && ValidObjectId(id) && Canonical(id) in um.users
    ensures AuthOutcome(Some("Bearer " + Encode(claims, iat, expClock, cfg, rt)), now, cfg, rt, um)
            == Authenticated(ProfileOf(Canonical(id), um.users[Canonical(id)]))
  {
    var token := Encode(claims, iat, expClock, cfg, rt);
    EncodedTokenPlain(claims, iat, expClock, cfg, rt);
    StandardHeader(token);
    RoundTrip(claims, iat, expClock, now, cfg, rt);
    var stamped := Stamped(claims, iat, expClock, cfg);
    assert "userId" in stamped && stamped["userId"] == Text(id);
    AcceptedHeader("Bearer " + token, token, stamped, now, cfg, rt, um);
  }

  lemma AcceptedHeader(header: string, token: string, claims: Claims, now: int, cfg: JwtConfig, rt: Runtime, um: UserModel)
    requires BearerToken(header) == Some(token) && Decode(token, now, cfg, rt) == Some(claims)
    requires "userId" in claims && claims["userId"].Text? && ClaimedUser(claims, um).Some?
    ensures AuthOutcome(Some(header), now, cfg, rt, um) == Authenticated(ClaimedUser(claims, um).value)
  {
  }

  /** The request's `$currentUser` global. */
  class Session {
    var currentUser: Option<Profile>

    constructor ()
      ensures currentUser.None?
    {
      currentUser := None;
    }

    /** `authenticate` with its side effect: once the token is accepted,
        `$currentUser` is assigned the lookup result (null when the user is
        gone) before that result is checked. */
    method Authenticate(authorization: Option<string>, now: int, cfg: JwtConfig, rt: Runtime, um: UserModel)
      returns (r: AuthResult)
      modifies this
      ensures r == AuthOutcome(authorization, now, cfg, rt, um)
      ensures r.Authenticated? ==> currentUser == Some(r.user)
      ensures r.Denied? && r.message != "User not found" ==> currentUser == old(currentUser)
      ensures r.Denied? && r.message == "User not found" ==> currentUser.None?
    {
      if authorization.None? {
        return Denied(401, "No authorization token provided");
      }
      var token := BearerToken(authorization.value);
      if token.None? {
        return Denied(401, "Invalid authorization format");
      }
      var payload := Decode(token.value, now, cfg, rt);
      if payload.None? || payload.value == map[] {
        return Denied(401, "Invalid or expired token");
      }
      if "userId" !in payload.value {
        return Denied(500, "Internal server error");
      }
      currentUser := ClaimedUser(payload.value, um);
      if currentUser.None? {
        return Denied(401, "User not found");
      }
      r := Authenticated(currentUser.value);
    }
  }
}
