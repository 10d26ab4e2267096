/**
  Challenges and spend tokens as bytes and as RFC 9577 headers
  (core/src/lib.rs, pomfrit/src/lib.rs).
 */
module Wire {
  import opened Encoding
  import opened Keys
  import opened Text

  /** The eat-pass token type. */
  const TOKEN_TYPE: u16 := 0x4550

  datatype TokenError =
    | Malformed(reason: string)
    | WrongTokenType(tokenType: u16)
    | ChallengeMismatch
    | KeyIdMismatch
    | KeyVersionMismatch(requested: u32, have: u32)
    | CountMismatch(want: nat, got: nat)
    | VerifyFailed

  // ---- Challenges (section 2.1.1 of RFC 9577) ----

  /** `issuerName` and `originInfo` are Rust strings: their UTF-8 bytes. */
  datatype TokenChallenge = TokenChallenge(
    tokenType: u16, issuerName: Bytes, redemptionContext: Bytes, originInfo: Bytes)
  {
    predicate WellTyped() { ValidUtf8(issuerName) && ValidUtf8(originInfo) }

    /** Every length fits its prefix. */
    predicate InBounds() {
      |issuerName| < 0x1_0000 && |redemptionContext| < 0x100 && |originInfo| < 0x1_0000
    }

    predicate HasRedemptionContext() { |redemptionContext| == 32 }
  }

  /** Lengths are truncated to the width of their prefix, as the casts do. */
  function ToBytes(c: TokenChallenge): Bytes {
    BE(c.tokenType, 2)
    + BE(AsU16(|c.issuerName|), 2) + c.issuerName
    + [|c.redemptionContext| % 0x100] + c.redemptionContext
    + BE(AsU16(|c.originInfo|), 2) + c.originInfo
  }

  function ChallengeDigest(h: Hash, c: TokenChallenge): Digest { h(ToBytes(c)) }

  /** `u16::from_be_bytes` at an offset. */
  function U16At(b: Bytes, off: nat): u16
    requires off + 2 <= |b|
  {
    b[off] as int * 0x100 + b[off + 1] as int
  }

  function FromBytes(b: Bytes): (r: Result<TokenChallenge, TokenError>)
    ensures r.Ok? ==> r.value.InBounds() && r.value.WellTyped()
  {
    if |b| < 2 + 2 + 1 + 2 then Err(Malformed("challenge too short"))
    else
      var tokenType := U16At(b, 0);
      var issLen := U16At(b, 2);
      var off := 4;
      if off + issLen + 1 + 2 > |b| then Err(Malformed("challenge issuer truncated"))
      else if !ValidUtf8(b[off..off + issLen]) then Err(Malformed("challenge issuer utf8"))
      else
        var issuerName := b[off..off + issLen];
        var off := off + issLen;
        var ctxLen: int := b[off];
        var off := off + 1;
        if off + ctxLen + 2 > |b| then Err(Malformed("challenge context truncated"))
        else
          var context := b[off..off + ctxLen];
          var off := off + ctxLen;
          var orgLen := U16At(b, off);
          var off := off + 2;
          if off + orgLen != |b| then Err(Malformed("challenge origin truncated"))
          else if !ValidUtf8(b[off..off + orgLen]) then Err(Malformed("challenge origin utf8"))
          else Ok(TokenChallenge(tokenType, issuerName, context, b[off..off + orgLen]))
  }

  lemma U16Layout(n: u16)
    ensures BE(n, 2) == [n / 0x100, n % 0x100]
  {
    assert BE(n / 0x100, 1) == [n / 0x100 % 0x100];
  }

  lemma Middle<T>(a: seq<T>, x: seq<T>, c: seq<T>)
    ensures (a + x + c)[|a|..|a| + |x|] == x
  {
  }

  /** The parts of the challenge layout, read back by position. */
  lemma Parts<T>(p: seq<T>, x: seq<T>, c: seq<T>, y: seq<T>, q: seq<T>, z: seq<T>, s: seq<T>)
    requires s == p + x + c + y + q + z
    ensures s[..|p|] == p
    ensures s[|p|..|p| + |x|] == x
    ensures s[|p| + |x|..|p| + |x| + |c|] == c
    ensures s[|p| + |x| + |c|..|p| + |x| + |c| + |y|] == y
    ensures s[|p| + |x| + |c| + |y|..|p| + |x| + |c| + |y| + |q|] == q
    ensures s[|p| + |x| + |c| + |y| + |q|..] == z
  {
    var t2 := p + x;
    var t3 := t2 + c;
    var t4 := t3 + y;
    var t5 := t4 + q;
    assert s[..|t5|] == t5 && s[|t5|..] == z by { assert s == t5 + z; }
    LastPart(s, t4, q);
    LastPart(s, t3, y);
    LastPart(s, t2, c);
    LastPart(s, p, x);
  }

  lemma LastPart<T>(s: seq<T>, t: seq<T>, y: seq<T>)
    requires |t| + |y| <= |s| && s[..|t| + |y|] == t + y
    ensures s[..|t|] == t && s[|t|..|t| + |y|] == y
  {
    assert s[..|t| + |y|][..|t|] == s[..|t|];
    assert s[..|t| + |y|][|t|..] == s[|t|..|t| + |y|];
  }

  lemma Cuts<T>(s: seq<T>, a: nat, b: nat, c: nat, d: nat, e: nat)
    requires a <= b <= c <= d <= e <= |s|
    ensures s == s[..a] + s[a..b] + s[b..c] + s[c..d] + s[d..e] + s[e..]
  {
    assert s[..b] == s[..a] + s[a..b];
    assert s[..c] == s[..b] + s[b..c];
    assert s[..d] == s[..c] + s[c..d];
    assert s[..e] == s[..d] + s[d..e];
    assert s == s[..e] + s[e..];
  }

  lemma U16Read(b: Bytes, off: nat, n: u16)
    requires off + 2 <= |b|
    ensures b[off..off + 2] == BE(n, 2) <==> U16At(b, off) == n
  {
    U16Layout(n);
    assert b[off..off + 2] == [b[off], b[off + 1]];
  }

  /** `b` is the parts of `c`, slice by slice. */
  predicate Sliced(c: TokenChallenge, b: Bytes) {
    var n, m, k := |c.issuerName|, |c.redemptionContext|, |c.originInfo|;
    && c.InBounds() && |b| == 7 + n + m + k
    && b[..4] == BE(c.tokenType, 2) + BE(n, 2)
    && b[4..4 + n] == c.issuerName
    && b[4 + n..5 + n] == [m]
    && b[5 + n..5 + n + m] == c.redemptionContext
    && b[5 + n + m..7 + n + m] == BE(k, 2)
    && b[7 + n + m..] == c.originInfo
  }

  /** What a reader of `b` finds, field by field. */
  predicate LaidOut(c: TokenChallenge, b: Bytes) {
    var n, m, k := |c.issuerName|, |c.redemptionContext|, |c.originInfo|;
    && c.InBounds() && |b| == 7 + n + m + k
    && U16At(b, 0) == c.tokenType && U16At(b, 2) == n && b[4 + n] == m && U16At(b, 5 + n + m) == k
    && b[4..4 + n] == c.issuerName && b[5 + n..5 + n + m] == c.redemptionContext
    && b[7 + n + m..] == c.originInfo
  }

  lemma HeaderRead(b: Bytes, x: u16, y: u16)
    requires |b| >= 4
    ensures b[..4] == BE(x, 2) + BE(y, 2) <==> U16At(b, 0) == x && U16At(b, 2) == y
  {
    hide BE, U16At;
    Widths();
    U16Read(b, 0, x);
    U16Read(b, 2, y);
    assert b[..4] == b[0..2] + b[2..4];
    if b[..4] == BE(x, 2) + BE(y, 2) {
      SameSplit(b[0..2], b[2..4], BE(x, 2), BE(y, 2));
    }
  }

  lemma SlicedIsLaidOut(c: TokenChallenge, b: Bytes)
    ensures Sliced(c, b) <==> LaidOut(c, b)
  {
    hide BE, U16At;
    var n, m, k := |c.issuerName|, |c.redemptionContext|, |c.originInfo|;
    if c.InBounds() && |b| == 7 + n + m + k {
      HeaderRead(b, c.tokenType, n);
      U16Read(b, 5 + n + m, k);
      assert b[4 + n..5 + n] == [b[4 + n]];
    }
  }

  lemma ToBytesSliced(c: TokenChallenge)
    requires c.InBounds()
    ensures Sliced(c, ToBytes(c))
  {
    hide BE;
    Parts(BE(c.tokenType, 2) + BE(|c.issuerName|, 2), c.issuerName, [|c.redemptionContext|],
          c.redemptionContext, BE(|c.originInfo|, 2), c.originInfo, ToBytes(c));
  }

  lemma SlicedToBytes(c: TokenChallenge, b: Bytes)
    requires Sliced(c, b)
    ensures ToBytes(c) == b
  {
    hide BE;
    var n, m := |c.issuerName|, |c.redemptionContext|;
    Cuts(b, 4, 4 + n, 5 + n, 5 + n + m, 7 + n + m);
  }

  lemma ChallengeParses(c: TokenChallenge)
    requires c.WellTyped() && c.InBounds()
    ensures FromBytes(ToBytes(c)) == Ok(c)
  {
    hide ValidUtf8, ToBytes, U16At, Sliced;
    var b, k := ToBytes(c), |c.originInfo|;
    ToBytesSliced(c);
    SlicedIsLaidOut(c, b);
    assert b[|b| - k..|b| - k + k] == b[|b| - k..];
  }

  lemma AcceptedLaidOut(b: Bytes)
    requires FromBytes(b).Ok?
    ensures LaidOut(FromBytes(b).value, b)
  {
    hide ValidUtf8, U16At;
  }

  /**
    The challenge codec round-trips exactly on challenges whose lengths fit their
    prefixes; it is therefore injective there.
   */
  lemma ChallengeRoundTrip(c: TokenChallenge)
    requires c.WellTyped()
    ensures FromBytes(ToBytes(c)) == Ok(c) <==> c.InBounds()
  {
    if c.InBounds() {
      ChallengeParses(c);
    }
  }

  /** Whatever is accepted re-encodes to itself. */
  lemma ChallengeCanonical(b: Bytes)
    requires FromBytes(b).Ok?
    ensures ToBytes(FromBytes(b).value) == b
  {
    hide FromBytes, ToBytes, LaidOut, Sliced;
    var c := FromBytes(b).value;
    AcceptedLaidOut(b);
    SlicedIsLaidOut(c, b);
    SlicedToBytes(c, b);
  }

  // ---- Spend tokens ----

  datatype SpendToken = SpendToken(
    tokenType: u16, nonce: Digest, challengeDigest: Digest, tokenKeyId: Digest, authenticator: Bytes)

  function TokenToBytes(t: SpendToken): Bytes {
    BE(t.tokenType, 2) + t.nonce + t.challengeDigest + t.tokenKeyId + t.authenticator
  }

  function TokenFromBytes(b: Bytes): Result<SpendToken, TokenError> {
    if |b| < 98 + 32 + 1 then Err(Malformed("token too short"))
    else Ok(SpendToken(U16At(b, 0), b[2..34], b[34..66], b[66..98], b[98..]))
  }

  /** The token codec round-trips exactly when the authenticator has 33 bytes or more. */
  lemma TokenRoundTrip(t: SpendToken)
    ensures TokenFromBytes(TokenToBytes(t)) == Ok(t) <==> |t.authenticator| >= 33
  {
    U16Layout(t.tokenType);
    var a1 := BE(t.tokenType, 2);
    var a2 := a1 + t.nonce;
    var a3 := a2 + t.challengeDigest;
    var a4 := a3 + t.tokenKeyId;
    var b := TokenToBytes(t);
    assert b == a4 + t.authenticator;
    assert b == a1 + t.nonce + (t.challengeDigest + t.tokenKeyId + t.authenticator);
    Middle(a1, t.nonce, t.challengeDigest + t.tokenKeyId + t.authenticator);
    assert b == a2 + t.challengeDigest + (t.tokenKeyId + t.authenticator);
    Middle(a2, t.challengeDigest, t.tokenKeyId + t.authenticator);
    Middle(a3, t.tokenKeyId, t.authenticator);
    assert b[98..] == t.authenticator;
  }

  lemma TokenCanonical(b: Bytes)
    requires TokenFromBytes(b).Ok?
    ensures TokenToBytes(TokenFromBytes(b).value) == b
  {
    var t := TokenFromBytes(b).value;
    U16Layout(t.tokenType);
    assert b[..2] == BE(t.tokenType, 2);
    assert b == b[..2] + b[2..34] + b[34..66] + b[66..98] + b[98..];
  }

  // ---- Headers ----

  function WwwAuthenticate(challenge: Bytes, pk: IssuerPublicKey): string {
    "PrivateToken challenge=" + B64Encode(challenge) + ", token-key=" + B64Encode(pk.key)
  }

  function Authorization(t: SpendToken): string {
    "PrivateToken token=" + B64Encode(TokenToBytes(t))
  }

  function ParseAuthorization(header: string): Result<SpendToken, TokenError> {
    match StripPrefix(Trim(header), "PrivateToken")
    case None => Err(Malformed("not a PrivateToken auth header"))
    case Some(rest) =>
      match SplitNth1(Trim(rest), "token=")
      case None => Err(Malformed("missing token= parameter"))
      case Some(s) =>
        match B64Decode(StripEnd(StripEnd(StripStart(Trim(s), '"'), '"'), ','))
        case None => Err(Malformed("base64url"))
        case Some(bytes) => TokenFromBytes(bytes)
  }

  function ParseWwwAuthenticate(header: string): Result<TokenChallenge, TokenError> {
    match StripPrefix(Trim(header), "PrivateToken")
    case None => Err(Malformed("not a PrivateToken challenge"))
    case Some(rest) =>
      match SplitNth1(Trim(rest), "challenge=")
      case None => Err(Malformed("missing challenge= parameter"))
      case Some(s) =>
        match B64Decode(StripEnd(StripStart(Trim(Before(s, ',')), '"'), '"'))
        case None => Err(Malformed("challenge base64url"))
        case Some(bytes) => FromBytes(bytes)
  }

  /** The scheme prefix and the blank after it come off a printed header. */
  lemma HeaderOpens(parameter: string)
    requires |parameter| > 0 && !IsWhite(parameter[0]) && !IsWhite(parameter[|parameter| - 1])
    ensures var header := "PrivateToken " + parameter;
            StripPrefix(Trim(header), "PrivateToken") == Some(" " + parameter)
            && Trim(" " + parameter) == parameter
  {
    var header := "PrivateToken " + parameter;
    TrimmedEnds(header);
    assert header == "PrivateToken" + (" " + parameter);
    assert (" " + parameter)[1..] == parameter;
    TrimmedEnds(parameter);
  }

  lemma NoEqualsNoOccurrence(s: string, pattern: string)
    requires |pattern| > 0 && pattern[|pattern| - 1] == '='
    requires forall i :: 0 <= i < |s| ==> s[i] != '='
    ensures FindFrom(s, pattern, 0) == None
  {
    forall i: nat | i + |pattern| <= |s| ensures !OccursAt(s, pattern, i) {
      assert s[i..i + |pattern|][|pattern| - 1] == s[i + |pattern| - 1];
    }
  }

  lemma AuthorizationParses(b: Bytes, t: SpendToken)
    requires b == TokenToBytes(t)
    ensures ParseAuthorization(Authorization(t)) == TokenFromBytes(b)
  {
    hide TokenToBytes, TokenFromBytes, B64Encode, B64Decode, SplitNth1;
    var x := B64Encode(b);
    B64RoundTrip(b);
    AlphabetIsClean(x);
    var parameter := "token=" + x;
    HeaderOpens(parameter);
    assert Authorization(t) == "PrivateToken " + parameter by {
      assert "PrivateToken token=" == "PrivateToken " + "token=";
      Joined("PrivateToken ", "token=", x);
    }
    TokenParameterSplits(x);
  }

  lemma Joined(a: string, b: string, c: string)
    ensures a + b + c == a + (b + c)
  {
  }

  lemma TokenParameterSplits(x: string)
    requires forall i :: 0 <= i < |x| ==> x[i] != '='
    ensures SplitNth1("token=" + x, "token=") == Some(x)
  {
    var parameter := "token=" + x;
    assert OccursAt(parameter, "token=", 0) && parameter[6..] == x;
    NoEqualsNoOccurrence(x, "token=");
  }

  /** A printed `Authorization` header parses back to its token exactly when the token is long enough. */
  lemma AuthorizationRoundTrip(t: SpendToken)
    ensures ParseAuthorization(Authorization(t)) == Ok(t) <==> |t.authenticator| >= 33
  {
    AuthorizationParses(TokenToBytes(t), t);
    TokenRoundTrip(t);
  }

  lemma ByPosition(x: string, m: string, k: string, i: nat)
    requires i < |x + m + k|
    ensures (x + m + k)[i] ==
            if i < |x| then x[i] else if i < |x| + |m| then m[i - |x|] else k[i - |x| - |m|]
  {
  }

  /**
    A pattern ending in `=` occurs nowhere in `x + m + k` when only `m` ends in `=`
    and the characters before the two `=` differ.
   */
  lemma OneEquals(x: string, m: string, k: string, pattern: string)
    requires forall i :: 0 <= i < |x| ==> x[i] != '='
    requires forall i :: 0 <= i < |k| ==> k[i] != '='
    requires |m| >= 2 && forall i :: 0 <= i < |m| - 1 ==> m[i] != '='
    requires |pattern| >= 2 && pattern[|pattern| - 1] == '=' && pattern[|pattern| - 2] != m[|m| - 2]
    ensures FindFrom(x + m + k, pattern, 0) == None
  {
    hide FindFrom, OccursAt;
    var s, n := x + m + k, |pattern|;
    var found := FindFrom(s, pattern, 0);
    if found.Some? {
      LastTwo(s, pattern, found.value);
      OnlyEquals(x, m, k, found.value + n - 1);
      ByPosition(x, m, k, found.value + n - 2);
    }
  }

  lemma OnlyEquals(x: string, m: string, k: string, i: nat)
    requires forall i :: 0 <= i < |x| ==> x[i] != '='
    requires forall i :: 0 <= i < |k| ==> k[i] != '='
    requires |m| >= 2 && forall i :: 0 <= i < |m| - 1 ==> m[i] != '='
    requires i < |x + m + k| && (x + m + k)[i] == '='
    ensures i == |x| + |m| - 1
  {
    ByPosition(x, m, k, i);
  }

  lemma LastTwo(s: string, pattern: string, i: nat)
    requires |pattern| >= 2 && OccursAt(s, pattern, i)
    ensures i + |pattern| <= |s|
    ensures s[i + |pattern| - 1] == pattern[|pattern| - 1] && s[i + |pattern| - 2] == pattern[|pattern| - 2]
  {
    var n := |pattern|;
    assert s[i..i + n][n - 1] == s[i + n - 1] && s[i..i + n][n - 2] == s[i + n - 2];
  }

  /** The parse, with the two base64url texts abstracted to what matters about them. */
  lemma WwwAuthenticateSplits(x: string, k: string)
    requires forall i :: 0 <= i < |x| ==> x[i] != '=' && x[i] != ','
    requires forall i :: 0 <= i < |k| ==> k[i] != '='
    ensures var s := SplitNth1("challenge=" + (x + ", token-key=" + k), "challenge=");
            s.Some? && Before(s.value, ',') == x
  {
    var pattern, m := "challenge=", ", token-key=";
    var tail := x + m + k;
    assert OccursAt(pattern + tail, pattern, 0) && (pattern + tail)[|pattern|..] == tail;
    OneEquals(x, m, k, pattern);
    assert m == [','] + m[1..];
    assert tail == x + [','] + (m[1..] + k);
    BeforeSplits(x, ',', m[1..] + k);
  }

  lemma Reassociated(a: string, b: string, x: string, m: string, k: string)
    ensures a + b + x + m + k == a + (b + (x + m + k))
  {
  }

  lemma WwwAuthenticateParses(b: Bytes, pk: IssuerPublicKey)
    ensures ParseWwwAuthenticate(WwwAuthenticate(b, pk)) == FromBytes(b)
  {
    hide FromBytes, B64Encode, B64Decode, SplitNth1, Before, Trim, StripStart, StripEnd, StripPrefix;
    var x, k := B64Encode(b), B64Encode(pk.key);
    B64RoundTrip(b);
    B64RoundTrip(pk.key);
    AlphabetIsClean(x);
    AlphabetIsClean(k);
    var parameter := "challenge=" + (x + ", token-key=" + k);
    HeaderOpens(parameter);
    assert "PrivateToken challenge=" == "PrivateToken " + "challenge=";
    Reassociated("PrivateToken ", "challenge=", x, ", token-key=", k);
    WwwAuthenticateSplits(x, k);
  }

  /** The challenge in a printed `WWW-Authenticate` header is recovered exactly within its length bounds. */
  lemma {:induction false} WwwAuthenticateRoundTrip(c: TokenChallenge, pk: IssuerPublicKey)
    requires c.WellTyped()
    ensures ParseWwwAuthenticate(WwwAuthenticate(ToBytes(c), pk)) == Ok(c) <==> c.InBounds()
  {
    WwwAuthenticateParses(ToBytes(c), pk);
    ChallengeRoundTrip(c);
  }

  // ---- Quoted parameters ----

  /** A peer may quote the token, as RFC 9577 does; it parses the same. */
  lemma QuotedTokenParses(b: Bytes)
    ensures ParseAuthorization("PrivateToken " + ("token=" + Quoted(B64Encode(b)))) == TokenFromBytes(b)
  {
    hide TokenFromBytes, B64Encode, B64Decode, SplitNth1, Quoted;
    var x := B64Encode(b);
    B64RoundTrip(b);
    AlphabetIsClean(x);
    QuotesComeOff(x);
    QuotedEnds(x, "token=");
    HeaderOpens("token=" + Quoted(x));
    TokenParameterSplits(Quoted(x));
  }

  /** A comma after the token, as before a further parameter, parses the same. */
  lemma TokenBeforeCommaParses(b: Bytes)
    ensures ParseAuthorization("PrivateToken " + ("token=" + (B64Encode(b) + ","))) == TokenFromBytes(b)
  {
    hide TokenFromBytes, B64Encode, B64Decode, SplitNth1, Trim, StripStart, StripEnd, StripPrefix;
    var x := B64Encode(b);
    B64RoundTrip(b);
    AlphabetIsClean(x);
    CommaComesOff(x);
    CommaEnds(x);
    HeaderOpens("token=" + (x + ","));
    TokenParameterSplits(x + ",");
  }

  lemma CommaEnds(x: string)
    ensures var s := "token=" + (x + ","); !IsWhite(s[0]) && !IsWhite(s[|s| - 1])
  {
  }

  lemma CommaComesOff(x: string)
    requires InAlphabet(x)
    ensures var y := x + ",";
            Trim(y) == y && StripEnd(StripEnd(StripStart(y, '"'), '"'), ',') == x
  {
    AlphabetIsClean(x);
    hide InAlphabet;
    var y := x + ",";
    TrimmedEnds(y);
    if |x| > 0 {
      StripStartKeeps(x, '"');
    }
    assert StripStart(y, '"') == y && y[..|x|] == x;
  }

  lemma QuotedEnds(x: string, p: string)
    requires |p| > 0
    ensures var s := p + Quoted(x); s[0] == p[0] && !IsWhite(s[|s| - 1])
  {
  }

  /** Quoted challenge and key parse the same as bare ones. */
  lemma QuotedChallengeParses(b: Bytes, key: Bytes)
    ensures ParseWwwAuthenticate(
              "PrivateToken " + ("challenge=" + (Quoted(B64Encode(b)) + ", token-key=" + Quoted(B64Encode(key)))))
            == FromBytes(b)
  {
    hide FromBytes, B64Encode, B64Decode, SplitNth1, Before, Trim, StripStart, StripEnd, StripPrefix, Quoted;
    var x, k := Quoted(B64Encode(b)), Quoted(B64Encode(key));
    B64RoundTrip(b);
    B64RoundTrip(key);
    QuotesComeOff(B64Encode(b));
    QuotesComeOff(B64Encode(key));
    QuotedEnds(B64Encode(key), "challenge=" + (x + ", token-key="));
    Joined("challenge=", x + ", token-key=", k);
    HeaderOpens("challenge=" + (x + ", token-key=" + k));
    WwwAuthenticateSplits(x, k);
  }
}
