/**
  The text layer: hexadecimal, unpadded base64url (section 5 of RFC 4648),
  decimal numbers, and the trimming and splitting that the header parsers use.
 */
module Text {
  import opened Encoding

  // ---- Whitespace ----

  /** Unicode White_Space, which `str::trim` removes. */
  predicate IsWhite(c: char) {
    '\t' <= c <= '\r' || c == ' ' || c as int == 0x85 || c as int == 0xA0 || c as int == 0x1680
    || 0x2000 <= c as int <= 0x200A || c as int == 0x2028 || c as int == 0x2029
    || c as int == 0x202F || c as int == 0x205F || c as int == 0x3000
  }

  function TrimStart(s: string): string {
    if |s| > 0 && IsWhite(s[0]) then TrimStart(s[1..]) else s
  }

  function TrimEnd(s: string): string {
    if |s| > 0 && IsWhite(s[|s| - 1]) then TrimEnd(s[..|s| - 1]) else s
  }

  function Trim(s: string): string { TrimEnd(TrimStart(s)) }

  /** `trim_matches(c)` at the front and at the back. */
  function StripStart(s: string, c: char): string {
    if |s| > 0 && s[0] == c then StripStart(s[1..], c) else s
  }

  function StripEnd(s: string, c: char): string {
    if |s| > 0 && s[|s| - 1] == c then StripEnd(s[..|s| - 1], c) else s
  }

  // ---- Hexadecimal ----

  function HexChar(v: int): char
    requires 0 <= v < 16
  {
    if v < 10 then '0' + (v as char) else 'a' + ((v - 10) as char)
  }

  function HexValue(c: char): (v: Option<int>)
    ensures v.Some? ==> 0 <= v.value < 16
  {
    if '0' <= c <= '9' then Some(c as int - '0' as int)
    else if 'a' <= c <= 'f' then Some(c as int - 'a' as int + 10)
    else if 'A' <= c <= 'F' then Some(c as int - 'A' as int + 10)
    else None
  }

  /** `hex::encode`: two lower-case digits a byte. */
  function HexEncode(b: Bytes): (s: string)
    ensures |s| == 2 * |b|
  {
    if |b| == 0 then "" else [HexChar(b[0] / 16), HexChar(b[0] % 16)] + HexEncode(b[1..])
  }

  /** `hex::decode`: either case, no odd digit, nothing else. */
  function HexDecode(s: string): (b: Option<Bytes>)
    ensures b.Some? ==> |s| == 2 * |b.value|
  {
    if |s| == 0 then Some([])
    else if |s| == 1 then None
    else HexJoin(HexValue(s[0]), HexValue(s[1]), HexDecode(s[2..]))
  }

  function HexJoin(hi: Option<int>, lo: Option<int>, rest: Option<Bytes>): (b: Option<Bytes>)
    requires hi.Some? ==> 0 <= hi.value < 16
    requires lo.Some? ==> 0 <= lo.value < 16
    ensures b.Some? ==> hi.Some? && lo.Some? && rest.Some? && |b.value| == 1 + |rest.value|
  {
    if hi.Some? && lo.Some? && rest.Some? then Some([16 * hi.value + lo.value] + rest.value) else None
  }

  /** `to_ascii_lowercase` of one character. */
  function Lower(c: char): char {
    if 'A' <= c <= 'Z' then (c as int + 32) as char else c
  }

  predicate EqIgnoreCase(s: string, t: string) {
    |s| == |t| && forall i :: 0 <= i < |s| ==> Lower(s[i]) == Lower(t[i])
  }

  lemma HexDigits(c: char, v: int)
    requires 0 <= v < 16
    ensures HexValue(HexChar(v)) == Some(v)
    ensures HexValue(c) == Some(v) <==> Lower(c) == Lower(HexChar(v))
  {
  }

  lemma {:induction false} HexRoundTrip(b: Bytes)
    ensures HexDecode(HexEncode(b)) == Some(b)
  {
    if |b| > 0 {
      HexRoundTrip(b[1..]);
      assert HexEncode(b)[2..] == HexEncode(b[1..]);
      HexDigits('0', b[0] / 16);
      HexDigits('0', b[0] % 16);
      assert b == [16 * (b[0] / 16) + b[0] % 16] + b[1..];
    }
  }

  lemma EqIgnoreCaseSplits(s: string, t: string)
    requires |s| >= 2 && |t| >= 2
    ensures EqIgnoreCase(s, t) <==>
            Lower(s[0]) == Lower(t[0]) && Lower(s[1]) == Lower(t[1]) && EqIgnoreCase(s[2..], t[2..])
  {
    if EqIgnoreCase(s[2..], t[2..]) {
      forall i | 2 <= i < |s| ensures s[i] == s[2..][i - 2] && t[i] == t[2..][i - 2] {
      }
    }
    if EqIgnoreCase(s, t) {
      forall i | 0 <= i < |s| - 2 ensures Lower(s[2..][i]) == Lower(t[2..][i]) {
        assert Lower(s[i + 2]) == Lower(t[i + 2]);
      }
    }
  }

  lemma HexDecodeSplits(s: string, b: Bytes)
    requires |s| >= 2 && |b| >= 1
    ensures HexDecode(s) == Some(b) <==>
            HexValue(s[0]) == Some(b[0] / 16) && HexValue(s[1]) == Some(b[0] % 16)
            && HexDecode(s[2..]) == Some(b[1..])
  {
    hide HexValue, HexJoin;
    JoinSplits(HexValue(s[0]), HexValue(s[1]), HexDecode(s[2..]), b);
  }

  lemma JoinSplits(hi: Option<int>, lo: Option<int>, rest: Option<Bytes>, b: Bytes)
    requires hi.Some? ==> 0 <= hi.value < 16
    requires lo.Some? ==> 0 <= lo.value < 16
    requires |b| >= 1
    ensures HexJoin(hi, lo, rest) == Some(b) <==>
            hi == Some(b[0] / 16) && lo == Some(b[0] % 16) && rest == Some(b[1..])
  {
    if hi.Some? && lo.Some? && rest.Some? {
      Nibbles(hi.value, lo.value, b[0]);
      var byte_ := 16 * hi.value + lo.value;
      assert ([byte_] + rest.value)[0] == byte_ && ([byte_] + rest.value)[1..] == rest.value;
      assert b == [b[0]] + b[1..];
    }
  }

  lemma Nibbles(hi: int, lo: int, n: byte)
    requires 0 <= hi < 16 && 0 <= lo < 16
    ensures 16 * hi + lo == n <==> hi == n / 16 && lo == n % 16
  {
  }

  /** Comparing with the printed form, ignoring case, is the same as decoding. */
  lemma {:induction false} EqIgnoreCaseIsDecoding(s: string, b: Bytes)
    ensures EqIgnoreCase(s, HexEncode(b)) <==> HexDecode(s) == Some(b)
  {
    if |s| == 2 * |b| && |b| > 0 {
      var t := HexEncode(b);
      EqIgnoreCaseIsDecoding(s[2..], b[1..]);
      assert t[2..] == HexEncode(b[1..]);
      HexDigits(s[0], b[0] / 16);
      HexDigits(s[1], b[0] % 16);
      EqIgnoreCaseSplits(s, t);
      HexDecodeSplits(s, b);
    }
  }

  /** Hexadecimal text contains no whitespace, so trimming leaves it alone. */
  lemma {:induction false} HexIsTrimmed(s: string)
    requires HexDecode(s).Some?
    ensures forall i :: 0 <= i < |s| ==> HexValue(s[i]).Some?
    ensures Trim(s) == s
  {
    if |s| > 0 {
      HexIsTrimmed(s[2..]);
      assert s == s[..2] + s[2..];
    }
  }

  // ---- Decimal ----

  function DigitChar(d: int): char
    requires 0 <= d < 10
  {
    '0' + (d as char)
  }

  function Decimal(n: nat): (s: string)
    ensures |s| > 0
    ensures forall i :: 0 <= i < |s| ==> '0' <= s[i] <= '9'
  {
    if n < 10 then [DigitChar(n)] else Decimal(n / 10) + [DigitChar(n % 10)]
  }

  lemma {:induction false} DecimalInjective(m: nat, n: nat)
    requires Decimal(m) == Decimal(n)
    ensures m == n
  {
    var a, b := Decimal(m), Decimal(n);
    assert a[|a| - 1] == DigitChar(m % 10) && b[|b| - 1] == DigitChar(n % 10);
    if m >= 10 && n >= 10 {
      assert a[..|a| - 1] == Decimal(m / 10) && b[..|b| - 1] == Decimal(n / 10);
      DecimalInjective(m / 10, n / 10);
    }
  }

  // ---- Base64url without padding ----

  type sextet = v: int | 0 <= v < 64

  function B64Char(v: sextet): char {
    if v < 26 then 'A' + (v as char)
    else if v < 52 then 'a' + ((v - 26) as char)
    else if v < 62 then '0' + ((v - 52) as char)
    else if v == 62 then '-' else '_'
  }

  function B64Value(c: char): Option<sextet> {
    if 'A' <= c <= 'Z' then Some(c as int - 'A' as int)
    else if 'a' <= c <= 'z' then Some(c as int - 'a' as int + 26)
    else if '0' <= c <= '9' then Some(c as int - '0' as int + 52)
    else if c == '-' then Some(62)
    else if c == '_' then Some(63)
    else None
  }

  predicate InAlphabet(s: string) {
    forall i :: 0 <= i < |s| ==> B64Value(s[i]).Some?
  }

  /** Three bytes are four sextets; a rest of one or two bytes is padded with zero bits. */
  function ToSextets(b: Bytes): seq<sextet> {
    if |b| == 0 then []
    else if |b| == 1 then [b[0] / 4, b[0] % 4 * 16]
    else if |b| == 2 then [b[0] / 4, b[0] % 4 * 16 + b[1] / 16, b[1] % 16 * 4]
    else Four(b[0], b[1], b[2]) + ToSextets(b[3..])
  }

  function Four(x: byte, y: byte, z: byte): seq<sextet> {
    [x / 4, x % 4 * 16 + y / 16, y % 16 * 4 + z / 64, z % 64]
  }

  function Byte0(v: seq<sextet>): byte
    requires |v| >= 2
  {
    v[0] as int * 4 + v[1] as int / 16
  }

  function Byte1(v: seq<sextet>): byte
    requires |v| >= 3
  {
    v[1] as int % 16 * 16 + v[2] as int / 4
  }

  function Byte2(v: seq<sextet>): byte
    requires |v| >= 4
  {
    v[2] as int % 4 * 64 + v[3] as int
  }

  function FromSextets(v: seq<sextet>): Option<Bytes> {
    if |v| == 0 then Some([])
    else if |v| == 1 then None
    else if |v| == 2 then
      if v[1] % 16 == 0 then Some([Byte0(v)]) else None
    else if |v| == 3 then
      if v[2] % 4 == 0 then Some([Byte0(v), Byte1(v)]) else None
    else
      match FromSextets(v[4..])
      case None => None
      case Some(rest) => Some([Byte0(v), Byte1(v), Byte2(v)] + rest)
  }

  function B64Encode(b: Bytes): string {
    var v := ToSextets(b);
    seq(|v|, i requires 0 <= i < |v| => B64Char(v[i]))
  }

  /** Strict decoding: no padding, no stray character, no non-zero spare bits. */
  function B64Decode(s: string): Option<Bytes> {
    if InAlphabet(s) then
      FromSextets(seq(|s|, i requires 0 <= i < |s| => B64Value(s[i]).value))
    else None
  }

  lemma {:induction false} SextetRoundTrip(b: Bytes)
    ensures FromSextets(ToSextets(b)) == Some(b)
  {
    var v := ToSextets(b);
    if |b| == 1 {
      assert [Byte0(v)] == b;
    } else if |b| == 2 {
      assert [Byte0(v), Byte1(v)] == b;
    } else if |b| >= 3 {
      SextetRoundTrip(b[3..]);
      assert v[4..] == ToSextets(b[3..]);
      assert [Byte0(v), Byte1(v), Byte2(v)] == [b[0], b[1], b[2]];
      assert b == [b[0], b[1], b[2]] + b[3..];
    }
  }

  lemma {:induction false} SextetCanonical(v: seq<sextet>)
    requires FromSextets(v).Some?
    ensures ToSextets(FromSextets(v).value) == v
  {
    hide Byte0, Byte1, Byte2, Four;
    if |v| < 4 {
      ShortCanonical(v);
    } else {
      var x, y, z, rest := Byte0(v), Byte1(v), Byte2(v), FromSextets(v[4..]).value;
      var b := [x, y, z] + rest;
      assert FromSextets(v) == Some(b);
      SextetCanonical(v[4..]);
      assert b[3..] == rest;
      SplitQuartet(v);
      assert v == v[..4] + v[4..];
    }
  }

  /** The last group, of one or two bytes. */
  lemma ShortCanonical(v: seq<sextet>)
    requires |v| < 4 && FromSextets(v).Some?
    ensures ToSextets(FromSextets(v).value) == v
  {
    var b := FromSextets(v).value;
    if |v| == 2 {
      SplitPair(v[0], v[1]);
      assert ToSextets(b) == [b[0] / 4, b[0] % 4 * 16];
    } else if |v| == 3 {
      SplitTriple(v[0], v[1], v[2]);
      assert ToSextets(b) == [b[0] / 4, b[0] % 4 * 16 + b[1] / 16, b[1] % 16 * 4];
    }
  }

  lemma SplitPair(p: sextet, q: sextet)
    requires q % 16 == 0
    ensures var x := p as int * 4 + q as int / 16;
            x / 4 == p as int && x % 4 * 16 == q as int
  {
  }

  lemma SplitTriple(p: sextet, q: sextet, r: sextet)
    requires r % 4 == 0
    ensures var x, y := p as int * 4 + q as int / 16, q as int % 16 * 16 + r as int / 4;
            x / 4 == p as int && x % 4 * 16 + y / 16 == q as int && y % 16 * 4 == r as int
  {
  }

  /** The three bytes of four sextets give the sextets back. */
  lemma SplitQuartet(v: seq<sextet>)
    requires |v| >= 4
    ensures Four(Byte0(v), Byte1(v), Byte2(v)) == v[..4]
  {
  }

  lemma B64Digit(c: char, v: sextet)
    ensures B64Value(B64Char(v)) == Some(v)
    ensures B64Value(c) == Some(v) ==> B64Char(v) == c
  {
  }

  lemma B64RoundTrip(b: Bytes)
    ensures B64Decode(B64Encode(b)) == Some(b)
    ensures InAlphabet(B64Encode(b))
  {
    var v, s := ToSextets(b), B64Encode(b);
    forall i | 0 <= i < |v| ensures B64Value(s[i]) == Some(v[i]) {
      B64Digit(s[i], v[i]);
    }
    assert seq(|s|, i requires 0 <= i < |s| => B64Value(s[i]).value) == v;
    SextetRoundTrip(b);
  }

  /** Decoding is canonical: only the encoder's own output is accepted. */
  lemma B64Canonical(s: string)
    requires B64Decode(s).Some?
    ensures B64Encode(B64Decode(s).value) == s
  {
    var v: seq<sextet> := seq(|s|, i requires 0 <= i < |s| => B64Value(s[i]).value);
    SextetCanonical(v);
    forall i | 0 <= i < |s| ensures B64Char(v[i]) == s[i] {
      B64Digit(s[i], v[i]);
    }
    assert B64Encode(B64Decode(s).value) == s;
  }

  // ---- Searching ----

  predicate OccursAt(s: string, pattern: string, i: nat) {
    i + |pattern| <= |s| && s[i..i + |pattern|] == pattern
  }

  /** The first index at or after `i` where `pattern` occurs. */
  function FindFrom(s: string, pattern: string, i: nat): (r: Option<nat>)
    ensures r.Some? ==> i <= r.value && OccursAt(s, pattern, r.value)
    decreases |s| - i
  {
    if OccursAt(s, pattern, i) then Some(i)
    else if i < |s| then FindFrom(s, pattern, i + 1)
    else None
  }

  /** `s.split(pattern).nth(1)`: the text between the first two occurrences. */
  function SplitNth1(s: string, pattern: string): Option<string> {
    match FindFrom(s, pattern, 0)
    case None => None
    case Some(i) =>
      var rest := s[i + |pattern|..];
      match FindFrom(rest, pattern, 0)
      case None => Some(rest)
      case Some(j) => Some(rest[..j])
  }

  /** `s.split(c).next()`: the text before the first `c`. */
  function Before(s: string, c: char): string {
    if |s| > 0 && s[0] != c then [s[0]] + Before(s[1..], c) else []
  }

  /** `s.strip_prefix(p)`. */
  function StripPrefix(s: string, p: string): Option<string> {
    if |s| >= |p| && s[..|p|] == p then Some(s[|p|..]) else None
  }

  lemma TrimmedEnds(s: string)
    requires |s| > 0 ==> !IsWhite(s[0]) && !IsWhite(s[|s| - 1])
    ensures Trim(s) == s
  {
  }

  /** Base64url text survives every trim, and contains neither `=` nor `,`. */
  lemma AlphabetIsClean(s: string)
    requires InAlphabet(s)
    ensures Trim(s) == s && StripStart(s, '"') == s && StripEnd(s, '"') == s && StripEnd(s, ',') == s
    ensures forall i :: 0 <= i < |s| ==> s[i] != '=' && s[i] != ',' && !IsWhite(s[i])
  {
    forall i | 0 <= i < |s| ensures s[i] != '=' && s[i] != ',' && s[i] != '"' && !IsWhite(s[i]) {
      assert B64Value(s[i]).Some?;
    }
    hide B64Value;
  }

  function Quoted(s: string): string { "\"" + s + "\"" }

  /** A quoted text is left alone by trimming, and loses exactly its quotes. */
  lemma QuotesComeOff(s: string)
    requires InAlphabet(s)
    ensures Trim(Quoted(s)) == Quoted(s) && StripEnd(StripStart(Quoted(s), '"'), '"') == s
    ensures forall i :: 0 <= i < |Quoted(s)| ==> Quoted(s)[i] != '=' && Quoted(s)[i] != ','
  {
    AlphabetIsClean(s);
    hide InAlphabet, B64Value;
    var q := Quoted(s);
    TrimmedEnds(q);
    assert q[1..] == s + "\"";
    if |s| > 0 {
      StripStartKeeps(s, '"');
      assert StripStart(q, '"') == StripStart(s + "\"", '"') == s + "\"";
      assert (s + "\"")[..|s|] == s;
    } else {
      assert q == "\"\"" && q[1..] == "\"" && "\""[1..] == "";
    }
  }

  lemma StripStartKeeps(s: string, c: char)
    requires |s| > 0 && StripStart(s, c) == s
    ensures s[0] != c
  {
    StripStartShorter(s, c);
  }

  lemma {:induction false} StripStartShorter(s: string, c: char)
    ensures |StripStart(s, c)| <= |s|
    ensures |s| > 0 && s[0] == c ==> |StripStart(s, c)| < |s|
  {
    if |s| > 0 && s[0] == c {
      StripStartShorter(s[1..], c);
    }
  }

  lemma {:induction false} BeforeSplits(s: string, c: char, t: string)
    requires forall i :: 0 <= i < |s| ==> s[i] != c
    ensures Before(s + [c] + t, c) == s
  {
    if |s| > 0 {
      BeforeSplits(s[1..], c, t);
      assert (s + [c] + t)[1..] == s[1..] + [c] + t;
    }
  }
}
