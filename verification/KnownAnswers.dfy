/**
  Known answers: what the layouts and text forms look like on fixed inputs, so that
  an encoder and its decoder cannot change together.
 */
module KnownAnswers {
  import opened Encoding
  import opened Limits
  import opened Mint
  import Spends
  import opened Text
  import opened Wire

  /** Big-endian and little-endian integers. */
  lemma Integers()
    ensures BE(0x0102, 2) == [1, 2] && LE(0x0102, 2) == [2, 1]
    ensures BE(0x0102_0304, 4) == [1, 2, 3, 4] && LE(0x0102_0304, 4) == [4, 3, 2, 1]
  {
    assert BE(1, 1) == [1] && LE(1, 1) == [1];
    assert BE(0x01, 1) == [1] && BE(0x0102, 2) == [1, 2] && BE(0x01_0203, 3) == [1, 2, 3];
    assert LE(0x01, 1) == [1] && LE(0x0102, 2) == [2, 1] && LE(0x01_0203, 3) == [3, 2, 1];
  }

  /** Hexadecimal is lower-case, high digit first; either case is read. */
  lemma Hexadecimal()
    ensures HexEncode([0x0F, 0xA9]) == "0fa9" && HexDecode("0FA9") == Some([0x0F, 0xA9])
  {
    assert [0x0F, 0xA9][1..] == [0xA9] && [0xA9][1..] == [];
    assert HexEncode([0xA9]) == "a9";
    assert "0FA9"[2..] == "A9" && "A9"[2..] == "";
    assert HexDecode("") == Some([]);
    assert HexDecode("A9") == HexJoin(Some(10), Some(9), Some([]));
    assert [16 * 10 + 9] + [] == [0xA9];
    assert HexDecode("0FA9") == HexJoin(Some(0), Some(15), Some([0xA9]));
    assert [16 * 0 + 15] + [0xA9] == [0x0F, 0xA9];
  }

  /** The test vectors of section 10 of RFC 4648, without padding, and the two URL-safe characters. */
  lemma Base64Url()
    ensures B64Encode(Ascii("f")) == "Zg" && B64Encode(Ascii("fo")) == "Zm8" && B64Encode(Ascii("foo")) == "Zm9v"
    ensures B64Encode([0xFB, 0xFF]) == "-_8"
  {
    assert Ascii("f") == [102] && Ascii("fo") == [102, 111] && Ascii("foo") == [102, 111, 111];
    assert ToSextets([102]) == [25, 32];
    assert ToSextets([102, 111]) == [25, 38, 60];
    assert [102, 111, 111][3..] == [];
    assert ToSextets([102, 111, 111]) == [25, 38, 61, 47] + [];
    assert ToSextets([0xFB, 0xFF]) == [62, 63, 60];
    assert B64Encode(Ascii("f")) == [B64Char(25), B64Char(32)];
    assert B64Encode(Ascii("fo")) == [B64Char(25), B64Char(38), B64Char(60)];
    assert B64Encode(Ascii("foo")) == [B64Char(25), B64Char(38), B64Char(61), B64Char(47)];
    assert B64Encode([0xFB, 0xFF]) == [B64Char(62), B64Char(63), B64Char(60)];
  }

  /** Section 2.1.1 of RFC 9577: type, issuer name, redemption context, origin info, each with its prefix. */
  lemma Challenge()
    ensures ToBytes(TokenChallenge(0x4550, [105], [7], [111, 112]))
         == [0x45, 0x50, 0, 1, 105, 1, 7, 0, 2, 111, 112]
  {
    U16Layout(0x4550);
    U16Layout(1);
    U16Layout(2);
  }

  /** The token: type, nonce, challenge digest, key id, authenticator. */
  lemma Token(t: SpendToken)
    requires t.tokenType == 0x4550
    ensures var b := TokenToBytes(t);
            b[..2] == [0x45, 0x50] && b[2..34] == t.nonce && b[34..66] == t.challengeDigest
            && b[66..98] == t.tokenKeyId && b[98..] == t.authenticator
  {
    U16Layout(0x4550);
    if |t.authenticator| >= 33 {
      TokenRoundTrip(t);
    } else {
      var long := t.(authenticator := t.authenticator + seq(33, _ => 0));
      TokenRoundTrip(long);
      assert TokenToBytes(long) == TokenToBytes(t) + seq(33, _ => 0);
      assert TokenToBytes(long)[98..] == long.authenticator;
      assert TokenToBytes(t)[98..] == t.authenticator;
    }
  }

  /** The message under a token's proof: type, nonce, challenge digest, key id. */
  lemma SpendMessage(n: Digest, d: Digest, k: Digest)
    ensures TokenInput(n, d, k) == [0x45, 0x50] + n + d + k
  {
    U16Layout(TOKEN_TYPE);
  }

  /** The keys under which Redis keeps counters and spent nonces. */
  lemma RedisKeys()
    ensures LimitKey(12, [0xAB]) == "eatpass:rl:12:ab" && Spends.SpentKey(7) == "eatpass:spent:7"
  {
    assert Decimal(12) == "12" by { assert Decimal(1) == "1"; }
    assert HexEncode([0xAB]) == "ab" by { assert [0xAB][1..] == []; }
    assert Decimal(7) == "7";
  }
}
