/**
  Bytes, machine-integer widths and the fixed-width integer layouts that the
  protocol hashes, signs and parses, with the two facts every layout proof
  rests on: an encoding can be inverted, and a concatenation splits in one way
  only once the length of its left part is known.
 */
module Encoding {

  type byte = b: int | 0 <= b < 0x100
  type u16 = n: int | 0 <= n < 0x1_0000
  type u32 = n: int | 0 <= n < 0x1_0000_0000
  type u64 = n: int | 0 <= n < 0x1_0000_0000_0000_0000

  type Bytes = seq<byte>
  type Digest = d: Bytes | |d| == 32 witness seq(32, _ => 0)

  const U32_MAX: u32 := 0xFFFF_FFFF
  const U64_MAX: u64 := 0xFFFF_FFFF_FFFF_FFFF

  /** SHA-256 is a parameter: every theorem holds for every hash function. */
  type Hash = Bytes -> Digest

  datatype Option<+T> = None | Some(value: T)

  datatype Result<+T, +E> = Ok(value: T) | Err(error: E) {
    predicate IsFailure() { Err? }

    function PropagateFailure<U>(): Result<U, E>
      requires Err?
    {
      Err(error)
    }

    function Extract(): T
      requires Ok?
    {
      value
    }
  }

  /** The truncating casts `as u16`, `as u32`, `as u64`. */
  function AsU16(n: nat): u16 { n % 0x1_0000 }
  function AsU32(n: nat): u32 { n % 0x1_0000_0000 }
  function AsU64(n: nat): u64 { n % 0x1_0000_0000_0000_0000 }

  function SaturatingAdd64(a: u64, b: u64): u64 {
    if a + b > U64_MAX then U64_MAX else a + b
  }

  /** The bytes of an ASCII literal. */
  function Ascii(s: string): (b: Bytes)
    ensures |b| == |s|
  {
    seq(|s|, i requires 0 <= i < |s| => s[i] as int % 0x100)
  }

  // ---- Fixed-width integers ----

  function Pow256(w: nat): nat {
    if w == 0 then 1 else 256 * Pow256(w - 1)
  }

  /** `to_be_bytes` of a `w`-byte integer. */
  function BE(n: nat, w: nat): (b: Bytes)
    ensures |b| == w
  {
    if w == 0 then [] else BE(n / 256, w - 1) + [n % 256]
  }

  /** `to_le_bytes` of a `w`-byte integer. */
  function LE(n: nat, w: nat): (b: Bytes)
    ensures |b| == w
  {
    if w == 0 then [] else [n % 256] + LE(n / 256, w - 1)
  }

  /** `from_be_bytes`. */
  function FromBE(b: Bytes): nat {
    if |b| == 0 then 0 else 256 * FromBE(b[..|b| - 1]) + b[|b| - 1]
  }

  lemma {:induction false} BEInverse(n: nat, w: nat)
    requires n < Pow256(w)
    ensures FromBE(BE(n, w)) == n
  {
    if w > 0 {
      BEInverse(n / 256, w - 1);
      assert BE(n, w)[..w - 1] == BE(n / 256, w - 1);
    }
  }

  lemma {:induction false} LEInjective(m: nat, n: nat, w: nat)
    requires m < Pow256(w) && n < Pow256(w)
    requires LE(m, w) == LE(n, w)
    ensures m == n
  {
    if w > 0 {
      assert LE(m, w)[0] == m % 256 && LE(n, w)[0] == n % 256;
      assert LE(m, w)[1..] == LE(m / 256, w - 1) && LE(n, w)[1..] == LE(n / 256, w - 1);
      LEInjective(m / 256, n / 256, w - 1);
    }
  }

  lemma BEInjective(m: nat, n: nat, w: nat)
    requires m < Pow256(w) && n < Pow256(w)
    requires BE(m, w) == BE(n, w)
    ensures m == n
  {
    BEInverse(m, w);
    BEInverse(n, w);
  }

  lemma Associates(a: Bytes, b: Bytes, c: Bytes)
    ensures a + b + c == a + (b + c)
  {
  }

  lemma Widths()
    ensures Pow256(2) == 0x1_0000
    ensures Pow256(4) == 0x1_0000_0000
    ensures Pow256(8) == 0x1_0000_0000_0000_0000
  {
    assert Pow256(3) == 256 * Pow256(2);
    assert Pow256(5) == 256 * Pow256(4);
    assert Pow256(6) == 256 * Pow256(5);
    assert Pow256(7) == 256 * Pow256(6);
  }

  lemma SameSplit<T>(a: seq<T>, b: seq<T>, c: seq<T>, d: seq<T>)
    requires a + b == c + d
    requires |a| == |c| || |b| == |d|
    ensures a == c && b == d
  {
    assert a == (a + b)[..|a|] && c == (c + d)[..|c|];
    assert b == (a + b)[|a|..] && d == (c + d)[|c|..];
  }

  // ---- Collisions ----

  /**
    Two different members of the finite set `s` have the same hash. A hash with
    32-byte outputs always has some collision; the theorems below say more, that
    one lies among the strings that the computation at hand has hashed.
   */
  ghost predicate Collision(h: Hash, s: set<Bytes>) {
    exists x, y :: x in s && y in s && x != y && h(x) == h(y)
  }

  lemma CollisionGrows(h: Hash, s: set<Bytes>, t: set<Bytes>)
    requires s <= t && Collision(h, s)
    ensures Collision(h, t)
  {
  }

  // ---- UTF-8 (a Rust `String` is its bytes together with this invariant) ----

  predicate Continuation(b: byte) { 0x80 <= b <= 0xBF }

  /** Bytes taken by the first well-formed UTF-8 sequence of `b`, 0 if there is none. */
  function Utf8Width(b: Bytes): (w: nat)
    requires |b| > 0
    ensures w <= |b|
  {
    if b[0] < 0x80 then 1
    else if 0xC2 <= b[0] <= 0xDF && |b| >= 2 && Continuation(b[1]) then 2
    else if 0xE0 <= b[0] <= 0xEF && |b| >= 3 && Continuation(b[1]) && Continuation(b[2])
      && (b[0] == 0xE0 ==> b[1] >= 0xA0) && (b[0] == 0xED ==> b[1] <= 0x9F) then 3
    else if 0xF0 <= b[0] <= 0xF4 && |b| >= 4
      && Continuation(b[1]) && Continuation(b[2]) && Continuation(b[3])
      && (b[0] == 0xF0 ==> b[1] >= 0x90) && (b[0] == 0xF4 ==> b[1] <= 0x8F) then 4
    else 0
  }

  predicate ValidUtf8(b: Bytes) {
    |b| == 0 || (Utf8Width(b) > 0 && ValidUtf8(b[Utf8Width(b)..]))
  }
}
