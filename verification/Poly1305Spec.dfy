/** The one-time authenticator as section 2.5 of RFC 8439 defines it: what the streaming object of
    poly1305-opt-master/poly1305.c has to compute. */
module Poly1305Spec {
  import opened Bits
  import opened Congruence

  /** 2^130 - 5 */
  const P1305: int := 0x400000000000000000000000000000000 - 5

  /** The number a block stands for: its bytes with a one byte appended. */
  function BlockNumber(block: seq<int>): int {
    LE(block + [1])
  }

  /** The accumulator after the message m, from acc on, in blocks of 16 bytes with a shorter last one. */
  function Absorb(acc: int, r: int, m: seq<int>): int
    decreases |m|
  {
    if |m| == 0 then acc
    else if |m| <= 16 then (acc + BlockNumber(m)) * r % P1305
    else Absorb((acc + BlockNumber(m[..16])) * r % P1305, r, m[16..])
  }

  function Clamp(r: nat): nat {
    And(r, 0x0ffffffc0ffffffc0ffffffc0fffffff)
  }

  /** The tag as a number below 2^128. */
  function TagNumber(key: seq<int>, m: seq<int>): int
    requires |key| == 32 && Bytes(key)
  {
    LEBound(key[..16]);
    (Absorb(0, Clamp(LE(key[..16])), m) + LE(key[16..])) % 0x1_0000_0000_0000_0000_0000_0000_0000_0000
  }

  /** Whole blocks first: the message may be cut after any of them. */
  lemma {:induction false} AbsorbConcat(acc: int, r: int, m: seq<int>, n: seq<int>)
    requires |m| % 16 == 0
    ensures Absorb(acc, r, m + n) == Absorb(Absorb(acc, r, m), r, n)
    decreases |m|
  {
    if |m| == 0 {
      assert m + n == n;
    } else if |n| == 0 {
      assert m + n == m;
    } else {
      var next := (acc + BlockNumber(m[..16])) * r % P1305;
      assert (m + n)[..16] == m[..16] && (m + n)[16..] == m[16..] + n;
      if |m| == 16 {
        assert m[..16] == m && m[16..] == [];
      }
      AbsorbConcat(next, r, m[16..], n);
    }
  }

  lemma AbsorbBlock(acc: int, r: int, m: seq<int>)
    requires 0 < |m| <= 16
    ensures Absorb(acc, r, m) == (acc + BlockNumber(m)) * r % P1305
  {
  }

  lemma {:induction false} AbsorbRange(acc: int, r: int, m: seq<int>)
    ensures 0 < |m| ==> 0 <= Absorb(acc, r, m) < P1305
    decreases |m|
  {
    if |m| > 16 {
      AbsorbRange((acc + BlockNumber(m[..16])) * r % P1305, r, m[16..]);
    }
  }

  predicate Same1305(x: int, y: int) {
    Cong(x, y, P1305)
  }

  lemma SameBy1305(x: int, y: int, k: int)
    requires x == y + P1305 * k
    ensures Same1305(x, y)
  {
    CongBy(x, y, k, P1305);
  }

  // ---- the layout of section 2.8

  function Zeros(n: nat): (z: seq<int>)
    ensures |z| == n && Bytes(z) && forall i :: 0 <= i < n ==> z[i] == 0
  {
    seq(n, _ => 0)
  }

  /** pad16 */
  function Pad16(x: seq<int>): seq<int> {
    if |x| % 16 == 0 then [] else Zeros(16 - |x| % 16)
  }

  /** A length as a 64-bit little-endian integer. */
  function Le64(n: nat): (s: seq<int>)
    requires n < 0x10000
    ensures |s| == 8 && Bytes(s) && LE(s) == n
  {
    var low := [n % 256, n / 256];
    LEPadded(low, Zeros(6));
    assert low[1..] == [n / 256] && low[1..][1..] == [];
    assert LE(low) == n % 256 + 0x100 * (n / 256 + 0x100 * LE([]));
    [n % 256, n / 256] + Zeros(6)
  }

  /** What the AEAD construction authenticates. */
  function AeadData(aad: seq<int>, ciphertext: seq<int>): seq<int>
    requires |aad| < 0x10000 && |ciphertext| < 0x10000
  {
    aad + Pad16(aad) + ciphertext + Pad16(ciphertext) + Le64(|aad|) + Le64(|ciphertext|)
  }

  function Rounded(n: nat): nat {
    (n + 15) / 16 * 16
  }

  lemma PadTo(x: seq<int>)
    ensures |x + Pad16(x)| == Rounded(|x|) >= |x|
  {
  }

  /** The layout, place by place: each part from a multiple of 16 on, zeros up to the next, the two lengths. */
  lemma AeadLayout(a: seq<int>, c: seq<int>)
    requires |a| < 0x10000 && |c| < 0x10000
    ensures var s, k, m := AeadData(a, c), Rounded(|a|), Rounded(|a|) + Rounded(|c|);
      && |s| == m + 16 && |a| <= k && k + |c| <= m && s[..|a|] == a && s[k..k + |c|] == c
      && (forall i :: |a| <= i < k || k + |c| <= i < m ==> s[i] == 0)
      && LE(s[m..m + 8]) == |a| && LE(s[m + 8..]) == |c|
  {
    PadTo(a);
    PadTo(c);
    var s, k, m := AeadData(a, c), Rounded(|a|), Rounded(|a|) + Rounded(|c|);
    assert s[m..m + 8] == Le64(|a|) && s[m + 8..] == Le64(|c|);
    forall i | |a| <= i < k || k + |c| <= i < m ensures s[i] == 0 {
      assert i < k ==> s[i] == Pad16(a)[i - |a|];
      assert i >= k ==> s[i] == Pad16(c)[i - k - |c|];
    }
  }

  /** The layout is unambiguous: it determines the associated data and the ciphertext. */
  lemma AeadInjective(a: seq<int>, c: seq<int>, b: seq<int>, d: seq<int>)
    requires |a| < 0x10000 && |c| < 0x10000 && |b| < 0x10000 && |d| < 0x10000
    requires AeadData(a, c) == AeadData(b, d)
    ensures a == b && c == d
  {
    AeadLayout(a, c);
    AeadLayout(b, d);
    hide *;
  }
}
