/** Hexadecimal and base-64 text of big integers (srp/t_conv.c:33-248): values are kept, leading zeros are
    not, and the two directions undo each other. */
module TConv {
  import opened Bits
  import opened Radix

  lemma StripUnique(x: seq<int>, r: seq<int>)
    requires Digits(x, 256) && Digits(r, 256) && Minimal(r) && Value(r, 256) == Value(x, 256)
    ensures r == Strip(x)
  {
    StripValue(x, 256);
    StripDigits(x);
    MinimalUnique(r, Strip(x), 256);
  }

  lemma {:induction false} StripDigits(x: seq<int>)
    requires Digits(x, 256)
    ensures Digits(Strip(x), 256)
    decreases |x|
  {
    if |x| > 0 && x[0] == 0 {
      StripDigits(x[1..]);
    }
  }

  // ---- hexadecimal

  /** hexDigitToInt: anything that is not a digit counts as 0. */
  function HexDigit(c: char): (v: int)
    ensures 0 <= v < 16
  {
    if '0' <= c <= '9' then c as int - '0' as int
    else if 'a' <= c <= 'f' then c as int - 'a' as int + 10
    else if 'A' <= c <= 'F' then c as int - 'A' as int + 10
    else 0
  }

  /** A digit as printf's %X writes it. */
  function HexChar(v: int): (c: char)
    requires 0 <= v < 16
    ensures HexDigit(c) == v
  {
    if v < 10 then ('0' as int + v) as char else ('A' as int + v - 10) as char
  }

  const HEX_TABLE: string := "0123456789ABCDEF"

  const LOWER_TABLE: string := "0123456789abcdef"

  /** Either case is read, upper case is written. */
  lemma HexTable(v: int)
    requires 0 <= v < 16
    ensures |HEX_TABLE| == |LOWER_TABLE| == 16
    ensures HexChar(v) == HEX_TABLE[v] && HexDigit(HEX_TABLE[v]) == v && HexDigit(LOWER_TABLE[v]) == v
  {
  }

  function HexDigits(s: string): (d: seq<int>)
    ensures |d| == |s| && Digits(d, 16) && forall i :: 0 <= i < |s| ==> d[i] == HexDigit(s[i])
  {
    seq(|s|, i requires 0 <= i < |s| => HexDigit(s[i]))
  }

  lemma HexAppend(s: string, c: char)
    ensures HexDigits(s + [c]) == HexDigits(s) + [HexDigit(c)]
  {
  }

  /** `(hexDigitToInt(*src) << 4) | hexDigitToInt(*(src + 1))` */
  method HexByte(hi: int, lo: int) returns (b: int)
    requires 0 <= hi < 16 && 0 <= lo < 16
    ensures b == hi * 16 + lo
  {
    var k := 4;
    assert Pow2(4) == 16;
    OrDisjoint(hi, lo, k);
    b := Or(hi * 16, lo);
  }

  /** `if(size % 2 == 1) { *chp++ = hexDigitToInt(*src++); --size; }` */
  method OddDigit(src: string) returns (dst: seq<int>, i: int)
    ensures i == |src| % 2 && |dst| == i && Digits(dst, 256) && Value(dst, 256) == Value(HexDigits(src[..i]), 16)
  {
    dst, i := [], 0;
    if |src| % 2 == 1 {
      dst, i := [HexDigit(src[0])], 1;
      ValueAppend([], HexDigit(src[0]), 256);
      ValueAppend([], HexDigit(src[0]), 16);
      assert [] + [HexDigit(src[0])] == dst == HexDigits(src[..1]);
    }
  }

  /** t_fromhex: half as many bytes as digits, rounded up; an odd first digit stands alone. */
  method FromHex(src: string) returns (dst: seq<int>)
    ensures |dst| == (|src| + 1) / 2 && Digits(dst, 256) && Value(dst, 256) == Value(HexDigits(src), 16)
  {
    hide HexDigit, Value, HexDigits;
    var i;
    dst, i := OddDigit(src);
    while i < |src|
      invariant 0 <= i <= |src| && (|src| - i) % 2 == 0 && |dst| == (i + 1) / 2 && Digits(dst, 256)
      invariant Value(dst, 256) == Value(HexDigits(src[..i]), 16)
    {
      var b := HexByte(HexDigit(src[i]), HexDigit(src[i + 1]));
      ValueAppend(dst, b, 256);
      PairValue(src, i);
      dst := dst + [b];
      i := i + 2;
    }
    assert src[..i] == src;
  }

  lemma PairValue(src: string, i: int)
    requires 0 <= i && i + 2 <= |src|
    ensures Value(HexDigits(src[..i + 2]), 16) == Value(HexDigits(src[..i]), 16) * 256 + HexDigit(src[i]) * 16 + HexDigit(src[i + 1])
  {
    hide HexDigit;
    assert src[..i + 1] == src[..i] + [src[i]] && src[..i + 2] == src[..i + 1] + [src[i + 1]];
    HexAppend(src[..i], src[i]);
    HexAppend(src[..i + 1], src[i + 1]);
    ValueAppend(HexDigits(src[..i]), HexDigit(src[i]), 16);
    ValueAppend(HexDigits(src[..i + 1]), HexDigit(src[i + 1]), 16);
  }

  /** t_tohex: upper-case digits of the number, no leading zero digit, nothing for zero. */
  method ToHex(src: seq<int>) returns (dst: string)
    requires Digits(src, 256)
    ensures Minimal(HexDigits(dst)) && Value(HexDigits(dst), 16) == Value(src, 256)
  {
    dst := "";
    var notleading := false;
    assert src[..0] == [];
    for i := 0 to |src|
      invariant notleading <==> dst != ""
      invariant Minimal(HexDigits(dst)) && Value(HexDigits(dst), 16) == Value(src[..i], 256)
    {
      var hi, lo := src[i] / 16, src[i] % 16;
      assert src[..i + 1] == src[..i] + [src[i]];
      ValueAppend(src[..i], src[i], 256);
      HexSteps(dst, HexChar(hi), HexChar(lo));
      if notleading || src[i] != 0 {
        if !notleading && hi == 0 {
          dst := dst + [HexChar(lo)];
        } else {
          dst := dst + [HexChar(hi)] + [HexChar(lo)];
        }
        notleading := true;
      }
    }
    assert src[..|src|] == src;
  }

  lemma HexSteps(s: string, a: char, b: char)
    ensures Value(HexDigits(s + [b]), 16) == Value(HexDigits(s), 16) * 16 + HexDigit(b)
    ensures Value(HexDigits(s + [a] + [b]), 16) == Value(HexDigits(s), 16) * 256 + HexDigit(a) * 16 + HexDigit(b)
  {
    hide HexDigit;
    HexAppend(s, a);
    HexAppend(s, b);
    HexAppend(s + [a], b);
    ValueAppend(HexDigits(s), HexDigit(a), 16);
    ValueAppend(HexDigits(s), HexDigit(b), 16);
    ValueAppend(HexDigits(s + [a]), HexDigit(b), 16);
  }

  lemma HexLengthMinimal(s: string, d: seq<int>)
    requires Minimal(HexDigits(s)) && |d| == (|s| + 1) / 2 && Digits(d, 256) && Value(d, 256) == Value(HexDigits(s), 16)
    ensures Minimal(d)
  {
    if |d| > 0 && d[0] == 0 {
      assert d == [0] + d[1..];
      LeadingZero(d[1..], 256);
      ValueBound(d[1..], 256);
      HexAtLeast(HexDigits(s));
      SquarePower(|d| - 1);
      PowerMono(2 * (|d| - 1), |s| - 1);
    }
  }

  lemma {:induction false} HexAtLeast(d: seq<int>)
    requires Digits(d, 16) && |d| > 0 && d[0] != 0
    ensures Value(d, 16) >= Power(16, |d| - 1)
    decreases |d|
  {
    var a := d[..|d| - 1];
    if |d| == 1 {
      assert Value(a, 16) == 0;
    } else {
      HexAtLeast(a);
    }
  }

  lemma {:induction false} SquarePower(n: nat)
    ensures Power(256, n) == Power(16, 2 * n)
  {
    if n > 0 {
      SquarePower(n - 1);
      assert Power(16, 2 * n) == 16 * (16 * Power(16, 2 * n - 2));
    }
  }

  lemma {:induction false} PowerMono(m: nat, n: nat)
    requires m <= n
    ensures Power(16, m) <= Power(16, n)
  {
    if m < n {
      PowerMono(m, n - 1);
      PowerPositive(16, n - 1);
    }
  }

  /** The hex pair undoes itself, up to leading zero bytes. */
  method HexRoundTrip(x: seq<int>) returns (text: string, y: seq<int>)
    requires Digits(x, 256)
    ensures y == Strip(x) && Minimal(HexDigits(text)) && Value(HexDigits(text), 16) == Value(x, 256)
  {
    text := ToHex(x);
    y := FromHex(text);
    HexLengthMinimal(text, y);
    StripUnique(x, y);
  }

  // ---- base 64

  /** b64table[v]: 0-9, A-Z, a-z, `.` and `/`. */
  function B64Char(v: int): (c: char)
    requires 0 <= v < 64
    ensures Lookup(c) == v
  {
    if v < 10 then ('0' as int + v) as char
    else if v < 36 then ('A' as int + v - 10) as char
    else if v < 62 then ('a' as int + v - 36) as char
    else if v == 62 then '.' else '/'
  }

  /** `loc = strchr(b64table, c)`, as an index; -1 for NULL. */
  function Lookup(c: char): (v: int)
    ensures -1 <= v < 64
  {
    if '0' <= c <= '9' then c as int - '0' as int
    else if 'A' <= c <= 'Z' then c as int - 'A' as int + 10
    else if 'a' <= c <= 'z' then c as int - 'a' as int + 36
    else if c == '.' then 62
    else if c == '/' then 63
    else -1
  }

  const B64_TABLE: string := "0123456789" + ("ABCDEFGHIJKLM" + "NOPQRSTUVWXYZ") + ("abcdefghijklm" + "nopqrstuvwxyz") + "./"

  /** A run of consecutive characters. */
  predicate Consecutive(s: string, first: char) {
    forall i :: 0 <= i < |s| ==> s[i] as int == first as int + i
  }

  lemma TableParts()
    ensures |B64_TABLE| == 64 && Consecutive(B64_TABLE[..10], '0') && Consecutive(B64_TABLE[10..36], 'A')
    ensures Consecutive(B64_TABLE[36..62], 'a') && B64_TABLE[62] == '.' && B64_TABLE[63] == '/'
  {
    assert B64_TABLE[..10] == "0123456789";
    assert B64_TABLE[10..36] == "ABCDEFGHIJKLM" + "NOPQRSTUVWXYZ";
    assert B64_TABLE[36..62] == "abcdefghijklm" + "nopqrstuvwxyz";
    assert Consecutive("ABCDEFGHIJKLM", 'A') && Consecutive("NOPQRSTUVWXYZ", 'N');
    assert Consecutive("abcdefghijklm", 'a') && Consecutive("nopqrstuvwxyz", 'n');
  }

  lemma InTable(v: int, c: char)
    requires 0 <= v < 64
    ensures |B64_TABLE| == 64 && (Lookup(c) == v <==> B64_TABLE[v] == c)
  {
    TableParts();
    if v < 10 {
      assert B64_TABLE[v] == B64_TABLE[..10][v];
    } else if v < 36 {
      assert B64_TABLE[v] == B64_TABLE[10..36][v - 10];
    } else if v < 62 {
      assert B64_TABLE[v] == B64_TABLE[36..62][v - 36];
    }
  }

  /** The digits are those of the table, and nothing else is one. */
  lemma B64Table(v: int, c: char)
    requires 0 <= v < 64
    ensures |B64_TABLE| == 64 && B64Char(v) == B64_TABLE[v]
    ensures Lookup(c) == v <==> B64_TABLE[v] == c
  {
    hide Lookup, B64Char;
    InTable(v, c);
    InTable(v, B64Char(v));
  }

  predicate Blank(c: char) {
    c == ' ' || c == '\t' || c == '\n'
  }

  /** The text after leading blanks, up to the first character that is not a digit. */
  function Skip(s: string): (r: string) {
    if |s| > 0 && Blank(s[0]) then Skip(s[1..]) else s
  }

  function Run(s: string): (d: seq<int>)
    ensures Digits(d, 64) && |d| <= |s|
  {
    if |s| == 0 || Lookup(s[0]) < 0 then [] else [Lookup(s[0])] + Run(s[1..])
  }

  /** The digits that t_fromb64 reads. */
  function B64Digits(s: string): (d: seq<int>)
    ensures Digits(d, 64)
  {
    Run(Skip(s))
  }

  /** A mask of `width` ones at offset k of a number. */
  lemma ShiftedMask(x: nat, k: nat, width: nat, ones: nat, mask: nat, q: nat)
    requires ones + 1 == Pow2(width) && mask == ones * Pow2(k) && q == x / Pow2(k) && q <= ones
    ensures And(x, mask) == q * Pow2(k)
  {
    hide And, Pow2;
    AndShifted(x, ones, k, mask, q);
    AndMask(q, width, ones);
    DivModUnique(q, ones + 1, 0, q);
  }

  lemma MaskPowers()
    ensures Pow2(2) == 4 && Pow2(4) == 16 && Pow2(6) == 64
  {
  }

  /** The masks and shifts on a 6-bit digit. */
  lemma DigitMasks(x: nat)
    requires x < 64
    ensures And(x, 3) == x % 4 && And(x, 0x3c) / 4 == x / 4 && And(x, 0xf) == x % 16 && And(x, 0x30) / 16 == x / 16
  {
    MaskPowers();
    hide *;
    AndMask(x, 2, 3);
    AndMask(x, 4, 0xf);
    ShiftedMask(x, 2, 4, 0xf, 0x3c, x / 4);
    ShiftedMask(x, 4, 2, 3, 0x30, x / 16);
  }

  lemma JoinBits(hi: nat, lo: nat, k: nat, p: nat)
    requires p == Pow2(k) && lo < p
    ensures Or(lo, hi * p) == hi * p + lo
  {
    OrDisjoint(hi, lo, k);
  }

  /** `a[j] |= (a[i] & 3) << 6`, then the same with the other two splits of a digit. */
  method OrLow(aj: int, d: int) returns (r: int)
    requires 0 <= aj < 64 && 0 <= d < 64
    ensures r == aj + 64 * (d % 4)
  {
    DigitMasks(d);
    var k, p := 6, 64;
    assert Pow2(6) == 64;
    JoinBits(d % 4, aj, k, p);
    r := Or(aj, And(d, 3) * 64);
  }

  method OrMiddle(aj: int, d: int) returns (r: int)
    requires 0 <= aj < 16 && 0 <= d < 64
    ensures r == aj + 16 * (d % 16)
  {
    DigitMasks(d);
    var k, p := 4, 16;
    assert Pow2(4) == 16;
    JoinBits(d % 16, aj, k, p);
    r := Or(aj, And(d, 0xf) * 16);
  }

  method OrHigh(aj: int, d: int) returns (r: int)
    requires 0 <= aj < 4 && 0 <= d < 64
    ensures r == aj + 4 * d
  {
    var k, p := 2, 4;
    assert Pow2(2) == 4;
    JoinBits(d, aj, k, p);
    r := Or(aj, d * 4);
  }

  /** The value of up to four digits or bytes, written out. */
  lemma Small(d: seq<int>, base: int)
    requires 1 <= |d| <= 4
    ensures |d| == 1 ==> Value(d, base) == d[0]
    ensures |d| == 2 ==> Value(d, base) == d[0] * base + d[1]
    ensures |d| == 3 ==> Value(d, base) == (d[0] * base + d[1]) * base + d[2]
    ensures |d| == 4 ==> Value(d, base) == ((d[0] * base + d[1]) * base + d[2]) * base + d[3]
  {
    var c := d[..|d| - 1];
    assert d == c + [d[|d| - 1]];
    if |d| > 1 {
      Small(c, base);
    }
  }

  /** One turn of the unpacking loop: up to four digits that end at i become up to three bytes that end at
      j.  No digit that is still to be read is overwritten. */
  method Turn(a: array<int>, i0: int, j0: int) returns (i: int, j: int)
    requires 0 <= i0 < j0 < a.Length && forall k :: 0 <= k <= i0 ==> 0 <= a[k] < 64
    modifies a
    ensures i == (if i0 >= 3 then i0 - 4 else -1) && j == j0 - (if i0 >= 3 then 3 else i0)
    ensures i < j && i0 - i == (if i0 >= 3 then 4 else i0 + 1)
    ensures forall k :: 0 <= k < a.Length && (k <= i || k > j0) ==> a[k] == old(a[k])
    ensures a[j0] == old(a[i0]) + (if i0 >= 1 then 64 * (old(a[i0 - 1]) % 4) else 0)
    ensures i0 >= 1 ==> a[j0 - 1] == old(a[i0 - 1]) / 4 + (if i0 >= 2 then 16 * (old(a[i0 - 2]) % 16) else 0)
    ensures i0 >= 2 ==> a[j0 - 2] == old(a[i0 - 2]) / 16 + (if i0 >= 3 then 4 * old(a[i0 - 3]) else 0)
    ensures i0 >= 3 ==> a[j0 - 3] == 0
  {
    hide And, Or;
    i, j := i0, j0;
    a[j] := a[i];
    i := i - 1;
    if i < 0 { return; }
    DigitMasks(a[i]);
    a[j] := OrLow(a[j], a[i]);
    j := j - 1;
    a[j] := U8(And(a[i], 0x3c) / 4);
    i := i - 1;
    if i < 0 { return; }
    DigitMasks(a[i]);
    a[j] := OrMiddle(a[j], a[i]);
    j := j - 1;
    a[j] := U8(And(a[i], 0x30) / 16);
    i := i - 1;
    if i < 0 { return; }
    a[j] := OrHigh(a[j], a[i]);
    j := j - 1;
    a[j] := 0;
    i := i - 1;
  }

  lemma ThreeBytes(d3: int, d2: int, d1: int, d0: int)
    requires 0 <= d3 < 64 && 0 <= d2 < 64 && 0 <= d1 < 64 && 0 <= d0 < 64
    ensures 0 <= d2 / 16 + 4 * d3 < 256 && 0 <= d1 / 4 + 16 * (d2 % 16) < 256 && 0 <= d0 + 64 * (d1 % 4) < 256
    ensures 65536 * (d2 / 16 + 4 * d3) + 256 * (d1 / 4 + 16 * (d2 % 16)) + (d0 + 64 * (d1 % 4))
      == 262144 * d3 + 4096 * d2 + 64 * d1 + d0
  {
    assert d2 == 16 * (d2 / 16) + d2 % 16 && d1 == 4 * (d1 / 4) + d1 % 4;
  }

  /** What a turn means for the number: its digits and as many bytes have the same value. */
  lemma FourDigits(d: seq<int>, b: seq<int>)
    requires |d| == |b| == 4 && Digits(d, 64) && b[0] == 0 && b[1] == d[1] / 16 + 4 * d[0]
    requires b[2] == d[2] / 4 + 16 * (d[1] % 16) && b[3] == d[3] + 64 * (d[2] % 4)
    ensures Digits(b, 256) && Value(b, 256) == Value(d, 64)
  {
    Small(d, 64);
    Small(b, 256);
    hide Value;
    ThreeBytes(d[0], d[1], d[2], d[3]);
  }

  lemma ThreeDigits(d: seq<int>, b: seq<int>)
    requires |d| == |b| == 3 && Digits(d, 64) && b[0] == d[0] / 16
    requires b[1] == d[1] / 4 + 16 * (d[0] % 16) && b[2] == d[2] + 64 * (d[1] % 4)
    ensures Digits(b, 256) && Value(b, 256) == Value(d, 64)
  {
    Small(d, 64);
    Small(b, 256);
    hide Value;
    ThreeBytes(0, d[0], d[1], d[2]);
  }

  lemma FewDigits(d: seq<int>, b: seq<int>)
    requires 1 <= |d| == |b| <= 2 && Digits(d, 64)
    requires |d| == 1 ==> b[0] == d[0]
    requires |d| == 2 ==> b[0] == d[0] / 4 && b[1] == d[1] + 64 * (d[0] % 4)
    ensures Digits(b, 256) && Value(b, 256) == Value(d, 64)
  {
    Small(d, 64);
    Small(b, 256);
    hide Value;
  }

  /** 256^(3n) = 64^(4n) */
  lemma {:induction false} PowersMeet(bytes: nat, digits: nat)
    requires 4 * bytes == 3 * digits
    ensures Power(256, bytes) == Power(64, digits)
  {
    if digits > 0 {
      PowersMeet(bytes - 3, digits - 4);
      assert Power(256, bytes) == 256 * Power(256, bytes - 1) && Power(256, bytes - 1) == 256 * Power(256, bytes - 2);
      assert Power(64, digits) == 64 * Power(64, digits - 1) && Power(64, digits - 1) == 64 * Power(64, digits - 2);
      assert Power(64, digits - 2) == 64 * Power(64, digits - 3);
    }
  }

  /** A finished group in front of finished groups. */
  lemma GroupInFront(b: seq<int>, rest: seq<int>, d: seq<int>, more: seq<int>)
    requires Value(b, 256) == Value(d, 64) && Value(rest, 256) == Value(more, 64) && 4 * |rest| == 3 * |more|
    ensures Value(b + rest, 256) == Value(d + more, 64)
  {
    ValueConcat(b, rest, 256);
    ValueConcat(d, more, 64);
    PowersMeet(|rest|, |more|);
  }

  /** Between turns: the digits up to i are unread, the bytes from j + 1 on stand for the others. */
  ghost predicate Unpacked(s: seq<int>, d: seq<int>, i: int, j: int) {
    && |s| == |d| + 1 && 0 <= i < j < |s| && s[..i + 1] == d[..i + 1] && Digits(d, 64)
    && 4 * (|d| - j) == 3 * (|d| - 1 - i)
    && Digits(s[j + 1..], 256) && Value(s[j + 1..], 256) == Value(d[i + 1..], 64)
  }

  lemma PrefixAgree(s: seq<int>, d: seq<int>, n: int)
    requires 0 <= n <= |s| && n <= |d| && s[..n] == d[..n]
    ensures forall k :: 0 <= k < n ==> s[k] == d[k]
  {
    forall k | 0 <= k < n ensures s[k] == d[k] {
      assert s[k] == s[..n][k] && d[k] == d[..n][k];
    }
  }

  /** A turn from s to t keeps it, and after the last one the whole number is there. */
  lemma TurnKeeps(s: seq<int>, t: seq<int>, d: seq<int>, i0: int, j0: int, i: int, j: int)
    requires Unpacked(s, d, i0, j0) && |t| == |s|
    requires i == (if i0 >= 3 then i0 - 4 else -1) && j == j0 - (if i0 >= 3 then 3 else i0)
    requires forall k :: 0 <= k < |s| && (k <= i || k > j0) ==> t[k] == s[k]
    requires t[j0] == s[i0] + (if i0 >= 1 then 64 * (s[i0 - 1] % 4) else 0)
    requires i0 >= 1 ==> t[j0 - 1] == s[i0 - 1] / 4 + (if i0 >= 2 then 16 * (s[i0 - 2] % 16) else 0)
    requires i0 >= 2 ==> t[j0 - 2] == s[i0 - 2] / 16 + (if i0 >= 3 then 4 * s[i0 - 3] else 0)
    requires i0 >= 3 ==> t[j0 - 3] == 0
    ensures 0 <= j && Digits(t[j..], 256) && Value(t[j..], 256) == Value(d[i + 1..], 64)
    ensures i >= 0 ==> Unpacked(t, d, i, j)
  {
    PrefixAgree(s, d, i0 + 1);
    GroupBytes(s, t, d, i0, j0, i, j);
    hide *;
    GroupDone(s, t, d, i0, j0, i, j);
  }

  lemma GroupDone(s: seq<int>, t: seq<int>, d: seq<int>, i0: int, j0: int, i: int, j: int)
    requires Unpacked(s, d, i0, j0) && |t| == |s| && -1 <= i < i0 && 0 <= j <= j0
    requires i >= 0 ==> i == i0 - 4 && j == j0 - 3 && t[j] == 0
    requires forall k :: 0 <= k < |s| && (k <= i || k > j0) ==> t[k] == s[k]
    requires Digits(t[j..j0 + 1], 256) && Value(t[j..j0 + 1], 256) == Value(d[i + 1..i0 + 1], 64)
    ensures Digits(t[j..], 256) && Value(t[j..], 256) == Value(d[i + 1..], 64)
    ensures i >= 0 ==> Unpacked(t, d, i, j)
  {
    var group, b, rest, more := d[i + 1..i0 + 1], t[j..j0 + 1], s[j0 + 1..], d[i0 + 1..];
    hide Value;
    GroupInFront(b, rest, group, more);
    assert t[j0 + 1..] == rest;
    assert t[j..] == b + rest && d[i + 1..] == group + more;
    if i >= 0 {
      assert t[j..] == [0] + t[j + 1..];
      LeadingZero(t[j + 1..], 256);
      assert t[..i + 1] == s[..i0 + 1][..i + 1] && d[..i + 1] == d[..i0 + 1][..i + 1];
    }
  }

  lemma GroupBytes(s: seq<int>, t: seq<int>, d: seq<int>, i0: int, j0: int, i: int, j: int)
    requires |s| == |t| == |d| + 1 && 0 <= i0 < j0 < |s| && Digits(d, 64) && forall k :: 0 <= k <= i0 ==> s[k] == d[k]
    requires i == (if i0 >= 3 then i0 - 4 else -1) && j == j0 - (if i0 >= 3 then 3 else i0)
    requires t[j0] == s[i0] + (if i0 >= 1 then 64 * (s[i0 - 1] % 4) else 0)
    requires i0 >= 1 ==> t[j0 - 1] == s[i0 - 1] / 4 + (if i0 >= 2 then 16 * (s[i0 - 2] % 16) else 0)
    requires i0 >= 2 ==> t[j0 - 2] == s[i0 - 2] / 16 + (if i0 >= 3 then 4 * s[i0 - 3] else 0)
    requires i0 >= 3 ==> t[j0 - 3] == 0
    ensures 0 <= j && Digits(t[j..j0 + 1], 256) && Value(t[j..j0 + 1], 256) == Value(d[i + 1..i0 + 1], 64)
  {
    hide Value;
    var group, b := d[i + 1..i0 + 1], t[j..j0 + 1];
    if i0 >= 3 {
      assert group == [d[i0 - 3], d[i0 - 2], d[i0 - 1], d[i0]] && b == [t[j0 - 3], t[j0 - 2], t[j0 - 1], t[j0]];
      FourDigits(group, b);
    } else if i0 == 2 {
      assert group == [d[0], d[1], d[2]] && b == [t[j0 - 2], t[j0 - 1], t[j0]];
      ThreeDigits(group, b);
    } else if i0 == 1 {
      assert group == [d[0], d[1]] && b == [t[j0 - 1], t[j0]];
      FewDigits(group, b);
    } else {
      assert group == [d[0]] && b == [t[j0]];
      FewDigits(group, b);
    }
  }

  /** The right-to-left unpacking, in place: size digits and one spare element become the bytes of the
      number from j on. */
  method Unpack(a: array<int>, size: int) returns (j: int)
    requires 1 <= size < a.Length && Digits(a[..size], 64)
    modifies a
    ensures 0 <= j <= size && Digits(a[j..size + 1], 256) && Value(a[j..size + 1], 256) == Value(old(a[..size]), 64)
  {
    ghost var d := a[..size];
    var i := size - 1;
    j := size;
    StartUnpacked(a[..size + 1], d);
    hide *;
    while true
      invariant 0 <= i < j <= size && Unpacked(a[..size + 1], d, i, j)
      decreases i
    {
      ghost var s := a[..size + 1];
      UnreadDigits(s, d, i, j);
      assert forall k :: 0 <= k <= i ==> a[k] == s[k];
      var i0, j0 := i, j;
      i, j := Turn(a, i, j);
      TurnKeeps(s, a[..size + 1], d, i0, j0, i, j);
      if i < 0 {
        assert d[0..] == d && a[..size + 1][j..] == a[j..size + 1];
        break;
      }
    }
  }

  lemma StartUnpacked(s: seq<int>, d: seq<int>)
    requires |d| >= 1 && |s| == |d| + 1 && s[..|d|] == d && Digits(d, 64)
    ensures Unpacked(s, d, |d| - 1, |d|)
  {
    assert d[|d|..] == [] && s[|d| + 1..] == [] && d[..|d|] == d;
  }

  lemma UnreadDigits(s: seq<int>, d: seq<int>, i: int, j: int)
    requires Unpacked(s, d, i, j)
    ensures |s| == |d| + 1 && 0 <= i < |d| && forall k :: 0 <= k <= i ==> s[k] == d[k] && 0 <= s[k] < 64
  {
    PrefixAgree(s, d, i + 1);
  }

  /** `while(*src && (*src == ' ' || ...)) ++src` */
  method SkipBlanks(src: string) returns (rest: string)
    ensures rest == Skip(src)
  {
    rest := src;
    while |rest| > 0 && Blank(rest[0])
      invariant Skip(rest) == Skip(src)
    {
      rest := rest[1..];
    }
  }

  /** The digits of the text into the scratch array; `size` becomes their number. */
  method ReadDigits(src: string, a: array<int>) returns (size: int)
    requires a.Length == |src| + 1
    modifies a
    ensures 0 <= size <= |src| && a[..size] == Run(src)
  {
    var i := 0;
    ghost var rest := src;
    while i < |src|
      invariant 0 <= i <= |src| && rest == src[i..] && Run(src) == a[..i] + Run(rest)
    {
      var loc := Lookup(src[i]);
      if loc < 0 {
        break;
      }
      assert Run(rest) == [loc] + Run(rest[1..]);
      a[i] := loc;
      assert a[..i + 1] == a[..i] + [loc];
      rest := rest[1..];
      i := i + 1;
    }
    assert Run(rest) == [];
    size := i;
  }

  lemma NotEmpty(d: seq<int>, base: int)
    requires Value(d, base) > 0
    ensures |d| > 0
  {
  }

  /** `while(a[j] == 0 && j <= size) ++j`: a number other than 0 has a nonzero byte to stop at. */
  method DropZeros(a: array<int>, j0: int, size: int) returns (j: int)
    requires 0 <= j0 <= size < a.Length && Value(a[j0..size + 1], 256) > 0
    ensures j0 <= j <= size && a[j] != 0 && Value(a[j..size + 1], 256) == Value(a[j0..size + 1], 256)
  {
    j := j0;
    while a[j] == 0
      invariant j0 <= j <= size && Value(a[j..size + 1], 256) == Value(a[j0..size + 1], 256)
      decreases size - j
    {
      assert a[j..size + 1] == [0] + a[j + 1..size + 1];
      LeadingZero(a[j + 1..size + 1], 256);
      NotEmpty(a[j + 1..size + 1], 256);
      j := j + 1;
    }
  }

  /** t_fromb64: the bytes of the number that the digits stand for, without leading zero bytes.  The source
      relies on the number not being 0. */
  method FromB64(src: string) returns (dst: seq<int>)
    requires Value(B64Digits(src), 64) > 0
    ensures Digits(dst, 256) && Minimal(dst) && Value(dst, 256) == Value(B64Digits(src), 64)
  {
    var rest := SkipBlanks(src);
    var a := new int[|rest| + 1];
    var size := ReadDigits(rest, a);
    NotEmpty(a[..size], 64);
    ghost var d := a[..size];
    var j := Unpack(a, size);
    ghost var bytes := a[j..size + 1];
    var k := DropZeros(a, j, size);
    dst := a[k..size + 1];
    assert forall i :: 0 <= i < |dst| ==> dst[i] == bytes[k - j + i];
  }

  /** A text of digits only. */
  predicate AllB64(s: string) {
    forall i :: 0 <= i < |s| ==> Lookup(s[i]) >= 0
  }

  function B64Of(s: string): (d: seq<int>)
    requires AllB64(s)
    ensures |d| == |s| && Digits(d, 64) && forall i :: 0 <= i < |s| ==> d[i] == Lookup(s[i])
  {
    seq(|s|, i requires 0 <= i < |s| => Lookup(s[i]))
  }

  lemma {:induction false} RunAll(s: string)
    requires AllB64(s)
    ensures Run(s) == B64Of(s)
  {
    if |s| > 0 {
      assert AllB64(s[1..]);
      RunAll(s[1..]);
      assert B64Of(s) == [Lookup(s[0])] + B64Of(s[1..]);
    }
  }

  lemma DigitsAll(s: string)
    requires AllB64(s)
    ensures B64Digits(s) == B64Of(s)
  {
    RunAll(s);
    assert Skip(s) == s;
  }

  /** A text without leading zero digit that stands for v. */
  ghost predicate Stands(s: string, v: int) {
    AllB64(s) && Minimal(B64Of(s)) && Value(B64Of(s), 64) == v
  }

  /** `if(notleading || c != 0) { *dst++ = b64table[c]; notleading = 1; }` */
  method Emit(dst: string, c: int, ghost v: int) returns (dst': string)
    requires 0 <= c < 64 && Stands(dst, v)
    ensures Stands(dst', v * 64 + c)
  {
    if dst != "" || c != 0 {
      dst' := dst + [B64Char(c)];
      assert B64Of(dst') == B64Of(dst) + [c];
      ValueAppend(B64Of(dst), c, 64);
    } else {
      dst' := dst;
      assert B64Of(dst) == [] && Value([], 64) == 0;
    }
  }

  /** The four digits of three bytes. */
  method EmitGroup(dst: string, b0: int, b1: int, b2: int, ghost v: int) returns (dst': string)
    requires 0 <= b0 < 256 && 0 <= b1 < 256 && 0 <= b2 < 256 && Stands(dst, v)
    ensures Stands(dst', v * 0x1000000 + 65536 * b0 + 256 * b1 + b2)
  {
    hide Stands;
    FourMasks(b0, b1, b2);
    dst' := Emit(dst, And(b0, 0xfc) / 4, v);
    dst' := Emit(dst', Or(And(b0, 3) * 16, And(b1, 0xf0) / 16), v * 64 + b0 / 4);
    dst' := Emit(dst', Or(And(b1, 0xf) * 4, And(b2, 0xc0) / 64), (v * 64 + b0 / 4) * 64 + (b0 % 4 * 16 + b1 / 16));
    dst' := Emit(dst', And(b2, 0x3f), ((v * 64 + b0 / 4) * 64 + (b0 % 4 * 16 + b1 / 16)) * 64 + (b1 % 16 * 4 + b2 / 64));
  }

  lemma JoinMasks(hi: nat, lo: nat, k: nat, p: nat)
    requires p == Pow2(k) && lo < p
    ensures Or(hi * p, lo) == hi * p + lo
  {
    OrDisjoint(hi, lo, k);
  }

  lemma MaskFirst(b: nat)
    requires b < 256
    ensures And(b, 0xfc) == b / 4 * 4 && And(b, 3) == b % 4
  {
    MaskPowers();
    hide *;
    ShiftedMask(b, 2, 6, 0x3f, 0xfc, b / 4);
    AndMask(b, 2, 3);
  }

  lemma MaskSecond(b: nat)
    requires b < 256
    ensures And(b, 0xf0) == b / 16 * 16 && And(b, 0xf) == b % 16
  {
    MaskPowers();
    hide *;
    ShiftedMask(b, 4, 4, 0xf, 0xf0, b / 16);
    AndMask(b, 4, 0xf);
  }

  lemma MaskThird(b: nat)
    requires b < 256
    ensures And(b, 0xc0) == b / 64 * 64 && And(b, 0x3f) == b % 64
  {
    MaskPowers();
    hide *;
    ShiftedMask(b, 6, 2, 3, 0xc0, b / 64);
    AndMask(b, 6, 0x3f);
  }

  lemma FourMasks(b0: nat, b1: nat, b2: nat)
    requires b0 < 256 && b1 < 256 && b2 < 256
    ensures And(b0, 0xfc) / 4 == b0 / 4 && Or(And(b0, 3) * 16, And(b1, 0xf0) / 16) == b0 % 4 * 16 + b1 / 16
    ensures Or(And(b1, 0xf) * 4, And(b2, 0xc0) / 64) == b1 % 16 * 4 + b2 / 64 && And(b2, 0x3f) == b2 % 64
  {
    MaskPowers();
    hide *;
    MaskFirst(b0);
    MaskSecond(b1);
    MaskThird(b2);
    JoinMasks(b0 % 4, b1 / 16, 4, 16);
    JoinMasks(b1 % 16, b2 / 64, 2, 4);
  }

  /** The bytes before the first full group. */
  lemma FirstGroup(src: seq<int>, pos: int)
    requires Digits(src, 256) && 0 <= pos <= 2 && pos <= |src|
    ensures pos == 0 ==> Value(src[..pos], 256) == 0
    ensures pos == 1 ==> Value(src[..pos], 256) == src[0]
    ensures pos == 2 ==> Value(src[..pos], 256) == 256 * src[0] + src[1]
  {
    if pos > 0 {
      Small(src[..pos], 256);
    }
  }

  lemma NextGroup(src: seq<int>, pos: int)
    requires 0 <= pos && pos + 3 <= |src|
    ensures Value(src[..pos + 3], 256) == Value(src[..pos], 256) * 0x1000000 + 65536 * src[pos] + 256 * src[pos + 1] + src[pos + 2]
  {
    assert src[..pos + 1] == src[..pos] + [src[pos]] && src[..pos + 2] == src[..pos + 1] + [src[pos + 1]];
    assert src[..pos + 3] == src[..pos + 2] + [src[pos + 2]];
    ValueAppend(src[..pos], src[pos], 256);
    ValueAppend(src[..pos + 1], src[pos + 1], 256);
    ValueAppend(src[..pos + 2], src[pos + 2], 256);
  }

  /** t_tob64: the base-64 digits of the number, no leading zero digit, nothing for zero. */
  method ToB64(src: seq<int>) returns (dst: string)
    requires Digits(src, 256)
    ensures Stands(dst, Value(src, 256))
  {
    hide Stands, Value;
    var pos := |src| % 3;
    var b0, b1, b2 := 0, 0, 0;
    if pos == 1 {
      b2 := src[0];
    } else if pos == 2 {
      b1, b2 := src[0], src[1];
    }
    FirstGroup(src, pos);
    dst := "";
    assert Stands(dst, 0) by {
      EmptyStands();
    }
    ghost var v := 0;
    while true
      invariant 0 <= pos <= |src| && (|src| - pos) % 3 == 0 && 0 <= b0 < 256 && 0 <= b1 < 256 && 0 <= b2 < 256
      invariant Stands(dst, v) && v * 0x1000000 + 65536 * b0 + 256 * b1 + b2 == Value(src[..pos], 256)
      decreases |src| - pos
    {
      dst := EmitGroup(dst, b0, b1, b2, v);
      v := Value(src[..pos], 256);
      if pos >= |src| {
        break;
      }
      NextGroup(src, pos);
      b0, b1, b2 := src[pos], src[pos + 1], src[pos + 2];
      pos := pos + 3;
    }
    assert src[..pos] == src;
  }

  lemma EmptyStands()
    ensures Stands("", 0)
  {
    assert B64Of("") == [];
  }

  /** The base-64 pair undoes itself, up to leading zero bytes, on every string with a nonzero byte. */
  method B64RoundTrip(x: seq<int>) returns (text: string, y: seq<int>)
    requires Digits(x, 256) && exists i :: 0 <= i < |x| && x[i] != 0
    ensures Stands(text, Value(x, 256)) && y == Strip(x)
  {
    text := ToB64(x);
    DigitsAll(text);
    NonzeroPositive(x);
    y := FromB64(text);
    StripUnique(x, y);
  }

  lemma NonzeroPositive(x: seq<int>)
    requires Digits(x, 256) && exists i :: 0 <= i < |x| && x[i] != 0
    ensures Value(x, 256) > 0
  {
    StripValue(x, 256);
    StripDigits(x);
    StripKeeps(x);
    MinimalPositive(Strip(x), 256);
  }

  lemma {:induction false} StripKeeps(x: seq<int>)
    requires exists i :: 0 <= i < |x| && x[i] != 0
    ensures |Strip(x)| > 0
    decreases |x|
  {
    if x[0] == 0 {
      var i :| 0 <= i < |x| && x[i] != 0;
      assert x[1..][i - 1] != 0;
      StripKeeps(x[1..]);
    }
  }
}
