/** The streaming object of poly1305-opt-master/poly1305.c:28-296: any sequence of updates absorbs the
    concatenation of the pieces, and the tag is that of section 2.5 of RFC 8439. */
module Poly1305 {
  import opened Bits
  import opened Congruence
  import opened Poly1305Spec
  import opened Poly1305Limbs
  import opened Poly1305Final

  const TWO128: int := 0x1_0000_0000_0000_0000_0000_0000_0000_0000

  /** The accumulator after the whole blocks of m, each standing for its 16 bytes plus `top`. */
  function Run(acc: int, r: int, m: seq<int>, top: int): int
    decreases |m|
  {
    if |m| < 16 then acc else Run((acc + LE(m[..16]) + top) * r % P1305, r, m[16..], top)
  }

  lemma FullBlock(b: seq<int>)
    requires |b| == 16
    ensures BlockNumber(b) == LE(b) + TWO128
  {
    LEConcat(b, [1]);
    Pow2Literals();
    var k := 32;
    Pow2Add(k, k);
    Pow2Add(64, 64);
    assert LE([1]) == 1 + 0x100 * LE([1][1..]);
  }

  lemma FirstOfMany(m: seq<int>, n: int)
    requires |m| >= 16 && n == |m| / 16 * 16
    ensures 16 <= n <= |m| && m[..n][..16] == m[..16] && m[..n][16..] == m[16..][..|m[16..]| / 16 * 16]
    ensures n == 16 ==> m[..n][16..] == []
  {
  }

  /** The `hibit` of a block that is not the last one is the byte the specification appends. */
  lemma {:induction false} RunIsAbsorb(acc: int, r: int, m: seq<int>)
    ensures Run(acc, r, m, TWO128) == Absorb(acc, r, m[..|m| / 16 * 16])
    decreases |m|
  {
    if |m| >= 16 {
      var n := |m| / 16 * 16;
      FullBlock(m[..16]);
      FirstOfMany(m, n);
      hide LE, BlockNumber;
      RunIsAbsorb((acc + LE(m[..16]) + TWO128) * r % P1305, r, m[16..]);
    }
  }

  /** The padded last block, `1` and zeros after the message bytes. */
  lemma LastBlock(b: seq<int>, part: seq<int>)
    requires |part| < 16 && |b| == 16
    requires b[..|part|] == part && b[|part|] == 1 && forall i :: |part| < i < 16 ==> b[i] == 0
    ensures LE(b) == BlockNumber(part)
  {
    var z := b[|part| + 1..];
    assert b == (part + [1]) + z;
    LEPadded(part + [1], z);
  }

  lemma ModIdempotent(x: int)
    ensures Same1305(x % P1305, x) && 0 <= x % P1305 < P1305
  {
    CongMod(x, P1305);
  }

  /** The accumulator an update continues from. */
  lemma AbsorbSplit(r: int, whole: seq<int>, more: seq<int>)
    requires |whole| % 16 == 0
    ensures Absorb(0, r, whole + more) == Absorb(Absorb(0, r, whole), r, more)
  {
    AbsorbConcat(0, r, whole, more);
  }

  /** r is the clamped first half of the key, the pad its second half. */
  ghost predicate Keyed(r: seq<int>, pad: seq<int>, key: seq<int>) {
    && |key| == 32 && Bytes(key) && Bytes(key[..16]) && LE(key[..16]) >= 0
    && Multiplier(r) && Val(r) == Clamp(LE(key[..16]))
    && |pad| == 4 && Four(pad, 0x1_0000_0000) && Val4(pad) == LE(key[16..])
  }

  /** The limbs h hold the first `done` bytes of the data, a whole number of blocks. */
  ghost predicate Accumulated(h: seq<int>, r: seq<int>, data: seq<int>, done: int): (b: bool)
    ensures b ==> 0 <= done <= |data| && done % 16 == 0
  {
    && 0 <= done <= |data| && done % 16 == 0 && Carried(h) && |r| == 5
    && Same1305(Val(h), Absorb(0, Val(r), data[..done]))
  }

  lemma MoreData(h: seq<int>, r: seq<int>, data: seq<int>, more: seq<int>, done: int)
    requires Accumulated(h, r, data, done)
    ensures Accumulated(h, r, data + more, done)
  {
    assert (data + more)[..done] == data[..done];
  }

  /** Whole blocks of the data run through the accumulator. */
  lemma MoreBlocks(h: seq<int>, h': seq<int>, r: seq<int>, data: seq<int>, done: int, m: seq<int>)
    requires Accumulated(h, r, data, done) && Carried(h') && |m| % 16 == 0 && done + |m| <= |data|
    requires m == data[done..done + |m|]
    requires Same1305(Val(h'), Run(Absorb(0, Val(r), data[..done]), Val(r), m, TWO128))
    ensures Accumulated(h', r, data, done + |m|)
  {
    hide Val, Absorb, Run, Same1305;
    RunIsAbsorb(Absorb(0, Val(r), data[..done]), Val(r), m);
    assert m[..|m| / 16 * 16] == m;
    assert data[..done + |m|] == data[..done] + m;
    AbsorbSplit(Val(r), data[..done], m);
  }

  class Context {
    const word: int
    var r: seq<int>
    var h: seq<int>
    var pad: seq<int>
    var leftover: int
    const buffer: array<int>
    var final: bool
    ghost var key: seq<int>
    ghost var data: seq<int>  // everything absorbed so far

    /** The accumulator holds the whole blocks of the data, the buffer the rest. */
    ghost predicate Valid()
      reads this, buffer
    {
      && Word(word) && Keyed(r, pad, key) && !final && Bytes(data)
      && buffer.Length == 16 && Bytes(buffer[..])
      && 0 <= leftover < 16 && leftover <= |data|
      && Accumulated(h, r, data, |data| - leftover)
      && buffer[..leftover] == data[|data| - leftover..]
    }

    /** poly1305_init. */
    constructor (word: int, key: seq<int>)
      requires Word(word) && |key| == 32 && Bytes(key)
      ensures Valid() && fresh(buffer) && this.key == key && data == []
    {
      var r := LoadR(key);
      this.word, this.r, this.h := word, r, [0, 0, 0, 0, 0];
      this.pad := [Load32(key, 16), Load32(key, 20), Load32(key, 24), Load32(key, 28)];
      leftover, final := 0, false;
      buffer := new int[16](_ => 0);
      this.key, data := key, [];
      new;
      PadVal(key);
      assert data[..0] == [] && buffer[..0] == [] && Absorb(0, Val(r), []) == 0;
    }

    static lemma PadVal(key: seq<int>)
      requires |key| == 32 && Bytes(key)
      ensures Val4([Load32(key, 16), Load32(key, 20), Load32(key, 24), Load32(key, 28)]) == LE(key[16..])
    {
      hide Load32;
      LE4(key, 16);
      LE4(key, 20);
      LE4(key, 24);
      LE4(key, 28);
      assert key[32..] == [];
    }

    /** poly1305_blocks: the whole blocks of m. */
    method Blocks(m: seq<int>, ghost acc: int)
      requires Word(word) && Multiplier(r) && Carried(h) && Bytes(m) && Same1305(Val(h), acc)
      modifies this`h
      ensures Carried(h) && Same1305(Val(h), Run(acc, Val(r), m, if final then 0 else TWO128))
    {
      assert |r| == 5;
      hide LE, Val, Run, Same1305, Multiplier;
      var hibit := if final then 0 else 0x1000000;
      ghost var top := if final then 0 else TWO128;
      ghost var a := acc;
      var rest := m;
      while |rest| >= 16
        invariant Carried(h) && Bytes(rest)
        invariant Same1305(Val(h), a)
        invariant Run(a, Val(r), rest, top) == Run(acc, Val(r), m, top)
      {
        ghost var before := Val(h);
        var h' := Block(h, r, rest[..16], hibit, word);
        RunStep(before, a, Val(r), rest, top, Val(h'));
        a := (a + LE(rest[..16]) + top) * Val(r) % P1305;
        h := h';
        rest := rest[16..];
      }
      RunEnd(a, Val(r), rest, top);
    }

    static lemma RunStep(x: int, a: int, r: int, m: seq<int>, top: int, y: int)
      requires |m| >= 16 && Same1305(x, a) && Same1305(y, (x + LE(m[..16]) + top) * r)
      ensures Same1305(y, (a + LE(m[..16]) + top) * r % P1305)
      ensures Run((a + LE(m[..16]) + top) * r % P1305, r, m[16..], top) == Run(a, r, m, top)
    {
      var n := LE(m[..16]);
      CongSum(x, a, n + top, n + top, P1305);
      assert x + n + top == x + (n + top) && a + n + top == a + (n + top);
      CongMul(x + n + top, a + n + top, r, r, P1305);
      ModIdempotent((a + LE(m[..16]) + top) * r);
    }

    static lemma RunEnd(a: int, r: int, m: seq<int>, top: int)
      requires |m| < 16
      ensures Run(a, r, m, top) == a
    {
    }

    /** `for (i = 0; i < n; i++) st->buffer[st->leftover + i] = m[i]; st->leftover += n` */
    method Fill(m: seq<int>, n: int)
      requires buffer.Length == 16 && Bytes(buffer[..]) && Bytes(m) && 0 <= n <= |m| && 0 <= leftover && leftover + n <= 16
      modifies this`leftover, buffer
      ensures Bytes(buffer[..]) && leftover == old(leftover) + n
      ensures buffer[..leftover] == old(buffer[..leftover]) + m[..n]
    {
      ghost var was := buffer[..leftover];
      for i := 0 to n
        invariant Bytes(buffer[..]) && leftover == old(leftover)
        invariant buffer[..leftover] == was
        invariant forall k :: 0 <= k < i ==> buffer[leftover + k] == m[k]
      {
        buffer[leftover + i] := m[i];
      }
      leftover := leftover + n;
      assert buffer[..leftover] == was + m[..n];
    }

    /** `poly1305_blocks(st, p, n)` on the next whole blocks of the data. */
    method NextBlocks(m: seq<int>, ghost done: int)
      requires Word(word) && Multiplier(r) && !final && Accumulated(h, r, data, done)
      requires |m| % 16 == 0 && done + |m| <= |data| && Bytes(m) && m == data[done..done + |m|]
      modifies this`h
      ensures Accumulated(h, r, data, done + |m|)
    {
      assert |h| == |r| == 5;
      hide LE, Val, Run, Absorb, Same1305, Multiplier;
      ghost var before := h;
      Blocks(m, Absorb(0, Val(r), data[..done]));
      MoreBlocks(before, h, r, data, done, m);
    }

    /** In the middle of an update: `done` bytes accumulated, the buffer and `rest` still to come. */
    ghost predicate Pending(done: int, rest: seq<int>)
      reads this, buffer
    {
      && Word(word) && Keyed(r, pad, key) && !final && Bytes(data) && Bytes(rest)
      && buffer.Length == 16 && Bytes(buffer[..])
      && 0 <= leftover < 16
      && Accumulated(h, r, data, done)
      && data[done..] == buffer[..leftover] + rest
    }

    /** The first part of poly1305_update: the buffer is filled up and, when full, processed. */
    method TopUp(m: seq<int>, ghost done: int) returns (rest: seq<int>, ghost done': int)
      requires Pending(done, m) && leftover > 0
      modifies this`leftover, this`h, buffer
      ensures Pending(done', rest) && (leftover == 0 || rest == [])
    {
      assert Multiplier(r);
      hide Keyed, Accumulated, Multiplier;
      ghost var held := buffer[..leftover];
      var want := 16 - leftover;
      if want > |m| {
        want := |m|;
      }
      Fill(m, want);
      assert buffer[..leftover] == held + m[..want];
      rest, done' := m[want..], done;
      assert held + m == (held + m[..want]) + rest;
      if leftover < 16 {
        assert rest == [];
        return;
      }
      Cut(data, done, buffer[..leftover], rest);
      assert buffer[..16] == buffer[..leftover];
      NextBlocks(buffer[..16], done);
      done' := done + 16;
      leftover := 0;
      assert buffer[..leftover] + rest == rest;
    }

    static lemma Cut(data: seq<int>, done: int, a: seq<int>, b: seq<int>)
      requires 0 <= done <= |data| && data[done..] == a + b
      ensures done + |a| <= |data| && data[done..done + |a|] == a && data[done + |a|..] == b
    {
      assert data[done..done + |a|] == data[done..][..|a|];
      assert data[done + |a|..] == data[done..][|a|..];
    }

    /** The middle part: the full blocks, straight from the input. */
    method WholeBlocks(m: seq<int>, ghost done: int) returns (rest: seq<int>, ghost done': int)
      requires Pending(done, m) && leftover == 0
      modifies this`h
      ensures Pending(done', rest) && |rest| < 16
    {
      assert Multiplier(r);
      assert buffer[..leftover] + m == m;
      hide Keyed, Accumulated, Multiplier, Word, Bytes;
      rest, done' := m, done;
      if |m| >= 16 {
        var want := |m| - |m| % 16;
        CutWhole(m, want);
        CutAt(data, done, m, want);
        hide *;
        NextBlocks(m[..want], done);
        rest, done' := m[want..], done + want;
        assert buffer[..leftover] + rest == rest;
      }
    }

    static lemma CutAt(data: seq<int>, done: int, m: seq<int>, n: int)
      requires 0 <= done <= |data| && data[done..] == m && 0 <= n <= |m|
      ensures done + n <= |data| && data[done..done + n] == m[..n] && data[done + n..] == m[n..]
    {
      assert m == m[..n] + m[n..];
      Cut(data, done, m[..n], m[n..]);
    }

    static lemma CutWhole(m: seq<int>, n: int)
      requires Bytes(m) && n == |m| - |m| % 16
      ensures 0 <= n <= |m| && n % 16 == 0 && |m| - n < 16
      ensures Bytes(m[..n]) && Bytes(m[n..])
    {
    }

    /** The last part: what is left goes into the buffer. */
    method StoreRest(m: seq<int>, ghost done: int)
      requires Pending(done, m) && |m| < 16 && (leftover == 0 || m == [])
      modifies this`leftover, buffer
      ensures Valid()
    {
      hide Keyed, Accumulated;
      if |m| > 0 {
        assert buffer[..leftover] == [];
        Fill(m, |m|);
      }
      assert buffer[..leftover] == data[done..];
      assert done == |data| - leftover;
    }

    /** poly1305_update. */
    method Update(m: seq<int>)
      requires Valid() && Bytes(m)
      modifies this, buffer
      ensures Valid() && key == old(key) && data == old(data) + m
    {
      hide Keyed, Accumulated;
      ghost var done := |data| - leftover;
      MoreData(h, r, data, m, done);
      data := data + m;
      assert data[done..] == buffer[..leftover] + m;
      var rest := m;
      if leftover > 0 {
        rest, done := TopUp(m, done);
        if leftover > 0 {
          StoreRest(rest, done);
          return;
        }
      }
      rest, done := WholeBlocks(rest, done);
      StoreRest(rest, done);
    }

    /** `st->buffer[i++] = 1; for (; i < 16; i++) st->buffer[i] = 0` */
    method PadBuffer()
      requires buffer.Length == 16 && Bytes(buffer[..]) && 0 <= leftover < 16
      modifies buffer
      ensures Bytes(buffer[..]) && buffer[..leftover] == old(buffer[..leftover])
      ensures buffer[leftover] == 1 && forall k :: leftover < k < 16 ==> buffer[k] == 0
    {
      ghost var was := buffer[..leftover];
      buffer[leftover] := 1;
      for i := leftover + 1 to 16
        invariant Bytes(buffer[..]) && buffer[..leftover] == was && buffer[leftover] == 1
        invariant forall k :: leftover < k < i ==> buffer[k] == 0
      {
        buffer[i] := 0;
      }
    }

    /** The remaining block. */
    method LastPart() returns (ghost acc: int)
      requires Valid()
      modifies this`h, this`final, buffer
      ensures Carried(h) && |r| == 5 && acc == Absorb(0, Val(r), data) && Same1305(Val(h), acc) && 0 <= acc < P1305
    {
      assert Multiplier(r) && |r| == 5;
      hide Val, Keyed, LE, Multiplier, Absorb, Run;
      ghost var done := |data| - leftover;
      ghost var part := data[done..];
      acc := Absorb(0, Val(r), data[..done]);
      assert data == data[..done] + part;
      AbsorbSplit(Val(r), data[..done], part);
      AbsorbRange(0, Val(r), data);
      AbsorbNothing(0, Val(r));
      if leftover > 0 {
        PadBuffer();
        final := true;
        Blocks(buffer[..], acc);
        LastBlock(buffer[..], part);
        LastRun(acc, Val(r), buffer[..], part);
        acc := Absorb(acc, Val(r), part);
      } else {
        assert data[..done] == data;
      }
    }

    static lemma AbsorbNothing(acc: int, r: int)
      ensures Absorb(acc, r, []) == acc
    {
    }

    static lemma LastRun(acc: int, r: int, b: seq<int>, part: seq<int>)
      requires |b| == 16 && 0 < |part| < 16 && LE(b) == BlockNumber(part)
      ensures Run(acc, r, b, 0) == Absorb(acc, r, part)
    {
      AbsorbBlock(acc, r, part);
      assert b[..16] == b && b[16..] == [];
      assert Run(acc, r, b, 0) == Run((acc + LE(b) + 0) * r % P1305, r, [], 0);
    }

    /** poly1305_finish: the tag of everything absorbed; the state is wiped. */
    method Finish() returns (mac: seq<int>)
      requires Valid()
      modifies this, buffer
      ensures |mac| == 16 && Bytes(mac) && LE(mac) == TagNumber(old(key), old(data))
      ensures h == r == [0, 0, 0, 0, 0] && pad == [0, 0, 0, 0]
    {
      assert |pad| == 4 && Four(pad, 0x1_0000_0000) && Val4(pad) == LE(key[16..]) && Val(r) == Clamp(LE(key[..16]));
      hide Val, Val4, LE, Absorb, Keyed, Clamp;
      LEBound(key[..16]);
      var acc := LastPart();
      mac := Tag(h, pad, word, acc);
      h, r, pad := [0, 0, 0, 0, 0], [0, 0, 0, 0, 0], [0, 0, 0, 0];
    }
  }

  /** Streaming: the tag of a message does not depend on how it is cut into updates. */
  method TagOfChunks(word: int, key: seq<int>, chunks: seq<seq<int>>) returns (mac: seq<int>)
    requires Word(word) && |key| == 32 && Bytes(key) && forall i :: 0 <= i < |chunks| ==> Bytes(chunks[i])
    ensures |mac| == 16 && Bytes(mac) && LE(mac) == TagNumber(key, Flatten(chunks))
  {
    FlattenEnds(chunks);
    hide TagNumber, LE, Flatten, Context.Valid;
    var ctx := new Context(word, key);
    for i := 0 to |chunks|
      invariant ctx.Valid() && fresh(ctx) && fresh(ctx.buffer) && ctx.key == key && ctx.data == Flatten(chunks[..i])
    {
      ctx.Update(chunks[i]);
      FlattenSteps(chunks, i);
    }
    mac := ctx.Finish();
  }
}
