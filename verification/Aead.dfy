/** The authentication tag of a frame: connectionInfo::Poly1305_GenKey (PHKNetworkIP.cpp:357-406)
    against the AEAD construction of section 2.8 of RFC 8439. */
module Aead {
  import opened Bits
  import opened Poly1305Spec
  import opened Poly1305Limbs
  import opened Poly1305

  /** The associated data and the ciphertext: with a length prefix its two bytes are the associated data. */
  function AssociatedData(buf: seq<int>, withLength: bool): seq<int>
    requires withLength ==> |buf| >= 2
  {
    if withLength then buf[..2] else []
  }

  function Ciphertext(buf: seq<int>, len: int, withLength: bool): (c: seq<int>)
    requires 0 <= len && |buf| >= len + (if withLength then 2 else 0)
    ensures |c| == len
  {
    if withLength then buf[2..2 + len] else buf[..len]
  }

  /** The updates that feed the associated data and the ciphertext. */
  method FeedBody(ctx: Context, buf: seq<int>, len: int, withLength: bool)
    requires ctx.Valid() && ctx.data == [] && Bytes(buf)
    requires 2 <= len < 0x10000 && |buf| >= len + (if withLength then 2 else 0)
    modifies ctx, ctx.buffer
    ensures ctx.Valid() && ctx.key == old(ctx.key)
    ensures ctx.data == AssociatedData(buf, withLength) + Pad16(AssociatedData(buf, withLength)) + Ciphertext(buf, len, withLength)
  {
    hide Context.Valid;
    if withLength {
      ctx.Update(buf[0..1]);
      ctx.Update(buf[1..2]);
      ctx.Update(Zeros(14));
      ctx.Update(buf[2..2 + len]);
      assert buf[0..1] + buf[1..2] == buf[..2];
    } else {
      ctx.Update(buf[..len]);
    }
  }

  /** The updates that feed the two lengths, byte by byte. */
  method FeedLengths(ctx: Context, len: int, withLength: bool)
    requires ctx.Valid() && 2 <= len < 0x10000
    modifies ctx, ctx.buffer
    ensures ctx.Valid() && ctx.key == old(ctx.key)
    ensures ctx.data == old(ctx.data) + Le64(if withLength then 2 else 0) + Le64(len)
  {
    hide Context.Valid, LE;
    ghost var was := ctx.data;
    var aadLen := if withLength then 2 else 0;
    ctx.Update([aadLen]);
    ctx.Update(Zeros(7));
    ctx.Update([U8(len)]);
    ctx.Update([U8(len / 256)]);
    ctx.Update(Zeros(6));
    assert Le64(aadLen) == [aadLen] + Zeros(7);
    assert Le64(len) == [U8(len)] + [U8(len / 256)] + Zeros(6);
    assert ctx.data == was + ([aadLen] + Zeros(7)) + ([U8(len)] + [U8(len / 256)] + Zeros(6));
  }

  /** Poly1305_GenKey: below two bytes nothing happens; otherwise `verify` becomes the tag that section
      2.8 of RFC 8439 prescribes for the associated data and the ciphertext, for either type. */
  method GenKey(word: int, key: seq<int>, buf: seq<int>, len: int, withLength: bool, verify: array<int>)
    requires Word(word) && |key| == 32 && Bytes(key) && Bytes(buf) && verify.Length == 16
    requires 0 <= len < 0x10000 && |buf| >= len + (if withLength then 2 else 0)
    modifies verify
    ensures len < 2 ==> verify[..] == old(verify[..])
    ensures len >= 2 ==> Bytes(verify[..])
    ensures len >= 2 ==> LE(verify[..]) == TagNumber(key, AeadData(AssociatedData(buf, withLength), Ciphertext(buf, len, withLength)))
  {
    hide TagNumber, LE, Context.Valid;
    if len < 2 {
      return;
    }
    var ctx := new Context(word, key);
    FeedBody(ctx, buf, len, withLength);
    ghost var body := ctx.data;
    if len % 16 > 0 {
      ctx.Update(Zeros(16 - len % 16));
    }
    assert ctx.data == body + Pad16(Ciphertext(buf, len, withLength));
    FeedLengths(ctx, len, withLength);
    assert ctx.data == AeadData(AssociatedData(buf, withLength), Ciphertext(buf, len, withLength));
    var mac := ctx.Finish();
    for i := 0 to 16
      invariant forall k :: 0 <= k < i ==> verify[k] == mac[k]
    {
      verify[i] := mac[i];
    }
    assert verify[..] == mac;
  }
}
