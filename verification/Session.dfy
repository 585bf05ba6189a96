/** The record layer of an accessory connection: frames with a counter as nonce, written by replies and by
    broadcasts under one lock, and the receive path (PHKNetworkIP.cpp:194-271, 887-1000).  Every method of
    the class is one critical section. */
module Session {
  import opened Bits
  import opened Poly1305Spec
  import Poly1305Limbs
  import FeBytes
  import opened Aead
  import opened ChaCha20

  const COUNTERS: int := 0x1_0000_0000_0000_0000

  /** The eight bytes of an unsigned long long; `bswap_64` returns its argument. */
  function NonceBytes(k: nat): (n: seq<int>)
    requires k < COUNTERS
    ensures |n| == 8 && Bytes(n) && LE(n) == k
  {
    hide Store32, LE;
    LEConcat(Store32(k % 0x1_0000_0000), Store32(k / 0x1_0000_0000));
    Pow2Literals();
    Store32(k % 0x1_0000_0000) + Store32(k / 0x1_0000_0000)
  }

  /** Different counters give different nonces. */
  lemma NonceInjective(j: nat, k: nat)
    requires j < COUNTERS && k < COUNTERS && NonceBytes(j) == NonceBytes(k)
    ensures j == k
  {
    hide Store32;
    assert NonceBytes(j)[..4] == Store32(j % 0x1_0000_0000) && NonceBytes(k)[..4] == Store32(k % 0x1_0000_0000);
    assert NonceBytes(j)[4..] == Store32(j / 0x1_0000_0000) && NonceBytes(k)[4..] == Store32(k / 0x1_0000_0000);
  }

  predicate Key(key: seq<int>) {
    |key| == 32 && Bytes(key)
  }

  /** The first 64 bytes of the frame's keystream; the authenticator takes the first 32. */
  function FirstBlock(key: seq<int>, k: nat): (b: seq<int>)
    requires Key(key) && k < COUNTERS
    ensures |b| == 64 && Bytes(b)
  {
    hide Schedule, NonceBytes;
    Xored(Schedule(key, NonceBytes(k)), 0, Zeros(64))
  }

  /** The payload under the rest of the keystream. */
  function Sealed(key: seq<int>, k: nat, payload: seq<int>): (c: seq<int>)
    requires Key(key) && k < COUNTERS && Bytes(payload)
    ensures |c| == |payload| && Bytes(c)
  {
    hide Schedule, NonceBytes;
    Xored(Schedule(key, NonceBytes(k)), 64, payload)
  }

  lemma SealedTwice(key: seq<int>, k: nat, payload: seq<int>)
    requires Key(key) && k < COUNTERS && Bytes(payload)
    ensures Sealed(key, k, Sealed(key, k, payload)) == payload
  {
    hide Xored, Schedule;
    XoredTwice(Schedule(key, NonceBytes(k)), 64, payload);
  }

  /** The 16 bytes of a number below 2^128. */
  function TagBytes(n: int): (s: seq<int>)
    requires 0 <= n < CYCLE
    ensures |s| == 16 && Bytes(s) && LE(s) == n
  {
    hide Store32, LE;
    var a, b, d := n / 0x1_0000_0000, n / 0x1_0000_0000_0000_0000, n / 0x1_0000_0000_0000_0000_0000_0000;
    CounterDigits(n);
    FourStores(n % 0x1_0000_0000, a % 0x1_0000_0000, b % 0x1_0000_0000, d % 0x1_0000_0000);
    Store32(n % 0x1_0000_0000) + Store32(a % 0x1_0000_0000) + Store32(b % 0x1_0000_0000) + Store32(d % 0x1_0000_0000)
  }

  lemma FourStores(a: nat, b: nat, c: nat, d: nat)
    requires a < 0x1_0000_0000 && b < 0x1_0000_0000 && c < 0x1_0000_0000 && d < 0x1_0000_0000
    ensures LE(Store32(a) + Store32(b) + Store32(c) + Store32(d))
      == a + 0x1_0000_0000 * b + 0x1_0000_0000_0000_0000 * c + 0x1_0000_0000_0000_0000_0000_0000 * d
  {
    Pow2Literals();
    var k := 32;
    Pow2Add(k, k);
    Pow2Add(64, k);
    hide LE, Pow2, Store32;
    LEConcat(Store32(a) + Store32(b) + Store32(c), Store32(d));
    LEConcat(Store32(a) + Store32(b), Store32(c));
    LEConcat(Store32(a), Store32(b));
  }

  /** The tag over header and ciphertext; lengths below two leave the caller's buffer as it is. */
  function TagOf(key: seq<int>, k: nat, header: seq<int>, body: seq<int>, left: seq<int>): (t: seq<int>)
    requires Key(key) && k < COUNTERS && |header| == 2 && |body| < 0x10000 && |left| == 16 && Bytes(left)
    ensures |t| == 16 && Bytes(t)
  {
    hide TagNumber, AeadData, FirstBlock;
    if |body| < 2 then left
    else
      TagRange(FirstBlock(key, k)[..32], AeadData(header, body));
      TagBytes(TagNumber(FirstBlock(key, k)[..32], AeadData(header, body)))
  }

  lemma TagRange(key: seq<int>, m: seq<int>)
    requires |key| == 32 && Bytes(key)
    ensures 0 <= TagNumber(key, m) < CYCLE
  {
    hide Absorb, Clamp, LE;
  }

  /** Length, ciphertext, tag.  Header and tag see the low 16 bits of the length only. */
  function FrameOf(key: seq<int>, k: nat, payload: seq<int>, left: seq<int>): (f: seq<int>)
    requires Key(key) && k < COUNTERS && Bytes(payload) && |left| == 16 && Bytes(left)
    ensures |f| == |payload| + 18 && Bytes(f)
  {
    hide Sealed, TagOf;
    var header := [|payload| % 256, |payload| / 256 % 256];
    var body := Sealed(key, k, payload);
    header + body + TagOf(key, k, header, body[..|payload| % 0x10000], left)
  }

  /** A frame byte by byte: the length, least significant byte first, the ciphertext and the tag. */
  predicate LaidOut(f: seq<int>, key: seq<int>, k: nat, payload: seq<int>, left: seq<int>)
    requires Key(key) && k < COUNTERS && Bytes(payload) && |left| == 16 && Bytes(left)
  {
    hide *;
    var n := |payload|;
    && |f| == n + 18 && LE(f[..2]) == n % 0x10000 && f[2..2 + n] == Sealed(key, k, payload)
    && f[2 + n..] == TagOf(key, k, f[..2], f[2..2 + n % 0x10000], left)
  }

  lemma FrameLayout(key: seq<int>, k: nat, payload: seq<int>, left: seq<int>)
    requires Key(key) && k < COUNTERS && Bytes(payload) && |left| == 16 && Bytes(left)
    ensures LaidOut(FrameOf(key, k, payload, left), key, k, payload, left)
  {
    hide Sealed, TagOf, LE;
    var f, n := FrameOf(key, k, payload, left), |payload|;
    var header, body := [n % 256, n / 256 % 256], Sealed(key, k, payload);
    assert f[..2] == header && f[2..2 + n] == body && f[2..2 + n % 0x10000] == body[..n % 0x10000];
    HeaderValue(n);
  }

  lemma HeaderValue(n: nat)
    ensures LE([n % 256, n / 256 % 256]) == n % 0x10000
  {
    var s := [n % 256, n / 256 % 256];
    assert s[1..] == [n / 256 % 256] && s[1..][1..] == [];
    assert LE(s) == s[0] + 0x100 * (s[1] + 0x100 * LE([]));
    DivModUnique(n, 0x10000, n / 256 / 256, n / 256 % 256 * 256 + n % 256);
  }

  /** How a frame uses the keystream of its key and nonce (section 2.8 of RFC 8439): block 0 gives the one-time key,
      and the payload is XORed with the blocks from 1 on. */
  lemma KeystreamUse(key: seq<int>, k: nat, payload: seq<int>, i: nat)
    requires Key(key) && k < COUNTERS && Bytes(payload) && i < |payload| && 1 + i / 64 < 0x1_0000_0000
    ensures var nonce := [0, 0, 0, 0] + NonceBytes(k);
      && Bytes(nonce) && Words(Rfc8439State(key, 0, nonce)) && Words(Rfc8439State(key, 1 + i / 64, nonce))
      && FirstBlock(key, k) == BlockOf(Rfc8439State(key, 0, nonce))
      && Sealed(key, k, payload)[i] == Xor(payload[i], BlockOf(Rfc8439State(key, 1 + i / 64, nonce))[i % 64])
  {
    hide Stream, Xor, Schedule, BlockOf, Rfc8439State, NonceBytes, Words;
    FirstBlockIs(key, k);
    ScheduleWords(key, NonceBytes(k));
    XoredAt(Schedule(key, NonceBytes(k)), 64, payload, i);
    StreamIs(key, NonceBytes(k), 64 + i);
    assert (64 + i) / 64 == 1 + i / 64 && (64 + i) % 64 == i % 64;
  }

  lemma ScheduleWords(key: seq<int>, nonce: seq<int>)
    requires Key(key) && Bytes(nonce) && |nonce| == 8
    ensures |Schedule(key, nonce)| == 16 && Words(Schedule(key, nonce))
  {
  }

  lemma FirstBlockIs(key: seq<int>, k: nat)
    requires Key(key) && k < COUNTERS
    ensures var nonce := [0, 0, 0, 0] + NonceBytes(k);
      && Bytes(nonce) && Words(Rfc8439State(key, 0, nonce)) && FirstBlock(key, k) == BlockOf(Rfc8439State(key, 0, nonce))
  {
    hide Stream, Xor, Schedule, BlockOf, Rfc8439State, NonceBytes, Words;
    var s, b := Schedule(key, NonceBytes(k)), FirstBlock(key, k);
    StreamIs(key, NonceBytes(k), 0);
    var r := BlockOf(Rfc8439State(key, 0, [0, 0, 0, 0] + NonceBytes(k)));
    forall j | 0 <= j < 64 ensures b[j] == r[j] {
      XoredAt(s, 0, Zeros(64), j);
      StreamIs(key, NonceBytes(k), j);
      XorNone(Stream(s, j));
      assert j / 64 == 0 && j % 64 == j;
    }
  }

  lemma XorNone(x: nat)
    ensures Xor(0, x) == x
  {
  }

  /** msgLen of a received buffer. */
  function MessageLength(buffer: seq<int>): int
    requires |buffer| >= 2
  {
    buffer[1] * 256 + buffer[0]
  }

  /** The receive path accepts the first `len` bytes as message number k. */
  predicate Accepts(key: seq<int>, k: nat, buffer: seq<int>, len: int)
    requires Key(key) && k < COUNTERS && |buffer| == 4096 && Bytes(buffer) && MessageLength(buffer) <= 2048
  {
    var n := MessageLength(buffer);
    len >= 2 + n + 16 && buffer[2 + n..2 + n + 16] == TagOf(key, k, buffer[..2], buffer[2..2 + n], Zeros(16))
  }

  /** The payload it then reads. */
  function Opened(key: seq<int>, k: nat, buffer: seq<int>): (p: seq<int>)
    requires Key(key) && k < COUNTERS && |buffer| == 4096 && Bytes(buffer) && MessageLength(buffer) <= 2048
    ensures |p| == MessageLength(buffer) && Bytes(p)
  {
    Sealed(key, k, buffer[2..2 + MessageLength(buffer)])
  }

  /** A read buffer that starts with the frame f. */
  predicate Holds(buffer: seq<int>, f: seq<int>) {
    |buffer| == 4096 && Bytes(buffer) && |f| <= 4096 && buffer[..|f|] == f
  }

  lemma HeaderLength(buffer: seq<int>, p: seq<int>, rest: seq<int>, n: int)
    requires |p| < 0x10000 && |buffer| >= 2 && n >= 2 && n <= |buffer| && buffer[..n] == [|p| % 256, |p| / 256 % 256] + rest
    ensures MessageLength(buffer) == |p|
  {
    assert buffer[0] == buffer[..n][0] && buffer[1] == buffer[..n][1];
  }

  /** A frame of this session is accepted and opens to its payload. */
  lemma FrameOpens(key: seq<int>, k: nat, payload: seq<int>, left: seq<int>, buffer: seq<int>)
    requires Key(key) && k < COUNTERS && Bytes(payload) && 2 <= |payload| <= 2048 && |left| == 16 && Bytes(left)
    requires Holds(buffer, FrameOf(key, k, payload, left))
    ensures MessageLength(buffer) <= 2048
    ensures Accepts(key, k, buffer, |payload| + 18) && Opened(key, k, buffer) == payload
  {
    hide Sealed, TagOf;
    var f := FrameOf(key, k, payload, left);
    var header, body, n := [|payload| % 256, |payload| / 256 % 256], Sealed(key, k, payload), |payload|;
    assert body[..n % 0x10000] == body;
    HeaderLength(buffer, payload, body + TagOf(key, k, header, body, left), n + 18);
    assert buffer[..n + 18] == header + (body + TagOf(key, k, header, body, left));
    assert buffer[..2] == buffer[..n + 18][..2] == header;
    assert buffer[2..2 + n] == buffer[..n + 18][2..2 + n] == body;
    assert buffer[2 + n..2 + n + 16] == buffer[..n + 18][2 + n..2 + n + 16];
    TagIgnoresLeft(key, k, header, body, left, Zeros(16));
    SealedTwice(key, k, payload);
  }

  lemma TagIgnoresLeft(key: seq<int>, k: nat, header: seq<int>, body: seq<int>, left: seq<int>, left': seq<int>)
    requires Key(key) && k < COUNTERS && |header| == 2 && 2 <= |body| < 0x10000
    requires |left| == |left'| == 16 && Bytes(left) && Bytes(left')
    ensures TagOf(key, k, header, body, left) == TagOf(key, k, header, body, left')
  {
  }

  lemma TagDecides(tag: seq<int>, t: int)
    requires |tag| == 16 && Bytes(tag) && 0 <= t < CYCLE
    ensures LE(tag) == t <==> tag == TagBytes(t)
  {
    hide LE;
    if LE(tag) == t {
      FeBytes.LEInjective(tag, TagBytes(t));
    }
  }

  lemma SliceBytes(s: seq<int>, i: nat, j: nat)
    requires Bytes(s) && i <= j <= |s|
    ensures Bytes(s[i..j])
  {
  }

  lemma TagMeans(key: seq<int>, k: nat, header: seq<int>, body: seq<int>, tag: seq<int>)
    requires Key(key) && k < COUNTERS && |header| == 2 && |body| < 0x10000 && |tag| == 16 && Bytes(tag)
    ensures |body| >= 2 ==>
      (tag == TagOf(key, k, header, body, Zeros(16)) <==> LE(tag) == TagNumber(FirstBlock(key, k)[..32], AeadData(header, body)))
    ensures |body| < 2 ==> TagOf(key, k, header, body, Zeros(16)) == Zeros(16)
  {
    hide FirstBlock, TagNumber, AeadData, LE, TagBytes;
    TagRange(FirstBlock(key, k)[..32], AeadData(header, body));
    TagDecides(tag, TagNumber(FirstBlock(key, k)[..32], AeadData(header, body)));
  }

  /** From two payload bytes on acceptance is a check of the tag; below that, of sixteen zero bytes, the same
      under every key. */
  lemma AcceptsIff(key: seq<int>, k: nat, buffer: seq<int>, len: int)
    requires Key(key) && k < COUNTERS && |buffer| == 4096 && Bytes(buffer) && MessageLength(buffer) <= 2048
    ensures var n := MessageLength(buffer);
      var first, tag := FirstBlock(key, k)[..32], buffer[2 + n..2 + n + 16];
      && (n >= 2 ==> (Accepts(key, k, buffer, len) <==>
        len >= n + 18 && LE(tag) == TagNumber(first, AeadData(buffer[..2], buffer[2..2 + n]))))
      && (n < 2 ==> (Accepts(key, k, buffer, len) <==> len >= n + 18 && tag == Zeros(16)))
  {
    hide FirstBlock, TagNumber, AeadData, LE, TagOf, TagBytes;
    var n := MessageLength(buffer);
    var tag := buffer[2 + n..2 + n + 16];
    SliceBytes(buffer, 2 + n, 2 + n + 16);
    SliceBytes(buffer, 2, 2 + n);
    TagMeans(key, k, buffer[..2], buffer[2..2 + n], tag);
  }

  /** Conversely, what is accepted as message k is the frame this session would write for what it opens to. */
  lemma AcceptedIsFrame(key: seq<int>, k: nat, buffer: seq<int>, len: int)
    requires Key(key) && k < COUNTERS && |buffer| == 4096 && Bytes(buffer) && MessageLength(buffer) <= 2048
    requires Accepts(key, k, buffer, len)
    ensures Holds(buffer, FrameOf(key, k, Opened(key, k, buffer), Zeros(16)))
  {
    hide Sealed, TagOf;
    var n := MessageLength(buffer);
    var p, c := Opened(key, k, buffer), buffer[2..2 + n];
    SealedTwice(key, k, c);
    var header := [n % 256, n / 256 % 256];
    assert buffer[..2] == header;
    assert c[..n % 0x10000] == c;
    assert buffer[..n + 18] == buffer[..2] + buffer[2..2 + n] + buffer[2 + n..2 + n + 16];
  }

  /** One connection of the accessory. */
  class Connection {
    const accessoryToControllerKey: seq<int>
    const controllerToAccessoryKey: seq<int>
    var numberOfMsgSend: int
    var numberOfMsgRec: int
    var locked: bool                   // the mutex is held and nobody is going to release it
    var wire: seq<seq<int>>            // what has gone to the socket, frame by frame
    ghost var payloads: seq<seq<int>>  // what the frames carry

    /** The k-th frame written has nonce k (below 2^64 frames) and carries the k-th payload. */
    ghost predicate Valid()
      reads this
    {
      && Key(accessoryToControllerKey) && Key(controllerToAccessoryKey)
      && 0 <= numberOfMsgRec < COUNTERS && numberOfMsgSend == |wire| % COUNTERS
      && Carries(accessoryToControllerKey, wire, payloads)
    }

    /** handleAccessoryRequest, up to the loop. */
    constructor (sendKey: seq<int>, receiveKey: seq<int>)
      requires Key(sendKey) && Key(receiveKey)
      ensures Valid() && wire == [] && payloads == [] && numberOfMsgRec == 0 && !locked
      ensures accessoryToControllerKey == sendKey && controllerToAccessoryKey == receiveKey
    {
      accessoryToControllerKey, controllerToAccessoryKey := sendKey, receiveKey;
      numberOfMsgSend, numberOfMsgRec, locked := 0, 0, false;
      wire, payloads := [], [];
    }

    /** The authenticator key: `chacha20_encrypt(&chacha20, temp, temp2, 64)` on 64 zero bytes; then the
        payload under the rest of the keystream. */
    static method Encipher(key: seq<int>, k: nat, payload: seq<int>) returns (first: seq<int>, body: seq<int>)
      requires Key(key) && k < COUNTERS && Bytes(payload)
      ensures first == FirstBlock(key, k) && body == Sealed(key, k, payload)
    {
      hide Context.Valid, Xored, Schedule;
      var chacha20 := new Context(key, NonceBytes(k));
      first := chacha20.Encrypt(Zeros(64));
      body := chacha20.Encrypt(payload);
    }

    /** Poly1305_GenKey into a buffer that held `left`. */
    static method Authenticate(key: seq<int>, k: nat, header: seq<int>, body: seq<int>, rest: seq<int>, left: seq<int>)
        returns (tag: seq<int>)
      requires Key(key) && k < COUNTERS && |header| == 2 && Bytes(header) && Bytes(body) && Bytes(rest) && |body| < 0x10000
      requires |left| == 16 && Bytes(left)
      ensures tag == TagOf(key, k, header, body, left)
    {
      hide FirstBlock, TagNumber, AeadData, LE;
      var verify := new int[16](i requires 0 <= i < 16 => left[i]);
      assert verify[..] == left;
      var buf := header + body + rest;
      assert buf[..2] == header && buf[2..2 + |body|] == body;
      GenKey(0x1_0000_0000_0000_0000, FirstBlock(key, k)[..32], buf, |body|, true, verify);
      tag := verify[..];
      if |body| >= 2 {
        TagRange(FirstBlock(key, k)[..32], AeadData(header, body));
        FeBytes.LEInjective(tag, TagBytes(TagNumber(FirstBlock(key, k)[..32], AeadData(header, body))));
      }
    }

    /** Writing one frame: nonce, counter, encryption, tag. */
    method Write(payload: seq<int>, left: seq<int>) returns (reply: seq<int>)
      requires Valid() && Bytes(payload) && |left| == 16 && Bytes(left)
      modifies this`numberOfMsgSend, this`wire, this`payloads
      ensures Valid() && reply == FrameOf(accessoryToControllerKey, old(numberOfMsgSend), payload, left)
      ensures wire == old(wire) + [reply] && payloads == old(payloads) + [payload]
    {
      hide FirstBlock, Sealed, TagOf;
      ghost var was, had, key := wire, payloads, accessoryToControllerKey;
      var n := |payload|;
      var k := numberOfMsgSend;
      var header := [n % 256, (n - n % 256) / 256 % 256];
      assert (n - n % 256) / 256 == n / 256;
      var first, body := Encipher(accessoryToControllerKey, k, payload);
      numberOfMsgSend := (numberOfMsgSend + 1) % COUNTERS;
      var cut := n % 0x10000;
      var tag := Authenticate(accessoryToControllerKey, k, header, body[..cut], body[cut..], left);
      reply := header + body + tag;
      wire, payloads := wire + [reply], payloads + [payload];
      CarriesMore(key, was, had, payload, reply, left);
      NextCount(|was|);
    }

    static lemma NextCount(n: nat)
      ensures (n % COUNTERS + 1) % COUNTERS == (n + 1) % COUNTERS
    {
      var q, r := n / COUNTERS, n % COUNTERS;
      var j, t := (r + 1) / COUNTERS, (r + 1) % COUNTERS;
      DivModUnique(n + 1, COUNTERS, q + j, t);
    }

    /** broadcastMessage, for one connection; the lock is taken and released. */
    method Broadcast(message: seq<int>) returns (reply: seq<int>)
      requires Valid() && !locked && Bytes(message)
      modifies this`numberOfMsgSend, this`wire, this`payloads
      ensures Valid() && reply == FrameOf(accessoryToControllerKey, old(numberOfMsgSend), message, Zeros(16))
      ensures wire == old(wire) + [reply] && payloads == old(payloads) + [message]
    {
      reply := Write(message, Zeros(16));
    }

    /** The receive half of the request loop.  The counter moves on whether or not the frame verifies. */
    method Receive(buffer: seq<int>, len: int) returns (ok: bool, data: seq<int>, verify: seq<int>)
      requires Valid() && |buffer| == 4096 && Bytes(buffer) && 0 < len <= 4096 && MessageLength(buffer) <= 2048
      modifies this`numberOfMsgRec
      ensures Valid() && numberOfMsgRec == (old(numberOfMsgRec) + 1) % COUNTERS
      ensures ok <==> Accepts(controllerToAccessoryKey, old(numberOfMsgRec), buffer, len)
      ensures data == Opened(controllerToAccessoryKey, old(numberOfMsgRec), buffer) && |verify| == 16 && Bytes(verify)
    {
      hide FirstBlock, Sealed, TagOf, Carries;
      var msgLen := buffer[1] * 256 + buffer[0];
      var k := numberOfMsgRec;
      numberOfMsgRec := (numberOfMsgRec + 1) % COUNTERS;
      var first;
      verify := Authenticate(controllerToAccessoryKey, k, buffer[..2], buffer[2..2 + msgLen], buffer[2 + msgLen..], Zeros(16));
      first, data := Encipher(controllerToAccessoryKey, k, buffer[2..2 + msgLen]);
      ok := len >= 2 + msgLen + 16 && verify == buffer[2 + msgLen..2 + msgLen + 16];
    }

    /** One turn of the request loop: a frame that verifies is answered with `result`; any other is dropped, and
        the `continue` that drops it skips the release of the lock. */
    method Request(buffer: seq<int>, len: int, result: seq<int>) returns (ok: bool, reply: seq<int>)
      requires Valid() && !locked && |buffer| == 4096 && Bytes(buffer) && 0 < len <= 4096 && MessageLength(buffer) <= 2048 && Bytes(result)
      modifies this
      ensures Valid() && numberOfMsgRec == (old(numberOfMsgRec) + 1) % COUNTERS
      ensures ok <==> Accepts(controllerToAccessoryKey, old(numberOfMsgRec), buffer, len)
      ensures locked <==> !ok
      ensures wire == old(wire) + (if ok then [reply] else []) && payloads == old(payloads) + if ok then [result] else []
    {
      hide Accepts, Opened, FrameOf, Carries;
      var data, verify;
      reply := [];
      locked := true;
      ok, data, verify := Receive(buffer, len);
      if !ok {
        return;
      }
      reply := Write(result, verify);
      locked := false;
    }
  }

  /** wire[k] is the frame of payloads[k] under nonce k mod 2^64 (up to what a tag below two bytes holds). */
  ghost predicate Carries(key: seq<int>, wire: seq<seq<int>>, payloads: seq<seq<int>>)
    requires Key(key)
  {
    |wire| == |payloads| && forall k :: 0 <= k < |wire| ==> CarriesAt(key, k, wire[k], payloads[k])
  }

  ghost predicate CarriesAt(key: seq<int>, k: nat, frame: seq<int>, payload: seq<int>)
    requires Key(key)
  {
    Bytes(payload) && exists left :: |left| == 16 && Bytes(left) && frame == FrameOf(key, k % COUNTERS, payload, left)
  }

  lemma CarriesMore(key: seq<int>, wire: seq<seq<int>>, payloads: seq<seq<int>>, payload: seq<int>, frame: seq<int>, left: seq<int>)
    requires Key(key) && Carries(key, wire, payloads) && Bytes(payload) && |left| == 16 && Bytes(left)
    requires frame == FrameOf(key, |wire| % COUNTERS, payload, left)
    ensures Carries(key, wire + [frame], payloads + [payload])
  {
    hide FrameOf;
    assert CarriesAt(key, |wire|, frame, payload);
  }

  // ---- whole runs

  /** A critical section of either thread. */
  datatype Event = Notify(message: seq<int>) | Ask(buffer: seq<int>, len: int, result: seq<int>)

  predicate Possible(e: Event) {
    match e
    case Notify(message) => Bytes(message)
    case Ask(buffer, len, result) =>
      |buffer| == 4096 && Bytes(buffer) && 0 < len <= 4096 && MessageLength(buffer) <= 2048 && Bytes(result)
  }

  /** What an event would write has 2 to 2048 bytes. */
  predicate Fitting(e: Event) {
    2 <= (match e case Notify(message) => |message| case Ask(_, _, result) => |result|) <= 2048
  }

  /** The receive counter, the payloads written so far, and whether the lock was left behind. */
  datatype Progress = Progress(received: nat, payloads: seq<seq<int>>, locked: bool)

  /** What an event does: a notification is written, an answer is when the request verifies under its own
      counter, a request that does not verify keeps the lock, and then nothing happens any more. */
  function Handled(key: seq<int>, before: Progress, e: Event): (r: Progress)
    requires Key(key) && before.received < COUNTERS && Possible(e)
    ensures r.received < COUNTERS
  {
    if before.locked then before else
    match e
    case Notify(message) => before.(payloads := before.payloads + [message])
    case Ask(buffer, len, result) =>
      var next := (before.received + 1) % COUNTERS;
      if Accepts(key, before.received, buffer, len) then Progress(next, before.payloads + [result], false)
      else Progress(next, before.payloads, true)
  }

  function Served(key: seq<int>, start: Progress, events: seq<Event>): (r: Progress)
    requires Key(key) && start.received < COUNTERS && forall i :: 0 <= i < |events| ==> Possible(events[i])
    ensures r.received < COUNTERS
  {
    if events == [] then start
    else Handled(key, Served(key, start, events[..|events| - 1]), events[|events| - 1])
  }

  lemma ServedStep(key: seq<int>, start: Progress, events: seq<Event>, i: nat)
    requires Key(key) && start.received < COUNTERS && i < |events| && forall j :: 0 <= j < |events| ==> Possible(events[j])
    ensures Possible(events[i])
    ensures Served(key, start, events[..i + 1]) == Handled(key, Served(key, start, events[..i]), events[i])
  {
    hide Accepts, Key, Handled;
    assert events[..i + 1][..i] == events[..i];
  }

  lemma ServedFrom(key: seq<int>, start: Progress)
    requires Key(key) && start.received < COUNTERS
    ensures Served(key, start, []) == start
  {
  }

  /** What a connection has come to. */
  ghost function Now(c: Connection): Progress
    requires 0 <= c.numberOfMsgRec
    reads c
  {
    Progress(c.numberOfMsgRec, c.payloads, c.locked)
  }

  /** One event; while the lock is held for good, whoever asks for it waits forever. */
  method Handle(c: Connection, e: Event)
    requires c.Valid() && Possible(e)
    modifies c
    ensures c.Valid() && Key(c.controllerToAccessoryKey) && 0 <= old(c.numberOfMsgRec) < COUNTERS && 0 <= c.numberOfMsgRec
    ensures Now(c) == Handled(c.controllerToAccessoryKey, old(Now(c)), e)
  {
    ValidKey(c);
    HandledCases(c.controllerToAccessoryKey, Now(c), e);
    hide *;
    if c.locked {
      return;
    }
    match e {
      case Notify(message) => HandleNotify(c, message);
      case Ask(buffer, len, result) => HandleAsk(c, buffer, len, result);
    }
  }

  method HandleNotify(c: Connection, message: seq<int>)
    requires c.Valid() && !c.locked && Possible(Notify(message))
    modifies c
    ensures c.Valid() && Key(c.controllerToAccessoryKey) && 0 <= old(c.numberOfMsgRec) < COUNTERS && 0 <= c.numberOfMsgRec
    ensures Now(c) == Handled(c.controllerToAccessoryKey, old(Now(c)), Notify(message))
  {
    ValidKey(c);
    HandledNotify(c.controllerToAccessoryKey, Now(c), message);
    hide *;
    NowIs(c);
    var reply := c.Broadcast(message);
    ValidKey(c);
    NowIs(c);
  }

  method HandleAsk(c: Connection, buffer: seq<int>, len: int, result: seq<int>)
    requires c.Valid() && !c.locked && Possible(Ask(buffer, len, result))
    modifies c
    ensures c.Valid() && Key(c.controllerToAccessoryKey) && 0 <= old(c.numberOfMsgRec) < COUNTERS && 0 <= c.numberOfMsgRec
    ensures Now(c) == Handled(c.controllerToAccessoryKey, old(Now(c)), Ask(buffer, len, result))
  {
    ValidKey(c);
    AskPossible(buffer, len, result);
    hide *;
    ghost var key, before := c.controllerToAccessoryKey, Now(c);
    NowIs(c);
    var ok, reply := c.Request(buffer, len, result);
    ValidKey(c);
    NowIs(c);
    HandledAsk(key, before, buffer, len, result, ok);
  }

  lemma HandledNotify(key: seq<int>, before: Progress, message: seq<int>)
    requires Key(key) && before.received < COUNTERS && Possible(Notify(message)) && !before.locked
    ensures Bytes(message)
    ensures Handled(key, before, Notify(message)) == Progress(before.received, before.payloads + [message], false)
  {
  }

  lemma AskPossible(buffer: seq<int>, len: int, result: seq<int>)
    requires Possible(Ask(buffer, len, result))
    ensures |buffer| == 4096 && Bytes(buffer) && 0 < len <= 4096 && MessageLength(buffer) <= 2048 && Bytes(result)
  {
  }

  lemma HandledAsk(key: seq<int>, before: Progress, buffer: seq<int>, len: int, result: seq<int>, ok: bool)
    requires Key(key) && before.received < COUNTERS && Possible(Ask(buffer, len, result)) && !before.locked
    requires |buffer| == 4096 && Bytes(buffer) && MessageLength(buffer) <= 2048 && ok == Accepts(key, before.received, buffer, len)
    ensures Handled(key, before, Ask(buffer, len, result))
      == Progress((before.received + 1) % COUNTERS, before.payloads + (if ok then [result] else []), !ok)
  {
    hide Accepts, Key;
    assert before.payloads + [] == before.payloads;
  }

  lemma NowIs(c: Connection)
    requires 0 <= c.numberOfMsgRec
    ensures Now(c) == Progress(c.numberOfMsgRec, c.payloads, c.locked)
  {
  }

  lemma HandledCases(key: seq<int>, before: Progress, e: Event)
    requires Key(key) && before.received < COUNTERS && Possible(e)
    ensures before.locked ==> Handled(key, before, e) == before
    ensures e.Notify? ==> Bytes(e.message)
    ensures !before.locked && e.Notify? ==>
      Handled(key, before, e) == Progress(before.received, before.payloads + [e.message], false)
    ensures e.Ask? ==> |e.buffer| == 4096 && Bytes(e.buffer) && 0 < e.len <= 4096 && MessageLength(e.buffer) <= 2048 && Bytes(e.result)
    ensures !before.locked && e.Ask? ==> Handled(key, before, e).received == (before.received + 1) % COUNTERS
    ensures !before.locked && e.Ask? ==> Handled(key, before, e).locked == !Accepts(key, before.received, e.buffer, e.len)
    ensures !before.locked && e.Ask? ==>
      Handled(key, before, e).payloads == before.payloads + if Accepts(key, before.received, e.buffer, e.len) then [e.result] else []
  {
    hide Accepts, Key;
    assert before.payloads + [] == before.payloads;
  }

  /** Any interleaving of requests and broadcasts. */
  method Serve(c: Connection, events: seq<Event>)
    requires c.Valid() && forall i :: 0 <= i < |events| ==> Possible(events[i])
    modifies c
    ensures c.Valid() && Key(c.controllerToAccessoryKey) && 0 <= old(c.numberOfMsgRec) < COUNTERS && 0 <= c.numberOfMsgRec
    ensures Now(c) == Served(c.controllerToAccessoryKey, old(Now(c)), events)
  {
    ValidKey(c);
    ghost var key, start := c.controllerToAccessoryKey, Now(c);
    ServedFrom(key, start);
    NowIs(c);
    hide *;
    assert events[..0] == [];
    for i := 0 to |events|
      invariant c.Valid() && 0 <= c.numberOfMsgRec && Now(c) == Served(key, start, events[..i])
    {
      ServedStep(key, start, events, i);
      Handle(c, events[i]);
    }
    assert events[..|events|] == events;
  }

  // ---- what a run writes: everything before the first request that does not verify

  function Asks(events: seq<Event>): nat {
    if events == [] then 0 else Asks(events[..|events| - 1]) + if events[|events| - 1].Ask? then 1 else 0
  }

  /** Event i is no request, or one that verifies when every request so far has moved the counter by one. */
  predicate AcceptedAt(key: seq<int>, k: nat, events: seq<Event>, i: nat)
    requires Key(key) && i < |events| && Possible(events[i])
  {
    events[i].Ask? ==> Accepts(key, (k + Asks(events[..i])) % COUNTERS, events[i].buffer, events[i].len)
  }

  /** n events pass before the first request that does not verify. */
  ghost predicate FirstRejected(key: seq<int>, k: nat, events: seq<Event>, n: nat)
    requires Key(key) && forall i :: 0 <= i < |events| ==> Possible(events[i])
  {
    n <= |events| && (forall i :: 0 <= i < n ==> AcceptedAt(key, k, events, i)) && (n < |events| ==> !AcceptedAt(key, k, events, n))
  }

  function PayloadOf(e: Event): seq<int> {
    match e case Notify(message) => message case Ask(_, _, result) => result
  }

  function Written(events: seq<Event>): (w: seq<seq<int>>)
    ensures |w| == |events| && forall i :: 0 <= i < |events| ==> w[i] == PayloadOf(events[i])
  {
    seq(|events|, i requires 0 <= i < |events| => PayloadOf(events[i]))
  }

  lemma FirstExists(key: seq<int>, k: nat, events: seq<Event>) returns (n: nat)
    requires Key(key) && forall i :: 0 <= i < |events| ==> Possible(events[i])
    ensures FirstRejected(key, k, events, n)
  {
    hide Key, Accepts, Possible;
    n := 0;
    while n < |events| && AcceptedAt(key, k, events, n)
      invariant n <= |events| && forall i :: 0 <= i < n ==> AcceptedAt(key, k, events, i)
    {
      n := n + 1;
    }
  }

  lemma SameBefore(key: seq<int>, k: nat, events: seq<Event>, m: nat)
    requires Key(key) && (forall i :: 0 <= i < |events| ==> Possible(events[i])) && m <= |events|
    ensures forall i :: 0 <= i < m ==> AcceptedAt(key, k, events[..m], i) == AcceptedAt(key, k, events, i)
  {
    hide Key, Accepts, Possible;
    forall i | 0 <= i < m ensures AcceptedAt(key, k, events[..m], i) == AcceptedAt(key, k, events, i) {
      assert events[..m][..i] == events[..i];
    }
  }

  lemma NothingAsked(k: nat)
    requires k < COUNTERS
    ensures (k + Asks([])) % COUNTERS == k
  {
  }

  lemma LastAccepted(key: seq<int>, k: nat, events: seq<Event>, m: nat)
    requires Key(key) && m < |events| && Possible(events[m])
    ensures AcceptedAt(key, k, events, m) <==>
      events[m].Notify? || Accepts(key, (k + Asks(events[..m])) % COUNTERS, events[m].buffer, events[m].len)
  {
    hide Accepts, Key, Asks, Possible;
  }

  lemma OneMore(events: seq<Event>, m: nat)
    requires |events| == m + 1
    ensures Asks(events) == Asks(events[..m]) + if events[m].Ask? then 1 else 0
    ensures PayloadOf(events[m]) == if events[m].Notify? then events[m].message else events[m].result
  {
  }

  lemma CountOn(k: nat, a: nat)
    ensures ((k + a) % COUNTERS + 1) % COUNTERS == (k + (a + 1)) % COUNTERS
  {
    Connection.NextCount(k + a);
  }

  /** The payloads of a run are those of the events before the first request that does not verify, and the
      session still serves if there is none. */
  lemma {:induction false} ServedIs(key: seq<int>, start: Progress, events: seq<Event>, n: nat)
    requires Key(key) && start.received < COUNTERS && !start.locked && forall i :: 0 <= i < |events| ==> Possible(events[i])
    requires FirstRejected(key, start.received, events, n)
    ensures Served(key, start, events).payloads == start.payloads + Written(events[..n])
    ensures Served(key, start, events).locked <==> n < |events|
    ensures n == |events| ==> Served(key, start, events).received == (start.received + Asks(events)) % COUNTERS
  {
    hide Key, Accepts, Possible, Handled, AcceptedAt, Asks, PayloadOf;
    var k, m := start.received, |events| - 1;
    if events == [] {
      assert start.payloads + Written(events[..n]) == start.payloads;
      NothingAsked(k);
    } else {
      SameBefore(key, k, events, m);
      var e, was := events[m], Served(key, start, events[..m]);
      HandledCases(key, was, e);
      LastAccepted(key, k, events, m);
      OneMore(events, m);
      ServedIs(key, start, events[..m], if n < m then n else m);
      if n >= m {
        CountOn(k, Asks(events[..m]));
        assert Written(events[..m]) + [PayloadOf(e)] == Written(events);
        assert events[..|events|] == events;
        assert start.payloads + Written(events[..m]) + [PayloadOf(e)] == start.payloads + Written(events);
      } else {
        assert events[..m][..n] == events[..n];
      }
    }
  }

  /** The session still serves if and only if every request so far has verified. */
  lemma StillServes(key: seq<int>, start: Progress, events: seq<Event>)
    requires Key(key) && start.received < COUNTERS && !start.locked && forall i :: 0 <= i < |events| ==> Possible(events[i])
    ensures !Served(key, start, events).locked <==> forall i :: 0 <= i < |events| ==> AcceptedAt(key, start.received, events, i)
  {
    hide Key, Accepts, Possible, Handled, Served, AcceptedAt;
    var n := FirstExists(key, start.received, events);
    ServedIs(key, start, events, n);
  }

  predicate Sized(payloads: seq<seq<int>>) {
    forall k :: 0 <= k < |payloads| ==> 2 <= |payloads[k]| <= 2048
  }

  /** A frame as the reading side finds it: the buffer was zeroed before. */
  function ReadBuffer(f: seq<int>): (b: seq<int>)
    requires |f| <= 4096 && Bytes(f)
    ensures Holds(b, f)
  {
    var b := f + Zeros(4096 - |f|);
    assert b[..|f|] == f;
    b
  }

  /** The peer has received i frames. */
  ghost predicate Awaits(peer: Connection, i: nat)
    reads peer
  {
    peer.Valid() && peer.numberOfMsgRec == i % COUNTERS
  }

  lemma AwaitsParts(peer: Connection, i: nat)
    ensures Awaits(peer, i) <==> peer.Valid() && peer.numberOfMsgRec == i % COUNTERS
  {
    hide Connection.Valid;
  }

  /** The i-th frame arrives. */
  method ReceiveOne(peer: Connection, frame: seq<int>, ghost i: nat, ghost payload: seq<int>) returns (data: seq<int>)
    requires Awaits(peer, i) && 2 <= |payload| <= 2048
    requires CarriesAt(peer.controllerToAccessoryKey, i, frame, payload)
    modifies peer`numberOfMsgRec
    ensures Awaits(peer, i + 1) && data == payload
  {
    hide *;
    AwaitsParts(peer, i);
    ValidKey(peer);
    var buffer := FrameBuffer(frame, peer.controllerToAccessoryKey, i, payload);
    Connection.NextCount(i);
    data := Read(peer, buffer, |frame|, payload);
    AwaitsParts(peer, i + 1);
  }

  /** A buffer that verifies. */
  method Read(peer: Connection, buffer: seq<int>, len: int, ghost payload: seq<int>) returns (data: seq<int>)
    requires peer.Valid() && |buffer| == 4096 && Bytes(buffer) && 0 < len <= 4096 && MessageLength(buffer) <= 2048
    requires Accepts(peer.controllerToAccessoryKey, peer.numberOfMsgRec, buffer, len)
    requires Opened(peer.controllerToAccessoryKey, peer.numberOfMsgRec, buffer) == payload
    modifies peer`numberOfMsgRec
    ensures peer.Valid() && peer.numberOfMsgRec == (old(peer.numberOfMsgRec) + 1) % COUNTERS && data == payload
  {
    hide *;
    var ok, verify;
    ok, data, verify := peer.Receive(buffer, len);
    assert ok;
  }

  lemma ValidKey(c: Connection)
    requires c.Valid()
    ensures Key(c.controllerToAccessoryKey) && 0 <= c.numberOfMsgRec < COUNTERS
  {
  }

  method FrameBuffer(frame: seq<int>, key: seq<int>, ghost i: nat, ghost payload: seq<int>) returns (buffer: seq<int>)
    requires Key(key) && CarriesAt(key, i, frame, payload) && 2 <= |payload| <= 2048
    ensures |buffer| == 4096 && Bytes(buffer) && 0 < |frame| <= 4096 && MessageLength(buffer) <= 2048
    ensures Accepts(key, i % COUNTERS, buffer, |frame|) && Opened(key, i % COUNTERS, buffer) == payload
  {
    hide FrameOf, Accepts, Opened, Key;
    ghost var left :| |left| == 16 && Bytes(left) && frame == FrameOf(key, i % COUNTERS, payload, left);
    buffer := ReadBuffer(frame);
    FrameOpens(key, i % COUNTERS, payload, left, buffer);
  }

  lemma CarriesOne(key: seq<int>, wire: seq<seq<int>>, payloads: seq<seq<int>>, i: nat)
    requires Key(key) && Carries(key, wire, payloads) && i < |wire| && Sized(payloads)
    ensures |wire| == |payloads| && CarriesAt(key, i, wire[i], payloads[i]) && 2 <= |payloads[i]| <= 2048
  {
    hide CarriesAt, Key;
  }

  lemma NothingReceived(peer: Connection, key: seq<int>, wire: seq<seq<int>>, payloads: seq<seq<int>>)
    requires peer.Valid() && peer.numberOfMsgRec == 0 && peer.controllerToAccessoryKey == key
    requires Carries(key, wire, payloads)
    ensures Key(key) && |wire| == |payloads| && Awaits(peer, 0)
  {
    hide CarriesAt, Key;
  }

  /** End to end: whatever the interleaving was, the code's own receive path, counting from 0, recovers
      every payload of 2 to 2048 bytes, in order. */
  method ReceiveAll(peer: Connection, key: seq<int>, wire: seq<seq<int>>, ghost payloads: seq<seq<int>>) returns (got: seq<seq<int>>)
    requires peer.Valid() && peer.numberOfMsgRec == 0 && peer.controllerToAccessoryKey == key
    requires Carries(key, wire, payloads) && Sized(payloads)
    modifies peer`numberOfMsgRec
    ensures got == payloads
  {
    hide *;
    NothingReceived(peer, key, wire, payloads);
    got := [];
    for i := 0 to |wire|
      invariant Awaits(peer, i) && got == payloads[..i]
    {
      ghost var payload := payloads[i];
      CarriesOne(key, wire, payloads, i);
      var data := ReceiveOne(peer, wire[i], i, payload);
      got := got + [data];
    }
  }

  /** A conversation: what a new connection writes while serving requests and broadcasts in any order, up to
      the first request that does not verify, reaches a peer with the same key, each payload once and in order. */
  method Conversation(sendKey: seq<int>, receiveKey: seq<int>, events: seq<Event>)
      returns (wire: seq<seq<int>>, got: seq<seq<int>>, serving: bool, ghost n: nat)
    requires Key(sendKey) && Key(receiveKey)
    requires forall i :: 0 <= i < |events| ==> Possible(events[i]) && Fitting(events[i])
    ensures FirstRejected(receiveKey, 0, events, n) && (serving <==> n == |events|)
    ensures got == Written(events[..n]) && Carries(sendKey, wire, got)
  {
    var c := new Connection(sendKey, receiveKey);
    ghost var start := Progress(0, [], false);
    n := FirstExists(receiveKey, 0, events);
    NowIs(c);
    Serve(c, events);
    ServedIs(receiveKey, start, events, n);
    NowIs(c);
    WrittenFits(events, n);
    assert [] + Written(events[..n]) == Written(events[..n]);
    var peer := new Connection(receiveKey, sendKey);
    wire, serving := c.wire, !c.locked;
    got := ReceiveAll(peer, sendKey, wire, c.payloads);
  }

  lemma WrittenFits(events: seq<Event>, n: nat)
    requires n <= |events| && forall i :: 0 <= i < |events| ==> Fitting(events[i])
    ensures Sized(Written(events[..n]))
  {
    forall k | 0 <= k < n ensures 2 <= |Written(events[..n])[k]| <= 2048 {
      assert Fitting(events[k]);
    }
  }
}
