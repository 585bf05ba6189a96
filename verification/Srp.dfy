/** The SRP-6a server (srp/srp6_server.c): its public value, its session key, the cases it rejects, and the
    proofs it exchanges.  The hash is a parameter; big integers are integers, their byte form is most
    significant byte first. */
module Srp {
  import opened Bits
  import opened Congruence
  import opened Radix

  datatype Result<T> = Success(value: T) | Error

  // ---- the agreement of section 2.6 of RFC 5054

  /** BigIntegerModExp */
  function ModExp(base: int, e: nat, n: int): (r: int)
    requires n > 0
    ensures 0 <= r < n
  {
    CongMod(Power(base, e), n);
    Power(base, e) % n
  }

  /** v = g^x mod N */
  function Verifier(n: int, g: int, x: nat): int
    requires n > 0
  {
    ModExp(g, x, n)
  }

  /** B = k*v + g^b mod N */
  function ServerPublic(n: int, g: int, k: int, v: int, b: nat): int
    requires n > 0
  {
    (k * v + ModExp(g, b, n)) % n
  }

  /** A * v^u mod N */
  function Blinded(n: int, a: int, v: int, u: nat): int
    requires n > 0
  {
    a * ModExp(v, u, n) % n
  }

  /** (A * v^u)^b mod N */
  function ServerKey(n: int, a: int, v: int, u: nat, b: nat): int
    requires n > 0
  {
    ModExp(Blinded(n, a, v, u), b, n)
  }

  /** (B - k*g^x)^(a + u*x) mod N */
  function ClientKey(n: int, g: int, k: int, pub: int, x: nat, a: nat, u: nat): int
    requires n > 0
  {
    NonNegative(u, x);
    ModExp(pub - k * Power(g, x), a + u * x, n)
  }

  lemma NonNegative(u: nat, x: nat)
    ensures u * x >= 0
  {
  }

  lemma ModExpIs(base: int, x: int, e: nat, n: int)
    requires n > 0 && Cong(base, x, n)
    ensures Cong(ModExp(base, e, n), Power(x, e), n)
  {
    CongPower(base, x, e, n);
    CongMod(Power(base, e), n);
  }

  lemma CongTrans(x: int, y: int, z: int, n: int)
    requires n > 0 && Cong(x, y, n) && Cong(y, z, n)
    ensures Cong(x, z, n)
  {
  }

  lemma CongRefl(x: int, n: int)
    requires n > 0
    ensures Cong(x, x, n)
  {
  }

  /** The server blinds g^(a + u x). */
  lemma BlindedIs(n: int, g: int, x: nat, a: nat, u: nat)
    requires n > 0
    ensures u * x >= 0 && Cong(Blinded(n, ModExp(g, a, n), Verifier(n, g, x), u), Power(g, a + u * x), n)
  {
    hide Cong, ModExp;
    var v, w := ModExp(g, x, n), Power(Power(g, x), u);
    CongRefl(g, n);
    ModExpIs(g, g, x, n);
    ModExpIs(v, Power(g, x), u, n);
    ModExpIs(g, g, a, n);
    var p, q := ModExp(g, a, n), ModExp(v, u, n);
    CongMul(p, Power(g, a), q, w, n);
    CongMod(p * q, n);
    CongTrans(p * q % n, p * q, Power(g, a) * w, n);
    PowerMul(g, x, u);
    NonNegative(u, x);
    assert x * u == u * x;
    PowerAdd(g, a, u * x);
  }

  /** The client unblinds g^b. */
  lemma UnblindedIs(n: int, g: int, k: int, x: nat, b: nat)
    requires n > 0
    ensures Cong(ServerPublic(n, g, k, Verifier(n, g, x), b) - k * Power(g, x), Power(g, b), n)
  {
    hide Cong, ModExp, Power;
    var v, w, gx, gb := ModExp(g, x, n), ModExp(g, b, n), Power(g, x), Power(g, b);
    CongRefl(g, n);
    CongRefl(k, n);
    ModExpIs(g, g, x, n);
    ModExpIs(g, g, b, n);
    CongMul(k, k, v, gx, n);
    CongSum(k * v, k * gx, w, gb, n);
    CongMod(k * v + w, n);
    var pub := (k * v + w) % n;
    CongTrans(pub, k * v + w, k * gx + gb, n);
    CongRefl(k * gx, n);
    CongSum(pub, k * gx + gb, k * gx, k * gx, n);
    assert k * gx + gb - k * gx == gb;
  }

  lemma PowerOfPower(y: int, g: int, d: nat, e: nat, n: int)
    requires n > 0 && Cong(y, Power(g, d), n)
    ensures d * e >= 0 && ModExp(y, e, n) == ModExp(g, d * e, n)
  {
    CongPower(y, Power(g, d), e, n);
    PowerMul(g, d, e);
    CongIff(Power(y, e), Power(Power(g, d), e), n);
    hide Power, Cong;
  }

  /** SRP-6a agreement: for all N, g, x, a, b, u and k both sides compute the same key. */
  lemma KeysAgree(n: int, g: int, x: nat, a: nat, b: nat, u: nat, k: int)
    requires n > 0
    ensures ServerKey(n, ModExp(g, a, n), Verifier(n, g, x), u, b)
         == ClientKey(n, g, k, ServerPublic(n, g, k, Verifier(n, g, x), b), x, a, u)
    ensures b * (a + u * x) >= 0
    ensures ServerKey(n, ModExp(g, a, n), Verifier(n, g, x), u, b) == ModExp(g, b * (a + u * x), n)
  {
    NonNegative(u, x);
    NonNegative(b, a + u * x);
    var e: nat := a + u * x;
    hide Power, ModExp, Blinded, ServerPublic, Verifier, Cong;
    BlindedIs(n, g, x, a, u);
    PowerOfPower(Blinded(n, ModExp(g, a, n), Verifier(n, g, x), u), g, e, b, n);
    UnblindedIs(n, g, k, x, b);
    PowerOfPower(ServerPublic(n, g, k, Verifier(n, g, x), b) - k * Power(g, x), g, b, e, n);
    assert e * b == b * e;
  }

  // ---- byte forms

  /** BigIntegerToCstr: no leading zero byte, nothing for 0. */
  function ToBytes(n: nat): (s: seq<int>)
    ensures Digits(s, 256) && Minimal(s) && Value(s, 256) == n
    decreases n
  {
    if n == 0 then []
    else
      var s := ToBytes(n / 256) + [n % 256];
      assert s[..|s| - 1] == ToBytes(n / 256);
      ToBytesMinimal(ToBytes(n / 256), n / 256, n % 256);
      s
  }

  lemma ToBytesMinimal(s: seq<int>, q: nat, r: int)
    requires Minimal(s) && Value(s, 256) == q && (q > 0 || r > 0)
    ensures Minimal(s + [r])
  {
  }

  /** PAD: BigIntegerToCstrEx, or memcpy to the end of a zeroed buffer. */
  function Pad(s: seq<int>, len: nat): (p: seq<int>)
    requires Digits(s, 256)
    ensures Digits(p, 256) && |p| == (if |s| < len then len else |s|)
  {
    if |s| < len then seq(len - |s|, _ => 0) + s else s
  }

  lemma {:induction false} PadValue(s: seq<int>, len: nat)
    requires Digits(s, 256)
    ensures Value(Pad(s, len), 256) == Value(s, 256)
    decreases len
  {
    if |s| < len {
      PadValue(s, len - 1);
      if |s| < len - 1 {
        assert Pad(s, len) == [0] + Pad(s, len - 1);
      } else {
        assert Pad(s, len) == [0] + s;
      }
      LeadingZero(Pad(s, len - 1), 256);
    }
  }

  /** The number v in n bytes, or in as many as it needs if these are more. */
  predicate Padded(s: seq<int>, v: int, n: nat) {
    Digits(s, 256) && Value(s, 256) == v && (|s| == n || (|s| > n && Minimal(s)))
  }

  /** That says which bytes. */
  lemma {:induction false} PaddedUnique(s: seq<int>, t: seq<int>, v: int, n: nat)
    requires Padded(s, v, n) && Padded(t, v, n)
    ensures s == t
    decreases |s|
  {
    if |s| < |t| {
      MinimalLength(t, s);
    } else if |t| < |s| {
      MinimalLength(s, t);
    } else {
      SameLength(s, t);
    }
  }

  lemma {:induction false} SameLength(s: seq<int>, t: seq<int>)
    requires |s| == |t| && Digits(s, 256) && Digits(t, 256) && Value(s, 256) == Value(t, 256)
    ensures s == t
    decreases |s|
  {
    if |s| > 0 {
      var k := |s| - 1;
      SameLength(s[..k], t[..k]);
      assert s == s[..k] + [s[k]] && t == t[..k] + [t[k]];
    }
  }

  /** What is hashed for k and for u: two numbers, the first one given in bytes.  Under left padding both have n
      bytes; otherwise they are as they are, the second one without leading zeros. */
  predicate HashInput(m: seq<int>, leftPad: bool, first: seq<int>, second: int, n: nat) {
    var w := if leftPad then n else |first|;
    && |m| >= w && (if leftPad then Padded(m[..w], Value(first, 256), n) else m[..w] == first)
    && Padded(m[w..], second, if leftPad then n else 0)
  }

  lemma HashInputUnique(m: seq<int>, m': seq<int>, leftPad: bool, first: seq<int>, second: int, n: nat)
    requires HashInput(m, leftPad, first, second, n) && HashInput(m', leftPad, first, second, n)
    ensures m == m'
  {
    var w := if leftPad then n else |first|;
    if leftPad {
      PaddedUnique(m[..w], m'[..w], Value(first, 256), n);
    }
    PaddedUnique(m[w..], m'[w..], second, if leftPad then n else 0);
    assert m == m[..w] + m[w..] && m' == m'[..w] + m'[w..];
  }

  lemma JoinedIs(leftPad: bool, first: seq<int>, second: nat, n: nat)
    requires Digits(first, 256) && |first| <= n
    ensures HashInput(if leftPad then Pad(first, n) + Pad(ToBytes(second), n) else first + ToBytes(second), leftPad, first, second, n)
  {
    PadValue(first, n);
    PadValue(ToBytes(second), n);
    hide Value, ToBytes;
    var p, q := if leftPad then Pad(first, n) else first, if leftPad then Pad(ToBytes(second), n) else ToBytes(second);
    assert (p + q)[..|p|] == p && (p + q)[|p|..] == q;
  }

  lemma {:induction false} MinimalLength(d: seq<int>, e: seq<int>)
    requires Digits(d, 256) && Digits(e, 256) && Minimal(d) && Value(d, 256) <= Value(e, 256)
    ensures |d| <= |e|
    decreases |d| + |e|
  {
    if |d| > 0 {
      MinimalPositive(d, 256);
      if |e| > 0 {
        MinimalLength(d[..|d| - 1], e[..|e| - 1]);
      }
    }
  }

  predicate HashLike(h: seq<int> -> seq<int>, size: nat, m: seq<int>) {
    |h(m)| == size && Digits(h(m), 256)
  }

  ghost predicate Hash(h: seq<int> -> seq<int>, size: nat) {
    forall m :: HashLike(h, size, m)
  }

  function XorBytes(a: seq<int>, b: seq<int>): (c: seq<int>)
    requires |a| == |b| && Digits(a, 256) && Digits(b, 256)
    ensures |c| == |a|
  {
    seq(|a|, i requires 0 <= i < |a| => Xor(a[i], b[i]))
  }

  /** Byte by byte and bit by bit. */
  lemma XorBytesIs(a: seq<int>, b: seq<int>, i: nat, k: nat)
    requires |a| == |b| && Digits(a, 256) && Digits(b, 256) && i < |a|
    ensures Bit(XorBytes(a, b)[i], k) == if Bit(a[i], k) != Bit(b[i], k) then 1 else 0
  {
    hide Xor, Bit;
    BitwiseIs(a[i], b[i], k);
  }

  /** The server's state. */
  class Server {
    const h: seq<int> -> seq<int>
    const size: nat
    const leftPad: bool  // SRP_FLAG_LEFT_PAD: the method is SRP-6a
    var username: seq<int>
    var salt: seq<int>
    var exData: seq<int>
    var modulus: int
    var generator: int
    var verifier: int
    var password: int
    var secret: int
    var pubkey: int
    var u: int
    var key: int
    var sessionKey: seq<int>
    var response: seq<int>
    var verified: bool  // srp6_server_verify has been called: its SHA512_Final calls consume running hashes
    // what has been fed to the running hashes
    var hash: seq<int>
    var ckhash: seq<int>
    var oldhash: seq<int>
    var oldckhash: seq<int>

    ghost predicate Valid()
      reads this
    {
      !verified && Hash(h, size) && modulus > 0 && verifier >= 0 && generator >= 0 && pubkey >= 0 && secret >= 0
    }

    /** srp6_server_init or srp6a_server_init, and SRP_set_params with srp6_server_params. */
    constructor (h: seq<int> -> seq<int>, size: nat, leftPad: bool, username: seq<int>, exData: seq<int>,
                 modulus: seq<int>, generator: seq<int>, salt: seq<int>)
      requires Hash(h, size) && Digits(modulus, 256) && Digits(generator, 256) && Value(modulus, 256) > 0
      ensures Valid() && this.h == h && this.size == size && this.leftPad == leftPad
      ensures this.username == username && this.exData == exData && this.salt == salt
      ensures this.modulus == Value(modulus, 256) && this.generator == Value(generator, 256)
      ensures HashLike(h, size, modulus) && HashLike(h, size, generator)
      ensures ckhash == XorBytes(h(modulus), h(generator)) + h(username) + salt
      ensures hash == oldhash == oldckhash == []
    {
      assert HashLike(h, size, modulus) && HashLike(h, size, generator);
      ValueBound(generator, 256);
      this.h, this.size, this.leftPad := h, size, leftPad;
      this.username, this.exData, this.salt := username, exData, salt;
      this.modulus, this.generator := Value(modulus, 256), Value(generator, 256);
      this.verifier, this.password, this.secret, this.pubkey, this.u, this.key := 0, 0, 0, 0, 0, 0;
      sessionKey, response, verified := [], [], false;
      ckhash := XorBytes(h(modulus), h(generator)) + h(username) + salt;
      hash, oldhash, oldckhash := [], [], [];
    }

    /** srp6_server_passwd: x = H(salt | H(user | ":" | password)), v = g^x mod N. */
    method Passwd(p: seq<int>)
      requires Valid()
      modifies this`password, this`verifier
      ensures Valid() && password == Value(h(salt + h(username + [0x3a] + p)), 256) && password >= 0
      ensures verifier == Verifier(modulus, generator, password)
    {
      var dig := h(salt + h(username + [0x3a] + p));
      assert HashLike(h, size, salt + h(username + [0x3a] + p));
      ValueBound(dig, 256);
      password := Value(dig, 256);
      verifier := ModExp(generator, password, modulus);
    }

    /** srp6_server_genpub_ex: the secret from random bytes, and B = k*v + g^b mod N. */
    method GenPubEx(random: seq<int>, k: int) returns (b: seq<int>)
      requires Valid() && Digits(random, 256) && k >= 0
      modifies this`secret, this`pubkey, this`oldckhash
      ensures Valid() && secret == Value(random, 256)
      ensures pubkey == ServerPublic(modulus, generator, k, verifier, secret) && pubkey < modulus
      ensures b == ToBytes(pubkey) && oldckhash == old(oldckhash) + b
    {
      ValueBound(random, 256);
      secret := Value(random, 256);
      pubkey := k * verifier;
      var sum := ModExp(generator, secret, modulus) + pubkey;
      pubkey := sum % modulus;
      CongMod(sum, modulus);
      b := ToBytes(pubkey);
      oldckhash := oldckhash + b;
    }

    /** What k is the hash of: N | PAD(g) for SRP-6a (section 2.5.3 of RFC 5054). */
    function MultiplierInput(): seq<int>
      requires modulus > 0 && generator >= 0
      reads `modulus, `generator
    {
      var n := ToBytes(modulus);
      n + if leftPad then Pad(ToBytes(generator), |n|) else ToBytes(generator)
    }

    function Multiplier(): seq<int>
      requires modulus > 0 && generator >= 0
      reads `modulus, `generator
    {
      h(MultiplierInput())
    }

    lemma MultiplierInputIs()
      requires modulus > 0 && generator >= 0
      ensures HashInput(MultiplierInput(), leftPad, ToBytes(modulus), generator, |ToBytes(modulus)|)
    {
      JoinedIs(leftPad, ToBytes(modulus), generator, |ToBytes(modulus)|);
    }

    /** srp6a_server_genpub. */
    method GenPub(random: seq<int>) returns (r: Result<seq<int>>)
      requires Valid() && Digits(random, 256)
      modifies this`secret, this`pubkey, this`oldckhash
      ensures Valid() && Digits(Multiplier(), 256)
      ensures r.Error? <==> Value(Multiplier(), 256) == 0
      ensures r.Error? ==> unchanged(this)
      ensures r.Success? ==> secret == Value(random, 256) && r.value == ToBytes(pubkey)
      ensures r.Success? ==> pubkey == ServerPublic(modulus, generator, Value(Multiplier(), 256), verifier, secret) < modulus
      ensures r.Success? ==> oldckhash == old(oldckhash) + r.value
    {
      var n := ToBytes(modulus);
      var m := n + if leftPad then Pad(ToBytes(generator), |n|) else ToBytes(generator);
      var dig := h(m);
      assert HashLike(h, size, m);
      ValueBound(dig, 256);
      var k := Value(dig, 256);
      if k == 0 {
        return Error;
      }
      var b := GenPubEx(random, k);
      r := Success(b);
    }

    /** What u is the hash of: PAD(A) | PAD(B) under left padding (section 2.6 of RFC 5054). */
    function Scrambled(a: seq<int>): seq<int>
      requires modulus > 0 && pubkey >= 0 && Digits(a, 256)
      reads `modulus, `pubkey
    {
      var len := |ToBytes(modulus)|;
      if leftPad then Pad(a, len) + Pad(ToBytes(pubkey), len) else a + ToBytes(pubkey)
    }

    lemma ScrambledIs(a: seq<int>)
      requires modulus > 0 && pubkey >= 0 && Digits(a, 256) && |a| <= |ToBytes(modulus)|
      ensures HashInput(Scrambled(a), leftPad, a, pubkey, |ToBytes(modulus)|)
    {
      JoinedIs(leftPad, a, pubkey, |ToBytes(modulus)|);
    }

    /** The input of the hash for u, in the order the source builds it. */
    method Scramble(a: seq<int>) returns (m: seq<int>)
      requires Valid() && pubkey < modulus && Digits(a, 256) && |a| <= |ToBytes(modulus)|
      ensures m == Scrambled(a)
    {
      var modlen := |ToBytes(modulus)|;
      var s := ToBytes(pubkey);
      MinimalLength(s, ToBytes(modulus));
      if leftPad {
        if |a| < modlen {
          m := Pad(a, modlen);
          s := Pad(s, modlen);
        } else {
          m := a;
          if |s| < modlen {
            s := Pad(s, modlen);
          }
        }
      } else {
        m := a;
      }
      m := m + s;
    }

    /** The first half of srp6_server_key: A enters the running hashes, and u = H(A | B). */
    method Begin(a: seq<int>)
      requires Valid() && pubkey < modulus && Digits(a, 256) && |a| <= |ToBytes(modulus)|
      modifies `ckhash, `hash, `oldhash, `u
      ensures Valid() && HashLike(h, size, Scrambled(a)) && u == Value(h(Scrambled(a)), 256) >= 0
      ensures hash == old(hash) + a && oldhash == old(oldhash) + a && ckhash == old(ckhash) + a + ToBytes(pubkey)
    {
      hide Scrambled, ToBytes;
      ckhash := ckhash + a + ToBytes(pubkey);
      hash := hash + a;
      oldhash := oldhash + a;
      var m := Scramble(a);
      assert HashLike(h, size, m);
      ValueBound(h(m), 256);
      u := Value(h(m), 256);
    }

    /** The second half, once A*v^u is accepted: the key and the running hashes. */
    method Derive(t: int)
      requires Valid()
      modifies `key, `sessionKey, `ckhash, `oldhash, `oldckhash
      ensures Valid() && key == ModExp(t, secret, modulus) && sessionKey == h(ToBytes(key))
      ensures ckhash == old(ckhash) + sessionKey + exData
      ensures oldhash == old(oldhash) + sessionKey && oldckhash == old(oldckhash) + sessionKey
    {
      hide ToBytes;
      key := ModExp(t, secret, modulus);
      sessionKey := h(ToBytes(key));
      ckhash := ckhash + sessionKey;
      if |exData| > 0 {
        ckhash := ckhash + exData;
      }
      oldhash := oldhash + sessionKey;
      oldckhash := oldckhash + sessionKey;
    }

    /** srp6_server_key.  With A at most as long as the modulus, the run is rejected exactly when
        A*v^u is 0, 1 or -1 modulo N. */
    method Key(a: seq<int>) returns (r: Result<seq<int>>)
      requires Valid() && pubkey < modulus && Digits(a, 256)
      modifies `ckhash, `hash, `oldhash, `oldckhash, `u, `key, `sessionKey
      ensures Valid()
      ensures |a| > |ToBytes(modulus)| ==> r.Error?
      ensures |a| <= |ToBytes(modulus)| ==> HashLike(h, size, Scrambled(a)) && u == Value(h(Scrambled(a)), 256) >= 0
      ensures |a| <= |ToBytes(modulus)| ==> var t := Blinded(modulus, Value(a, 256), verifier, u);
        r.Error? <==> t == 0 || t == 1 || t == modulus - 1
      ensures r.Success? ==> key == ServerKey(modulus, Value(a, 256), verifier, u, secret) >= 0
      ensures r.Success? ==> r.value == sessionKey == h(ToBytes(key))
      ensures r.Success? ==> hash == old(hash) + a && oldhash == old(oldhash) + a + sessionKey
      ensures r.Success? ==> ckhash == old(ckhash) + a + ToBytes(pubkey) + sessionKey + exData
      ensures r.Success? ==> oldckhash == old(oldckhash) + sessionKey
    {
      hide Scrambled, ToBytes, ModExp, Value, Digits, Hash;
      var modlen := |ToBytes(modulus)|;
      if |a| > modlen {
        return Error;
      }
      Begin(a);
      var t1 := ModExp(verifier, u, modulus);
      var t3 := Value(a, 256) * t1 % modulus;
      CongMod(Value(a, 256) * t1, modulus);
      if t3 <= 1 {
        return Error;
      }
      if t3 + 1 == modulus {
        return Error;
      }
      Derive(t3);
      r := Success(sessionKey);
    }

    /** srp6_server_verify: the client's proof under either hash; each has its own reply.  It can be called
        once: the running hashes it has finalised are not fit for another use. */
    method Verify(proof: seq<int>) returns (ok: bool)
      requires Valid()
      modifies this`response, this`hash, this`verified
      ensures verified
      ensures ok <==> proof == h(oldckhash) || proof == h(ckhash)
      ensures proof == h(oldckhash) ==> response == h(oldhash)
      ensures proof == h(ckhash) && proof != h(oldckhash) ==> response == h(old(hash) + proof + sessionKey)
      ensures !ok ==> response == old(response)
    {
      assert HashLike(h, size, oldckhash) && HashLike(h, size, ckhash);
      verified := true;
      var expected := h(oldckhash);
      if |proof| == size && proof == expected {
        response := h(oldhash);
        return true;
      }
      expected := h(ckhash);
      if |proof| == size && proof == expected {
        hash := hash + expected + sessionKey;
        response := h(hash);
        return true;
      }
      ok := false;
    }
  }

  /** What a run comes to.  The client knows the password, its own exponent a and the public values: it sends
      A = g^a and takes the key of section 2.6 of RFC 5054 with x from the password, u from A and B, and k from
      N and g.  The run is accepted exactly when k is not 0 and A*v^u is not 0, 1 or -1, and then the server
      has the client's key. */
  ghost predicate Agreed(server: Server, password: seq<int>, b: nat, a: nat, accepted: bool, A: seq<int>, clientKey: int,
                         kInput: seq<int>, uInput: seq<int>)
    reads server
  {
    && server.modulus > 0 && server.generator >= 0 && server.pubkey >= 0
    && var n, g, x, u := server.modulus, server.generator, server.password, server.u;
    && A == ToBytes(ModExp(g, a, n))
    && x == Value(server.h(server.salt + server.h(server.username + [0x3a] + password)), 256) && x >= 0
    && HashInput(kInput, server.leftPad, ToBytes(n), g, |ToBytes(n)|)
    && var k := Value(server.h(kInput), 256);
    && (k != 0 ==>
      && server.verifier == Verifier(n, g, x) && server.pubkey == ServerPublic(n, g, k, server.verifier, b)
      && HashInput(uInput, server.leftPad, A, server.pubkey, |ToBytes(n)|) && u == Value(server.h(uInput), 256) && u >= 0)
    && (accepted <==> k != 0 && var t := Blinded(n, Value(A, 256), server.verifier, u); t != 0 && t != 1 && t != n - 1)
    && (accepted ==> server.key == clientKey == ClientKey(n, g, k, server.pubkey, x, a, u) && clientKey >= 0)
    && (accepted ==> server.sessionKey == server.h(ToBytes(clientKey)))
  }

  /** A run against an honest client that knows the password, and what its running hashes have seen. */
  method Agreement(server: Server, password: seq<int>, random: seq<int>, a: nat)
      returns (accepted: bool, A: seq<int>, clientKey: int, kInput: seq<int>, uInput: seq<int>)
    requires server.Valid() && Digits(random, 256)
    modifies server
    ensures server.Valid()
    ensures Value(random, 256) >= 0 && Agreed(server, password, Value(random, 256), a, accepted, A, clientKey, kInput, uInput)
    ensures server.modulus == old(server.modulus) && server.generator == old(server.generator)
    ensures server.username == old(server.username) && server.salt == old(server.salt) && server.exData == old(server.exData)
    ensures accepted ==> server.ckhash == old(server.ckhash) + A + ToBytes(server.pubkey) + server.sessionKey + server.exData
    ensures accepted ==> server.hash == old(server.hash) + A && server.oldhash == old(server.oldhash) + A + server.sessionKey
    ensures accepted ==> server.oldckhash == old(server.oldckhash) + ToBytes(server.pubkey) + server.sessionKey
  {
    hide ToBytes, Server.Scrambled, Server.MultiplierInput, ModExp, Value, Hash, HashInput;
    ValueBound(random, 256);
    clientKey := 0;
    kInput, uInput := server.MultiplierInput(), [];
    server.MultiplierInputIs();
    A := ToBytes(ModExp(server.generator, a, server.modulus));
    server.Passwd(password);
    var b := server.GenPub(random);
    if b.Error? {
      return false, A, 0, kInput, [];
    }
    var n, g, k := server.modulus, server.generator, Value(server.Multiplier(), 256);
    MinimalLength(A, ToBytes(n));
    uInput := server.Scrambled(A);
    server.ScrambledIs(A);
    var r := server.Key(A);
    if r.Error? {
      return false, A, 0, kInput, uInput;
    }
    var x := Value(server.h(server.salt + server.h(server.username + [0x3a] + password)), 256);
    var u := Value(server.h(uInput), 256);
    KeysAgree(n, g, x, a, server.secret, u, k);
    clientKey := ClientKey(n, g, k, server.pubkey, x, a, u);
    accepted := true;
  }

  /** The client's proof over its key, and the server's answer. */
  method Prove(server: Server, start: seq<int>, A: seq<int>, clientKey: nat) returns (ok: bool, M: seq<int>, K: seq<int>)
    requires server.Valid() && server.sessionKey == server.h(ToBytes(clientKey))
    requires server.ckhash == start + A + ToBytes(server.pubkey) + server.sessionKey
    requires server.oldckhash == ToBytes(server.pubkey) + server.sessionKey
    requires server.hash == A && server.oldhash == A + server.sessionKey
    modifies server`response, server`hash, server`verified
    ensures ok && K == server.h(ToBytes(clientKey)) && M == server.h(start + A + ToBytes(server.pubkey) + K)
    ensures server.response == server.h(A + M + K)
      || (server.response == server.h(A + K) && M == server.h(ToBytes(server.pubkey) + K))
  {
    hide ToBytes;
    K := server.h(ToBytes(clientKey));
    M := server.h(start + A + ToBytes(server.pubkey) + K);
    ok := server.Verify(M);
  }

  /** The proofs that follow: the client's M = H(H(N) xor H(g) | H(user) | salt | A | B | K), made from its
      own key, is accepted, and the answer is H(A | M | K), unless M happens to be a proof of the older
      protocol too. */
  method Confirmation(h: seq<int> -> seq<int>, size: nat, username: seq<int>, salt: seq<int>, modulus: seq<int>,
                      generator: seq<int>, password: seq<int>, random: seq<int>, a: nat)
      returns (server: Server, accepted: bool, ok: bool, A: seq<int>, M: seq<int>, K: seq<int>, clientKey: int,
               kInput: seq<int>, uInput: seq<int>)
    requires Hash(h, size) && Digits(modulus, 256) && Digits(generator, 256) && Value(modulus, 256) > 0 && Digits(random, 256)
    ensures HashLike(h, size, modulus) && HashLike(h, size, generator) && server.pubkey >= 0
    ensures server.h == h && server.leftPad && server.username == username && server.salt == salt
    ensures server.modulus == Value(modulus, 256) && server.generator == Value(generator, 256)
    ensures Value(random, 256) >= 0 && Agreed(server, password, Value(random, 256), a, accepted, A, clientKey, kInput, uInput)
    ensures accepted ==> clientKey >= 0 && K == h(ToBytes(clientKey))
    ensures accepted ==> M == h(XorBytes(h(modulus), h(generator)) + h(username) + salt + A + ToBytes(server.pubkey) + K)
    ensures accepted ==> ok
    ensures accepted ==> server.response == h(A + M + K) || (server.response == h(A + K) && M == h(ToBytes(server.pubkey) + K))
  {
    hide ToBytes, Value, Hash, Server.Valid, Server.Scrambled, Server.Multiplier, Digits;
    hide Blinded, ServerPublic, Verifier, ClientKey, ModExp, XorBytes, HashInput;
    server := new Server(h, size, true, username, [], modulus, generator, salt);
    var start := XorBytes(h(modulus), h(generator)) + h(username) + salt;
    accepted, A, clientKey, kInput, uInput := Agreement(server, password, random, a);
    ok, M, K := false, [], [];
    if accepted {
      assert start + A + ToBytes(server.pubkey) + server.sessionKey + [] == start + A + ToBytes(server.pubkey) + server.sessionKey;
      assert [] + A == A && [] + ToBytes(server.pubkey) == ToBytes(server.pubkey);
      ok, M, K := Prove(server, start, A, clientKey);
    }
  }
}
