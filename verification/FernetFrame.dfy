/** The Fernet frame byte by byte, as other libraries read and write it: the version byte,
    the big-endian time, the vector, the chained blocks, and the MAC under the first half
    of the key (internal/erpdb/credentials.go:118-198). */
module FernetFrame {
  import opened Text
  import opened Fernet

  // ----- bits -----

  /** The bit of weight 2^i. */
  function Bit(n: nat, i: nat): nat {
    if i == 0 then n % 2 else Bit(n / 2, i - 1)
  }

  lemma {:induction false} XorBitsAt(a: nat, b: nat, k: nat, i: nat)
    requires i < k
    ensures Bit(XorBits(a, b, k), i) == 1 <==> Bit(a, i) != Bit(b, i)
  {
    var bit, rest := (a % 2 + b % 2) % 2, XorBits(a / 2, b / 2, k - 1);
    BitAndRest(bit, rest);
    if i > 0 { XorBitsAt(a / 2, b / 2, k - 1, i - 1); }
  }

  /** Exclusive or of two bytes: a bit of the result is one exactly when the two differ. */
  lemma XorByteAt(a: Byte, b: Byte, i: nat)
    requires i < 8
    ensures Bit(XorByte(a, b), i) == 1 <==> Bit(a, i) != Bit(b, i)
  {
    XorBitsAt(a, b, 8, i);
  }

  lemma {:induction false} SameBits(a: nat, b: nat, k: nat)
    requires a < Power(k) && b < Power(k) && forall i :: 0 <= i < k ==> Bit(a, i) == Bit(b, i)
    ensures a == b
  {
    if k > 0 {
      assert Bit(a, 0) == Bit(b, 0);
      forall i | 0 <= i < k - 1 ensures Bit(a / 2, i) == Bit(b / 2, i) {
        assert Bit(a, i + 1) == Bit(b, i + 1);
      }
      SameBits(a / 2, b / 2, k - 1);
    }
  }

  lemma {:induction false} BitIsBit(n: nat, i: nat)
    ensures Bit(n, i) < 2
  {
    if i > 0 { BitIsBit(n / 2, i - 1); }
  }

  /** x is the exclusive or of a and b, byte by byte and bit by bit. */
  ghost predicate IsXor(x: Bytes, a: Bytes, b: Bytes) {
    && |x| == |a| == |b|
    && forall j, i :: 0 <= j < |x| && 0 <= i < 8 ==> (Bit(x[j], i) == 1 <==> Bit(a[j], i) != Bit(b[j], i))
  }

  lemma XorIff(x: Bytes, a: Bytes, b: Bytes)
    requires |a| == |b|
    ensures IsXor(x, a, b) <==> x == Xor(a, b)
  {
    hide Bit, XorByte;
    forall j, i | 0 <= j < |a| && 0 <= i < 8 ensures Bit(Xor(a, b)[j], i) == 1 <==> Bit(a[j], i) != Bit(b[j], i) {
      XorByteAt(a[j], b[j], i);
    }
    if IsXor(x, a, b) {
      assert Power(8) == 256 by { assert Power(4) == 16; }
      forall j | 0 <= j < |x| ensures x[j] == Xor(a, b)[j] {
        forall i | 0 <= i < 8 ensures Bit(x[j], i) == Bit(Xor(a, b)[j], i) {
          BitIsBit(x[j], i);
          BitIsBit(Xor(a, b)[j], i);
        }
        SameBits(x[j], Xor(a, b)[j], 8);
      }
    }
  }

  // ----- padding and chaining -----

  /** A text and n bytes of value n, in whole blocks of sixteen. */
  predicate IsPadded(p: Bytes, text: Bytes, n: nat) {
    && 1 <= n <= 16 && |p| == |text| + n && |p| % 16 == 0
    && p[..|text|] == text
    && forall i :: |text| <= i < |p| ==> p[i] == n
  }

  lemma PadSize(length: nat, n: nat)
    requires 1 <= n <= 16 && (length + n) % 16 == 0
    ensures n == PaddingFor(length, 16)
  {
  }

  lemma PadIsPadded(text: Bytes)
    ensures IsPadded(Pad(text, 16), text, PaddingFor(|text|, 16))
  {
    PaddedLength(|text|, 16);
  }

  lemma PaddedIff(p: Bytes, text: Bytes)
    ensures p == Pad(text, 16) <==> exists n: nat :: IsPadded(p, text, n)
  {
    hide PaddingFor;
    PadIsPadded(text);
    if n: nat :| IsPadded(p, text, n) {
      PadSize(|text|, n);
      assert p == p[..|text|] + Repeat(n, n);
    }
  }

  /** The sixteen bytes of a block. */
  function Block(data: Bytes, i: nat): Bytes
    requires 16 * i + 16 <= |data|
  {
    data[16 * i..16 * i + 16]
  }

  /** What a block is mixed with: the cipher block before it, the vector for the first. */
  function Previous(iv: Bytes, cipher: Bytes, i: nat): Bytes
    requires 16 * i <= |cipher|
  {
    if i == 0 then iv else Block(cipher, i - 1)
  }

  /** Block i of the cipher is the encryption of block i of the text, each bit flipped where
      the previous cipher block has a one. */
  ghost predicate ChainedAt(lib: Library, key: Bytes, iv: Bytes, plain: Bytes, cipher: Bytes, i: nat)
    requires |plain| == |cipher| && 16 * i + 16 <= |cipher|
  {
    exists x :: IsXor(x, Block(plain, i), Previous(iv, cipher, i)) && Block(cipher, i) == lib.encrypt(key, x)
  }

  ghost predicate IsChained(lib: Library, key: Bytes, iv: Bytes, plain: Bytes, cipher: Bytes) {
    |plain| == |cipher| && forall i: nat :: 16 * i + 16 <= |cipher| ==> ChainedAt(lib, key, iv, plain, cipher, i)
  }

  lemma {:induction false} EncryptedIsChained(lib: Library, key: Bytes, iv: Bytes, plain: Bytes)
    requires Lawful(lib) && |key| == 16 && |iv| == 16 && WholeBlocks(plain)
    ensures |EncryptBlocks(lib, key, iv, plain)| == |plain|
    ensures IsChained(lib, key, iv, plain, EncryptBlocks(lib, key, iv, plain))
    decreases |plain|
  {
    hide Xor, Lawful, IsXor;
    DecryptEncrypted(lib, key, iv, plain);
    if |plain| >= 16 {
      var x := Xor(plain[..16], iv);
      BlockLaws(lib, key, x);
      var c, rest := lib.encrypt(key, x), plain[16..];
      EncryptedIsChained(lib, key, c, rest);
      var tail := EncryptBlocks(lib, key, c, rest);
      var cipher := c + tail;
      assert cipher == EncryptBlocks(lib, key, iv, plain);
      forall i: nat | 16 * i + 16 <= |cipher| ensures ChainedAt(lib, key, iv, plain, cipher, i) {
        if i == 0 {
          XorIff(x, plain[..16], iv);
          assert Block(cipher, 0) == c && Block(plain, 0) == plain[..16];
        } else {
          assert ChainedAt(lib, key, c, rest, tail, i - 1);
          NextBlock(plain, i);
          NextBlock(cipher, i);
          assert Previous(iv, cipher, i) == Previous(c, tail, i - 1) by {
            if i > 1 { NextBlock(cipher, i - 1); }
          }
        }
      }
    }
  }

  lemma NextBlock(data: Bytes, i: nat)
    requires i > 0 && 16 * i + 16 <= |data|
    ensures Block(data, i) == Block(data[16..], i - 1)
  {
    var a, b := Block(data, i), Block(data[16..], i - 1);
    var tail := data[16..];
    forall j | 0 <= j < 16 ensures a[j] == b[j] {
      assert b[j] == tail[16 * (i - 1) + j] && tail[16 * (i - 1) + j] == data[16 * i + j];
    }
  }

  lemma {:induction false} ChainedIsEncrypted(lib: Library, key: Bytes, iv: Bytes, plain: Bytes, cipher: Bytes)
    requires |key| == 16 && |iv| == 16 && WholeBlocks(plain) && IsChained(lib, key, iv, plain, cipher)
    ensures cipher == EncryptBlocks(lib, key, iv, plain)
    decreases |plain|
  {
    hide Xor, IsXor;
    if |plain| >= 16 {
      assert ChainedAt(lib, key, iv, plain, cipher, 0);
      var x :| IsXor(x, Block(plain, 0), iv) && Block(cipher, 0) == lib.encrypt(key, x);
      XorIff(x, Block(plain, 0), iv);
      var c, rest, tail := cipher[..16], plain[16..], cipher[16..];
      assert Block(cipher, 0) == c && Block(plain, 0) == plain[..16];
      forall i: nat | 16 * i + 16 <= |tail| ensures ChainedAt(lib, key, c, rest, tail, i) {
        assert ChainedAt(lib, key, iv, plain, cipher, i + 1);
        NextBlock(plain, i + 1);
        NextBlock(cipher, i + 1);
        if i > 0 { NextBlock(cipher, i); }
        assert Previous(iv, cipher, i + 1) == Previous(c, tail, i);
      }
      ChainedIsEncrypted(lib, key, c, rest, tail);
      assert cipher == c + tail;
    }
  }

  // ----- the frame -----

  /** Version, stamp, vector and cipher, and their MAC under the first half of the key; the
      cipher is the padded text chained under the second half. */
  ghost predicate IsToken(lib: Library, key: Bytes, raw: Bytes, text: Bytes, stamp: Bytes, iv: Bytes, cipher: Bytes)
    requires |key| == 32
  {
    && |stamp| == 8 && |iv| == 16
    && (exists p, n: nat :: IsPadded(p, text, n) && IsChained(lib, key[16..32], iv, p, cipher))
    && raw == [0x80] + stamp + iv + cipher + lib.mac(key[0..16], [0x80] + stamp + iv + cipher)
  }

  lemma CipherIff(lib: Library, key: Bytes, iv: Bytes, text: Bytes, cipher: Bytes)
    requires Lawful(lib) && |key| == 16 && |iv| == 16
    ensures (exists p, n: nat :: IsPadded(p, text, n) && IsChained(lib, key, iv, p, cipher))
      <==> cipher == EncryptBlocks(lib, key, iv, Pad(text, 16))
  {
    hide IsPadded, IsChained, Lawful, Pad, EncryptBlocks;
    var p := Pad(text, 16);
    PaddedIsWhole(text);
    PaddedIff(p, text);
    EncryptedIsChained(lib, key, iv, p);
    if q, n: nat :| IsPadded(q, text, n) && IsChained(lib, key, iv, q, cipher) {
      PaddedIff(q, text);
      ChainedIsEncrypted(lib, key, iv, q, cipher);
    }
  }

  lemma Halves(key: Bytes)
    requires |key| == 32
    ensures key[0..16] == key[..16] && key[16..32] == key[16..]
  {
  }

  /** A raw token opens to a text exactly when it is a token of that text, for some stamp,
      some vector and some cipher. */
  lemma {:induction false} OpensIffToken(lib: Library, key: Bytes, raw: Bytes, text: Bytes)
    requires Lawful(lib) && |key| == 32
    ensures Open(lib, key, raw) == Ok(text) <==> exists stamp, iv, cipher :: IsToken(lib, key, raw, text, stamp, iv, cipher)
  {
    hide Open, Lawful, EncryptBlocks, Pad, BigEndian, ValueOf, IsPadded, IsChained;
    Halves(key);
    OpensIffSealed(lib, key, raw, text);
    if Open(lib, key, raw) == Ok(text) {
      var time: nat, iv: Bytes :| |iv| == 16 && raw == Seal(lib, key, time, iv, text);
      SealIsToken(lib, key, time, iv, text);
    }
    if stamp, iv, cipher :| IsToken(lib, key, raw, text, stamp, iv, cipher) {
      CipherIff(lib, key[16..], iv, text, cipher);
      EveryStampIsANumber(stamp);
      assert raw == Seal(lib, key, ValueOf(stamp), iv, text);
    }
  }

  /** What is sealed is a token whose stamp is the big-endian time. */
  lemma SealIsToken(lib: Library, key: Bytes, time: nat, iv: Bytes, text: Bytes)
    requires Lawful(lib) && |key| == 32 && |iv| == 16
    ensures IsToken(lib, key, Seal(lib, key, time, iv, text), text, BigEndian(time, 8), iv, EncryptBlocks(lib, key[16..], iv, Pad(text, 16)))
  {
    hide Lawful, EncryptBlocks, Pad, BigEndian, IsPadded, IsChained;
    Halves(key);
    CipherIff(lib, key[16..], iv, text, EncryptBlocks(lib, key[16..], iv, Pad(text, 16)));
  }

  function Power256(k: nat): (p: nat)
    ensures p > 0
  {
    if k == 0 then 1 else 256 * Power256(k - 1)
  }

  lemma QuotientOf(q: int, r: nat, m: nat)
    requires r < m
    ensures (q * m + r) / m == q
  {
    var x := q * m + r;
    ModOf(q, r, m);
    var k := x / m;
    assert x == k * m + x % m;
    assert (k - q) * m == 0;
    Multiples(k - q, m);
  }

  lemma DivTwice(n: nat, b: nat)
    requires b > 0
    ensures n / 256 / b == n / (256 * b)
  {
    var m, low := n / 256, n % 256;
    var q, s := m / b, m % b;
    assert m == q * b + s;
    assert q * (256 * b) == 256 * (q * b);
    QuotientOf(q, 256 * s + low, 256 * b);
  }

  /** Byte i of the stamp has weight 256^(7 - i). */
  lemma {:induction false} BigEndianAt(n: nat, k: nat, i: nat)
    requires i < k
    ensures BigEndian(n, k)[i] == (n / Power256(k - 1 - i)) % 256
  {
    if i < k - 1 {
      BigEndianAt(n / 256, k - 1, i);
      DivTwice(n, Power256(k - 2 - i));
    }
  }

  /** What encrypting writes at a clock reading, as bytes before base64: a token of the text,
      whose stamp is the time modulo 2^64, the most significant byte first. */
  lemma {:induction false} EncryptedIsToken(lib: Library, key: Bytes, now: int, iv: Bytes, text: Bytes)
    requires Lawful(lib) && |key| == 32 && |iv| == 16
    ensures var raw := Seal(lib, key, Unsigned(now), iv, text);
      exists stamp, cipher :: IsToken(lib, key, raw, text, stamp, iv, cipher)
        && forall i :: 0 <= i < 8 ==> stamp[i] == ((now % 0x1_0000_0000_0000_0000) / Power256(7 - i)) % 256
  {
    hide Lawful, EncryptBlocks, Pad, BigEndian, IsToken, Seal, Power256;
    SealIsToken(lib, key, Unsigned(now), iv, text);
    forall i | 0 <= i < 8 ensures BigEndian(Unsigned(now), 8)[i] == ((now % 0x1_0000_0000_0000_0000) / Power256(7 - i)) % 256 {
      BigEndianAt(Unsigned(now), 8, i);
    }
  }

  // ----- the errors -----

  /** Which error a raw token gives: the first that applies. */
  lemma {:induction false} OpenFails(lib: Library, key: Bytes, raw: Bytes)
    requires |key| == 32
    ensures Open(lib, key, raw) == Err(BadToken) <==> |raw| < 57 || raw[0] != 0x80
    ensures |raw| >= 57 && raw[0] == 0x80 ==>
      var signed, tag := raw[0..|raw| - 32], raw[|raw| - 32..|raw|];
      && (Open(lib, key, raw) == Err(BadSignature) <==> tag != lib.mac(key[0..16], signed))
      && (tag == lib.mac(key[0..16], signed) ==>
            && (Open(lib, key, raw) == Err(BadCiphertextSize) <==> (|raw| - 57) % 16 != 0)
            && ((|raw| - 57) % 16 == 0 ==> Open(lib, key, raw).Ok? || Open(lib, key, raw) == Err(BadPadding)))
  {
    hide DecryptBlocks, Unpad;
    Halves(key);
    if |raw| >= 57 { assert raw[0..|raw| - 32] == raw[..|raw| - 32] && raw[|raw| - 32..|raw|] == raw[|raw| - 32..]; }
  }

  /** The key is the trimmed text in base64, of 32 bytes. */
  lemma KeyIff(lib: Library, text: string, key: Bytes)
    ensures DecodeKey(lib, text) == Ok(key) <==> TrimSpace(text) != "" && lib.fromBase64(TrimSpace(text)) == Some(key) && |key| == 32
    ensures DecodeKey(lib, text) == Err(MissingKey) <==> TrimSpace(text) == ""
  {
    hide TrimSpace;
  }

  // ----- the laws -----

  function AsRunes(data: Bytes): string { seq(|data|, i requires 0 <= i < |data| => data[i] as char) }

  function AsBytes(s: string): Option<Bytes> {
    if forall i :: 0 <= i < |s| ==> s[i] < 256 as char then Some(seq(|s|, i requires 0 <= i < |s| => s[i] as int)) else None
  }

  /** A library that meets the laws: no encryption, and a MAC that is always zero. */
  function Simple(): Library {
    Library((key, b) => b, (key, b) => b, (key, data) => Repeat(0, 32), AsRunes, AsBytes)
  }

  lemma LawsCanHold()
    ensures Lawful(Simple())
  {
    forall data: Bytes ensures AsBytes(AsRunes(data)) == Some(data) {
      assert forall i :: 0 <= i < |data| ==> AsRunes(data)[i] as int == data[i];
      assert AsBytes(AsRunes(data)).value == data;
    }
  }
}
