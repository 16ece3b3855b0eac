/** Fernet tokens with PKCS#7 padding (internal/erpdb/credentials.go:118-240; padding
    is RFC 5652, section 6.3). The block cipher, the MAC and base64 are parameters
    with their laws; cipher block chaining is written out. */
module Fernet {
  import opened Text

  type Byte = n: nat | n < 256
  type Bytes = seq<Byte>

  datatype Error = MissingKey | BadKeyText | BadKeyLength | BadTokenText | BadToken | BadSignature | BadCiphertextSize | BadPadding

  const BLOCK: nat := 16
  const MAC_SIZE: nat := 32
  const TIME_SIZE: nat := 8
  const VERSION: Byte := 0x80
  const KEY_SIZE: nat := 32

  /** AES on one block, HMAC-SHA256 and URL-safe base64, as the libraries provide them. */
  datatype Library = Library(
    encrypt: (Bytes, Bytes) -> Bytes,
    decrypt: (Bytes, Bytes) -> Bytes,
    mac: (Bytes, Bytes) -> Bytes,
    toBase64: Bytes -> string,
    fromBase64: string -> Option<Bytes>)

  /** A permutation of the blocks for every key, and a MAC of fixed size. */
  ghost predicate Lawful(lib: Library) {
    && (forall key, b :: |key| == BLOCK && |b| == BLOCK ==>
          && |lib.encrypt(key, b)| == BLOCK && |lib.decrypt(key, b)| == BLOCK
          && lib.decrypt(key, lib.encrypt(key, b)) == b && lib.encrypt(key, lib.decrypt(key, b)) == b)
    && (forall key, data :: |lib.mac(key, data)| == MAC_SIZE)
    && (forall data :: lib.fromBase64(lib.toBase64(data)) == Some(data))
  }

  lemma BlockLaws(lib: Library, key: Bytes, b: Bytes)
    requires Lawful(lib) && |key| == BLOCK && |b| == BLOCK
    ensures |lib.encrypt(key, b)| == BLOCK && |lib.decrypt(key, b)| == BLOCK
    ensures lib.decrypt(key, lib.encrypt(key, b)) == b && lib.encrypt(key, lib.decrypt(key, b)) == b
  {
  }

  // ----- padding -----

  /** byte(n): the low eight bits. */
  function ByteOf(n: nat): Byte {
    n % 256
  }

  function Repeat(b: Byte, n: nat): (r: Bytes)
    ensures |r| == n && forall i :: 0 <= i < n ==> r[i] == b
  {
    seq(n, _ => b)
  }

  function PaddingFor(length: nat, blockSize: nat): (n: nat)
    requires blockSize > 0
    ensures 1 <= n <= blockSize
  {
    blockSize - length % blockSize
  }

  function Pad(src: Bytes, blockSize: int): Bytes {
    if blockSize <= 0 then src
    else
      var n := PaddingFor(|src|, blockSize);
      src + Repeat(ByteOf(n), n)
  }

  function Unpad(src: Bytes, blockSize: int): Option<Bytes> {
    if blockSize <= 0 || |src| == 0 || |src| % blockSize != 0 then None
    else
      var n := src[|src| - 1];
      if n == 0 || n > blockSize || n > |src| then None
      else if forall i :: |src| - n <= i < |src| ==> src[i] == n then Some(src[..|src| - n])
      else None
  }

  method Pkcs7Pad(src: Bytes, blockSize: int) returns (padded: Bytes)
    ensures padded == Pad(src, blockSize)
  {
    if blockSize <= 0 {
      return src;
    }
    var padding := blockSize - |src| % blockSize;
    if padding == 0 {
      padding := blockSize;
    }
    padded := src + Repeat(ByteOf(padding), padding);
  }

  method Pkcs7Unpad(src: Bytes, blockSize: int) returns (unpadded: Option<Bytes>)
    ensures unpadded == Unpad(src, blockSize)
  {
    if blockSize <= 0 || |src| == 0 || |src| % blockSize != 0 {
      return None;
    }
    var padding := src[|src| - 1];
    if padding == 0 || padding > blockSize || padding > |src| {
      return None;
    }
    var i := |src| - padding;
    while i < |src|
      invariant |src| - padding <= i <= |src|
      invariant forall j :: |src| - padding <= j < i ==> src[j] == padding
    {
      if src[i] != padding {
        return None;
      }
      i := i + 1;
    }
    unpadded := Some(src[..|src| - padding]);
  }

  /** The length of what is left after removing n bytes of padding from whole blocks. */
  lemma {:induction false} RemovedPadding(length: nat, n: nat, blockSize: nat)
    requires blockSize > 0 && 1 <= n <= blockSize && n <= length && length % blockSize == 0
    ensures PaddingFor(length - n, blockSize) == n
  {
    var q := length / blockSize;
    assert length == q * blockSize;
    if n == blockSize {
      ModOf(q - 1, 0, blockSize);
      assert (q - 1) * blockSize == length - n;
    } else {
      ModOf(q - 1, blockSize - n, blockSize);
      assert (q - 1) * blockSize + (blockSize - n) == length - n;
    }
  }

  lemma Multiples(d: int, m: int)
    requires m >= 0
    ensures d >= 1 ==> d * m >= m
    ensures d <= -1 ==> d * m <= -m
  {
    if d >= 1 {
      assert d * m == m + (d - 1) * m;
    } else if d <= -1 {
      assert d * m == -m + (d + 1) * m;
    }
  }

  lemma {:induction false} ModOf(q: int, r: nat, m: nat)
    requires r < m
    ensures (q * m + r) % m == r
  {
    var x := q * m + r;
    var k, s := x / m, x % m;
    assert x == k * m + s;
    assert (q - k) * m == s - r;
    Multiples(q - k, m);
  }

  lemma {:induction false} PaddedLength(length: nat, blockSize: nat)
    requires blockSize > 0
    ensures (length + PaddingFor(length, blockSize)) % blockSize == 0
  {
    var q, r := length / blockSize, length % blockSize;
    assert length == q * blockSize + r;
    assert length + (blockSize - r) == (q + 1) * blockSize + 0;
    ModOf(q + 1, 0, blockSize);
  }

  /** Unpadding accepts exactly the padded texts whose padding length fits a byte, and
      each of them gives back its text. */
  lemma {:induction false} UnpadIffPadded(t: Bytes, s: Bytes, blockSize: int)
    ensures Unpad(t, blockSize) == Some(s)
      <==> blockSize > 0 && t == Pad(s, blockSize) && PaddingFor(|s|, blockSize) < 256
  {
    if blockSize > 0 {
      if Unpad(t, blockSize) == Some(s) { UnpadIsPadded(t, s, blockSize); }
      if t == Pad(s, blockSize) && PaddingFor(|s|, blockSize) < 256 { UnpadPad(s, blockSize); }
    }
  }

  lemma {:induction false} UnpadIsPadded(t: Bytes, s: Bytes, blockSize: nat)
    requires blockSize > 0 && Unpad(t, blockSize) == Some(s)
    ensures t == Pad(s, blockSize) && PaddingFor(|s|, blockSize) < 256
  {
    var n := t[|t| - 1];
    RemovedPadding(|t|, n, blockSize);
    assert t == s + t[|t| - n..];
    assert t[|t| - n..] == Repeat(ByteOf(n), n);
  }

  lemma {:induction false} UnpadPad(s: Bytes, blockSize: nat)
    requires blockSize > 0 && PaddingFor(|s|, blockSize) < 256
    ensures Unpad(Pad(s, blockSize), blockSize) == Some(s)
  {
    var n := PaddingFor(|s|, blockSize);
    var t := Pad(s, blockSize);
    PaddedLength(|s|, blockSize);
    assert forall i :: |s| <= i < |t| ==> t[i] == ByteOf(n);
    assert t[..|s|] == s;
  }

  // ----- cipher block chaining -----

  function Xor(a: Bytes, b: Bytes): (r: Bytes)
    requires |a| == |b|
    ensures |r| == |a|
  {
    seq(|a|, i requires 0 <= i < |a| => XorByte(a[i], b[i]))
  }

  /** Exclusive or of the low k bits. */
  function XorBits(a: nat, b: nat, k: nat): (r: nat)
    ensures r < Power(k)
  {
    if k == 0 then 0 else (a % 2 + b % 2) % 2 + 2 * XorBits(a / 2, b / 2, k - 1)
  }

  function Power(k: nat): (p: nat) {
    if k == 0 then 1 else 2 * Power(k - 1)
  }

  function XorByte(a: Byte, b: Byte): Byte {
    assert Power(8) == 256 by { assert Power(4) == 16; }
    XorBits(a, b, 8)
  }

  lemma BitAndRest(bit: nat, rest: nat)
    requires bit < 2
    ensures (bit + 2 * rest) % 2 == bit && (bit + 2 * rest) / 2 == rest
  {
  }

  lemma XorSplits(bit: nat, rest: nat, b: nat, k: nat)
    requires k > 0 && bit < 2
    ensures XorBits(bit + 2 * rest, b, k) == (bit + b % 2) % 2 + 2 * XorBits(rest, b / 2, k - 1)
  {
    BitAndRest(bit, rest);
  }

  lemma XorOfBit(a: nat, b: nat)
    requires a < 2 && b < 2
    ensures ((a + b) % 2 + b) % 2 == a
  {
  }

  lemma {:induction false} XorBitsUndone(a: nat, b: nat, k: nat)
    requires a < Power(k)
    ensures XorBits(XorBits(a, b, k), b, k) == a
  {
    if k > 0 {
      XorBitsUndone(a / 2, b / 2, k - 1);
      var bit, rest := (a % 2 + b % 2) % 2, XorBits(a / 2, b / 2, k - 1);
      BitAndRest(bit, rest);
      XorOfBit(a % 2, b % 2);
      XorSplits(bit, rest, b, k);
    }
  }

  lemma XorUndone(a: Bytes, b: Bytes)
    requires |a| == |b|
    ensures Xor(Xor(a, b), b) == a
  {
    assert Power(8) == 256 by { assert Power(4) == 16; }
    forall i | 0 <= i < |a| ensures Xor(Xor(a, b), b)[i] == a[i] {
      XorBitsUndone(a[i], b[i], 8);
    }
  }

  function EncryptBlocks(lib: Library, key: Bytes, previous: Bytes, plain: Bytes): Bytes
    requires |previous| == BLOCK
    decreases |plain|
  {
    if |plain| < BLOCK then []
    else
      var c := lib.encrypt(key, Xor(plain[..BLOCK], previous));
      if |c| != BLOCK then [] else c + EncryptBlocks(lib, key, c, plain[BLOCK..])
  }

  function DecryptBlocks(lib: Library, key: Bytes, previous: Bytes, cipher: Bytes): Bytes
    requires |previous| == BLOCK
    decreases |cipher|
  {
    if |cipher| < BLOCK then []
    else
      var p := lib.decrypt(key, cipher[..BLOCK]);
      if |p| != BLOCK then [] else Xor(p, previous) + DecryptBlocks(lib, key, cipher[..BLOCK], cipher[BLOCK..])
  }

  predicate WholeBlocks(data: Bytes) {
    |data| % BLOCK == 0
  }

  /** Chained decryption undoes chained encryption. */
  lemma {:induction false} DecryptEncrypted(lib: Library, key: Bytes, iv: Bytes, plain: Bytes)
    requires Lawful(lib) && |key| == BLOCK && |iv| == BLOCK && WholeBlocks(plain)
    ensures |EncryptBlocks(lib, key, iv, plain)| == |plain|
    ensures DecryptBlocks(lib, key, iv, EncryptBlocks(lib, key, iv, plain)) == plain
    decreases |plain|
  {
    hide Xor, Lawful;
    if |plain| >= BLOCK {
      var x := Xor(plain[..BLOCK], iv);
      BlockLaws(lib, key, x);
      var c := lib.encrypt(key, x);
      var rest := EncryptBlocks(lib, key, c, plain[BLOCK..]);
      DecryptEncrypted(lib, key, c, plain[BLOCK..]);
      assert (c + rest)[..BLOCK] == c && (c + rest)[BLOCK..] == rest;
      XorUndone(plain[..BLOCK], iv);
    }
  }

  /** And the other way round, so every ciphertext of whole blocks is an encryption. */
  lemma {:induction false} EncryptDecrypted(lib: Library, key: Bytes, iv: Bytes, cipher: Bytes)
    requires Lawful(lib) && |key| == BLOCK && |iv| == BLOCK && WholeBlocks(cipher)
    ensures |DecryptBlocks(lib, key, iv, cipher)| == |cipher|
    ensures EncryptBlocks(lib, key, iv, DecryptBlocks(lib, key, iv, cipher)) == cipher
    decreases |cipher|
  {
    hide Xor, Lawful;
    if |cipher| >= BLOCK {
      var c := cipher[..BLOCK];
      BlockLaws(lib, key, c);
      var p := lib.decrypt(key, c);
      var rest := DecryptBlocks(lib, key, c, cipher[BLOCK..]);
      EncryptDecrypted(lib, key, c, cipher[BLOCK..]);
      assert (Xor(p, iv) + rest)[..BLOCK] == Xor(p, iv) && (Xor(p, iv) + rest)[BLOCK..] == rest;
      XorUndone(p, iv);
    }
  }

  // ----- the time stamp -----

  /** The low 8 * k bits of a number, big end first. */
  function BigEndian(n: nat, k: nat): (r: Bytes)
    ensures |r| == k
  {
    if k == 0 then [] else BigEndian(n / 256, k - 1) + [ByteOf(n)]
  }

  function ValueOf(b: Bytes): nat {
    if |b| == 0 then 0 else ValueOf(b[..|b| - 1]) * 256 + b[|b| - 1]
  }

  lemma {:induction false} EveryStampIsANumber(b: Bytes)
    ensures BigEndian(ValueOf(b), |b|) == b
  {
    if |b| > 0 {
      EveryStampIsANumber(b[..|b| - 1]);
      var last := b[|b| - 1];
      assert ValueOf(b) / 256 == ValueOf(b[..|b| - 1]);
      assert ValueOf(b) % 256 == last;
    }
  }

  const UINT64: nat := 0x1_0000_0000_0000_0000

  /** uint64(t) of a signed second count. */
  function Unsigned(t: int): nat { t % UINT64 }

  // ----- tokens -----

  function Payload(time: nat, iv: Bytes, cipher: Bytes): Bytes {
    [VERSION] + BigEndian(time, TIME_SIZE) + iv + cipher
  }

  /** The raw token of a text, for a time stamp and an initialisation vector. */
  function Seal(lib: Library, key: Bytes, time: nat, iv: Bytes, text: Bytes): Bytes
    requires |key| == KEY_SIZE && |iv| == BLOCK
  {
    var payload := Payload(time, iv, EncryptBlocks(lib, key[16..], iv, Pad(text, BLOCK)));
    payload + lib.mac(key[..16], payload)
  }

  function Open(lib: Library, key: Bytes, raw: Bytes): Result<Bytes, Error>
    requires |key| == KEY_SIZE
  {
    if |raw| < 1 + TIME_SIZE + BLOCK + MAC_SIZE || raw[0] != VERSION then Err(BadToken)
    else
      var macOffset := |raw| - MAC_SIZE;
      if lib.mac(key[..16], raw[..macOffset]) != raw[macOffset..] then Err(BadSignature)
      else
        var iv := raw[1 + TIME_SIZE..1 + TIME_SIZE + BLOCK];
        var cipher := raw[1 + TIME_SIZE + BLOCK..macOffset];
        if |cipher| % BLOCK != 0 then Err(BadCiphertextSize)
        else
          match Unpad(DecryptBlocks(lib, key[16..], iv, cipher), BLOCK)
          case None => Err(BadPadding)
          case Some(text) => Ok(text)
  }

  function DecodeKey(lib: Library, encryptionKey: string): (r: Result<Bytes, Error>)
    ensures r.Ok? ==> |r.value| == KEY_SIZE
  {
    var key := TrimSpace(encryptionKey);
    if key == "" then Err(MissingKey)
    else
      match lib.fromBase64(key)
      case None => Err(BadKeyText)
      case Some(decoded) => if |decoded| != KEY_SIZE then Err(BadKeyLength) else Ok(decoded)
  }

  method EncryptFernet(lib: Library, text: Bytes, encryptionKey: string, now: int, iv: Bytes) returns (r: Result<string, Error>)
    requires |iv| == BLOCK
    ensures r == match DecodeKey(lib, encryptionKey)
      case Err(e) => Err(e)
      case Ok(key) => Ok(lib.toBase64(Seal(lib, key, Unsigned(now), iv, text)))
  {
    var decoded := DecodeKey(lib, encryptionKey);
    if decoded.Err? {
      return Err(decoded.error);
    }
    var key := decoded.value;
    var signingKey, encKey := key[..16], key[16..];
    var padded := Pkcs7Pad(text, BLOCK);
    var ciphertext := EncryptBlocks(lib, encKey, iv, padded);
    var payload: Bytes := [VERSION];
    payload := payload + BigEndian(Unsigned(now), TIME_SIZE);
    payload := payload + iv;
    payload := payload + ciphertext;
    payload := payload + lib.mac(signingKey, payload);
    r := Ok(lib.toBase64(payload));
  }

  method DecryptFernet(lib: Library, token: string, encryptionKey: string) returns (r: Result<Bytes, Error>)
    ensures r == match DecodeKey(lib, encryptionKey)
      case Err(e) => Err(e)
      case Ok(key) => (match lib.fromBase64(token) case None => Err(BadTokenText) case Some(raw) => Open(lib, key, raw))
  {
    var decoded := DecodeKey(lib, encryptionKey);
    if decoded.Err? {
      return Err(decoded.error);
    }
    var key := decoded.value;
    var signingKey, encKey := key[..16], key[16..];
    var text := lib.fromBase64(token);
    if text.None? {
      return Err(BadTokenText);
    }
    var raw := text.value;
    if |raw| < 1 + 8 + BLOCK + MAC_SIZE || raw[0] != 0x80 {
      return Err(BadToken);
    }
    var macOffset := |raw| - MAC_SIZE;
    var payload := raw[..macOffset];
    if lib.mac(signingKey, payload) != raw[macOffset..] {
      return Err(BadSignature);
    }
    var iv := raw[1 + 8..1 + 8 + BLOCK];
    var ciphertext := raw[1 + 8 + BLOCK..macOffset];
    if |ciphertext| % BLOCK != 0 {
      return Err(BadCiphertextSize);
    }
    var plaintext := DecryptBlocks(lib, encKey, iv, ciphertext);
    var unpadded := Pkcs7Unpad(plaintext, BLOCK);
    r := if unpadded.None? then Err(BadPadding) else Ok(unpadded.value);
  }

  // ----- both directions -----

  lemma PaddedIsWhole(text: Bytes)
    ensures WholeBlocks(Pad(text, BLOCK)) && PaddingFor(|text|, BLOCK) < 256
  {
    PaddedLength(|text|, BLOCK);
  }

  lemma PayloadParts(time: nat, iv: Bytes, cipher: Bytes, mac: Bytes)
    requires |iv| == BLOCK && |mac| == MAC_SIZE
    ensures var raw := Payload(time, iv, cipher) + mac;
      && |raw| == 1 + TIME_SIZE + BLOCK + |cipher| + MAC_SIZE && raw[0] == VERSION
      && raw[..|raw| - MAC_SIZE] == Payload(time, iv, cipher) && raw[|raw| - MAC_SIZE..] == mac
      && raw[1 + TIME_SIZE..1 + TIME_SIZE + BLOCK] == iv
      && raw[1 + TIME_SIZE + BLOCK..|raw| - MAC_SIZE] == cipher
  {
    hide BigEndian;
  }

  /** Opening a sealed text gives the text. */
  lemma {:induction false} OpenSealed(lib: Library, key: Bytes, time: nat, iv: Bytes, text: Bytes)
    requires Lawful(lib) && |key| == KEY_SIZE && |iv| == BLOCK
    ensures Open(lib, key, Seal(lib, key, time, iv, text)) == Ok(text)
  {
    hide Payload, EncryptBlocks, DecryptBlocks, Pad, Unpad, PaddingFor;
    PaddedIsWhole(text);
    DecryptEncrypted(lib, key[16..], iv, Pad(text, BLOCK));
    var cipher := EncryptBlocks(lib, key[16..], iv, Pad(text, BLOCK));
    PayloadParts(time, iv, cipher, lib.mac(key[..16], Payload(time, iv, cipher)));
    UnpadIffPadded(Pad(text, BLOCK), text, BLOCK);
  }

  /** A long enough token is its version, stamp, vector, cipher and MAC. */
  lemma FrameOf(raw: Bytes) returns (stamp: Bytes, iv: Bytes, cipher: Bytes)
    requires |raw| >= 1 + TIME_SIZE + BLOCK + MAC_SIZE
    ensures |stamp| == TIME_SIZE && |iv| == BLOCK
    ensures iv == raw[1 + TIME_SIZE..1 + TIME_SIZE + BLOCK] && cipher == raw[1 + TIME_SIZE + BLOCK..|raw| - MAC_SIZE]
    ensures raw[..|raw| - MAC_SIZE] == [raw[0]] + stamp + iv + cipher
    ensures raw == raw[..|raw| - MAC_SIZE] + raw[|raw| - MAC_SIZE..]
  {
    stamp, iv := raw[1..1 + TIME_SIZE], raw[1 + TIME_SIZE..1 + TIME_SIZE + BLOCK];
    cipher := raw[1 + TIME_SIZE + BLOCK..|raw| - MAC_SIZE];
  }

  /** Whatever opens is a sealed text, with the time stamp and vector it carries. */
  lemma {:induction false} OpenedIsSealed(lib: Library, key: Bytes, raw: Bytes, text: Bytes) returns (time: nat, iv: Bytes)
    requires Lawful(lib) && |key| == KEY_SIZE && Open(lib, key, raw) == Ok(text)
    ensures |iv| == BLOCK && raw == Seal(lib, key, time, iv, text)
  {
    hide EncryptBlocks, DecryptBlocks, Pad, Unpad, PaddingFor, BigEndian, ValueOf, Lawful;
    var stamp, vector, cipher := FrameOf(raw);
    iv := vector;
    time := ValueOf(stamp);
    EveryStampIsANumber(stamp);
    EncryptDecrypted(lib, key[16..], iv, cipher);
    UnpadIffPadded(DecryptBlocks(lib, key[16..], iv, cipher), text, BLOCK);
    assert Payload(time, iv, cipher) == raw[..|raw| - MAC_SIZE];
  }

  /** A raw token opens to a text exactly when it is that text sealed, for some time
      stamp and some initialisation vector. */
  lemma {:induction false} OpensIffSealed(lib: Library, key: Bytes, raw: Bytes, text: Bytes)
    requires Lawful(lib) && |key| == KEY_SIZE
    ensures Open(lib, key, raw) == Ok(text)
      <==> exists time: nat, iv: Bytes :: |iv| == BLOCK && raw == Seal(lib, key, time, iv, text)
  {
    hide Open, Seal, Lawful;
    if Open(lib, key, raw) == Ok(text) {
      var time, iv := OpenedIsSealed(lib, key, raw, text);
    }
    if exists time: nat, iv: Bytes :: |iv| == BLOCK && raw == Seal(lib, key, time, iv, text) {
      var time: nat, iv: Bytes :| |iv| == BLOCK && raw == Seal(lib, key, time, iv, text);
      OpenSealed(lib, key, time, iv, text);
    }
  }

  /** Decrypting what was encrypted under the same key text gives the text, whatever the
      clock and the random vector. */
  method EncryptThenDecrypt(lib: Library, text: Bytes, encryptionKey: string, now: int, iv: Bytes) returns (r: Result<Bytes, Error>)
    requires Lawful(lib) && |iv| == BLOCK
    ensures DecodeKey(lib, encryptionKey).Ok? ==> r == Ok(text)
  {
    var token := EncryptFernet(lib, text, encryptionKey, now, iv);
    if token.Err? {
      return Err(token.error);
    }
    r := DecryptFernet(lib, token.value, encryptionKey);
    if token.Ok? {
      OpenSealed(lib, DecodeKey(lib, encryptionKey).value, Unsigned(now), iv, text);
    }
  }
}
