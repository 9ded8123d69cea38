// The AES envelope of rpc/aesctrcrypt.go: CBC mode (section 6.2 of NIST SP 800-38A) over an
// arbitrary block permutation, with the padding of section 6.3 of RFC 5652.
module Cipher {

  newtype Byte = b: int | 0 <= b < 256

  type Bytes = seq<Byte>

  const BLOCK := 16

  // ---- exclusive or ------------------------------------------------------------------

  function XorBits(a: nat, b: nat, bits: nat): nat {
    if bits == 0 then 0 else (a % 2 + b % 2) % 2 + 2 * XorBits(a / 2, b / 2, bits - 1)
  }

  function TwoTo(bits: nat): nat {
    if bits == 0 then 1 else 2 * TwoTo(bits - 1)
  }

  lemma {:induction false} XorBounded(a: nat, b: nat, bits: nat)
    ensures XorBits(a, b, bits) < TwoTo(bits)
  {
    if bits == 0 {
    } else {
      XorBounded(a / 2, b / 2, bits - 1);
    }
  }

  lemma BitUndone(p: nat, q: nat, h: nat)
    requires p < 2 && q < 2
    ensures var x := (p + q) % 2 + 2 * h; (x % 2 + q) % 2 == p && x / 2 == h
  {
  }

  lemma {:induction false} XorUndone(a: nat, b: nat, bits: nat)
    requires a < TwoTo(bits)
    ensures XorBits(XorBits(a, b, bits), b, bits) == a
  {
    if bits == 0 {
    } else {
      var h := XorBits(a / 2, b / 2, bits - 1);
      XorUndone(a / 2, b / 2, bits - 1);
      BitUndone(a % 2, b % 2, h);
      var x := XorBits(a, b, bits);
      assert x == (a % 2 + b % 2) % 2 + 2 * h;
      assert XorBits(x, b, bits) == a % 2 + 2 * (a / 2);
    }
  }

  function BitAt(x: nat, i: nat): nat {
    if i == 0 then x % 2 else BitAt(x / 2, i - 1)
  }

  lemma {:induction false} XorBitAt(a: nat, b: nat, bits: nat, i: nat)
    requires i < bits
    ensures BitAt(XorBits(a, b, bits), i) == (BitAt(a, i) + BitAt(b, i)) % 2
  {
    var h := XorBits(a / 2, b / 2, bits - 1);
    HalfOf((a % 2 + b % 2) % 2, h);
    if i == 0 {
    } else {
      XorBitAt(a / 2, b / 2, bits - 1, i - 1);
    }
  }

  lemma HalfOf(p: nat, h: nat)
    requires p < 2
    ensures (p + 2 * h) % 2 == p && (p + 2 * h) / 2 == h
  {
  }

  // A bit of the result differs from that of the first byte exactly when that of the second
  // is set.
  lemma XorFlips(a: Byte, b: Byte, i: nat)
    requires i < 8
    ensures BitAt(Xor(a, b) as nat, i) != BitAt(a as nat, i) <==> BitAt(b as nat, i) == 1
  {
    XorBitAt(a as nat, b as nat, 8, i);
    BitIsBit(a as nat, i);
    BitIsBit(b as nat, i);
  }

  lemma {:induction false} BitIsBit(x: nat, i: nat)
    ensures BitAt(x, i) < 2
  {
    if i == 0 {
    } else {
      BitIsBit(x / 2, i - 1);
    }
  }

  function Xor(a: Byte, b: Byte): Byte {
    XorBounded(a as nat, b as nat, 8);
    assert TwoTo(8) == 256 by { assert TwoTo(4) == 16; assert TwoTo(6) == 64; }
    XorBits(a as nat, b as nat, 8) as Byte
  }

  function XorBlock(x: Bytes, y: Bytes): (r: Bytes)
    requires |x| == |y|
    ensures |r| == |x|
  {
    seq(|x|, i requires 0 <= i < |x| => Xor(x[i], y[i]))
  }

  lemma XorBlockUndone(x: Bytes, y: Bytes)
    requires |x| == |y|
    ensures XorBlock(XorBlock(x, y), y) == x
  {
    forall i | 0 <= i < |x| ensures XorBlock(XorBlock(x, y), y)[i] == x[i] {
      assert TwoTo(8) == 256 by { assert TwoTo(4) == 16; assert TwoTo(6) == 64; }
      XorUndone(x[i] as nat, y[i] as nat, 8);
    }
  }

  // ---- block chaining ----------------------------------------------------------------

  // A block cipher under one key, and its inverse.
  ghost predicate BlockPair(e: Bytes -> Bytes, d: Bytes -> Bytes) {
    forall b: Bytes {:trigger e(b)} :: |b| == BLOCK ==> |e(b)| == BLOCK && d(e(b)) == b
  }

  function CbcEncrypt(e: Bytes -> Bytes, iv: Bytes, text: Bytes): Bytes
    requires |iv| == BLOCK && |text| % BLOCK == 0
    decreases |text|
  {
    if |text| < BLOCK then []
    else
      var c := e(XorBlock(text[..BLOCK], iv));
      if |c| != BLOCK then [] else c + CbcEncrypt(e, c, text[BLOCK..])
  }

  function CbcDecrypt(d: Bytes -> Bytes, iv: Bytes, text: Bytes): Bytes
    requires |iv| == BLOCK && |text| % BLOCK == 0
    decreases |text|
  {
    if |text| < BLOCK then []
    else
      var p := d(text[..BLOCK]);
      if |p| != BLOCK then [] else XorBlock(p, iv) + CbcDecrypt(d, text[..BLOCK], text[BLOCK..])
  }

  lemma {:induction false} CbcLength(e: Bytes -> Bytes, d: Bytes -> Bytes, iv: Bytes, text: Bytes)
    requires BlockPair(e, d) && |iv| == BLOCK && |text| % BLOCK == 0
    ensures |CbcEncrypt(e, iv, text)| == |text|
    decreases |text|
  {
    if |text| >= BLOCK {
      CbcLength(e, d, e(XorBlock(text[..BLOCK], iv)), text[BLOCK..]);
    }
  }

  lemma {:induction false} CbcRoundTrip(e: Bytes -> Bytes, d: Bytes -> Bytes, iv: Bytes, text: Bytes)
    requires BlockPair(e, d) && |iv| == BLOCK && |text| % BLOCK == 0
    ensures |CbcEncrypt(e, iv, text)| == |text|
    ensures CbcDecrypt(d, iv, CbcEncrypt(e, iv, text)) == text
    decreases |text|
  {
    CbcLength(e, d, iv, text);
    if |text| >= BLOCK {
      var x := XorBlock(text[..BLOCK], iv);
      var c := e(x);
      var rest := CbcEncrypt(e, c, text[BLOCK..]);
      CbcRoundTrip(e, d, c, text[BLOCK..]);
      XorBlockUndone(text[..BLOCK], iv);
      assert (c + rest)[..BLOCK] == c && (c + rest)[BLOCK..] == rest;
      assert d(c) == x;
      assert text == text[..BLOCK] + text[BLOCK..];
    } else {
      assert text == [];
    }
  }

  // The k-th block.
  function BlockAt(s: Bytes, k: nat): (b: Bytes)
    requires k < |s| / BLOCK
    ensures |b| == BLOCK
  {
    s[BLOCK * k..BLOCK * k + BLOCK]
  }

  // Every block of the ciphertext is that of the plain text under the block before it, the
  // first one under the vector.
  lemma {:induction false} CbcChains(e: Bytes -> Bytes, d: Bytes -> Bytes, iv: Bytes, text: Bytes, k: nat)
    requires BlockPair(e, d) && |iv| == BLOCK && |text| % BLOCK == 0 && k < |text| / BLOCK
    ensures |CbcEncrypt(e, iv, text)| == |text|
    ensures var c := CbcEncrypt(e, iv, text);
            BlockAt(c, k) == e(XorBlock(BlockAt(text, k), if k == 0 then iv else BlockAt(c, k - 1)))
    decreases k
  {
    CbcLength(e, d, iv, text);
    var c := CbcEncrypt(e, iv, text);
    var x := XorBlock(text[..BLOCK], iv);
    var first, rest := e(x), text[BLOCK..];
    CbcLength(e, d, first, rest);
    var tail := CbcEncrypt(e, first, rest);
    assert c == first + tail;
    assert BlockAt(c, 0) == first;
    if k == 0 {
      assert BlockAt(text, 0) == text[..BLOCK];
    } else {
      CbcChains(e, d, first, rest, k - 1);
      LaterBlock(text[..BLOCK], rest, k);
      LaterBlock(first, tail, k);
      assert text[..BLOCK] + rest == text;
      if k > 1 {
        LaterBlock(first, tail, k - 1);
      }
    }
  }

  lemma LaterBlock(head: Bytes, tail: Bytes, k: nat)
    requires |head| == BLOCK && 0 < k <= |tail| / BLOCK
    ensures k < |head + tail| / BLOCK && BlockAt(head + tail, k) == BlockAt(tail, k - 1)
  {
  }

  // ---- padding -------------------------------------------------------------------------

  function PadSize(length: nat): (n: nat)
    ensures 1 <= n <= BLOCK && (length + n) % BLOCK == 0
  {
    BLOCK - length % BLOCK
  }

  function Padded(text: Bytes): (r: Bytes)
    ensures |r| == BLOCK * (|text| / BLOCK + 1)
  {
    text + seq(PadSize(|text|), _ => PadSize(|text|) as Byte)
  }

  datatype Failure = KeyLength | IvLength | PaddingSize | Panic

  datatype Result<T> = Ok(value: T) | Err(failure: Failure)

  // Only the last byte is looked at.
  function Unpadded(text: Bytes): Result<Bytes> {
    if |text| <= 0 then Ok(text)
    else
      var number := text[|text| - 1] as int;
      if number > |text| then Err(PaddingSize) else Ok(text[..|text| - number])
  }

  lemma PaddingRoundTrip(text: Bytes)
    ensures Unpadded(Padded(text)) == Ok(text)
  {
    var p := Padded(text);
    assert p[|p| - 1] as int == PadSize(|text|);
    assert p[..|text|] == text;
  }

  // The padding fills the last block, each byte with the number of them.
  lemma PaddedBytes(text: Bytes)
    ensures var p := Padded(text);
            && |p| % 16 == 0 && |text| < |p| <= |text| + 16 && p[..|text|] == text
            && forall i :: |text| <= i < |p| ==> p[i] as int == |p| - |text|
  {
  }

  // Whatever was decrypted: as many bytes as the last one says are cut off, and it is an
  // error exactly if there are not that many.
  lemma UnpaddedBytes(text: Bytes)
    ensures Unpadded(text) == Err(PaddingSize) <==> text != [] && text[|text| - 1] as int > |text|
    ensures Unpadded(text).Ok? ==>
              var r := Unpadded(text).value;
              r <= text && |text| - |r| == if text == [] then 0 else text[|text| - 1] as int
  {
  }

  // The two copies into a fresh buffer.
  method PKCS5Padding(plainText: Bytes) returns (newText: array<Byte>)
    ensures fresh(newText) && newText[..] == Padded(plainText)
  {
    var padding := BLOCK - |plainText| % BLOCK;
    newText := new Byte[|plainText| + padding];
    forall i | 0 <= i < |plainText| {
      newText[i] := plainText[i];
    }
    forall i | |plainText| <= i < newText.Length {
      newText[i] := padding as Byte;
    }
  }

  // ---- the envelope ----------------------------------------------------------------------

  // The block functions of every key, and the package's default vector.
  datatype Aes = Aes(encrypt: (Bytes, Bytes) -> Bytes, decrypt: (Bytes, Bytes) -> Bytes, defaultIv: Bytes)

  ghost predicate AesPair(aes: Aes) {
    forall k: Bytes, b: Bytes {:trigger aes.encrypt(k, b)} :: ValidKey(k) && |b| == BLOCK ==>
      |aes.encrypt(k, b)| == BLOCK && aes.decrypt(k, aes.encrypt(k, b)) == b
  }

  predicate ValidKey(key: Bytes) {
    |key| == 16 || |key| == 24 || |key| == 32
  }

  // A given vector must have 16 bytes; the block mode itself panics on a default of another
  // length.
  function Vector(aes: Aes, iv: Bytes): (r: Result<Bytes>)
    ensures r.Ok? ==> |r.value| == BLOCK
  {
    if |iv| != 0 then if |iv| != 16 then Err(IvLength) else Ok(iv)
    else if |aes.defaultIv| != BLOCK then Err(Panic) else Ok(aes.defaultIv)
  }

  function AesCbcEncrypt(aes: Aes, text: Bytes, key: Bytes, iv: Bytes): Result<Bytes> {
    if !ValidKey(key) then Err(KeyLength)
    else
      var v := Vector(aes, iv);
      if v.Err? then Err(v.failure) else Ok(CbcEncrypt(b => aes.encrypt(key, b), v.value, Padded(text)))
  }

  function AesCbcDecrypt(aes: Aes, text: Bytes, key: Bytes, iv: Bytes): Result<Bytes> {
    if !ValidKey(key) then Err(KeyLength)
    else
      var v := Vector(aes, iv);
      if v.Err? then Err(v.failure)
      else if |text| % BLOCK != 0 then Err(Panic)
      else Unpadded(CbcDecrypt(b => aes.decrypt(key, b), v.value, text))
  }

  // Decryption undoes encryption for every text, valid key and vector, and the ciphertext
  // fills exactly the blocks of the padded text. The error cases are the same on both sides.
  lemma EnvelopeRoundTrip(aes: Aes, text: Bytes, key: Bytes, iv: Bytes)
    requires AesPair(aes)
    ensures var c := AesCbcEncrypt(aes, text, key, iv);
            if c.Ok? then
              |c.value| == 16 * (|text| / 16 + 1) && AesCbcDecrypt(aes, c.value, key, iv) == Ok(text)
            else forall x :: AesCbcDecrypt(aes, x, key, iv) == Err(c.failure)
    ensures AesCbcEncrypt(aes, text, key, iv).Ok?
       <==> (|key| == 16 || |key| == 24 || |key| == 32) && (|iv| == 16 || (|iv| == 0 && |aes.defaultIv| == 16))
  {
    var v := Vector(aes, iv);
    if ValidKey(key) && v.Ok? {
      CbcRoundTrip(b => aes.encrypt(key, b), b => aes.decrypt(key, b), v.value, Padded(text));
      PaddingRoundTrip(text);
    }
  }

  // Each block of the ciphertext is the block cipher, under the key, of the padded text's
  // block combined with the ciphertext block before it; the first with the given vector, or
  // with the default one if none is given.
  lemma EnvelopeChains(aes: Aes, text: Bytes, key: Bytes, iv: Bytes, k: nat)
    requires AesPair(aes) && AesCbcEncrypt(aes, text, key, iv).Ok? && k < |text| / 16 + 1
    ensures var c, p := AesCbcEncrypt(aes, text, key, iv).value, Padded(text);
            && |c| == |p|
            && BlockAt(c, k) == aes.encrypt(key, XorBlock(BlockAt(p, k),
                 if k > 0 then BlockAt(c, k - 1) else if |iv| == 16 then iv else aes.defaultIv))
  {
    CbcChains(b => aes.encrypt(key, b), b => aes.decrypt(key, b), Vector(aes, iv).value, Padded(text), k);
  }
}
