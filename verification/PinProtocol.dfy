/**
 * The two PIN/UV auth protocols: cipher block chaining over a block cipher given by its inverse laws,
 * the two conventions for the initialisation vector, the derived keys and the authentication of data.
 */
module PinProtocol {
  import opened Bytes
  import opened Wrappers

  const BLOCK_SIZE := 16
  const DIGEST_SIZE := 32
  const ONE := 1
  const TWO := 2

  type Block = b: seq<byte> | |b| == BLOCK_SIZE witness [0, 0, 0, 0, 0, 0, 0, 0, 0, 0, 0, 0, 0, 0, 0, 0]
  type Digest = d: seq<byte> | |d| == DIGEST_SIZE
    witness [0, 0, 0, 0, 0, 0, 0, 0, 0, 0, 0, 0, 0, 0, 0, 0, 0, 0, 0, 0, 0, 0, 0, 0, 0, 0, 0, 0, 0, 0, 0, 0]

  /** The primitives the protocols are built from; expanding a key may fail. */
  datatype Primitives = Primitives(
    encryptBlock: (seq<byte>, Block) -> Block,
    decryptBlock: (seq<byte>, Block) -> Block,
    sha256: seq<byte> -> Digest,
    hmac: (seq<byte>, seq<byte>) -> Digest,
    hkdf: (seq<byte>, seq<byte>, string) -> Option<Digest>)

  /** Under every key the two block functions undo each other. */
  ghost predicate BlockCipher(p: Primitives) {
    && (forall k, b: Block {:trigger p.decryptBlock(k, p.encryptBlock(k, b))} :: p.decryptBlock(k, p.encryptBlock(k, b)) == b)
    && (forall k, b: Block {:trigger p.encryptBlock(k, p.decryptBlock(k, b))} :: p.encryptBlock(k, p.decryptBlock(k, b)) == b)
  }

  datatype PinKeys = PinKeys(proto: int, aes: seq<byte>, hmac: seq<byte>)

  datatype Problem = NotWholeBlocks | NotAnAesKey | NoRandomness | TooShortForAnIv | UnknownProtocol | NoExpansion | EmptyPin

  // ------------------------------------------------------------- exclusive or

  function Pow2(n: nat): nat {
    if n == 0 then 1 else 2 * Pow2(n - 1)
  }

  /** Bit by bit, lowest first: the sum of two bits without its carry. */
  function XorBits(a: nat, b: nat, bits: nat): nat {
    if bits == 0 then 0 else (a % 2 + b % 2) % 2 + 2 * XorBits(a / 2, b / 2, bits - 1)
  }

  lemma {:induction false} XorBitsFits(a: nat, b: nat, bits: nat)
    ensures XorBits(a, b, bits) < Pow2(bits)
  {
    if bits > 0 {
      XorBitsFits(a / 2, b / 2, bits - 1);
    }
  }

  lemma {:induction false} XorBitsTwice(a: nat, b: nat, bits: nat)
    requires a < Pow2(bits)
    ensures XorBits(XorBits(a, b, bits), b, bits) == a
  {
    if bits > 0 {
      var low, high := (a % 2 + b % 2) % 2, XorBits(a / 2, b / 2, bits - 1);
      XorBitsTwice(a / 2, b / 2, bits - 1);
      LowBit(low, high);
      assert (low + b % 2) % 2 == a % 2;
    }
  }

  lemma LowBit(low: nat, high: nat)
    requires low < 2
    ensures (low + 2 * high) % 2 == low && (low + 2 * high) / 2 == high
  {
  }

  lemma EightBits()
    ensures Pow2(8) == 0x100
  {
    assert Pow2(4) == 16;
  }

  function XorByte(a: byte, b: byte): byte {
    XorBitsFits(a, b, 8);
    EightBits();
    XorBits(a, b, 8)
  }

  function Xor(a: Block, b: Block): Block {
    seq(BLOCK_SIZE, i requires 0 <= i < BLOCK_SIZE => XorByte(a[i], b[i]))
  }

  lemma XorByteTwice(a: byte, b: byte)
    ensures XorByte(XorByte(a, b), b) == a
  {
    EightBits();
    XorBitsTwice(a, b, 8);
  }

  lemma XorTwice(a: Block, b: Block)
    ensures Xor(Xor(a, b), b) == a
  {
    forall i | 0 <= i < BLOCK_SIZE ensures Xor(Xor(a, b), b)[i] == a[i] {
      XorByteTwice(a[i], b[i]);
    }
  }

  /** Bit i of a number, the lowest being bit 0. */
  predicate Bit(n: nat, i: nat) {
    if i == 0 then n % 2 == 1 else Bit(n / 2, i - 1)
  }

  lemma {:induction false} XorBitsDiffer(a: nat, b: nat, bits: nat, i: nat)
    requires i < bits
    ensures Bit(XorBits(a, b, bits), i) <==> Bit(a, i) != Bit(b, i)
  {
    var low, high := (a % 2 + b % 2) % 2, XorBits(a / 2, b / 2, bits - 1);
    LowBit(low, high);
    if i > 0 {
      XorBitsDiffer(a / 2, b / 2, bits - 1, i - 1);
    } else {
      assert low == 1 <==> a % 2 != b % 2;
    }
  }

  /** Every bit of x says whether those of a and b differ. */
  ghost predicate Differs(x: Block, a: Block, b: Block) {
    forall k, i | 0 <= k < 16 && 0 <= i < 8 :: Bit(x[k], i) <==> Bit(a[k], i) != Bit(b[k], i)
  }

  /** What is combined is combined by exclusive or, bit by bit. */
  lemma XorIsBitwise(a: Block, b: Block)
    ensures Differs(Xor(a, b), a, b)
  {
    forall k, i | 0 <= k < 16 && 0 <= i < 8 ensures Bit(Xor(a, b)[k], i) <==> Bit(a[k], i) != Bit(b[k], i) {
      XorBitsDiffer(a[k], b[k], 8, i);
    }
  }

  // ----------------------------------------------------------------- chaining

  predicate WholeBlocks(b: seq<byte>) {
    |b| % BLOCK_SIZE == 0
  }

  function CbcEncrypt(p: Primitives, key: seq<byte>, iv: Block, plain: seq<byte>): (c: seq<byte>)
    requires WholeBlocks(plain)
    ensures |c| == |plain|
    decreases |plain|
  {
    if plain == [] then []
    else
      var block := p.encryptBlock(key, Xor(plain[..BLOCK_SIZE], iv));
      block + CbcEncrypt(p, key, block, plain[BLOCK_SIZE..])
  }

  function CbcDecrypt(p: Primitives, key: seq<byte>, iv: Block, cipher: seq<byte>): (m: seq<byte>)
    requires WholeBlocks(cipher)
    ensures |m| == |cipher|
    decreases |cipher|
  {
    if cipher == [] then []
    else
      Xor(p.decryptBlock(key, cipher[..BLOCK_SIZE]), iv) +
      CbcDecrypt(p, key, cipher[..BLOCK_SIZE], cipher[BLOCK_SIZE..])
  }

  lemma Rejoin(first: seq<byte>, rest: seq<byte>)
    ensures (first + rest)[..|first|] == first && (first + rest)[|first|..] == rest
  {
  }

  lemma {:induction false} CbcDecryptEncrypt(p: Primitives, key: seq<byte>, iv: Block, plain: seq<byte>)
    requires BlockCipher(p) && WholeBlocks(plain)
    ensures CbcDecrypt(p, key, iv, CbcEncrypt(p, key, iv, plain)) == plain
    decreases |plain|
  {
    if plain != [] {
      var first: Block := plain[..BLOCK_SIZE];
      var block: Block := p.encryptBlock(key, Xor(first, iv));
      var rest: seq<byte> := CbcEncrypt(p, key, block, plain[BLOCK_SIZE..]);
      XorTwice(first, iv);
      CbcDecryptEncrypt(p, key, block, plain[BLOCK_SIZE..]);
      Rejoin(block, rest);
    }
  }

  lemma {:induction false} CbcEncryptDecrypt(p: Primitives, key: seq<byte>, iv: Block, cipher: seq<byte>)
    requires BlockCipher(p) && WholeBlocks(cipher)
    ensures CbcEncrypt(p, key, iv, CbcDecrypt(p, key, iv, cipher)) == cipher
    decreases |cipher|
  {
    if cipher != [] {
      var first: Block := cipher[..BLOCK_SIZE];
      var block: Block := Xor(p.decryptBlock(key, first), iv);
      var rest: seq<byte> := CbcDecrypt(p, key, first, cipher[BLOCK_SIZE..]);
      XorTwice(p.decryptBlock(key, first), iv);
      CbcEncryptDecrypt(p, key, first, cipher[BLOCK_SIZE..]);
      Rejoin(block, rest);
    }
  }

  function BlockAt(b: seq<byte>, j: nat): Block
    requires 16 * j + 16 <= |b|
  {
    b[16 * j..16 * j + 16]
  }

  /** What block j is chained to: the block of ciphertext before it, or the vector. */
  function Before(iv: Block, cipher: seq<byte>, j: nat): Block
    requires 16 * j <= |cipher|
  {
    if j == 0 then iv else BlockAt(cipher, j - 1)
  }

  /** The cipher's image of a block whose bits say where the plain one differs from the one before. */
  ghost predicate ChainedBlock(p: Primitives, key: seq<byte>, before: Block, plain: Block, cipher: Block) {
    exists x :: Differs(x, plain, before) && cipher == p.encryptBlock(key, x)
  }

  ghost predicate Chained(p: Primitives, key: seq<byte>, iv: Block, plain: seq<byte>, cipher: seq<byte>) {
    && |cipher| == |plain|
    && forall j | 0 <= j && 16 * j + 16 <= |plain| ::
         ChainedBlock(p, key, Before(iv, cipher, j), BlockAt(plain, j), BlockAt(cipher, j))
  }

  ghost predicate Unchained(p: Primitives, key: seq<byte>, iv: Block, cipher: seq<byte>, plain: seq<byte>) {
    && |plain| == |cipher|
    && forall j | 0 <= j && 16 * j + 16 <= |cipher| ::
         Differs(BlockAt(plain, j), p.decryptBlock(key, BlockAt(cipher, j)), Before(iv, cipher, j))
  }

  lemma FirstBlock(iv: Block, first: Block, rest: seq<byte>)
    ensures BlockAt(first + rest, 0) == first && Before(iv, first + rest, 0) == iv
  {
  }

  lemma LaterBlock(iv: Block, first: Block, rest: seq<byte>, j: nat)
    requires j > 0 && 16 * j <= 16 + |rest|
    ensures Before(iv, first + rest, j) == Before(first, rest, j - 1)
    ensures 16 * j <= |rest| ==> BlockAt(first + rest, j) == BlockAt(rest, j - 1)
  {
    if j > 1 {
      assert BlockAt(first + rest, j - 1) == BlockAt(rest, j - 2);
    }
  }

  lemma ChainedOn(p: Primitives, key: seq<byte>, iv: Block, first: Block, rest: seq<byte>, block: Block, more: seq<byte>)
    requires ChainedBlock(p, key, iv, first, block) && Chained(p, key, block, rest, more)
    ensures Chained(p, key, iv, first + rest, block + more)
  {
    forall j | 0 <= j && 16 * j + 16 <= |first + rest|
      ensures ChainedBlock(p, key, Before(iv, block + more, j), BlockAt(first + rest, j), BlockAt(block + more, j))
    {
      if j == 0 {
        FirstBlock(iv, first, rest);
        FirstBlock(iv, block, more);
      } else {
        LaterBlock(iv, first, rest, j);
        LaterBlock(iv, block, more, j);
      }
    }
  }

  lemma UnchainedOn(p: Primitives, key: seq<byte>, iv: Block, first: Block, rest: seq<byte>, block: Block, more: seq<byte>)
    requires Differs(block, p.decryptBlock(key, first), iv) && Unchained(p, key, first, rest, more)
    ensures Unchained(p, key, iv, first + rest, block + more)
  {
    forall j | 0 <= j && 16 * j + 16 <= |first + rest|
      ensures Differs(BlockAt(block + more, j), p.decryptBlock(key, BlockAt(first + rest, j)), Before(iv, first + rest, j))
    {
      if j == 0 {
        FirstBlock(iv, first, rest);
        FirstBlock(iv, block, more);
      } else {
        LaterBlock(iv, first, rest, j);
        LaterBlock(iv, block, more, j);
      }
    }
  }

  /** The blocks of a chained encryption: each is made of the plain block and the block before it. */
  lemma {:induction false} CbcEncryptChains(p: Primitives, key: seq<byte>, iv: Block, plain: seq<byte>)
    requires WholeBlocks(plain)
    ensures Chained(p, key, iv, plain, CbcEncrypt(p, key, iv, plain))
    decreases |plain|
  {
    if plain != [] {
      var first: Block, rest := plain[..BLOCK_SIZE], plain[BLOCK_SIZE..];
      var block: Block := p.encryptBlock(key, Xor(first, iv));
      XorIsBitwise(first, iv);
      CbcEncryptChains(p, key, block, rest);
      ChainedOn(p, key, iv, first, rest, block, CbcEncrypt(p, key, block, rest));
      assert plain == first + rest;
    }
  }

  lemma {:induction false} CbcDecryptUnchains(p: Primitives, key: seq<byte>, iv: Block, cipher: seq<byte>)
    requires WholeBlocks(cipher)
    ensures Unchained(p, key, iv, cipher, CbcDecrypt(p, key, iv, cipher))
    decreases |cipher|
  {
    if cipher != [] {
      var first: Block, rest := cipher[..BLOCK_SIZE], cipher[BLOCK_SIZE..];
      var block: Block := Xor(p.decryptBlock(key, first), iv);
      XorIsBitwise(p.decryptBlock(key, first), iv);
      CbcDecryptUnchains(p, key, first, rest);
      UnchainedOn(p, key, iv, first, rest, block, CbcDecrypt(p, key, first, rest));
      assert cipher == first + rest;
    }
  }

  // -------------------------------------------------------------- the protocols

  predicate AesKey(k: seq<byte>) {
    |k| in {16, 24, 32}
  }

  /** Encrypts for the authenticator; random is what the random source gave, if it gave anything. */
  function Encrypt(p: Primitives, k: PinKeys, random: Option<Block>, plain: seq<byte>): Result<seq<byte>, Problem> {
    if plain == [] || !WholeBlocks(plain) then Err(NotWholeBlocks)
    else if !AesKey(k.aes) then Err(NotAnAesKey)
    else if k.proto == TWO then
      if random.None? then Err(NoRandomness)
      else Ok(random.value + CbcEncrypt(p, k.aes, random.value, plain))
    else Ok(CbcEncrypt(p, k.aes, Zeros(BLOCK_SIZE), plain))
  }

  function Decrypt(p: Primitives, k: PinKeys, cipher: seq<byte>): Result<seq<byte>, Problem> {
    if k.proto == TWO && |cipher| < BLOCK_SIZE then Err(TooShortForAnIv)
    else
      var iv: Block := if k.proto == TWO then cipher[..BLOCK_SIZE] else Zeros(BLOCK_SIZE);
      var body := if k.proto == TWO then cipher[BLOCK_SIZE..] else cipher;
      if body == [] || !WholeBlocks(body) then Err(NotWholeBlocks)
      else if !AesKey(k.aes) then Err(NotAnAesKey)
      else Ok(CbcDecrypt(p, k.aes, iv, body))
  }

  /** What encrypting makes: under protocol two the vector and then the blocks chained from it, under the
      other the blocks chained from zeroes. */
  ghost predicate Enciphers(p: Primitives, k: PinKeys, random: Option<Block>, plain: seq<byte>, cipher: seq<byte>) {
    if k.proto == 2 then
      random.Some? && |cipher| >= 16 && cipher[..16] == random.value && Chained(p, k.aes, random.value, plain, cipher[16..])
    else
      Chained(p, k.aes, seq(16, _ => 0), plain, cipher)
  }

  ghost predicate Deciphers(p: Primitives, k: PinKeys, cipher: seq<byte>, plain: seq<byte>) {
    if k.proto == 2 then
      |cipher| >= 16 && Unchained(p, k.aes, cipher[..16], cipher[16..], plain)
    else
      Unchained(p, k.aes, seq(16, _ => 0), cipher, plain)
  }

  /** Exactly what is encrypted, and what comes of it. */
  lemma EncryptIff(p: Primitives, k: PinKeys, random: Option<Block>, plain: seq<byte>)
    ensures Encrypt(p, k, random, plain).Ok? <==>
            plain != [] && |plain| % 16 == 0 && |k.aes| in {16, 24, 32} && (k.proto == 2 ==> random.Some?)
    ensures Encrypt(p, k, random, plain).Ok? ==> Enciphers(p, k, random, plain, Encrypt(p, k, random, plain).value)
  {
    if Encrypt(p, k, random, plain).Ok? {
      assert Zeros(BLOCK_SIZE) == seq(16, _ => 0);
      var iv: Block := if k.proto == TWO then random.value else Zeros(BLOCK_SIZE);
      CbcEncryptChains(p, k.aes, iv, plain);
      Rejoin(iv, CbcEncrypt(p, k.aes, iv, plain));
    }
  }

  /** Each refusal to encrypt, by exactly what draws it. */
  lemma EncryptRefusals(p: Primitives, k: PinKeys, random: Option<Block>, plain: seq<byte>)
    ensures var whole, r := plain != [] && |plain| % 16 == 0, Encrypt(p, k, random, plain);
            && (r == Err(NotWholeBlocks) <==> !whole)
            && (r == Err(NotAnAesKey) <==> whole && |k.aes| !in {16, 24, 32})
            && (r == Err(NoRandomness) <==> whole && |k.aes| in {16, 24, 32} && k.proto == 2 && random.None?)
  {
  }

  lemma DecryptRefusals(p: Primitives, k: PinKeys, cipher: seq<byte>)
    ensures var r := Decrypt(p, k, cipher);
            var whole := |cipher| % 16 == 0 && |cipher| >= if k.proto == 2 then 32 else 16;
            && (r == Err(TooShortForAnIv) <==> k.proto == 2 && |cipher| < 16)
            && (r == Err(NotWholeBlocks) <==> !whole && !(k.proto == 2 && |cipher| < 16))
            && (r == Err(NotAnAesKey) <==> whole && |k.aes| !in {16, 24, 32})
            && (r.Ok? <==> whole && |k.aes| in {16, 24, 32})
  {
  }

  lemma DecryptMeans(p: Primitives, k: PinKeys, cipher: seq<byte>)
    ensures Decrypt(p, k, cipher).Ok? ==> Deciphers(p, k, cipher, Decrypt(p, k, cipher).value)
  {
    if Decrypt(p, k, cipher).Ok? {
      assert Zeros(BLOCK_SIZE) == seq(16, _ => 0);
      if k.proto == TWO {
        CbcDecryptUnchains(p, k.aes, cipher[..BLOCK_SIZE], cipher[BLOCK_SIZE..]);
      } else {
        CbcDecryptUnchains(p, k.aes, Zeros(BLOCK_SIZE), cipher);
      }
    }
  }

  /** Decrypting undoes encrypting, whatever the initialisation vector. */
  lemma DecryptUndoesEncrypt(p: Primitives, k: PinKeys, random: Option<Block>, plain: seq<byte>)
    requires BlockCipher(p) && AesKey(k.aes) && (k.proto == TWO ==> random.Some?)
    ensures Encrypt(p, k, random, plain).Ok? <==> plain != [] && WholeBlocks(plain)
    ensures Encrypt(p, k, random, plain).Ok? ==> Decrypt(p, k, Encrypt(p, k, random, plain).value) == Ok(plain)
    ensures Encrypt(p, k, random, plain).Ok? ==>
              |Encrypt(p, k, random, plain).value| == |plain| + if k.proto == TWO then BLOCK_SIZE else 0
  {
    if plain != [] && WholeBlocks(plain) {
      if k.proto == TWO {
        var body := CbcEncrypt(p, k.aes, random.value, plain);
        CbcDecryptEncrypt(p, k.aes, random.value, plain);
        assert (random.value + body)[..BLOCK_SIZE] == random.value && (random.value + body)[BLOCK_SIZE..] == body;
      } else {
        CbcDecryptEncrypt(p, k.aes, Zeros(BLOCK_SIZE), plain);
      }
    }
  }

  /** Exactly which ciphertexts decrypt: non-empty whole blocks, and under protocol two at least two of
      them, the first being the initialisation vector. Encrypting the result again with the same vector
      restores the ciphertext. */
  lemma DecryptIff(p: Primitives, k: PinKeys, cipher: seq<byte>)
    requires BlockCipher(p)
    ensures Decrypt(p, k, cipher).Ok? <==> |k.aes| in {16, 24, 32} && |cipher| % 16 == 0 && |cipher| >= if k.proto == 2 then 32 else 16
    ensures Decrypt(p, k, cipher).Ok? ==>
              var plain := Decrypt(p, k, cipher).value;
              && |plain| == |cipher| - (if k.proto == TWO then BLOCK_SIZE else 0)
              && Encrypt(p, k, if k.proto == TWO then Some(cipher[..BLOCK_SIZE]) else None, plain) == Ok(cipher)
  {
    if Decrypt(p, k, cipher).Ok? {
      if k.proto == TWO {
        CbcEncryptDecrypt(p, k.aes, cipher[..BLOCK_SIZE], cipher[BLOCK_SIZE..]);
        assert cipher[..BLOCK_SIZE] + cipher[BLOCK_SIZE..] == cipher;
      } else {
        CbcEncryptDecrypt(p, k.aes, Zeros(BLOCK_SIZE), cipher);
      }
    }
  }

  // ------------------------------------------------------ block by block, in place

  method PutBlock(out: array<byte>, i: nat, block: Block)
    requires i + BLOCK_SIZE <= out.Length
    modifies out
    ensures out[..i + BLOCK_SIZE] == old(out[..i]) + block
  {
    forall j | 0 <= j < BLOCK_SIZE {
      out[i + j] := block[j];
    }
  }

  lemma EncryptStep(p: Primitives, key: seq<byte>, previous: Block, src: seq<byte>, i: nat)
    requires i + BLOCK_SIZE <= |src| && WholeBlocks(src[i..])
    ensures WholeBlocks(src[i + BLOCK_SIZE..])
    ensures var result := p.encryptBlock(key, Xor(src[i..i + BLOCK_SIZE], previous));
            CbcEncrypt(p, key, previous, src[i..]) == result + CbcEncrypt(p, key, result, src[i + BLOCK_SIZE..])
  {
    assert src[i..][..BLOCK_SIZE] == src[i..i + BLOCK_SIZE] && src[i..][BLOCK_SIZE..] == src[i + BLOCK_SIZE..];
  }

  lemma DecryptStep(p: Primitives, key: seq<byte>, previous: Block, src: seq<byte>, i: nat)
    requires i + BLOCK_SIZE <= |src| && WholeBlocks(src[i..])
    ensures WholeBlocks(src[i + BLOCK_SIZE..])
    ensures var block: Block := src[i..i + BLOCK_SIZE];
            CbcDecrypt(p, key, previous, src[i..]) ==
            Xor(p.decryptBlock(key, block), previous) + CbcDecrypt(p, key, block, src[i + BLOCK_SIZE..])
  {
    assert src[i..][..BLOCK_SIZE] == src[i..i + BLOCK_SIZE] && src[i..][BLOCK_SIZE..] == src[i + BLOCK_SIZE..];
  }

  lemma Regroup(a: seq<byte>, b: seq<byte>, c: seq<byte>)
    ensures a + (b + c) == a + b + c
  {
  }

  method EncryptBlocks(p: Primitives, key: seq<byte>, iv: Block, src: seq<byte>) returns (out: array<byte>)
    requires WholeBlocks(src)
    ensures fresh(out) && out[..] == CbcEncrypt(p, key, iv, src)
    ensures Chained(p, key, iv, src, out[..])
  {
    out := new byte[|src|](_ => 0);
    var previous: Block := iv;
    var i := 0;
    while i < |src|
      invariant 0 <= i <= |src| && WholeBlocks(src[i..])
      invariant CbcEncrypt(p, key, iv, src) == out[..i] + CbcEncrypt(p, key, previous, src[i..])
    {
      var block: Block := src[i..i + BLOCK_SIZE];
      var result: Block := p.encryptBlock(key, Xor(block, previous));
      EncryptStep(p, key, previous, src, i);
      Regroup(out[..i], result, CbcEncrypt(p, key, result, src[i + BLOCK_SIZE..]));
      PutBlock(out, i, result);
      previous := result;
      i := i + BLOCK_SIZE;
    }
    ghost var made := out[..];
    assert out[..i] == made && src[i..] == [];
    CbcEncryptChains(p, key, iv, src);
    assert made == CbcEncrypt(p, key, iv, src);
  }

  method DecryptBlocks(p: Primitives, key: seq<byte>, iv: Block, src: seq<byte>) returns (out: array<byte>)
    requires WholeBlocks(src)
    ensures fresh(out) && out[..] == CbcDecrypt(p, key, iv, src)
    ensures Unchained(p, key, iv, src, out[..])
  {
    out := new byte[|src|](_ => 0);
    var previous: Block := iv;
    var i := 0;
    while i < |src|
      invariant 0 <= i <= |src| && WholeBlocks(src[i..])
      invariant CbcDecrypt(p, key, iv, src) == out[..i] + CbcDecrypt(p, key, previous, src[i..])
    {
      var block: Block := src[i..i + BLOCK_SIZE];
      var result: Block := Xor(p.decryptBlock(key, block), previous);
      DecryptStep(p, key, previous, src, i);
      Regroup(out[..i], result, CbcDecrypt(p, key, block, src[i + BLOCK_SIZE..]));
      PutBlock(out, i, result);
      previous := block;
      i := i + BLOCK_SIZE;
    }
    assert out[..i] == out[..] && src[i..] == [];
    CbcDecryptUnchains(p, key, iv, src);
  }

  method EncryptBytes(p: Primitives, k: PinKeys, random: Option<Block>, plain: seq<byte>) returns (r: Result<seq<byte>, Problem>)
    ensures r == Encrypt(p, k, random, plain)
    ensures r.Ok? <==> plain != [] && |plain| % 16 == 0 && |k.aes| in {16, 24, 32} && (k.proto == 2 ==> random.Some?)
    ensures r.Ok? ==> Enciphers(p, k, random, plain, r.value)
  {
    EncryptIff(p, k, random, plain);
    if |plain| == 0 || |plain| % BLOCK_SIZE != 0 {
      return Err(NotWholeBlocks);
    }
    if !AesKey(k.aes) {
      return Err(NotAnAesKey);
    }
    var iv: Block := Zeros(BLOCK_SIZE);
    if k.proto == TWO {
      if random.None? {
        return Err(NoRandomness);
      }
      iv := random.value;
    }
    var out := EncryptBlocks(p, k.aes, iv, plain);
    if k.proto == TWO {
      return Ok(iv + out[..]);
    }
    return Ok(out[..]);
  }

  method DecryptBytes(p: Primitives, k: PinKeys, ciphertext: seq<byte>) returns (r: Result<seq<byte>, Problem>)
    ensures r == Decrypt(p, k, ciphertext)
    ensures r.Ok? ==> Deciphers(p, k, ciphertext, r.value)
  {
    DecryptMeans(p, k, ciphertext);
    var cipher := ciphertext;
    var iv: Block := Zeros(BLOCK_SIZE);
    if k.proto == TWO {
      if |cipher| < BLOCK_SIZE {
        return Err(TooShortForAnIv);
      }
      iv := cipher[..BLOCK_SIZE];
      cipher := cipher[BLOCK_SIZE..];
    }
    if |cipher| == 0 || |cipher| % BLOCK_SIZE != 0 {
      return Err(NotWholeBlocks);
    }
    if !AesKey(k.aes) {
      return Err(NotAnAesKey);
    }
    var out := DecryptBlocks(p, k.aes, iv, cipher);
    return Ok(out[..]);
  }

  // ------------------------------------------------------- keys and parameters

  function DeriveKeys(p: Primitives, proto: int, secret: seq<byte>): (r: Result<PinKeys, Problem>)
    ensures r.Ok? ==> (proto == ONE || proto == TWO) && r.value.proto == proto && AesKey(r.value.aes)
  {
    if proto == ONE then Ok(PinKeys(proto, p.sha256(secret), p.sha256(secret)))
    else if proto == TWO then
      var hmacKey := p.hkdf(secret, Zeros(DIGEST_SIZE), "CTAP2 HMAC key");
      if hmacKey.None? then Err(NoExpansion)
      else
        var aesKey := p.hkdf(secret, Zeros(DIGEST_SIZE), "CTAP2 AES key");
        if aesKey.None? then Err(NoExpansion) else Ok(PinKeys(proto, aesKey.value, hmacKey.value))
    else Err(UnknownProtocol)
  }

  /** The key derivation as a byte string: one hash under protocol one; under protocol two the HMAC key
      followed by the AES key. */
  function Kdf(p: Primitives, proto: int, secret: seq<byte>): Option<seq<byte>> {
    if proto == ONE then Some(p.sha256(secret))
    else
      match (p.hkdf(secret, seq(32, _ => 0), "CTAP2 HMAC key"), p.hkdf(secret, seq(32, _ => 0), "CTAP2 AES key"))
      case (Some(hmacKey), Some(aesKey)) =>
        var first: seq<byte>, second: seq<byte> := hmacKey, aesKey;
        Some(first + second)
      case _ => None
  }

  /** The AES key is the last 32 bytes of the derivation and the HMAC key the first 32, which under
      protocol one are the same bytes; there are keys exactly when there is a derivation. */
  lemma KeysAreParts(p: Primitives, proto: int, secret: seq<byte>)
    requires proto == ONE || proto == TWO
    ensures DeriveKeys(p, proto, secret).Ok? <==> Kdf(p, proto, secret).Some?
    ensures Kdf(p, proto, secret).Some? ==>
              var all, k := Kdf(p, proto, secret).value, DeriveKeys(p, proto, secret).value;
              && |all| == (if proto == ONE then DIGEST_SIZE else 2 * DIGEST_SIZE)
              && k == PinKeys(proto, all[|all| - DIGEST_SIZE..], all[..DIGEST_SIZE])
  {
    assert Zeros(DIGEST_SIZE) == seq(32, _ => 0);
    if proto == ONE {
      var sum := p.sha256(secret);
      assert sum[0..] == sum && sum[..DIGEST_SIZE] == sum;
    }
  }

  function Authenticate(p: Primitives, k: PinKeys, data: seq<byte>): seq<byte> {
    var sum := p.hmac(k.hmac, data);
    if k.proto == ONE then sum[..16] else sum
  }

  /** What an authenticator compares a PIN by. */
  function PinDigest(p: Primitives, pin: seq<byte>): Block {
    p.sha256(pin)[..16]
  }

  function PinHash(p: Primitives, k: PinKeys, random: Option<Block>, pin: seq<byte>): Result<seq<byte>, Problem> {
    if pin == [] then Err(EmptyPin) else Encrypt(p, k, random, PinDigest(p, pin))
  }
}
