/** Counter mode (section 6.5 of NIST SP 800-38A) over a block cipher that is left open, and the
    `Encryption` object that resynchronises it for every message. */
module Ctr {
  import opened Bytes
  import Modular

  const BLOCK: nat := 16

  type Block = b: seq<byte> | |b| == 16 witness seq(16, _ => 0)

  type BlockCipher = Block -> Block

  /** The counter block after `b`: add one at the last byte and carry towards the first. */
  function Increment(b: seq<byte>): (r: seq<byte>)
    ensures |r| == |b|
  {
    if b == [] then []
    else
      var n := |b| - 1;
      if b[n] != 255 then b[..n] + [b[n] + 1] else Increment(b[..n]) + [0]
  }

  function BigEndian(b: seq<byte>): nat {
    if b == [] then 0 else 256 * BigEndian(b[..|b| - 1]) + b[|b| - 1] as nat
  }

  function Power256(n: nat): (r: nat)
    ensures r > 0
  {
    if n == 0 then 1 else 256 * Power256(n - 1)
  }

  lemma {:induction false} BigEndianBound(b: seq<byte>)
    ensures BigEndian(b) < Power256(|b|)
  {
    if b == [] {
    } else {
      BigEndianBound(b[..|b| - 1]);
    }
  }

  /** Most significant byte first. */
  lemma {:induction false} BigEndianConcat(a: seq<byte>, b: seq<byte>)
    ensures BigEndian(a + b) == BigEndian(a) * Power256(|b|) + BigEndian(b)
    decreases |b|
  {
    if b == [] {
      assert a + b == a;
    } else {
      var n := |b| - 1;
      assert a + b == (a + b[..n]) + [b[n]];
      BigEndianConcat(a, b[..n]);
      BigEndianSnoc(a + b[..n], b[n]);
      Shift(BigEndian(a), Power256(n), BigEndian(b[..n]));
    }
  }

  lemma Shift(high: nat, size: nat, low: nat)
    ensures 256 * (high * size + low) == high * (256 * size) + 256 * low
  {}

  lemma BigEndianSnoc(b: seq<byte>, low: byte)
    ensures BigEndian(b + [low]) == 256 * BigEndian(b) + low as nat
  {
    assert (b + [low])[..|b|] == b;
  }

  /** The incrementing function of Appendix B.1 of NIST SP 800-38A: plus one, modulo 2 to the number of bits. */
  lemma {:induction false} IncrementIsPlusOne(b: seq<byte>)
    ensures BigEndian(Increment(b)) == (BigEndian(b) + 1) % Power256(|b|)
  {
    hide BigEndian;
    if b == [] {
      Modular.SmallMod(0, 1);
      EmptyNumber();
    } else {
      var n := |b| - 1;
      var front, low := b[..n], b[n];
      assert b == front + [low];
      var size := Power256(n);
      if low != 255 {
        NoCarry(front, low, size);
      } else {
        IncrementIsPlusOne(front);
        BigEndianSnoc(front, low);
        BigEndianSnoc(Increment(front), 0);
        BigEndianBound(front);
        CarryOut(BigEndian(front), size);
      }
    }
  }

  lemma NoCarry(front: seq<byte>, low: byte, size: nat)
    requires low != 255 && size == Power256(|front|)
    ensures BigEndian(front + [low + 1]) == (BigEndian(front + [low]) + 1) % (256 * size)
  {
    hide BigEndian, Power256;
    BigEndianBound(front);
    BigEndianSnoc(front, low);
    BigEndianSnoc(front, low + 1);
    Modular.SmallMod(BigEndian(front + [low + 1]), 256 * size);
  }

  lemma EmptyNumber()
    ensures BigEndian([]) == 0
  {}

  lemma CarryOut(high: nat, size: nat)
    requires high < size
    ensures 256 * ((high + 1) % size) == (256 * high + 255 + 1) % (256 * size)
  {
    if high + 1 < size {
      Modular.SmallMod(high + 1, size);
      Modular.SmallMod(256 * (high + 1), 256 * size);
    } else {
      Modular.DivModUnique(size, size, 1, 0);
      Modular.DivModUnique(256 * size, 256 * size, 1, 0);
    }
  }

  /** The counter block for block number `k` of a message. */
  function CounterAt(iv: Block, k: nat): Block {
    if k == 0 then iv else Increment(CounterAt(iv, k - 1))
  }

  lemma NextCounter(iv: Block, k: nat)
    ensures CounterAt(iv, k + 1) == Increment(CounterAt(iv, k))
  {}

  lemma {:induction false} CounterValue(iv: Block, k: nat, wrap: nat)
    requires wrap == Power256(|iv|)
    ensures BigEndian(CounterAt(iv, k)) == (BigEndian(iv) + k) % wrap
  {
    hide Power256, BigEndian, Increment;
    if k == 0 {
      BigEndianBound(iv);
      Modular.SmallMod(BigEndian(iv), wrap);
    } else {
      CounterValue(iv, k - 1, wrap);
      IncrementIsPlusOne(CounterAt(iv, k - 1));
      Modular.AddMod(BigEndian(iv) + (k - 1), 1, wrap);
    }
  }

  /** No counter block is used twice within 2^128 blocks of a message, whatever the IV. */
  lemma CountersDistinct(iv: Block, j: nat, k: nat, wrap: nat)
    requires wrap == Power256(|iv|) && j < k < j + wrap
    ensures CounterAt(iv, j) != CounterAt(iv, k)
  {
    hide Power256, BigEndian, CounterAt;
    CounterValue(iv, j, wrap);
    CounterValue(iv, k, wrap);
    Modular.DistinctSlots(BigEndian(iv) + j, BigEndian(iv) + k, wrap);
  }

  /** Byte `pos` of the key stream. */
  function KeyByte(cipher: BlockCipher, iv: Block, pos: nat): byte {
    cipher(CounterAt(iv, pos / BLOCK))[pos % BLOCK]
  }

  /** The data against the key stream from `pos` on; the same for encryption and decryption. */
  function Crypt(cipher: BlockCipher, iv: Block, pos: nat, data: seq<byte>): (r: seq<byte>)
    ensures |r| == |data|
  {
    seq(|data|, i requires 0 <= i < |data| => data[i] ^ KeyByte(cipher, iv, pos + i))
  }

  /** The key stream cancels. */
  lemma CryptCancels(cipher: BlockCipher, iv: Block, pos: nat, data: seq<byte>)
    ensures Crypt(cipher, iv, pos, Crypt(cipher, iv, pos, data)) == data
  {}

  /** A stream may be processed in pieces, as long as it is not resynchronised between them. */
  lemma CryptSplits(cipher: BlockCipher, iv: Block, pos: nat, a: seq<byte>, b: seq<byte>)
    ensures Crypt(cipher, iv, pos, a + b) == Crypt(cipher, iv, pos, a) + Crypt(cipher, iv, pos + |a|, b)
  {}

  function XorBlock(data: seq<byte>, key: Block): seq<byte>
    requires |data| <= 16
  {
    seq(|data|, i requires 0 <= i < |data| => data[i] ^ key[i])
  }

  /** Counter mode as section 6.5 of NIST SP 800-38A writes it: block by block, the last one possibly short. */
  function CtrBlocks(cipher: BlockCipher, counter: Block, data: seq<byte>): seq<byte>
    decreases |data|
  {
    if |data| <= 16 then XorBlock(data, cipher(counter))
    else XorBlock(data[..16], cipher(counter)) + CtrBlocks(cipher, Increment(counter), data[16..])
  }

  lemma {:induction false} CryptIsCtr(cipher: BlockCipher, iv: Block, k: nat, data: seq<byte>)
    ensures Crypt(cipher, iv, 16 * k, data) == CtrBlocks(cipher, CounterAt(iv, k), data)
    decreases |data|
  {
    hide Crypt, XorBlock, Increment, KeyByte;
    if |data| <= 16 {
      OneBlock(cipher, iv, k, data);
    } else {
      OneBlock(cipher, iv, k, data[..16]);
      CryptIsCtr(cipher, iv, k + 1, data[16..]);
      CryptSplits(cipher, iv, 16 * k, data[..16], data[16..]);
      assert data == data[..16] + data[16..];
    }
  }

  lemma OneBlock(cipher: BlockCipher, iv: Block, k: nat, data: seq<byte>)
    requires |data| <= 16
    ensures Crypt(cipher, iv, 16 * k, data) == XorBlock(data, cipher(CounterAt(iv, k)))
  {
    var one := Crypt(cipher, iv, 16 * k, data);
    forall i | 0 <= i < |data|
      ensures one[i] == data[i] ^ cipher(CounterAt(iv, k))[i]
    {
      assert (16 * k + i) / 16 == k && (16 * k + i) % 16 == i;
    }
  }

  /** A counter-mode object: the next counter block, the present key-stream block and how much of it is used up.
      `iv` and `pos` record where the stream started and how far it has come. */
  class CtrMode {
    const cipher: BlockCipher
    var counter: Block
    var keyStream: Block
    var used: nat
    ghost var iv: Block
    ghost var pos: nat

    ghost predicate Valid()
      reads this
    {
      && used <= 16
      && (used == 16 ==> pos % BLOCK == 0 && counter == CounterAt(iv, pos / BLOCK))
      && (used < 16 ==>
            && pos % BLOCK == used
            && keyStream == cipher(CounterAt(iv, pos / BLOCK))
            && counter == CounterAt(iv, pos / BLOCK + 1))
    }

    constructor (cipher: BlockCipher, iv: Block)
      ensures Valid() && this.cipher == cipher && this.iv == iv && pos == 0
    {
      this.cipher := cipher;
      counter := iv;
      keyStream := iv;
      used := 16;
      this.iv := iv;
      pos := 0;
    }

    /** Starts a new stream, whatever was processed before. */
    method Resynchronize(iv: Block)
      modifies this
      ensures Valid() && this.iv == iv && pos == 0
    {
      counter := iv;
      used := 16;
      this.iv := iv;
      pos := 0;
    }

    method NextByte() returns (k: byte)
      requires Valid()
      modifies this
      ensures Valid() && iv == old(iv) && pos == old(pos) + 1
      ensures k == KeyByte(cipher, iv, old(pos))
    {
      hide CounterAt, Increment;
      if used == 16 {
        keyStream := cipher(counter);
        NextCounter(iv, pos / BLOCK);
        counter := Increment(counter);
        used := 0;
      }
      k := keyStream[used];
      used := used + 1;
      pos := pos + 1;
    }

    /** Continues the present stream over `length` bytes, writing the result in place. */
    method ProcessData(output: array<byte>, input: seq<byte>, length: nat)
      requires Valid() && length <= output.Length && length <= |input|
      modifies this, output
      ensures Valid() && iv == old(iv) && pos == old(pos) + length
      ensures output[..length] == Crypt(cipher, iv, old(pos), input[..length])
      ensures output[length..] == old(output[length..])
    {
      hide CounterAt, KeyByte, Valid;
      ghost var start := pos;
      for i := 0 to length
        invariant Valid() && iv == old(iv) && pos == start + i
        invariant forall j | 0 <= j < i :: output[j] == input[j] ^ KeyByte(cipher, iv, start + j)
        invariant forall j | length <= j < output.Length :: output[j] == old(output[j])
      {
        var k := NextByte();
        output[i] := input[i] ^ k;
      }
    }
  }

  /** One key, one IV buffer, and one counter-mode object for each direction. */
  class Encryption {
    const cipher: BlockCipher
    const encryptor: CtrMode
    const decryptor: CtrMode
    var iv: Block

    ghost predicate Valid()
      reads this, encryptor, decryptor
    {
      && encryptor != decryptor
      && encryptor.cipher == cipher && encryptor.Valid()
      && decryptor.cipher == cipher && decryptor.Valid()
    }

    constructor (cipher: BlockCipher, initialIV: Block)
      ensures Valid() && this.cipher == cipher && iv == initialIV
      ensures fresh(encryptor) && fresh(decryptor)
    {
      this.cipher := cipher;
      iv := initialIV;
      encryptor := new CtrMode(cipher, initialIV);
      decryptor := new CtrMode(cipher, initialIV);
    }

    method GetIV() returns (r: Block)
      ensures r == iv
    {
      r := iv;
    }

    /** Encrypts from the start of a new stream under a newly drawn IV, which `GetIV` then gives. */
    method Encrypt(plain: seq<byte>, cipherText: array<byte>, drawn: Block)
      requires Valid() && cipherText.Length == |plain|
      modifies this, encryptor, cipherText
      ensures Valid() && iv == drawn
      ensures cipherText[..] == Crypt(cipher, drawn, 0, plain)
    {
      iv := drawn;
      encryptor.Resynchronize(iv);
      encryptor.ProcessData(cipherText, plain, |plain|);
      assert cipherText[..] == cipherText[..|plain|] && plain[..|plain|] == plain;
    }

    /** Decrypts as many bytes as `recovered` holds; earlier messages, of anybody, leave no trace in the result. */
    method Decrypt(recovered: array<byte>, cipherText: seq<byte>, iv: Block)
      requires Valid() && recovered.Length <= |cipherText|
      modifies decryptor, recovered
      ensures Valid()
      ensures recovered[..] == Crypt(cipher, iv, 0, cipherText[..recovered.Length])
    {
      decryptor.Resynchronize(iv);
      decryptor.ProcessData(recovered, cipherText, recovered.Length);
      assert recovered[..] == recovered[..recovered.Length];
    }
  }
}
