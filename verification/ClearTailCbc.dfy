/** Packet decryption: CBC over the whole blocks of a packet (section 6.2 of NIST SP 800-38A), with
    the bytes after the last whole block sent in the clear. */
module ClearTailCbc {
  import opened Basics

  type Block = b: seq<Byte> | |b| == 16 witness seq(16, _ => 0)

  /** The forward or the inverse cipher function under some key. */
  type BlockFunction = Block -> Block

  ghost predicate Inverts(dec: BlockFunction, enc: BlockFunction) {
    forall b :: dec(enc(b)) == b
  }

  // ---------------------------------------------------------------------------------
  // Exclusive or
  // ---------------------------------------------------------------------------------

  function Pow2(n: nat): nat {
    if n == 0 then 1 else 2 * Pow2(n - 1)
  }

  /** Bitwise exclusive or of two numbers of the given width. */
  function XorBits(a: nat, b: nat, width: nat): nat {
    if width == 0 then 0 else (a + b) % 2 + 2 * XorBits(a / 2, b / 2, width - 1)
  }

  lemma LowBit(a: nat, b: nat, rest: nat)
    ensures ((a + b) % 2 + 2 * rest) / 2 == rest
    ensures ((a + b) % 2 + 2 * rest + b) % 2 == a % 2
  {
  }

  lemma {:induction false} XorBitsCancels(a: nat, b: nat, width: nat)
    requires a < Pow2(width)
    ensures XorBits(a, b, width) < Pow2(width)
    ensures XorBits(XorBits(a, b, width), b, width) == a
  {
    if width > 0 {
      XorBitsCancels(a / 2, b / 2, width - 1);
      LowBit(a, b, XorBits(a / 2, b / 2, width - 1));
    }
  }

  /** Bit i of a number, counted from the lowest. */
  function Bit(n: nat, i: nat): nat {
    if i == 0 then n % 2 else Bit(n / 2, i - 1)
  }

  lemma OddSum(a: nat, b: nat, rest: nat)
    ensures ((a + b) % 2 + 2 * rest) % 2 == if a % 2 != b % 2 then 1 else 0
  {
  }

  /** Bit by bit it is exclusive or: a bit is set exactly where the two numbers differ. */
  lemma {:induction false} XorBitsIsExclusiveOr(a: nat, b: nat, width: nat, i: nat)
    requires i < width
    ensures Bit(XorBits(a, b, width), i) == if Bit(a, i) != Bit(b, i) then 1 else 0
  {
    var rest := XorBits(a / 2, b / 2, width - 1);
    if i == 0 {
      OddSum(a, b, rest);
    } else {
      LowBit(a, b, rest);
      XorBitsIsExclusiveOr(a / 2, b / 2, width - 1, i - 1);
    }
  }

  lemma HalfIsNarrower(a: nat, width: nat)
    requires a < Pow2(width) && width > 0
    ensures a / 2 < Pow2(width - 1) && a == a % 2 + 2 * (a / 2)
  {
  }

  /** And the bits determine the number. */
  lemma {:induction false} SameBits(a: nat, b: nat, width: nat)
    requires a < Pow2(width) && b < Pow2(width)
    requires forall i: nat :: i < width ==> Bit(a, i) == Bit(b, i)
    ensures a == b
  {
    if width > 0 {
      HalfIsNarrower(a, width);
      HalfIsNarrower(b, width);
      assert Bit(a, 0) == Bit(b, 0);
      forall i: nat | i < width - 1
        ensures Bit(a / 2, i) == Bit(b / 2, i)
      {
        assert Bit(a, i + 1) == Bit(b, i + 1);
      }
      SameBits(a / 2, b / 2, width - 1);
    }
  }

  function Xor(a: Byte, b: Byte): Byte {
    assert Pow2(8) == 256;
    XorBitsCancels(a, b, 8);
    XorBits(a, b, 8)
  }

  function XorBlocks(a: Block, b: Block): Block {
    seq<Byte>(16, i requires 0 <= i < 16 => Xor(a[i], b[i]))
  }

  /** Byte by byte and bit by bit, a block is combined with another by exclusive or. */
  lemma XorBlocksIsExclusiveOr(a: Block, b: Block, k: nat, i: nat)
    requires k < 16 && i < 8
    ensures Bit(XorBlocks(a, b)[k], i) == if Bit(a[k], i) != Bit(b[k], i) then 1 else 0
  {
    XorBitsIsExclusiveOr(a[k], b[k], 8, i);
  }

  lemma XorBlocksCancels(a: Block, b: Block)
    ensures XorBlocks(XorBlocks(a, b), b) == a
  {
    forall i | 0 <= i < 16
      ensures XorBlocks(XorBlocks(a, b), b)[i] == a[i]
    {
      assert Pow2(8) == 256;
      XorBitsCancels(a[i], b[i], 8);
    }
  }

  // ---------------------------------------------------------------------------------
  // Cipher block chaining
  // ---------------------------------------------------------------------------------

  function CbcEncrypt(enc: BlockFunction, iv: Block, plain: seq<Byte>): (c: seq<Byte>)
    requires |plain| % 16 == 0
    ensures |c| == |plain|
    decreases |plain|
  {
    if plain == [] then []
    else
      var c: Block := enc(XorBlocks(plain[..16], iv));
      c + CbcEncrypt(enc, c, plain[16..])
  }

  function CbcDecrypt(dec: BlockFunction, iv: Block, cipher: seq<Byte>): (p: seq<Byte>)
    requires |cipher| % 16 == 0
    ensures |p| == |cipher|
    decreases |cipher|
  {
    if cipher == [] then []
    else XorBlocks(dec(cipher[..16]), iv) + CbcDecrypt(dec, cipher[..16], cipher[16..])
  }

  lemma {:induction false} CbcRoundTrip(enc: BlockFunction, dec: BlockFunction, iv: Block, plain: seq<Byte>)
    requires Inverts(dec, enc) && |plain| % 16 == 0
    ensures CbcDecrypt(dec, iv, CbcEncrypt(enc, iv, plain)) == plain
    decreases |plain|
  {
    if plain != [] {
      var p: Block := plain[..16];
      var c: Block := enc(XorBlocks(p, iv));
      var rest := CbcEncrypt(enc, c, plain[16..]);
      assert (c + rest)[..16] == c && (c + rest)[16..] == rest;
      XorBlocksCancels(p, iv);
      CbcRoundTrip(enc, dec, c, plain[16..]);
    }
  }

  /** Block j of a text. */
  function BlockAt(text: seq<Byte>, j: nat): Block
    requires 16 * j + 16 <= |text|
  {
    text[16 * j..16 * j + 16]
  }

  lemma BlocksShift(first: Block, rest: seq<Byte>, j: nat)
    requires 0 < j && 16 * j <= |rest|
    ensures BlockAt(first + rest, 0) == first && BlockAt(first + rest, j) == BlockAt(rest, j - 1)
  {
    assert BlockAt(first + rest, j) == rest[16 * j - 16..16 * j];
  }

  /** Section 6.2 of NIST SP 800-38A: each plaintext block is the inverse cipher of its ciphertext block,
      combined with the ciphertext block before it, or with the initialization vector. */
  lemma {:induction false} CbcBlock(dec: BlockFunction, iv: Block, cipher: seq<Byte>, j: nat)
    requires |cipher| % 16 == 0 && 16 * j + 16 <= |cipher|
    ensures BlockAt(CbcDecrypt(dec, iv, cipher), j) ==
            XorBlocks(dec(BlockAt(cipher, j)), if j == 0 then iv else BlockAt(cipher, j - 1))
    decreases j
  {
    if j > 0 {
      var first: Block, rest := cipher[..16], cipher[16..];
      CbcBlock(dec, first, rest, j - 1);
      assert cipher == first + rest;
      BlocksShift(first, rest, j);
      if j > 1 {
        BlocksShift(first, rest, j - 1);
      }
      BlocksShift(XorBlocks(dec(first), iv), CbcDecrypt(dec, first, rest), j);
    }
  }

  // ---------------------------------------------------------------------------------
  // Zero padding
  // ---------------------------------------------------------------------------------

  /** How many bytes are left when trailing zeros are dropped. */
  function Significant(b: seq<Byte>): (n: nat)
    ensures n <= |b|
    ensures n > 0 ==> b[n - 1] != 0
    ensures forall i :: n <= i < |b| ==> b[i] == 0
  {
    if b == [] then 0
    else if b[|b| - 1] != 0 then |b|
    else Significant(b[..|b| - 1])
  }

  lemma SignificantReaches(b: seq<Byte>, t: nat)
    ensures Significant(b) >= t <==> t == 0 || exists i :: t - 1 <= i < |b| && b[i] != 0
  {
    var n := Significant(b);
    if t != 0 && n >= t {
      assert b[n - 1] != 0;
    }
  }

  /** Zero unpadding looks at the last block only. */
  function Unpad(p: seq<Byte>): seq<Byte>
    requires |p| >= 16
  {
    p[..|p| - 16 + Significant(p[|p| - 16..])]
  }

  lemma UnpadLast(before: seq<Byte>, last: Block)
    ensures Unpad(before + last) == before + last[..Significant(last)]
  {
    assert (before + last)[|before + last| - 16..] == last;
  }

  // ---------------------------------------------------------------------------------
  // The player's side
  // ---------------------------------------------------------------------------------

  function WholeBlocks(len: nat): (whole: nat)
    ensures whole == len - len % 16
    ensures whole % 16 == 0
  {
    len / 16 * 16
  }

  function Zeros(n: nat): (z: seq<Byte>)
    ensures |z| == n && forall i :: 0 <= i < n ==> z[i] == 0
  {
    seq<Byte>(n, _ => 0)
  }

  /** The block that the clear tail and the appended zeros decrypt to. */
  function TailBlock(dec: BlockFunction, iv: Block, packet: seq<Byte>): Block {
    var whole := WholeBlocks(|packet|);
    var before: Block := if whole == 0 then iv else packet[whole - 16..whole];
    var last: Block := packet[whole..] + Zeros(16 - |packet| % 16);
    XorBlocks(dec(last), before)
  }

  /** A packet as the decoder gets to see it: the whole blocks decrypted, the clear tail as it
      came, and what unpadding has left of the block behind it. None is a panic: unpadding has eaten
      into the tail, so that it cannot be copied over. */
  function Decrypted(dec: BlockFunction, iv: Block, packet: seq<Byte>): (r: Option<seq<Byte>>)
    ensures r.Some? ==> |packet| <= |r.value| <= WholeBlocks(|packet|) + 16
  {
    var whole, tail := WholeBlocks(|packet|), TailBlock(dec, iv, packet);
    if Significant(tail) < |packet| % 16 then None
    else Some(CbcDecrypt(dec, iv, packet[..whole]) + packet[whole..] + tail[|packet| % 16..Significant(tail)])
  }

  /** Decryption succeeds exactly when there is no tail, or the block that the padded tail decrypts
      to has a byte other than zero at or after the last position of the tail. */
  lemma DecryptionSucceedsExactlyWhen(dec: BlockFunction, iv: Block, packet: seq<Byte>)
    ensures Decrypted(dec, iv, packet).Some? <==>
            |packet| % 16 == 0 || exists i :: |packet| % 16 - 1 <= i < 16 && TailBlock(dec, iv, packet)[i] != 0
  {
    SignificantReaches(TailBlock(dec, iv, packet), |packet| % 16);
  }

  /** Decrypting the padded packet: the whole blocks come out as if there were no padding, and one
      more block comes out of the tail. */
  lemma PaddedDecryption(dec: BlockFunction, iv: Block, packet: seq<Byte>, padded: seq<Byte>)
    requires |padded| == WholeBlocks(|packet|) + 16
    requires padded == packet + Zeros(16 - |packet| % 16)
    ensures CbcDecrypt(dec, iv, padded) ==
            CbcDecrypt(dec, iv, packet[..WholeBlocks(|packet|)]) + TailBlock(dec, iv, packet)
  {
    var whole := WholeBlocks(|packet|);
    assert padded == packet[..whole] + (packet[whole..] + Zeros(16 - |packet| % 16));
    CbcDecryptSplit(dec, iv, packet[..whole], packet[whole..] + Zeros(16 - |packet| % 16));
  }

  lemma {:induction false} CbcDecryptSplit(dec: BlockFunction, iv: Block, cipher: seq<Byte>, last: Block)
    requires |cipher| % 16 == 0
    ensures CbcDecrypt(dec, iv, cipher + last) ==
            CbcDecrypt(dec, iv, cipher) +
            XorBlocks(dec(last), if cipher == [] then iv else cipher[|cipher| - 16..])
    decreases |cipher|
  {
    if cipher == [] {
      assert cipher + last == last;
      assert last[..16] == last && last[16..] == [];
    } else {
      assert (cipher + last)[..16] == cipher[..16];
      assert (cipher + last)[16..] == cipher[16..] + last;
      CbcDecryptSplit(dec, cipher[..16], cipher[16..], last);
    }
  }

  /** Unpadding the decryption and copying the clear tail into it. */
  lemma CopyingTheTail(dec: BlockFunction, iv: Block, packet: seq<Byte>, padded: seq<Byte>)
    requires |padded| == WholeBlocks(|packet|) + 16
    requires padded == packet + Zeros(16 - |packet| % 16)
    ensures var u := Unpad(CbcDecrypt(dec, iv, padded));
            Decrypted(dec, iv, packet) ==
            if |u| < |packet| then None
            else Some(u[..WholeBlocks(|packet|)] + packet[WholeBlocks(|packet|)..] + u[|packet|..])
  {
    var whole, tail := WholeBlocks(|packet|), TailBlock(dec, iv, packet);
    var head := CbcDecrypt(dec, iv, packet[..whole]);
    var u := Unpad(CbcDecrypt(dec, iv, padded));
    PaddedDecryption(dec, iv, packet, padded);
    UnpadLast(head, tail);
    assert u == head + tail[..Significant(tail)];
    if |u| >= |packet| {
      assert u[..whole] == head;
      assert u[|packet|..] == tail[|packet| % 16..Significant(tail)];
    }
  }

  lemma UnpaddedBytes(p: seq<Byte>, k: nat)
    requires |p| >= 16 && k < |p|
    ensures |p| - 16 <= |Unpad(p)| <= |p|
    ensures (if k < |Unpad(p)| then Unpad(p)[k] else 0) == p[k]
    ensures |Unpad(p)| > |p| - 16 ==> Unpad(p)[|Unpad(p)| - 1] != 0
  {
    var last := p[|p| - 16..];
    if k >= |Unpad(p)| {
      assert last[k - (|p| - 16)] == 0;
    }
  }

  /** The bytes of a text into which a stretch of the packet has been copied. */
  lemma CopiedBytes(u: seq<Byte>, packet: seq<Byte>, whole: nat, r: seq<Byte>, k: nat)
    requires whole <= |packet| <= |u| && r == u[..whole] + packet[whole..] + u[|packet|..]
    ensures |r| == |u|
    ensures k < |r| ==> r[k] == if whole <= k < |packet| then packet[k] else u[k]
    ensures |r| > |packet| ==> r[|r| - 1] == u[|u| - 1]
  {
  }

  /** Every byte of the result: the clear tail as it came, everything else as CBC decrypts the packet
      padded with zeros, and beyond the end of the result only zeros. */
  lemma DecryptedByteByByte(dec: BlockFunction, iv: Block, packet: seq<Byte>, padded: seq<Byte>, k: nat)
    requires padded == packet + Zeros(16 - |packet| % 16) && k < |padded|
    requires Decrypted(dec, iv, packet).Some?
    ensures |padded| == |packet| / 16 * 16 + 16
    ensures var r := Decrypted(dec, iv, packet).value;
            && |packet| <= |r| <= |padded|
            && (if k < |r| then r[k] else 0) ==
               (if |packet| / 16 * 16 <= k < |packet| then packet[k] else CbcDecrypt(dec, iv, padded)[k])
            && (|r| > |packet| ==> r[|r| - 1] != 0)
  {
    PaddedLength(packet, padded);
    var plain := CbcDecrypt(dec, iv, padded);
    var r := Decrypted(dec, iv, packet).value;
    assert |packet| <= |Unpad(plain)| && r == Unpad(plain)[..WholeBlocks(|packet|)] + packet[WholeBlocks(|packet|)..] +
                                              Unpad(plain)[|packet|..] by {
      CopyingTheTail(dec, iv, packet, padded);
    }
    UnpaddedBytes(plain, k);
    CopiedBytes(Unpad(plain), packet, WholeBlocks(|packet|), r, k);
  }

  lemma PaddedLength(packet: seq<Byte>, padded: seq<Byte>)
    requires padded == packet + Zeros(16 - |packet| % 16)
    ensures |padded| == |packet| / 16 * 16 + 16 == WholeBlocks(|packet|) + 16
    ensures |padded| % 16 == 0
  {
  }

  /** The slice that is decrypted lies within the buffer. */
  lemma PaddedBuffer(packet: seq<Byte>)
    ensures var be := 16 * (|packet| / 16) + 16;
            && be == WholeBlocks(|packet|) + 16 <= |packet + Zeros(16)|
            && (packet + Zeros(16))[..be] == packet + Zeros(16 - |packet| % 16)
  {
  }

  method DecryptPacket(dec: BlockFunction, iv: Block, packet: seq<Byte>) returns (result: Option<seq<Byte>>)
    ensures result == Decrypted(dec, iv, packet)
  {
    var buffer := packet + Zeros(16);
    var len := |packet|;
    var aeslen := len - len % 16;
    var be := 16 * (len / 16) + 16;
    PaddedBuffer(packet);
    var plain := CbcDecrypt(dec, iv, buffer[..be]);
    var unpadded := Unpad(plain);
    CopyingTheTail(dec, iv, packet, buffer[..be]);
    if |unpadded| < len {
      return None;
    }
    assert packet[aeslen..len] == packet[aeslen..];
    return Some(unpadded[..aeslen] + packet[aeslen..len] + unpadded[len..]);
  }

  // ---------------------------------------------------------------------------------
  // The sender's side
  // ---------------------------------------------------------------------------------

  function EncryptPacket(enc: BlockFunction, iv: Block, plain: seq<Byte>): seq<Byte> {
    CbcEncrypt(enc, iv, plain[..WholeBlocks(|plain|)]) + plain[WholeBlocks(|plain|)..]
  }

  /** What a sender encrypts the player reads back: whenever it does not panic, what it hands to the
      decoder starts with the plaintext. */
  lemma ClearTailRoundTrip(enc: BlockFunction, dec: BlockFunction, iv: Block, plain: seq<Byte>)
    requires Inverts(dec, enc)
    ensures |EncryptPacket(enc, iv, plain)| == |plain|
    ensures var r := Decrypted(dec, iv, EncryptPacket(enc, iv, plain));
            && (|plain| % 16 == 0 ==> r.Some?)
            && (r.Some? ==> plain <= r.value)
  {
    var whole := WholeBlocks(|plain|);
    var packet := EncryptPacket(enc, iv, plain);
    assert packet[..whole] == CbcEncrypt(enc, iv, plain[..whole]);
    assert packet[whole..] == plain[whole..];
    CbcRoundTrip(enc, dec, iv, plain[..whole]);
    assert plain[..whole] + plain[whole..] == plain;
  }

  lemma DoubleIsEven(a: nat)
    ensures (a + a) % 2 == 0
  {
    assert a + a == 2 * a;
  }

  lemma {:induction false} XorBitsWithItself(a: nat, width: nat)
    ensures XorBits(a, a, width) == 0
  {
    if width > 0 {
      DoubleIsEven(a);
      XorBitsWithItself(a / 2, width - 1);
    }
  }

  /** A tail that decrypts to the block before it leaves nothing to unpad. */
  lemma TailEqualToBlockBefore(dec: BlockFunction, iv: Block, packet: seq<Byte>, tail: seq<Byte>, before: Block)
    requires 0 < |tail| < 16 && |packet| % 16 == |tail| && packet[WholeBlocks(|packet|)..] == tail
    requires dec(tail + Zeros(16 - |tail|)) == before
    requires before == if WholeBlocks(|packet|) == 0 then iv
                       else packet[WholeBlocks(|packet|) - 16..WholeBlocks(|packet|)]
    ensures Decrypted(dec, iv, packet) == None
  {
    forall i | 0 <= i < 16
      ensures TailBlock(dec, iv, packet)[i] == 0
    {
      XorBitsWithItself(before[i], 8);
    }
  }

  /** The panic can be met under every key and for every clear tail: for a packet shorter than a
      block with one initialization vector, which the announcement brings along, and for a longer one,
      under any vector and after any blocks, with one block before the tail. */
  lemma EveryKeyHasPanickingPackets(dec: BlockFunction, iv: Block, head: seq<Byte>, tail: seq<Byte>)
    requires |head| % 16 == 0 && 0 < |tail| < 16
    ensures var block := dec(tail + Zeros(16 - |tail|));
            && Decrypted(dec, block, tail) == None
            && Decrypted(dec, iv, head + block + tail) == None
  {
    var block := dec(tail + Zeros(16 - |tail|));
    var packet := head + block + tail;
    assert tail[0..] == tail;
    TailEqualToBlockBefore(dec, block, tail, tail, block);
    assert WholeBlocks(|packet|) == |head| + 16;
    assert packet[|head| + 16..] == tail && packet[|head|..|head| + 16] == block;
    TailEqualToBlockBefore(dec, iv, packet, tail, block);
  }
}
