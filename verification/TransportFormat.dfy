/** What goes over the wire, byte by byte and block by block: the forms another implementation of the
  * same exchange relies on.
  */
module TransportFormat {
  import opened Wrappers
  import opened Sessions

  // ---------- numbers ----------

  /** The first byte counts most. */
  lemma {:induction false} BigEndian(first: byte, rest: Bytes)
    ensures Number([first] + rest) == first as nat * Power(0x100, |rest|) + Number(rest)
  {
    var b := [first] + rest;
    var high, low := Number(b[..|b| - 1]), b[|b| - 1] as nat;
    assert Number(b) == 0x100 * high + low;
    if rest == [] {
      assert b[..0] == [];
    } else {
      var n := |rest| - 1;
      BigEndian(first, rest[..n]);
      assert b[..|b| - 1] == [first] + rest[..n];
      ShiftUp(first as nat, Power(0x100, n), Number(rest[..n]), rest[n] as nat);
    }
  }

  lemma ShiftUp(first: nat, power: nat, number: nat, low: nat)
    ensures 0x100 * (first * power + number) + low == first * (0x100 * power) + (0x100 * number + low)
  {
  }

  // ---------- the exchange ----------

  /** What a client can check of an answer: it is 128 bytes, and stands for the generator 2 raised to
    * the server's exponent; and the session's key is derived from the 128 bytes of the client's key
    * raised to it.
    */
  lemma AnswerAndKey(derive: Derive, id: string, clientPublic: Bytes, private: nat, shared: Bytes)
    requires private < PRIME && NewSession(derive, id, clientPublic, private).Some?
    requires |shared| == 128 && Number(shared) == Power(Number(clientPublic), private) % PRIME
    ensures var (s, answer) := NewSession(derive, id, clientPublic, private).value;
      && s == Negotiated(id, derive(shared))
      && |answer| == 128 && Number(answer) == Power(2, private) % PRIME
  {
    var pub := Number(clientPublic);
    ModExpIsPower(pub, private, PRIME);
    ModExpIsPower(GENERATOR, private, PRIME);
    PadToPrimeIsNumber(ModExp(pub, private, PRIME));
    PadToPrimeIsNumber(ModExp(GENERATOR, private, PRIME));
    NumberInjective(PadToPrime(ModExp(pub, private, PRIME)), shared);
  }

  /** The modulus has the form of section 6.2 of RFC 2409: its first and last 64 bits are ones. */
  lemma PrimeIsFramed()
    ensures PRIME % 0x1_0000_0000_0000_0000 == 0xFFFF_FFFF_FFFF_FFFF
    ensures PRIME / 0x1000000000000000000000000000000000000000000000000000000000000000000000000000000000000000000000000000000000000000000000000000000000000000000000000000000000000000000000000000000000000000000000000000000000000000000000000000000000000000000000000 == 0xFFFF_FFFF_FFFF_FFFF
  {
  }

  // ---------- padding ----------

  /** Between 1 and 16 bytes, each telling how many, up to a block boundary. */
  lemma PaddingBytes(message: Bytes, i: nat)
    requires |message| <= i < |Padded(message, BLOCK)|
    ensures var p := Padded(message, BLOCK);
      && |p| % 16 == 0 && |message| < |p| <= |message| + 16
      && p[..|message|] == message
      && p[i] as nat == |p| - |message|
  {
    AlignedLength(|message|, BLOCK);
  }

  // ---------- exclusive or ----------

  /** The bit of a number at a place. */
  function Bit(n: nat, place: nat): nat {
    if place == 0 then n % 2 else Bit(n / 2, place - 1)
  }

  /** Bit by bit, a one where exactly one of the two has a one. */
  lemma {:induction false} XorBit(a: nat, b: nat, bits: nat, place: nat)
    requires place < bits
    ensures Bit(XorBits(a, b, bits), place) == if Bit(a, place) != Bit(b, place) then 1 else 0
  {
    XorLow(a, b, bits);
    if place > 0 {
      XorBit(a / 2, b / 2, bits - 1, place - 1);
    }
  }

  lemma XorByte(a: byte, b: byte, place: nat)
    requires place < 8
    ensures Bit(Xor(a, b) as nat, place) == if Bit(a as nat, place) != Bit(b as nat, place) then 1 else 0
  {
    XorBit(a as nat, b as nat, 8, place);
  }

  lemma XorBlockBit(a: Bytes, b: Bytes, i: nat, place: nat)
    requires |a| == |b| && i < |a| && place < 8
    ensures |XorBlock(a, b)| == |a|
    ensures Bit(XorBlock(a, b)[i] as nat, place) == if Bit(a[i] as nat, place) != Bit(b[i] as nat, place) then 1 else 0
  {
    XorByte(a[i], b[i], place);
  }

  // ---------- chaining ----------

  function Blocks(b: Bytes): nat {
    |b| / BLOCK
  }

  /** The block at a place. */
  function BlockAt(b: Bytes, i: nat): (r: Bytes)
    requires i < Blocks(b)
    ensures |r| == BLOCK
  {
    b[i * BLOCK..(i + 1) * BLOCK]
  }

  lemma BlockOfRest(b: Bytes, i: nat)
    requires BLOCK <= |b| && i + 1 < Blocks(b)
    ensures i < Blocks(b[BLOCK..]) && BlockAt(b[BLOCK..], i) == BlockAt(b, i + 1)
  {
  }

  /** Each block sent is the block of the text combined with the one sent before it, the first with
    * the IV, and then encrypted.
    */
  lemma {:induction false} ChainedBlock(c: Cipher, key: Key, iv: Bytes, plain: Bytes, i: nat)
    requires Invertible(c) && |iv| == BLOCK && Aligned(plain) && i < Blocks(plain)
    ensures var sent := Chain(c, key, iv, plain);
      BlockAt(sent, i) == c.enc(key, XorBlock(BlockAt(plain, i), if i == 0 then iv else BlockAt(sent, i - 1)))
    decreases |plain|
  {
    var first := c.enc(key, XorBlock(plain[..BLOCK], iv));
    var rest := Chain(c, key, first, plain[BLOCK..]);
    var sent := first + rest;
    assert Chain(c, key, iv, plain) == sent;
    assert sent[..BLOCK] == first && sent[BLOCK..] == rest;
    if i > 0 {
      ChainedBlock(c, key, first, plain[BLOCK..], i - 1);
      BlockOfRest(plain, i - 1);
      BlockOfRest(sent, i - 1);
      if i > 1 {
        BlockOfRest(sent, i - 2);
      }
    }
  }

  /** And each block read is the block received, decrypted and combined with the one received before. */
  lemma {:induction false} UnchainedBlock(c: Cipher, key: Key, iv: Bytes, sent: Bytes, i: nat)
    requires Invertible(c) && |iv| == BLOCK && Aligned(sent) && i < Blocks(sent)
    ensures BlockAt(Unchain(c, key, iv, sent), i) ==
            XorBlock(c.dec(key, BlockAt(sent, i)), if i == 0 then iv else BlockAt(sent, i - 1))
    decreases |sent|
  {
    var first := XorBlock(c.dec(key, sent[..BLOCK]), iv);
    var rest := Unchain(c, key, sent[..BLOCK], sent[BLOCK..]);
    var plain := first + rest;
    assert Unchain(c, key, iv, sent) == plain;
    assert plain[..BLOCK] == first && plain[BLOCK..] == rest;
    if i > 0 {
      UnchainedBlock(c, key, sent[..BLOCK], sent[BLOCK..], i - 1);
      BlockOfRest(plain, i - 1);
      BlockOfRest(sent, i - 1);
      if i > 1 {
        BlockOfRest(sent, i - 2);
      }
    }
  }

  /** A plain session sends and reads the message itself, without a parameter. */
  lemma PlainIsItself(c: Cipher, id: string, message: Bytes, iv: Bytes, value: Bytes, parameter: Bytes, r: Option<Bytes>)
    requires Invertible(c) && |iv| == BLOCK
    ensures Sends(c, Plain(id), message, iv, value, parameter) <==> value == message && parameter == []
    ensures Reads(c, Plain(id), value, parameter, r) <==> r == Some(value)
  {
  }

  /** What is sent for a message, block by block. */
  lemma SentBlock(c: Cipher, s: Session, message: Bytes, iv: Bytes, value: Bytes, parameter: Bytes, i: nat)
    requires Invertible(c) && |iv| == BLOCK && s.Negotiated? && Sends(c, s, message, iv, value, parameter)
    ensures |value| == |Padded(message, BLOCK)| && parameter == iv
    ensures i < Blocks(value) ==>
      BlockAt(value, i) == c.enc(s.key, XorBlock(BlockAt(Padded(message, BLOCK), i), if i == 0 then parameter else BlockAt(value, i - 1)))
  {
    AlignedLength(|message|, BLOCK);
    if i < Blocks(value) {
      ChainedBlock(c, s.key, iv, Padded(message, BLOCK), i);
    }
  }

  /** What is read of a value, block by block. */
  lemma ReadBlock(c: Cipher, s: Session, value: Bytes, parameter: Bytes, r: Option<Bytes>, i: nat)
    requires Invertible(c) && |parameter| == BLOCK && s.Negotiated? && r.Some? && Reads(c, s, value, parameter, r)
    ensures |value| == |Padded(r.value, BLOCK)|
    ensures i < Blocks(value) ==>
      BlockAt(Padded(r.value, BLOCK), i) == XorBlock(c.dec(s.key, BlockAt(value, i)), if i == 0 then parameter else BlockAt(value, i - 1))
  {
    AlignedLength(|r.value|, BLOCK);
    var plain := Padded(r.value, BLOCK);
    UnchainUndoesChain(c, s.key, parameter, plain);
    if i < Blocks(value) {
      UnchainedBlock(c, s.key, parameter, value, i);
    }
  }
}
