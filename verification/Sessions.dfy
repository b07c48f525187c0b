/** The transport of secrets: a Diffie-Hellman exchange in the group of section 6.2 of RFC 2409,
  * and a block cipher in chaining mode over the padding of section 6.3 of RFC 5652.
  */
module Sessions {
  import opened Wrappers

  newtype byte = x: int | 0 <= x < 0x100

  type Bytes = seq<byte>

  // ---------- big-endian numbers of fixed width ----------

  /** The number a byte string stands for, leading zeros or not. */
  function Number(b: Bytes): nat {
    if b == [] then 0 else 0x100 * Number(b[..|b| - 1]) + b[|b| - 1] as nat
  }

  function Power(base: nat, exponent: nat): (r: nat)
    ensures base > 0 ==> r > 0
  {
    if exponent == 0 then 1 else base * Power(base, exponent - 1)
  }

  /** A number in exactly `width` bytes, zeros on the left. */
  function FixedWidth(n: nat, width: nat): (b: Bytes)
    requires n < Power(0x100, width)
    ensures |b| == width
  {
    if width == 0 then []
    else
      FixedWidth(n / 0x100, width - 1) + [(n % 0x100) as byte]
  }

  lemma {:induction false} FixedWidthIsNumber(n: nat, width: nat)
    requires n < Power(0x100, width)
    ensures Number(FixedWidth(n, width)) == n
  {
    if width > 0 {
      var b := FixedWidth(n / 0x100, width - 1);
      FixedWidthIsNumber(n / 0x100, width - 1);
      assert (b + [(n % 0x100) as byte])[..width - 1] == b;
    }
  }

  lemma {:induction false} NumberBound(b: Bytes)
    ensures Number(b) < Power(0x100, |b|)
  {
    if b != [] {
      NumberBound(b[..|b| - 1]);
    }
  }

  /** Two strings of one width that stand for one number are one string. */
  lemma {:induction false} NumberInjective(a: Bytes, b: Bytes)
    requires |a| == |b| && Number(a) == Number(b)
    ensures a == b
  {
    if a != [] {
      var m := |a| - 1;
      LastByte(a);
      LastByte(b);
      NumberInjective(a[..m], b[..m]);
      assert a == a[..m] + [a[m]] && b == b[..m] + [b[m]];
    }
  }

  lemma HighAndLow(high: nat, low: nat)
    requires low < 0x100
    ensures (0x100 * high + low) % 0x100 == low && (0x100 * high + low) / 0x100 == high
  {
  }

  lemma LastByte(b: Bytes)
    requires b != []
    ensures b[|b| - 1] as nat == Number(b) % 0x100 && Number(b[..|b| - 1]) == Number(b) / 0x100
  {
    var high, low := Number(b[..|b| - 1]), b[|b| - 1] as nat;
    assert Number(b) == 0x100 * high + low;
    HighAndLow(high, low);
  }

  // ---------- the group ----------

  const PRIME: nat := 0xFFFFFFFFFFFFFFFFC90FDAA22168C234C4C6628B80DC1CD129024E088A67CC74020BBEA63B139B22514A08798E3404DDEF9519B3CD3A431B302B0A6DF25F14374FE1356D6D51C245E485B576625E7EC6F44C42E9A637ED6B0BFF5CB6F406B7EDEE386BFB5A899FA5AE9F24117C4B1FE649286651ECE65381FFFFFFFFFFFFFFFF
  const GENERATOR: nat := 2
  const WIDTH: nat := 128

  lemma {:induction false} PowerAdd(base: nat, m: nat, n: nat)
    ensures Power(base, m + n) == Power(base, m) * Power(base, n)
  {
    if m == 0 {
      assert Power(base, n) == 1 * Power(base, n);
    } else {
      PowerAdd(base, m - 1, n);
      assert Power(base, m + n) == base * Power(base, m - 1 + n);
      assert base * (Power(base, m - 1) * Power(base, n)) == (base * Power(base, m - 1)) * Power(base, n);
    }
  }

  lemma {:induction false} PowerPower(base: nat, m: nat, n: nat)
    ensures Power(Power(base, m), n) == Power(base, m * n)
  {
    if n == 0 {
      assert m * n == 0;
    } else {
      PowerPower(base, m, n - 1);
      PowerAdd(base, m, m * (n - 1));
      assert m + m * (n - 1) == m * n;
    }
  }

  lemma PowerTwice(n: nat, r: nat)
    requires Power(0x100, n) == r
    ensures Power(0x100, 2 * n) == r * r
  {
    PowerAdd(0x100, n, n);
  }

  lemma Power32(r: nat)
    requires r == 0x1_0000_0000_0000_0000
    ensures Power(0x100, 32) == r * r * (r * r)
  {
    assert Power(0x100, 8) == r;
    PowerTwice(8, r);
    PowerTwice(16, r * r);
  }

  // The number of strings of 32 bytes.
  const SPACE: nat := 0x10000000000000000000000000000000000000000000000000000000000000000

  lemma Power128(width: nat)
    requires width == WIDTH
    ensures Power(0x100, width) == SPACE * SPACE * (SPACE * SPACE)
  {
    Power32(0x1_0000_0000_0000_0000);
    assert Power(0x100, 32) == SPACE;
    PowerTwice(32, SPACE);
    PowerTwice(64, SPACE * SPACE);
  }

  /** 128 bytes are the fewest that hold every residue. */
  lemma WidthOfPrime()
    ensures Power(0x100, WIDTH - 1) <= PRIME < Power(0x100, WIDTH)
  {
    Power128(WIDTH);
    assert Power(0x100, WIDTH) == 0x100 * Power(0x100, WIDTH - 1);
  }

  // ---------- powers modulo a number ----------

  /** The power of a residue, reduced at each step. */
  function ModExp(base: nat, exponent: nat, modulus: nat): (r: nat)
    requires modulus > 0
    ensures r < modulus
  {
    if exponent == 0 then 1 % modulus else (base * ModExp(base, exponent - 1, modulus)) % modulus
  }

  lemma Multiples(d: nat, m: nat)
    ensures d == 0 || d * m >= m
  {
    if d > 0 {
      assert d * m == (d - 1) * m + m;
    }
  }

  lemma ModOf(a: nat, q: nat, r: nat, m: nat)
    requires r < m && a == q * m + r
    ensures a % m == r
  {
    var k, s := a / m, a % m;
    assert a == k * m + s;
    var d: nat := if q <= k then k - q else q - k;
    assert d * m == if q <= k then r - s else s - r;
    Multiples(d, m);
  }

  lemma MulMod(a: nat, b: nat, m: nat)
    requires m > 0
    ensures (a * (b % m)) % m == (a * b) % m
  {
    var c := a * (b % m);
    assert b == b / m * m + b % m;
    assert a * b == a * (b / m * m) + c;
    assert a * (b / m * m) == (a * (b / m)) * m;
    assert c == c / m * m + c % m;
    var q := a * (b / m) + c / m;
    assert q * m == (a * (b / m)) * m + c / m * m;
    ModOf(a * b, q, c % m, m);
  }

  lemma {:induction false} ModExpIsPower(base: nat, exponent: nat, m: nat)
    requires m > 0
    ensures ModExp(base, exponent, m) == Power(base, exponent) % m
    ensures ModExp(base % m, exponent, m) == Power(base, exponent) % m
  {
    if exponent > 0 {
      ModExpIsPower(base, exponent - 1, m);
      var p := Power(base, exponent - 1);
      MulMod(base, p, m);
      MulMod(base % m, p, m);
      MulMod(p, base, m);
      assert p * base == base * p && p * (base % m) == (base % m) * p;
    }
  }

  /** Both ends of an exchange come to one value. */
  lemma ExchangeAgrees(g: nat, x: nat, y: nat, m: nat)
    requires m > 0
    ensures ModExp(ModExp(g, x, m), y, m) == ModExp(ModExp(g, y, m), x, m)
  {
    ModExpIsPower(g, x, m);
    ModExpIsPower(g, y, m);
    ModExpIsPower(Power(g, x), y, m);
    ModExpIsPower(Power(g, y), x, m);
    PowerPower(g, x, y);
    PowerPower(g, y, x);
    assert x * y == y * x;
  }

  // ---------- opening a session ----------

  // Any function of the bytes of the shared value may serve to make the key.
  type Derive = Bytes -> Bytes

  datatype Session = Plain(id: string) | Negotiated(id: string, key: Bytes)

  predicate ValidPublic(pub: nat) {
    !(pub <= 0) && !(pub <= 1) && pub < PRIME - 1
  }

  function PadToPrime(n: nat): (b: Bytes)
    requires n < PRIME
    ensures |b| == WIDTH
  {
    WidthOfPrime();
    FixedWidth(n, WIDTH)
  }

  lemma PadToPrimeIsNumber(n: nat)
    requires n < PRIME
    ensures Number(PadToPrime(n)) == n
  {
    WidthOfPrime();
    FixedWidthIsNumber(n, WIDTH);
  }

  /** Completes the exchange, or refuses a degenerate key; answers the key to send back. */
  function NewSession(derive: Derive, id: string, clientPublic: Bytes, private: nat): (r: Option<(Session, Bytes)>)
    requires private < PRIME
  {
    if clientPublic == [] then None
    else
      var pub := Number(clientPublic);
      if !ValidPublic(pub) then None
      else
        Some((Negotiated(id, derive(PadToPrime(ModExp(pub, private, PRIME)))), PadToPrime(ModExp(GENERATOR, private, PRIME))))
  }

  /** The key a client derives from the server's answer and its own exponent. */
  function ClientKey(derive: Derive, serverPublic: Bytes, exponent: nat): Bytes {
    derive(PadToPrime(ModExp(Number(serverPublic), exponent, PRIME)))
  }

  /** However the client writes its public key, an accepted key gives both ends one session key. */
  lemma SessionAgreement(derive: Derive, id: string, clientPublic: Bytes, exponent: nat, private: nat)
    requires private < PRIME
    requires Number(clientPublic) == ModExp(GENERATOR, exponent, PRIME)
    ensures var r := NewSession(derive, id, clientPublic, private);
      && (r.Some? <==> 1 < ModExp(GENERATOR, exponent, PRIME) < PRIME - 1)
      && (r.Some? ==> r.value.0 == Negotiated(id, ClientKey(derive, r.value.1, exponent)) && |r.value.1| == WIDTH)
  {
    ExchangeAgrees(GENERATOR, exponent, private, PRIME);
    PadToPrimeIsNumber(ModExp(GENERATOR, private, PRIME));
  }

  lemma {:induction false} PowersOfOne(exponent: nat, m: nat)
    requires m > 2
    ensures ModExp(1, exponent, m) == 1
  {
    if exponent > 0 {
      PowersOfOne(exponent - 1, m);
    }
  }

  lemma TimesOne(a: nat, r: nat, m: nat)
    requires a < m && r == 1
    ensures (a * r) % m == a
  {
    assert a * r == a;
    ModOf(a * r, 0, a, m);
  }

  lemma {:induction false} PowersOfMinusOne(exponent: nat, m: nat)
    requires m > 2
    ensures ModExp(m - 1, exponent, m) == 1 || ModExp(m - 1, exponent, m) == m - 1
  {
    if exponent > 0 {
      PowersOfMinusOne(exponent - 1, m);
      var r := ModExp(m - 1, exponent - 1, m);
      if r == 1 {
        TimesOne(m - 1, r, m);
      } else {
        MinusOneSquared(m);
      }
    }
  }

  lemma MinusOneSquared(m: nat)
    requires m > 1
    ensures ((m - 1) * (m - 1)) % m == 1
  {
    assert (m - 1) * (m - 1) == (m - 2) * m + 1;
    ModOf((m - 1) * (m - 1), m - 2, 1, m);
  }

  /** The keys refused below the modulus are those that fix the secret without the server's part. */
  lemma RefusedKeysFixTheSecret(pub: nat, private: nat)
    requires pub < PRIME && !ValidPublic(pub) && 0 < private
    ensures ModExp(pub, private, PRIME) in {0, 1, PRIME - 1}
  {
    PowersOfOne(private, PRIME);
    PowersOfMinusOne(private, PRIME);
    assert pub == 0 || pub == 1 || pub == PRIME - 1;
  }

  // ---------- padding ----------

  const BLOCK: nat := 16

  predicate PadSize(size: nat) {
    1 <= size <= 255
  }

  function PadCount(length: nat, size: nat): (n: nat)
    requires PadSize(size)
    ensures 1 <= n <= size
  {
    size - length % size
  }

  /** A message with as many bytes after it as bring it to a block boundary, each telling how many. */
  function Padded(b: Bytes, size: nat): (r: Bytes)
    requires PadSize(size)
  {
    var n := PadCount(|b|, size);
    b + seq(n, _ => n as byte)
  }

  lemma AlignedLength(length: nat, size: nat)
    requires PadSize(size)
    ensures (length + PadCount(length, size)) % size == 0
  {
    var q := length / size;
    assert length + PadCount(length, size) == (q + 1) * size;
    ModOf((q + 1) * size, q + 1, 0, size);
  }

  method Pad(b: Bytes, size: nat) returns (out: array<byte>)
    requires PadSize(size)
    ensures out[..] == Padded(b, size)
    ensures out.Length % size == 0 && |b| < out.Length <= |b| + size
  {
    var n := PadCount(|b|, size);
    out := new byte[|b| + n];
    for i := 0 to |b|
      invariant out[..i] == b[..i]
    {
      out[i] := b[i];
    }
    for i := |b| to out.Length
      invariant out[..|b|] == b
      invariant forall k :: |b| <= k < i ==> out[k] == n as byte
    {
      out[i] := n as byte;
    }
    AlignedLength(|b|, size);
    assert out[..] == out[..|b|] + out[|b|..];
  }

  /** Accepts the paddings of messages and nothing else, and gives the message. */
  method Unpad(b: Bytes, size: nat) returns (r: Option<Bytes>)
    requires PadSize(size)
    ensures r.Some? ==> b == Padded(r.value, size)
    ensures r.None? ==> forall message :: b != Padded(message, size)
  {
    if |b| == 0 || |b| % size != 0 {
      NotAligned(b, size);
      return None;
    }
    var n := b[|b| - 1] as nat;
    if n == 0 || n > size || n > |b| {
      BadCount(b, size);
      return None;
    }
    for i := |b| - n to |b|
      invariant forall k :: |b| - n <= k < i ==> b[k] as nat == n
    {
      if b[i] as nat != n {
        BadByte(b, size, i);
        return None;
      }
    }
    var message := b[..|b| - n];
    CountOf(|message|, n, size);
    assert b == message + b[|b| - n..];
    return Some(message);
  }

  lemma NotAligned(b: Bytes, size: nat)
    requires PadSize(size) && (|b| == 0 || |b| % size != 0)
    ensures forall message :: b != Padded(message, size)
  {
    forall message ensures b != Padded(message, size) {
      AlignedLength(|message|, size);
    }
  }

  lemma BadCount(b: Bytes, size: nat)
    requires PadSize(size) && |b| > 0
    requires var n := b[|b| - 1] as nat; n == 0 || n > size || n > |b|
    ensures forall message :: b != Padded(message, size)
  {
  }

  lemma BadByte(b: Bytes, size: nat, i: nat)
    requires PadSize(size) && |b| > 0
    requires var n := b[|b| - 1] as nat; |b| - n <= i < |b| && b[i] as nat != n
    ensures forall message :: b != Padded(message, size)
  {
  }

  lemma CountOf(length: nat, n: nat, size: nat)
    requires PadSize(size) && 1 <= n <= size && (length + n) % size == 0
    ensures PadCount(length, size) == n
  {
    var q := (length + n) / size;
    assert length + n == q * size;
    assert length == (q - 1) * size + (size - n);
    if n == size {
      ModOf(length, q - 1, 0, size);
    } else {
      assert q >= 1;
      ModOf(length, q - 1, size - n, size);
    }
  }

  /** A padded message has one reading. */
  lemma PaddedInjective(a: Bytes, b: Bytes, size: nat)
    requires PadSize(size) && Padded(a, size) == Padded(b, size)
    ensures a == b
  {
    var p := Padded(a, size);
    assert p[|p| - 1] as nat == PadCount(|a|, size) == PadCount(|b|, size);
    assert a == p[..|a|] && b == p[..|b|];
  }

  // ---------- chaining ----------

  type Key = Bytes

  /** A block cipher: what it does to one block under a key. */
  datatype Cipher = Cipher(enc: (Key, Bytes) -> Bytes, dec: (Key, Bytes) -> Bytes)

  /** Under each key the two directions undo each other on blocks. */
  ghost predicate Invertible(c: Cipher) {
    && (forall key, x :: |x| == BLOCK ==> |c.enc(key, x)| == BLOCK && c.dec(key, c.enc(key, x)) == x)
    && (forall key, x :: |x| == BLOCK ==> |c.dec(key, x)| == BLOCK && c.enc(key, c.dec(key, x)) == x)
  }

  /** Exclusive or of the low bits. */
  function XorBits(a: nat, b: nat, bits: nat): (r: nat)
    ensures r < Power(2, bits)
  {
    if bits == 0 then 0 else (a % 2 + b % 2) % 2 + 2 * XorBits(a / 2, b / 2, bits - 1)
  }

  lemma BitTwice(a: nat, b: nat)
    ensures ((a % 2 + b % 2) % 2 + b % 2) % 2 == a % 2
  {
  }

  lemma LowAndHigh(low: nat, high: nat)
    requires low < 2
    ensures (low + 2 * high) % 2 == low && (low + 2 * high) / 2 == high
  {
  }

  lemma XorLow(a: nat, b: nat, bits: nat)
    requires bits > 0
    ensures XorBits(a, b, bits) % 2 == (a % 2 + b % 2) % 2
    ensures XorBits(a, b, bits) / 2 == XorBits(a / 2, b / 2, bits - 1)
  {
    LowAndHigh((a % 2 + b % 2) % 2, XorBits(a / 2, b / 2, bits - 1));
  }

  lemma Halves(x: nat, y: nat)
    requires x % 2 == y % 2 && x / 2 == y / 2
    ensures x == y
  {
  }

  lemma {:induction false} XorBitsTwice(a: nat, b: nat, bits: nat)
    requires a < Power(2, bits)
    ensures XorBits(XorBits(a, b, bits), b, bits) == a
  {
    if bits > 0 {
      XorBitsTwice(a / 2, b / 2, bits - 1);
      BitTwice(a, b);
      XorLow(a, b, bits);
      XorLow(XorBits(a, b, bits), b, bits);
      Halves(XorBits(XorBits(a, b, bits), b, bits), a);
    }
  }

  function Xor(a: byte, b: byte): byte {
    assert Power(2, 8) == 0x100;
    XorBits(a as nat, b as nat, 8) as byte
  }

  lemma XorTwice(a: byte, b: byte)
    ensures Xor(Xor(a, b), b) == a
  {
    assert Power(2, 8) == 0x100;
    XorBitsTwice(a as nat, b as nat, 8);
  }

  function XorBlock(a: Bytes, b: Bytes): (r: Bytes)
    requires |a| == |b|
    ensures |r| == |a|
  {
    seq(|a|, i requires 0 <= i < |a| => Xor(a[i], b[i]))
  }

  lemma XorBlockTwice(a: Bytes, b: Bytes)
    requires |a| == |b|
    ensures XorBlock(XorBlock(a, b), b) == a
  {
    forall i | 0 <= i < |a| { XorTwice(a[i], b[i]); }
  }

  ghost predicate Aligned(b: Bytes) {
    |b| % BLOCK == 0
  }

  /** Each block is combined with the one sent before it, the first with the IV. */
  function Chain(c: Cipher, key: Key, iv: Bytes, plain: Bytes): (r: Bytes)
    requires Invertible(c) && |iv| == BLOCK && Aligned(plain)
    ensures |r| == |plain|
    decreases |plain|
  {
    if plain == [] then []
    else
      var sent := c.enc(key, XorBlock(plain[..BLOCK], iv));
      sent + Chain(c, key, sent, plain[BLOCK..])
  }

  function Unchain(c: Cipher, key: Key, iv: Bytes, sent: Bytes): (r: Bytes)
    requires Invertible(c) && |iv| == BLOCK && Aligned(sent)
    ensures |r| == |sent|
    decreases |sent|
  {
    if sent == [] then []
    else
      XorBlock(c.dec(key, sent[..BLOCK]), iv) + Unchain(c, key, sent[..BLOCK], sent[BLOCK..])
  }

  lemma {:induction false} UnchainUndoesChain(c: Cipher, key: Key, iv: Bytes, plain: Bytes)
    requires Invertible(c) && |iv| == BLOCK && Aligned(plain)
    ensures Unchain(c, key, iv, Chain(c, key, iv, plain)) == plain
    decreases |plain|
  {
    if plain != [] {
      var first := plain[..BLOCK];
      var sent := c.enc(key, XorBlock(first, iv));
      var rest := Chain(c, key, sent, plain[BLOCK..]);
      UnchainUndoesChain(c, key, sent, plain[BLOCK..]);
      XorBlockTwice(first, iv);
      assert (sent + rest)[..BLOCK] == sent && (sent + rest)[BLOCK..] == rest;
      assert first + plain[BLOCK..] == plain;
    }
  }

  lemma {:induction false} ChainUndoesUnchain(c: Cipher, key: Key, iv: Bytes, sent: Bytes)
    requires Invertible(c) && |iv| == BLOCK && Aligned(sent)
    ensures Chain(c, key, iv, Unchain(c, key, iv, sent)) == sent
    decreases |sent|
  {
    if sent != [] {
      var first := sent[..BLOCK];
      var head := XorBlock(c.dec(key, first), iv);
      var rest := Unchain(c, key, first, sent[BLOCK..]);
      ChainUndoesUnchain(c, key, first, sent[BLOCK..]);
      XorBlockTwice(c.dec(key, first), iv);
      assert (head + rest)[..BLOCK] == head && (head + rest)[BLOCK..] == rest;
      assert first + sent[BLOCK..] == sent;
    }
  }

  // ---------- transport ----------

  function Encrypted(c: Cipher, key: Key, iv: Bytes, message: Bytes): (value: Bytes)
    requires Invertible(c) && |iv| == BLOCK
  {
    AlignedLength(|message|, BLOCK);
    Chain(c, key, iv, Padded(message, BLOCK))
  }

  ghost predicate Sends(c: Cipher, s: Session, message: Bytes, iv: Bytes, value: Bytes, parameter: Bytes)
    requires Invertible(c) && |iv| == BLOCK
  {
    match s
    case Plain(_) => value == message && parameter == []
    case Negotiated(_, key) => value == Encrypted(c, key, iv, message) && parameter == iv
  }

  method Encrypt(c: Cipher, s: Session, message: Bytes, iv: Bytes) returns (value: Bytes, parameter: Bytes)
    requires Invertible(c) && |iv| == BLOCK
    ensures Sends(c, s, message, iv, value, parameter)
  {
    if s.Plain? {
      return message, [];
    }
    var padded := Pad(message, BLOCK);
    AlignedLength(|message|, BLOCK);
    return Chain(c, s.key, iv, padded[..]), iv;
  }

  /** Accepted is exactly what some message encrypts to under the parameter sent along. */
  ghost predicate Reads(c: Cipher, s: Session, value: Bytes, parameter: Bytes, r: Option<Bytes>)
    requires Invertible(c)
  {
    match s
    case Plain(_) => r == Some(value)
    case Negotiated(_, key) =>
      if |parameter| != BLOCK then r == None
      else if r.Some? then value == Encrypted(c, key, parameter, r.value)
      else forall message :: value != Encrypted(c, key, parameter, message)
  }

  method Decrypt(c: Cipher, s: Session, value: Bytes, parameter: Bytes) returns (r: Option<Bytes>)
    requires Invertible(c)
    ensures Reads(c, s, value, parameter, r)
  {
    if s.Plain? {
      return Some(value);
    }
    if |parameter| != BLOCK {
      return None;
    }
    if |value| == 0 || |value| % BLOCK != 0 {
      return None;
    }
    var out := Unchain(c, s.key, parameter, value);
    ChainUndoesUnchain(c, s.key, parameter, value);
    r := Unpad(out, BLOCK);
    if r.None? {
      forall message ensures value != Encrypted(c, s.key, parameter, message) {
        UnchainUndoesChain(c, s.key, parameter, Padded(message, BLOCK));
      }
    }
  }

  /** Two messages never encrypt alike under one key and IV, so what `Decrypt` accepts it reads as sent. */
  lemma EncryptedInjective(c: Cipher, key: Key, iv: Bytes, a: Bytes, b: Bytes)
    requires Invertible(c) && |iv| == BLOCK && Encrypted(c, key, iv, a) == Encrypted(c, key, iv, b)
    ensures a == b
  {
    AlignedLength(|a|, BLOCK);
    AlignedLength(|b|, BLOCK);
    UnchainUndoesChain(c, key, iv, Padded(a, BLOCK));
    UnchainUndoesChain(c, key, iv, Padded(b, BLOCK));
    PaddedInjective(a, b, BLOCK);
  }

  /** A message sent over a session and read with the same key arrives. */
  lemma DecryptUndoesEncrypt(c: Cipher, sender: Session, receiver: Session, message: Bytes, iv: Bytes, value: Bytes, parameter: Bytes, r: Option<Bytes>)
    requires Invertible(c) && |iv| == BLOCK
    requires sender.Plain? == receiver.Plain? && (sender.Negotiated? ==> sender.key == receiver.key)
    requires Sends(c, sender, message, iv, value, parameter) && Reads(c, receiver, value, parameter, r)
    ensures r == Some(message)
  {
    if sender.Negotiated? {
      assert r.Some?;
      EncryptedInjective(c, sender.key, iv, message, r.value);
    }
  }
}
