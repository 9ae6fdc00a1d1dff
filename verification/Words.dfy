/** Go's machine words as the address plan uses them (internal/pkg/clusterspec/addressing.go):
    integers of 64 bits that wrap, and a 32-bit sum cut into octets. */
module Words {
  import opened Cidr
  import opened Decimal

  const WORD := 0x1_0000_0000_0000_0000

  /** A 64-bit result: what is left of an integer after it wrapped. */
  function Wrap(x: int): (r: Int)
    ensures MIN_INT <= x <= MAX_INT ==> r == x
  {
    (x - MIN_INT) % WORD + MIN_INT
  }

  /** `uint64(x)`. */
  function Unsigned(x: Int): (r: nat)
    ensures r < WORD
    ensures x >= 0 ==> r == x
    ensures x < 0 ==> r == x + WORD
  {
    x % WORD
  }

  /** `base + uint32(offset)`. */
  function Sum32(base: Address, offset: nat): Address {
    (base + offset % SPACE) % SPACE
  }

  type Byte = b: nat | b < 0x100

  datatype Quad = Quad(a: Byte, b: Byte, c: Byte, d: Byte)

  /** `As4`, and the four truncating shifts. */
  function Octets(x: Address): Quad {
    Quad(x / 0x100_0000, x / 0x1_0000 % 0x100, x / 0x100 % 0x100, x % 0x100)
  }

  /** The shifts and ors that put four octets back into one word. */
  function Word(q: Quad): Address {
    q.a * 0x100_0000 + q.b * 0x1_0000 + q.c * 0x100 + q.d
  }

  lemma OctetsRoundTrip(x: Address)
    ensures Word(Octets(x)) == x
  {
    assert x / 0x1_0000 == x / 0x100_0000 * 0x100 + x / 0x1_0000 % 0x100;
    assert x / 0x100 == x / 0x1_0000 * 0x100 + x / 0x100 % 0x100;
  }

  lemma NoWrap(base: Address, size: nat, offset: nat)
    requires base + size <= SPACE && offset < size
    ensures Sum32(base, offset) == base + offset
  {
  }
}
