/** IPv4 prefixes (section 3.1 of RFC 4632), as Go's net/netip and `contains`
    (internal/pkg/clusterspec/config.go) compute with them, against the sets of addresses
    they stand for. */
module Cidr {
  const SPACE := 0x1_0000_0000

  type Address = a: nat | a < SPACE
  type PrefixLength = n: nat | n <= 32

  function Pow2(n: nat): (r: nat)
    ensures r > 0
  {
    if n == 0 then 1 else 2 * Pow2(n - 1)
  }

  datatype Prefix = Prefix(addr: Address, bits: PrefixLength) {
    /** How many addresses the prefix holds. */
    function Size(): (r: nat)
      ensures r > 0
    {
      Pow2(32 - bits)
    }

    /** The network address: the host bits cleared. */
    function Masked(): (r: Address)
    {
      MaskBelow(addr, Size());
      addr / Size() * Size()
    }

    /** `Prefix.Contains`: the leading bits agree. */
    predicate Contains(a: Address) {
      a / Size() == addr / Size()
    }
  }

  /** `contains`: whether inner sits wholly inside outer. */
  predicate ContainsPrefix(outer: Prefix, inner: Prefix) {
    outer.bits <= inner.bits && outer.Contains(inner.Masked())
  }

  /** `Prefix.Overlaps`: the bits both prefixes fix agree. */
  predicate Overlaps(p: Prefix, q: Prefix) {
    var shared := if p.bits < q.bits then p.bits else q.bits;
    p.addr / Pow2(32 - shared) == q.addr / Pow2(32 - shared)
  }

  lemma MaskBelow(a: nat, size: nat)
    requires size > 0
    ensures 0 <= a / size * size <= a < a / size * size + size
  {
  }

  lemma TimesGrows(a: nat, b: nat, c: nat)
    requires a <= b
    ensures a * c <= b * c
  {
  }

  lemma QuotientUnique(a: nat, size: nat, q: nat)
    requires size > 0
    requires q * size <= a < q * size + size
    ensures a / size == q
  {
    MaskBelow(a, size);
    var d: nat := a / size;
    if d < q {
      TimesGrows(d + 1, q, size);
    } else if d > q {
      TimesGrows(q + 1, d, size);
    }
  }

  /** Dropping bits in two steps drops them all. */
  lemma DivideTwice(a: nat, small: nat, factor: nat)
    requires small > 0 && factor > 0
    ensures small * factor > 0
    ensures a / small / factor == a / (small * factor)
  {
    var b := a / small;
    var q := b / factor;
    MaskBelow(a, small);
    MaskBelow(b, factor);
    TimesGrows(q * factor, b, small);
    TimesGrows(b + 1, q * factor + factor, small);
    Regroup(q, factor, small);
    QuotientUnique(a, small * factor, q);
  }

  lemma Regroup(q: nat, factor: nat, small: nat)
    ensures q * factor * small == q * (small * factor)
    ensures (q * factor + factor) * small == q * (small * factor) + small * factor
  {
  }

  lemma {:induction false} Pow2Sum(m: nat, n: nat)
    ensures Pow2(m + n) == Pow2(m) * Pow2(n)
    decreases n
  {
    if n > 0 {
      Pow2Sum(m, n - 1);
      assert Pow2(m) * Pow2(n) == 2 * (Pow2(m) * Pow2(n - 1));
    }
  }

  lemma {:induction false} Pow2Grows(m: nat, n: nat)
    requires m <= n
    ensures Pow2(m) <= Pow2(n)
    decreases n
  {
    if m < n { Pow2Grows(m, n - 1); }
  }

  lemma Pow2Of32()
    ensures Pow2(32) == SPACE
  {
    assert Pow2(8) == 256;
    Pow2Sum(8, 8);
    Pow2Sum(16, 16);
  }

  lemma RunMembers(a: Address, size: nat, q: nat)
    requires size > 0
    ensures a / size == q <==> q * size <= a < q * size + size
  {
    MaskBelow(a, size);
    if q * size <= a < q * size + size { QuotientUnique(a, size, q); }
  }

  lemma LastRunFits(a: nat, size: nat, blocks: nat)
    requires size > 0 && a < blocks * size
    ensures a / size * size + size <= blocks * size
  {
    var q: nat := a / size;
    MaskBelow(a, size);
    if q >= blocks {
      TimesGrows(blocks, q, size);
    } else {
      TimesGrows(q + 1, blocks, size);
    }
  }

  lemma SpaceSplits(host: nat, network: nat)
    requires host + network == 32
    ensures Pow2(network) * Pow2(host) == SPACE
  {
    Pow2Of32();
    Pow2Sum(network, host);
  }

  lemma RunInside(p: Prefix)
    ensures p.Masked() + p.Size() <= SPACE
  {
    SpaceSplits(32 - p.bits, p.bits);
    LastRunFits(p.addr, p.Size(), Pow2(p.bits));
  }

  /** A prefix is one aligned run of addresses, wholly inside the address space. */
  lemma PrefixIsRun(p: Prefix)
    ensures forall a: Address :: p.Contains(a) <==> p.Masked() <= a < p.Masked() + p.Size()
    ensures p.Masked() / p.Size() == p.addr / p.Size()
    ensures p.Masked() + p.Size() <= SPACE
  {
    RunInside(p);
    forall a: Address
      ensures p.Contains(a) <==> p.Masked() <= a < p.Masked() + p.Size()
    {
      RunMembers(a, p.Size(), p.addr / p.Size());
    }
    assert p.Contains(p.Masked());
  }

  lemma SizesDivide(p: Prefix, q: Prefix) returns (factor: nat)
    requires p.bits <= q.bits
    ensures factor == Pow2(q.bits - p.bits)
    ensures p.Size() == q.Size() * factor
  {
    factor := Pow2(q.bits - p.bits);
    Pow2Sum(32 - q.bits, q.bits - p.bits);
  }

  lemma ShorterIsMultiple(p: Prefix, q: Prefix) returns (factor: nat)
    requires p.bits <= q.bits
    ensures factor == Pow2(q.bits - p.bits) > 0
    ensures p.Size() == q.Size() * factor
    ensures forall a: Address :: a / p.Size() == a / q.Size() / factor
  {
    factor := SizesDivide(p, q);
    forall a: Address
      ensures a / p.Size() == a / q.Size() / factor
    {
      DivideTwice(a, q.Size(), factor);
    }
  }

  /** `contains` is exactly inclusion of the address sets. */
  lemma ContainsPrefixIsInclusion(outer: Prefix, inner: Prefix)
    ensures ContainsPrefix(outer, inner) <==> forall a: Address :: inner.Contains(a) ==> outer.Contains(a)
  {
    PrefixIsRun(inner);
    assert inner.Contains(inner.Masked());
    if outer.bits <= inner.bits {
      var factor := ShorterIsMultiple(outer, inner);
    } else {
      var a := LongerMisses(outer, inner);
    }
  }

  /** A longer prefix is at most half as big, so it misses one of any two addresses that far apart. */
  lemma LongerMisses(outer: Prefix, inner: Prefix) returns (a: Address)
    requires outer.bits > inner.bits
    ensures inner.Contains(a) && !outer.Contains(a)
  {
    PrefixIsRun(inner);
    PrefixIsRun(outer);
    var factor := ShorterIsMultiple(inner, outer);
    Pow2Grows(1, outer.bits - inner.bits);
    assert Pow2(1) == 2;
    TimesGrows(2, factor, outer.Size());
    a := inner.Masked();
    if outer.Contains(a) {
      a := a + outer.Size();
    }
  }

  /** `Overlaps` is exactly a common address. */
  lemma OverlapsIsIntersection(p: Prefix, q: Prefix)
    ensures Overlaps(p, q) <==> exists a: Address :: p.Contains(a) && q.Contains(a)
  {
    if p.bits <= q.bits {
      SharedAddress(p, q);
    } else {
      SharedAddress(q, p);
    }
  }

  lemma SharedAddress(p: Prefix, q: Prefix)
    requires p.bits <= q.bits
    ensures p.addr / p.Size() == q.addr / p.Size() <==> exists a: Address :: p.Contains(a) && q.Contains(a)
  {
    var factor := ShorterIsMultiple(p, q);
    PrefixIsRun(q);
    if p.addr / p.Size() == q.addr / p.Size() {
      assert p.Contains(q.Masked()) && q.Contains(q.Masked());
    }
  }
}
