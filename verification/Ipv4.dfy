/** IPv4 arithmetic of discovery targets: masks, blocks and inclusive ranges. */
module Ipv4 {
  import opened Text

  type Addr = a: nat | a < 0x1_0000_0000

  /** A netip.Addr: an IPv4 address, or some IPv6 address, whose value no code here looks at. */
  datatype Address = V4(addr: Addr) | V6

  const MINIMUM_PREFIX_BITS: nat := 24
  const MAXIMUM_ADDRESSES: nat := 256
  const LAST_ADDRESS: Addr := 0xFFFF_FFFF

  predicate Unspecified(a: Addr) { a == 0 }

  /** 224.0.0.0/4: the leading four bits are 1110. */
  predicate Multicast(a: Addr) { 0xE000_0000 <= a < 0xF000_0000 }

  predicate Scannable(address: Address) {
    address.V4? && !Unspecified(address.addr) && !Multicast(address.addr)
  }

  /** netip.Addr.Next: the address after the last one is invalid. */
  function Next(a: Addr): Option<Addr> { if a == LAST_ADDRESS then None else Some(a + 1) }

  /** How many addresses share all but their last `host` bits. */
  function BlockSize(host: nat): (size: nat)
    ensures size >= 1 && (host >= 1 ==> size >= 2) && (host >= 2 ==> size >= 4)
  {
    if host == 0 then 1 else 2 * BlockSize(host - 1)
  }

  /** Clears the last `host` bits: shift the last bit out, clear the rest, shift a zero in. */
  function Masked(a: nat, host: nat): (base: nat)
    ensures base <= a
  {
    if host == 0 then a else 2 * Masked(a / 2, host - 1)
  }

  /** netip.Prefix.Contains: equal leading bits. */
  predicate Contains(base: nat, host: nat, a: nat) { Masked(a, host) == Masked(base, host) }

  /** The addresses from `first` to `last`, both included. */
  function Interval(first: Addr, last: Addr): (s: seq<Addr>)
    requires first <= last + 1
    ensures |s| == last + 1 - first && forall i :: 0 <= i < |s| ==> s[i] == first + i
  {
    seq(last + 1 - first, i requires 0 <= i < last + 1 - first => first + i)
  }

  lemma InnerInterval(first: Addr, last: Addr)
    requires first < last
    ensures var s := Interval(first, last); s[1..|s| - 1] == Interval(first + 1, last - 1)
  {
    var s := Interval(first, last);
    assert s[1..|s| - 1] == Interval(first + 1, last - 1);
  }

  /** What a CIDR text denotes: the whole block, without its two end addresses when it is a /30 or larger. */
  function PrefixAddresses(a: Addr, bits: nat): Option<seq<Addr>> {
    if !(MINIMUM_PREFIX_BITS <= bits <= 32) || !Scannable(V4(Masked(a, 32 - bits))) then None
    else
      var base, size := Masked(a, 32 - bits), BlockSize(32 - bits);
      BlockInSpace(a, 32 - bits);
      if bits <= 30 then Some(Interval(base + 1, base + size - 2)) else Some(Interval(base, base + size - 1))
  }

  /** What a range text denotes. */
  function RangeAddresses(start: Address, end: Address): Option<seq<Addr>> {
    if !Scannable(start) || !Scannable(end) || start.addr > end.addr then None
    else if end.addr - start.addr + 1 > MAXIMUM_ADDRESSES then None
    else Some(Interval(start.addr, end.addr))
  }

  /** A block is the run of addresses from its base, as long as its size. */
  lemma {:induction false} BlockIsInterval(a: nat, host: nat, x: nat)
    ensures Contains(a, host, x) <==> Masked(a, host) <= x < Masked(a, host) + BlockSize(host)
  {
    if host > 0 {
      BlockIsInterval(a / 2, host - 1, x / 2);
    }
  }

  /** Masking twice is masking once. */
  lemma {:induction false} MaskIdempotent(a: nat, host: nat)
    ensures Masked(Masked(a, host), host) == Masked(a, host)
  {
    if host > 0 {
      MaskIdempotent(a / 2, host - 1);
      assert Masked(a, host) / 2 == Masked(a / 2, host - 1);
    }
  }

  /** A block never crosses a block boundary. */
  lemma BlockStopsAtBoundary(a: nat, host: nat, boundary: nat)
    requires Masked(boundary, host) == boundary
    ensures a < boundary ==> Masked(a, host) + BlockSize(host) <= boundary
    ensures boundary <= a ==> boundary <= Masked(a, host)
  {
    BlockIsInterval(a, host, boundary);
    BlockIsInterval(boundary, host, a);
    BlockIsInterval(a, host, a);
  }

  lemma TwiceMultiple(k: nat, size: nat)
    ensures k * (2 * size) == 2 * (k * size)
  {
  }

  lemma {:induction false} EvenMultipleIsBoundary(k: nat, host: nat, extra: nat)
    ensures Masked(k * BlockSize(host + extra), host) == k * BlockSize(host + extra)
  {
    if host > 0 {
      var size := BlockSize(host - 1 + extra);
      EvenMultipleIsBoundary(k, host - 1, extra);
      assert BlockSize(host + extra) == 2 * size;
      hide BlockSize;
      TwiceMultiple(k, size);
      assert k * BlockSize(host + extra) / 2 == k * size;
    }
  }

  /** The boundaries that matter: both ends of class D and the end of the address space. */
  lemma Boundaries(host: nat)
    requires host <= 8
    ensures Masked(0xE000_0000, host) == 0xE000_0000 && Masked(0xF000_0000, host) == 0xF000_0000
    ensures Masked(LAST_ADDRESS + 1, host) == LAST_ADDRESS + 1
  {
    assert BlockSize(7) == 128 && BlockSize(14) == 0x4000 by {
      assert BlockSize(3) == 8 && BlockSize(5) == 32 && BlockSize(9) == 512 && BlockSize(11) == 2048;
    }
    assert BlockSize(28) == 0x1000_0000 by {
      assert BlockSize(16) == 0x1_0000 && BlockSize(18) == 0x4_0000 && BlockSize(20) == 0x10_0000;
      assert BlockSize(22) == 0x40_0000 && BlockSize(24) == 0x100_0000 && BlockSize(26) == 0x400_0000;
    }
    EvenMultipleIsBoundary(0xE, host, 28 - host);
    EvenMultipleIsBoundary(0xF, host, 28 - host);
    EvenMultipleIsBoundary(0x10, host, 28 - host);
  }

  lemma {:induction false} BlockSizeGrows(host: nat, extra: nat)
    ensures BlockSize(host) <= BlockSize(host + extra)
  {
    if host > 0 {
      BlockSizeGrows(host - 1, extra);
    }
  }

  lemma BlockInSpace(a: Addr, host: nat)
    requires host <= 8
    ensures BlockSize(host) <= MAXIMUM_ADDRESSES
    ensures Masked(a, host) <= a < Masked(a, host) + BlockSize(host) <= LAST_ADDRESS + 1
  {
    BlockSizeGrows(host, 8 - host);
    assert BlockSize(8) == MAXIMUM_ADDRESSES;
    Boundaries(host);
    BlockStopsAtBoundary(a, host, LAST_ADDRESS + 1);
    BlockIsInterval(a, host, a);
  }

  /** The loop of a CIDR target: walk the block by Next until the address leaves the block or the space ends. */
  method WalkBlock(base: Addr, host: nat) returns (r: Option<seq<Addr>>)
    requires host <= 8 && Masked(base, host) == base && base + BlockSize(host) <= LAST_ADDRESS + 1
    ensures r == Some(Interval(base, base + BlockSize(host) - 1))
  {
    BlockInSpace(base, host);
    hide Masked, Contains, BlockSize, Interval;
    var addresses: seq<Addr> := [];
    var address: Option<Addr> := Some(base);
    while address.Some? && Contains(base, host, address.value)
      invariant |addresses| <= BlockSize(host)
      invariant forall i :: 0 <= i < |addresses| ==> addresses[i] == base + i
      invariant address == if base + |addresses| <= LAST_ADDRESS then Some(base + |addresses|) else None
      decreases BlockSize(host) - |addresses|
    {
      BlockIsInterval(base, host, address.value);
      addresses := addresses + [address.value];
      if |addresses| > MAXIMUM_ADDRESSES {
        return None;
      }
      address := Next(address.value);
    }
    BlockIsInterval(base, host, base + |addresses|);
    assert addresses == Interval(base, base + BlockSize(host) - 1);
    return Some(addresses);
  }

  /** A CIDR target: the two end addresses of the block are dropped unless it is a /31 or /32. */
  method TargetFromPrefix(a: Addr, bits: nat) returns (r: Option<seq<Addr>>)
    ensures r == PrefixAddresses(a, bits)
  {
    if !(MINIMUM_PREFIX_BITS <= bits <= 32) || !Scannable(V4(Masked(a, 32 - bits))) {
      return None;
    }
    var base := Masked(a, 32 - bits);
    MaskIdempotent(a, 32 - bits);
    BlockInSpace(a, 32 - bits);
    if bits <= 30 {
      BlockSizeGrows(2, 30 - bits);
      assert BlockSize(2) == 4;
    }
    hide Masked, BlockSize, Interval;
    r := WalkBlock(base, 32 - bits);
    if r.Some? && bits <= 30 && |r.value| >= 2 {
      InnerInterval(base, base + BlockSize(32 - bits) - 1);
      r := Some(r.value[1..|r.value| - 1]);
    }
    if r.Some? && |r.value| == 0 {
      return None;
    }
  }

  /** The loop of a range target: the bound comes before the end, so the walk never runs past either. */
  method TargetFromRange(start: Address, end: Address) returns (r: Option<seq<Addr>>)
    ensures r == RangeAddresses(start, end)
  {
    if !Scannable(start) || !Scannable(end) || start.addr > end.addr {
      return None;
    }
    var addresses: seq<Addr> := [];
    var address := start.addr;
    while true
      invariant start.addr + |addresses| == address <= end.addr
      invariant |addresses| <= MAXIMUM_ADDRESSES
      invariant forall i :: 0 <= i < |addresses| ==> addresses[i] == start.addr + i
      decreases end.addr - address
    {
      addresses := addresses + [address];
      if |addresses| > MAXIMUM_ADDRESSES {
        return None;
      }
      if address == end.addr {
        break;
      }
      address := Next(address).value;
    }
    assert addresses == Interval(start.addr, end.addr);
    return Some(addresses);
  }

  /** Consecutive, hence strictly increasing and free of repetition. */
  ghost predicate Consecutive(addresses: seq<Addr>) {
    forall i :: 0 <= i < |addresses| ==> addresses[i] == addresses[0] + i
  }

  ghost predicate AllScannable(addresses: seq<Addr>) {
    forall i :: 0 <= i < |addresses| ==> addresses[i] != 0 && !(0xE000_0000 <= addresses[i] <= 0xEFFF_FFFF)
  }

  /** Only the base address is looked at, yet no address of an accepted block is unspecified or multicast. */
  lemma PrefixTargetIsSafe(a: Addr, bits: nat)
    ensures match PrefixAddresses(a, bits)
            case None => true
            case Some(s) =>
              && 1 <= |s| <= MAXIMUM_ADDRESSES && Consecutive(s) && AllScannable(s)
              && |s| == (if bits <= 30 then BlockSize(32 - bits) - 2 else BlockSize(32 - bits))
              && (forall i :: 0 <= i < |s| ==> Contains(a, 32 - bits, s[i]))
  {
    if PrefixAddresses(a, bits).Some? {
      var s, host := PrefixAddresses(a, bits).value, 32 - bits;
      BlockInSpace(a, host);
      Boundaries(host);
      BlockStopsAtBoundary(Masked(a, host), host, 0xE000_0000);
      BlockStopsAtBoundary(Masked(a, host), host, 0xF000_0000);
      MaskIdempotent(a, host);
      forall i | 0 <= i < |s| ensures Contains(a, host, s[i]) {
        BlockIsInterval(a, host, s[i]);
      }
    }
  }

  /** Only the two end points are looked at, yet no address between them is unspecified or multicast: the class D block is far too large to be jumped over. */
  lemma RangeTargetIsSafe(start: Address, end: Address)
    requires RangeAddresses(start, end).Some?
    ensures var s := RangeAddresses(start, end).value;
            && 1 <= |s| <= MAXIMUM_ADDRESSES && Consecutive(s) && AllScannable(s)
            && s[0] == start.addr && s[|s| - 1] == end.addr
  {
  }

  /** Which blocks are accepted: a length of 24 to 32, and a least address that is neither unspecified nor multicast. */
  lemma BlockAcceptedIff(a: Addr, bits: nat)
    ensures PrefixAddresses(a, bits).Some? <==>
              24 <= bits <= 32 && var base := Masked(a, 32 - bits); base != 0 && !(0xE000_0000 <= base <= 0xEFFF_FFFF)
  {
  }

  /** The base is the least address of its block. */
  lemma BaseIsLeast(a: Addr, host: nat, x: nat)
    ensures Contains(a, host, Masked(a, host)) && (Contains(a, host, x) ==> Masked(a, host) <= x)
  {
    BlockIsInterval(a, host, Masked(a, host));
    BlockIsInterval(a, host, x);
  }

  /** Which addresses of an accepted block are scanned: all of a /31 or /32; else those that have both neighbours in the block. */
  lemma BlockHosts(a: Addr, bits: nat, x: Addr)
    requires PrefixAddresses(a, bits).Some?
    ensures var s, host := PrefixAddresses(a, bits).value, 32 - bits;
            x in s <==> Contains(a, host, x) && (bits <= 30 ==> x > 0 && Contains(a, host, x - 1) && Contains(a, host, x + 1))
  {
    var s, host := PrefixAddresses(a, bits).value, 32 - bits;
    var base, size := Masked(a, host), BlockSize(host);
    BlockInSpace(a, host);
    BlockIsInterval(a, host, x);
    BlockIsInterval(a, host, x + 1);
    if x > 0 {
      BlockIsInterval(a, host, x - 1);
    }
    hide Masked, BlockSize, Contains;
    var first := if bits <= 30 then base + 1 else base;
    assert first <= x < first + |s| ==> s[x - first] == x;
  }

  /** Which ranges are accepted, and that all their addresses are scanned. */
  lemma RangeAcceptedIff(start: Address, end: Address)
    ensures RangeAddresses(start, end).Some? <==>
              && start.V4? && start.addr != 0 && !(0xE000_0000 <= start.addr <= 0xEFFF_FFFF)
              && end.V4? && end.addr != 0 && !(0xE000_0000 <= end.addr <= 0xEFFF_FFFF)
              && start.addr <= end.addr < start.addr + 256
    ensures RangeAddresses(start, end).Some? ==>
              forall x: Addr :: x in RangeAddresses(start, end).value <==> start.addr <= x <= end.addr
  {
    if RangeAddresses(start, end).Some? {
      var s := RangeAddresses(start, end).value;
      forall x: Addr | start.addr <= x <= end.addr ensures x in s {
        assert s[x - start.addr] == x;
      }
    }
  }
}
