// Per-device addresses carved from fleet pools (internal/paramtree/fleet.go). Addresses
// are numbers of 32 or 128 bits; their text form is left out.
module FleetPools {
  import opened Options
  import opened Powers

  // ---------- Shifts ----------

  function Shl(v: nat, n: nat): nat {
    if n == 0 then v else 2 * Shl(v, n - 1)
  }

  function Shr(v: nat, n: nat): nat {
    if n == 0 then v else Shr(v / 2, n - 1)
  }

  /** The low n bits. */
  function Low(v: nat, n: nat): nat {
    if n == 0 then 0 else v % 2 + 2 * Low(v / 2, n - 1)
  }

  lemma {:induction false} Pow2Grows(a: nat, b: nat)
    requires a <= b
    ensures Pow2(a) <= Pow2(b)
  {
    if a < b {
      Pow2Grows(a, b - 1);
    }
  }

  lemma {:induction false} Pow2Sum(a: nat, b: nat)
    ensures Pow2(a + b) == Pow2(a) * Pow2(b)
  {
    if a == 0 {
      assert 1 * Pow2(b) == Pow2(b);
    } else {
      Pow2Sum(a - 1, b);
      DoubledFirst(Pow2(a - 1), Pow2(b));
      assert a + b - 1 == (a - 1) + b;
    }
  }

  lemma DoubledFirst(x: nat, y: nat)
    ensures (2 * x) * y == 2 * (x * y)
  {
  }

  lemma {:induction false} HighAndLow(v: nat, n: nat)
    ensures v == Shl(Shr(v, n), n) + Low(v, n) && Low(v, n) < Pow2(n)
  {
    if n > 0 {
      HighAndLow(v / 2, n - 1);
    }
  }

  lemma {:induction false} ShiftedPlus(k: nat, i: nat, n: nat)
    requires i < Pow2(n)
    ensures Shr(Shl(k, n) + i, n) == k && Low(Shl(k, n) + i, n) == i
  {
    if n > 0 {
      assert (Shl(k, n) + i) / 2 == Shl(k, n - 1) + i / 2;
      ShiftedPlus(k, i / 2, n - 1);
    }
  }

  lemma {:induction false} ShlAdds(a: nat, b: nat, n: nat)
    ensures Shl(a + b, n) == Shl(a, n) + Shl(b, n)
  {
    if n > 0 {
      ShlAdds(a, b, n - 1);
    }
  }

  lemma {:induction false} ShlOfOne(n: nat)
    ensures Shl(1, n) == Pow2(n)
  {
    if n > 0 {
      ShlOfOne(n - 1);
    }
  }

  lemma ShlGrows(a: nat, b: nat, n: nat)
    requires a < b
    ensures Shl(a, n) + Pow2(n) <= Shl(b, n)
  {
    ShlAdds(a, 1, n);
    ShlAdds(a + 1, b - a - 1, n);
    ShlOfOne(n);
  }

  lemma {:induction false} ShlTwice(a: nat, n: nat, m: nat)
    ensures Shl(Shl(a, m), n) == Shl(a, n + m)
  {
    if n > 0 {
      ShlTwice(a, n - 1, m);
    }
  }

  lemma {:induction false} LowOfSmall(v: nat, n: nat)
    requires v < Pow2(n)
    ensures Low(v, n) == v
  {
    if n > 0 {
      LowOfSmall(v / 2, n - 1);
    }
  }

  lemma {:induction false} ShlOfPow2(n: nat, m: nat)
    ensures Shl(Pow2(m), n) == Pow2(n + m)
  {
    if n > 0 {
      ShlOfPow2(n - 1, m);
    }
  }

  // ---------- Prefixes ----------

  /** A parsed prefix: the address it is written with, its width and its length. */
  datatype Prefix = Prefix(addr: nat, width: nat, bits: nat)

  ghost predicate ProperPrefix(p: Prefix) {
    (p.width == 32 || p.width == 128) && p.bits <= p.width && p.addr < Pow2(p.width)
  }

  function HostBits(p: Prefix): nat {
    if p.bits <= p.width then p.width - p.bits else 0
  }

  /** The prefix with its host bits cleared. */
  function Base(p: Prefix): nat {
    Shl(Shr(p.addr, HostBits(p)), HostBits(p))
  }

  /** The address shares the prefix's leading bits. */
  predicate Within(addr: nat, p: Prefix) {
    Shr(addr, HostBits(p)) == Shr(p.addr, HostBits(p))
  }

  /** Less than a span past the base stays inside the prefix and below the address limit. */
  lemma HostsAreWithin(p: Prefix, i: nat)
    requires ProperPrefix(p) && i < Pow2(HostBits(p))
    ensures Within(Base(p) + i, p) && Base(p) + i < Pow2(p.width)
  {
    hide Pow2, Shl, Shr, Low;
    var h, k := HostBits(p), Shr(p.addr, HostBits(p));
    ShiftedPlus(k, i, h);
    HighAndLow(p.addr, h);
    ShlOfPow2(h, p.bits);
    if k >= Pow2(p.bits) {
      ShlAtMost(Pow2(p.bits), k, h);
    } else {
      ShlGrows(k, Pow2(p.bits), h);
    }
  }

  lemma ShlAtMost(a: nat, b: nat, n: nat)
    requires a <= b
    ensures Shl(a, n) <= Shl(b, n)
  {
    ShlAdds(a, b - a, n);
  }

  // ---------- Pools ----------

  /** A pool as declared; None where the text is no prefix. */
  datatype Pool = Ipv4(cidr: Option<Prefix>) | Ipv6(cidr: Option<Prefix>)
                | Ipv6Prefix(super: Option<Prefix>, subLen: int) | Unsupported

  ghost predicate Parsed(pool: Pool) {
    match pool
    case Ipv4(c) => c.Some? ==> ProperPrefix(c.value)
    case Ipv6(c) => c.Some? ==> ProperPrefix(c.value)
    case Ipv6Prefix(c, _) => c.Some? ==> ProperPrefix(c.value)
    case Unsupported => true
  }

  /** An address, or a delegated prefix with its length. */
  datatype Lease = Address(addr: nat) | Delegated(addr: nat, len: nat)

  /** Instances are 64-bit integers. */
  const INT64_LIMIT := 0x8000_0000_0000_0000

  lemma Pow2Of63()
    ensures Pow2(63) == INT64_LIMIT
  {
    Pow2Sum(31, 32);
    Pow2Sum(15, 16);
    Pow2Sum(16, 16);
    Pow2Sum(7, 8);
    Pow2Sum(8, 8);
    assert Pow2(8) == 256 && Pow2(7) == 128;
  }

  /** The address with the instance added, in 32 bits. */
  function ResolveIpv4(cidr: Option<Prefix>, instance: nat): Option<Lease> {
    match cidr
    case None => None
    case Some(p) =>
      if p.width != 32 || p.bits > 32 then None
      else if p.bits == 32 then if instance != 1 then None else Some(Address(p.addr))
      else if instance > Pow2(32 - p.bits) - 1 then None
      else Some(Address(Low(Base(p) + Low(instance, 32), 32)))
  }

  function ResolveIpv6(cidr: Option<Prefix>, instance: nat): Option<Lease> {
    match cidr
    case None => None
    case Some(p) =>
      if p.width != 128 || p.bits > 128 then None
      else if 128 - p.bits < 64 && instance > Pow2(128 - p.bits) - 1 then None
      else Some(Address(Low(Base(p) + instance, 128)))
  }

  /** Bitwise or. */
  function Or(a: nat, b: nat): nat
    decreases a + b
  {
    if a == 0 && b == 0 then 0
    else 2 * Or(a / 2, b / 2) + (if a % 2 == 1 || b % 2 == 1 then 1 else 0)
  }

  function ResolveIpv6Prefix(super: Option<Prefix>, subLen: int, instance: nat): Option<Lease> {
    match super
    case None => None
    case Some(p) =>
      if p.width != 128 || p.bits > 128 || subLen <= p.bits || subLen > 128 then None
      else if subLen - p.bits < 64 && instance >= Pow2(subLen - p.bits) then None
      else Some(Delegated(Low(Or(Base(p), Shl(instance, 128 - subLen)), 128), subLen))
  }

  function ResolvePool(pool: Pool, instance: int): Option<Lease> {
    if instance < 1 then None
    else
      match pool
      case Ipv4(c) => ResolveIpv4(c, instance)
      case Ipv6(c) => ResolveIpv6(c, instance)
      case Ipv6Prefix(c, subLen) => ResolveIpv6Prefix(c, subLen, instance)
      case Unsupported => None
  }

  // ---------- Leases are inside their pool ----------

  lemma {:induction false} OrOfApart(k: nat, b: nat, n: nat)
    requires b < Pow2(n)
    ensures Or(Shl(k, n), b) == Shl(k, n) + b
    decreases n
  {
    if n == 0 {
      OrOfZero(k);
    } else if Shl(k, n) != 0 || b != 0 {
      assert Shl(k, n) / 2 == Shl(k, n - 1);
      OrOfApart(k, b / 2, n - 1);
    }
  }

  lemma {:induction false} OrOfZero(a: nat)
    ensures Or(a, 0) == a
  {
    if a != 0 {
      OrOfZero(a / 2);
    }
  }

  /** An accepted instance gets the base plus the instance, inside its prefix, with no
      overflow, and never the base itself but for the one address of a /32. */
  lemma Ipv4Lease(p: Prefix, instance: nat)
    requires ProperPrefix(p) && instance >= 1 && ResolveIpv4(Some(p), instance).Some?
    ensures var a := ResolveIpv4(Some(p), instance).value;
      && a.Address? && Within(a.addr, p) && a.addr < Pow2(p.width)
      && (p.bits < 32 ==> a.addr == Base(p) + instance)
      && (p.bits == 32 ==> a.addr == p.addr && instance == 1)
  {
    hide Pow2, Shl, Shr, Low;
    if p.bits < 32 {
      Pow2Grows(32 - p.bits, 32);
      LowOfSmall(instance, 32);
      HostsAreWithin(p, instance);
      LowOfSmall(Base(p) + instance, 32);
    }
  }

  lemma Ipv6Lease(p: Prefix, instance: nat)
    requires ProperPrefix(p) && 1 <= instance < INT64_LIMIT && ResolveIpv6(Some(p), instance).Some?
    ensures var a := ResolveIpv6(Some(p), instance).value;
      a.Address? && Within(a.addr, p) && a.addr < Pow2(p.width) && a.addr == Base(p) + instance
  {
    hide Pow2, Shl, Shr, Low;
    Pow2Of63();
    if 128 - p.bits >= 64 {
      Pow2Grows(63, 128 - p.bits);
    }
    HostsAreWithin(p, instance);
    LowOfSmall(Base(p) + instance, 128);
  }

  /** The addresses a delegated prefix holds. */
  predicate Covers(l: Lease, addr: nat)
    requires l.Delegated? && l.len <= 128
  {
    l.addr <= addr < l.addr + Pow2(128 - l.len)
  }

  lemma SlotFits(superLen: nat, subLen: nat, instance: nat)
    requires superLen < subLen <= 128 && instance < Pow2(subLen - superLen)
    ensures Shl(instance, 128 - subLen) + Pow2(128 - subLen) <= Pow2(128 - superLen)
  {
    hide Pow2, Shl;
    ShlGrows(instance, Pow2(subLen - superLen), 128 - subLen);
    ShlOfPow2(128 - subLen, subLen - superLen);
  }

  lemma PrefixLease(p: Prefix, subLen: int, instance: nat)
    requires ProperPrefix(p) && 1 <= instance < INT64_LIMIT && ResolveIpv6Prefix(Some(p), subLen, instance).Some?
    ensures var d := ResolveIpv6Prefix(Some(p), subLen, instance).value;
      && d.Delegated? && d.len == subLen <= 128
      && d.addr == Base(p) + Shl(instance, 128 - subLen)
      && (forall addr: nat | Covers(d, addr) :: Within(addr, p) && addr < Pow2(p.width))
  {
    hide Pow2, Shl, Shr, Low, Or;
    Pow2Of63();
    if subLen - p.bits >= 64 {
      Pow2Grows(63, subLen - p.bits);
    }
    SlotFits(p.bits, subLen, instance);
    var offset := Shl(instance, 128 - subLen);
    OrOfApart(Shr(p.addr, HostBits(p)), offset, HostBits(p));
    HostsAreWithin(p, offset);
    LowOfSmall(Base(p) + offset, 128);
    var d := ResolveIpv6Prefix(Some(p), subLen, instance).value;
    forall addr: nat | Covers(d, addr)
      ensures Within(addr, p) && addr < Pow2(p.width)
    {
      HostsAreWithin(p, addr - Base(p));
    }
  }

  // ---------- Which instances a pool reaches ----------

  /** An IPv4 pool reaches the instances below its span, or the first alone when it is one
      address; an IPv6 pool those below its span; a prefix pool as many as it has prefixes of
      the length it delegates. No other pool reaches any, and no pool reaches an instance
      below one. */
  lemma ReachesExactly(pool: Pool, instance: int)
    requires Parsed(pool) && instance < INT64_LIMIT
    ensures ResolvePool(pool, instance).Some? <==>
      && instance >= 1
      && match pool
         case Ipv4(Some(p)) =>
           p.width == 32 && if p.bits == 32 then instance == 1 else instance < Pow2(32 - p.bits)
         case Ipv6(Some(p)) => p.width == 128 && instance < Pow2(128 - p.bits)
         case Ipv6Prefix(Some(p), subLen) =>
           p.width == 128 && p.bits < subLen <= 128 && instance < Pow2(subLen - p.bits)
         case _ => false
  {
    hide Pow2, Shl, Shr, Low, Or;
    Pow2Of63();
    match pool {
      case Ipv6(Some(p)) =>
        if 128 - p.bits >= 64 {
          Pow2Grows(63, 128 - p.bits);
        }
      case Ipv6Prefix(Some(p), subLen) =>
        if subLen - p.bits >= 64 {
          Pow2Grows(63, subLen - p.bits);
        }
      case _ =>
    }
  }

  // ---------- Distinct instances never collide ----------

  /** The two leases share no address. */
  predicate Apart(l: Lease, m: Lease) {
    match (l, m)
    case (Address(a), Address(b)) => a != b
    case (Delegated(a, n), Delegated(b, k)) =>
      n <= 128 && k <= 128 && (a + Pow2(128 - n) <= b || b + Pow2(128 - k) <= a)
    case _ => false
  }

  lemma DistinctLeases(pool: Pool, i: nat, j: nat)
    requires Parsed(pool) && i != j && i < INT64_LIMIT && j < INT64_LIMIT
    requires ResolvePool(pool, i).Some? && ResolvePool(pool, j).Some?
    ensures Apart(ResolvePool(pool, i).value, ResolvePool(pool, j).value)
  {
    hide Pow2, Shl, Shr, Low, Or;
    match pool {
      case Ipv4(c) =>
        Ipv4Lease(c.value, i);
        Ipv4Lease(c.value, j);
      case Ipv6(c) =>
        Ipv6Lease(c.value, i);
        Ipv6Lease(c.value, j);
      case Ipv6Prefix(c, subLen) =>
        PrefixLease(c.value, subLen, i);
        PrefixLease(c.value, subLen, j);
        if i < j {
          ShlGrows(i, j, 128 - subLen);
        } else {
          ShlGrows(j, i, 128 - subLen);
        }
    }
  }

  // ---------- Capacity ----------

  /** A pool that reaches an instance reaches every lower one. */
  lemma CapacityIsMonotone(pool: Pool, low: int, high: int)
    requires Parsed(pool) && 1 <= low <= high && ResolvePool(pool, high).Some?
    ensures ResolvePool(pool, low).Some?
  {
  }

  /** The name of a pool that cannot reach the highest instance, if there is one. */
  method ValidatePoolCapacity(pools: map<string, Pool>, highest: int) returns (short: Option<string>)
    ensures short.None? <==> highest < 1 || forall name | name in pools :: ResolvePool(pools[name], highest).Some?
    ensures short.Some? ==> short.value in pools && ResolvePool(pools[short.value], highest).None?
  {
    if highest < 1 {
      return None;
    }
    var todo := pools.Keys;
    while todo != {}
      invariant todo <= pools.Keys
      invariant forall name | name in pools.Keys - todo :: ResolvePool(pools[name], highest).Some?
    {
      var name :| name in todo;
      if ResolvePool(pools[name], highest).None? {
        return Some(name);
      }
      todo := todo - {name};
    }
    return None;
  }

  /** Shards that stay below a validated highest index draw apart leases from one pool. */
  lemma ShardsNeverCollide(pool: Pool, highest: nat, i: nat, j: nat)
    requires Parsed(pool) && highest < INT64_LIMIT && ResolvePool(pool, highest).Some?
    requires 1 <= i <= highest && 1 <= j <= highest && i != j
    ensures ResolvePool(pool, i).Some? && ResolvePool(pool, j).Some?
    ensures Apart(ResolvePool(pool, i).value, ResolvePool(pool, j).value)
  {
    CapacityIsMonotone(pool, i, highest);
    CapacityIsMonotone(pool, j, highest);
    DistinctLeases(pool, i, j);
  }
}
