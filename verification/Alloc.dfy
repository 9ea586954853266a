/** Tunnel-address allocation (clients/alloc.go), in the source's wrapping uint32 arithmetic. */
module Alloc {
  import opened Wrappers
  import opened Ipv4

  function Pow2(n: nat): (p: nat)
    ensures p >= 1
  {
    if n == 0 then 1 else 2 * Pow2(n - 1)
  }

  /** uint32 addition and subtraction wrap around. */
  function Add32(a: u32, b: u32): u32 { if a + b < TWO32 then a + b else a + b - TWO32 }

  function Sub32(a: u32, b: u32): u32 { if a >= b then a - b else a - b + TWO32 }

  lemma {:induction false} Pow2Monotone(m: nat, n: nat)
    requires m <= n
    ensures Pow2(m) <= Pow2(n)
    ensures m < n ==> Pow2(m) < Pow2(n)
    decreases n
  {
    if m < n { Pow2Monotone(m, n - 1); }
  }

  lemma {:induction false} Pow2Split(m: nat, n: nat)
    ensures Pow2(m + n) == Pow2(m) * Pow2(n)
  {
    if m > 0 {
      Pow2Split(m - 1, n);
    }
  }

  lemma Pow2Of32()
    ensures Pow2(32) == TWO32
  {
    Pow2Split(16, 16);
    Pow2Split(8, 8);
    assert Pow2(8) == 256;
  }

  lemma Pow2UpTo32(n: nat)
    requires n <= 32
    ensures Pow2(n) <= TWO32
    ensures n < 32 <==> Pow2(n) < TWO32
  {
    Pow2Of32();
    Pow2Monotone(n, 32);
  }

  /** uint32(1) << n, for n up to 32: the top bit falls off at 32. */
  function Shift32(n: nat): u32
    requires n <= 32
  {
    Pow2UpTo32(n);
    if n == 32 then 0 else Pow2(n)
  }

  /** The overlay subnet (base address and prefix length) and the server's own host in it. */
  datatype ServerNet = ServerNet(network: u32, ones: nat, serverIP: u32) {
    /** Number of addresses in the subnet. */
    function Size(): (n: nat)
      requires ones <= 32
      ensures n >= 1
    {
      Pow2(32 - ones)
    }

    /** IPNet.Contains: the masked address is the base. */
    predicate Contains(v: u32)
      requires ones <= 32
    {
      v - v % Size() == network
    }

    /** What net.ParseCIDR guarantees: the base is masked and the host lies in it. */
    predicate Valid() {
      ones <= 32 && network % Size() == 0 && Contains(serverIP)
    }
  }

  lemma MulAtLeast(d: nat, x: nat)
    requires x >= 1
    ensures d * x >= d
  {
    assert d * x == d * (x - 1) + d;
  }

  lemma MulGap(d: nat, big: int, small: int)
    requires big > small
    ensures d * big >= d * small + d
  {
    MulAtLeast(d, big - small);
    assert d * big == d * small + d * (big - small);
  }

  lemma QuotientUnique(d: nat, q: int, r: nat, p: int, s: nat)
    requires d * q + r == d * p + s && r < d && s < d
    ensures q == p && r == s
  {
    if q > p {
      MulGap(d, q, p);
      assert false;
    } else if q < p {
      MulGap(d, p, q);
      assert false;
    }
  }

  lemma DivModUnique(a: nat, d: nat, q: nat, r: nat)
    requires d >= 1 && a == d * q + r && r < d
    ensures a / d == q && a % d == r
  {
    QuotientUnique(d, q, r, a / d, a % d);
  }

  lemma ModPlus(a: nat, d: nat)
    requires d >= 1
    ensures (a + d) % d == a % d
  {
    assert a == d * (a / d) + a % d;
    assert a + d == d * (a / d + 1) + a % d;
    DivModUnique(a + d, d, a / d + 1, a % d);
  }

  lemma {:induction false} MultipleMod(d: nat, q: nat)
    requires d >= 1
    ensures (d * q) % d == 0
  {
    if q > 0 {
      MultipleMod(d, q - 1);
      assert d * q == d * (q - 1) + d;
      ModPlus(d * (q - 1), d);
    }
  }

  lemma MaskedBase(host: nat, size: nat)
    requires size >= 1
    ensures 0 <= host - host % size <= host
    ensures (host - host % size) % size == 0
  {
    assert host - host % size == size * (host / size);
    MultipleMod(size, host / size);
  }

  /** ParseServerNet on an IPv4 "host/prefix": mask the host to get the base. */
  function MakeServerNet(host: u32, ones: nat): (sn: ServerNet)
    requires ones <= 32
    ensures sn.Valid() && sn.serverIP == host && sn.ones == ones
  {
    var size := Pow2(32 - ones);
    var base := host - host % size;
    MaskedBase(host, size);
    ServerNet(base, ones, host)
  }

  lemma MultipleBelowMultiple(size: nat, q: nat, p: nat)
    requires size * q < size * p
    ensures size * q + size <= size * p
  {
    if q > p {
      MulGap(size, q, p);
      assert false;
    } else if q < p {
      MulGap(size, p, q);
    }
  }

  lemma MaskedQuotient(n: nat, size: nat)
    requires size >= 1 && n % size == 0
    ensures n == size * (n / size)
  {
  }

  /** The subnets of one size tile the address space. */
  lemma Tiles(ones: nat)
    requires ones <= 32
    ensures Pow2(32 - ones) * Pow2(ones) == TWO32
  {
    Pow2Split(32 - ones, ones);
    Pow2Of32();
  }

  lemma MultipleFits(network: nat, size: nat, p: nat, all: nat)
    requires size >= 1 && network % size == 0 && size * p == all && network < all
    ensures network + size <= all
  {
    MaskedQuotient(network, size);
    MultipleBelowMultiple(size, network / size, p);
  }

  /** A masked subnet never reaches past the end of the address space. */
  lemma SubnetFits(sn: ServerNet)
    requires sn.Valid()
    ensures sn.network + sn.Size() <= TWO32
  {
    Tiles(sn.ones);
    MultipleFits(sn.network, sn.Size(), Pow2(sn.ones), TWO32);
  }

  lemma OffsetRemainder(base: nat, size: nat, r: nat)
    requires size >= 1 && base % size == 0 && r < size
    ensures (base + r) % size == r
  {
    MaskedQuotient(base, size);
    DivModUnique(base + r, size, base / size, r);
  }

  /** The subnet holds exactly the addresses from its base on, as many as its size says. */
  lemma ContainsIff(sn: ServerNet, v: u32)
    requires sn.Valid()
    ensures sn.Contains(v) <==> sn.network <= v < sn.network + sn.Size()
  {
    if sn.network <= v < sn.network + sn.Size() { OffsetRemainder(sn.network, sn.Size(), v - sn.network); }
  }

  /** v4Bounds: base and broadcast as uint32; the /0 shift overflows to zero. */
  function Bounds(sn: ServerNet): (b: (u32, u32))
    requires sn.ones <= 32
  {
    (sn.network, Sub32(Add32(sn.network, Shift32(32 - sn.ones)), 1))
  }

  lemma BoundsAreUnwrapped(sn: ServerNet)
    requires sn.Valid()
    ensures Bounds(sn) == (sn.network, sn.network + sn.Size() - 1)
  {
    SubnetFits(sn);
    Pow2UpTo32(32 - sn.ones);
  }

  function ParsedSet(used: seq<string>): set<u32> {
    set u | u in used && ParseHost(u).Some? :: ParseHost(u).value
  }

  /** reservedSet: the server and every parseable used entry. */
  function Reserved(sn: ServerNet, used: seq<string>): set<u32> {
    {sn.serverIP} + ParsedSet(used)
  }

  /** The lowest address in [h, last] that is not reserved. */
  function FirstFree(h: u32, last: u32, reserved: set<u32>): Option<u32>
    decreases last - h
  {
    if h > last then None
    else if h !in reserved then Some(h)
    else if h == last then None
    else FirstFree(h + 1, last, reserved)
  }

  /** The host AllocateAddress settles on; None is ErrSubnetExhausted. */
  function AllocateHost(sn: ServerNet, used: seq<string>): Option<u32>
    requires sn.ones <= 32
  {
    var (network, broadcast) := Bounds(sn);
    if broadcast <= Add32(network, 1) then None
    else FirstFree(Add32(network, 1), Sub32(broadcast, 1), Reserved(sn, used))
  }

  /** What AllocateAddress returns. */
  function Allocate(sn: ServerNet, used: seq<string>): Option<string>
    requires sn.ones <= 32
  {
    var host := AllocateHost(sn, used);
    if host.None? then None else Some(HostCidr(host.value))
  }

  method ReservedSet(sn: ServerNet, used: seq<string>) returns (reserved: set<u32>)
    ensures reserved == Reserved(sn, used)
  {
    reserved := {sn.serverIP};
    for i := 0 to |used|
      invariant reserved == Reserved(sn, used[..i])
    {
      assert used[..i + 1] == used[..i] + [used[i]];
      assert ParsedSet(used[..i + 1]) ==
             ParsedSet(used[..i]) + if ParseHost(used[i]).Some? then {ParseHost(used[i]).value} else {};
      var v := ParseHost(used[i]);
      if v.Some? {
        reserved := reserved + {v.value};
      }
    }
    assert used[..|used|] == used;
  }

  /** The scan of the source: its uint32 counter never overflows, so it terminates. */
  method AllocateAddress(sn: ServerNet, used: seq<string>) returns (r: Option<string>)
    requires sn.ones <= 32
    ensures r == Allocate(sn, used)
  {
    var (network, broadcast) := Bounds(sn);
    var reserved := ReservedSet(sn, used);
    if broadcast <= Add32(network, 1) {
      return None;
    }
    var h := Add32(network, 1);
    ghost var start := h;
    while h <= Sub32(broadcast, 1)
      invariant start <= h <= broadcast
      invariant FirstFree(start, Sub32(broadcast, 1), reserved)
             == if h == broadcast then None else FirstFree(h, Sub32(broadcast, 1), reserved)
      decreases broadcast - h
    {
      if h !in reserved {
        return Some(HostCidr(h));
      }
      h := Add32(h, 1);
    }
    return None;
  }

  /** A host address: strictly between the base and the broadcast address. */
  predicate Usable(sn: ServerNet, h: u32)
    requires sn.ones <= 32
  {
    sn.network < h < sn.network + sn.Size() - 1
  }

  ghost predicate LowestFree(sn: ServerNet, used: seq<string>, h: u32)
    requires sn.ones <= 32
  {
    && Usable(sn, h) && h !in Reserved(sn, used)
    && forall g: u32 :: Usable(sn, g) && g < h ==> g in Reserved(sn, used)
  }

  /** The documented promise: the lowest free host, or exhaustion when there is none. */
  ghost predicate KeepsPromise(sn: ServerNet, used: seq<string>, r: Option<string>)
    requires sn.ones <= 32
  {
    match r
    case None => forall h: u32 :: Usable(sn, h) ==> h in Reserved(sn, used)
    case Some(a) => exists h: u32 :: LowestFree(sn, used, h) && a == HostCidr(h)
  }

  lemma {:induction false} FirstFreeIsLowest(h: u32, last: u32, reserved: set<u32>)
    ensures var r := FirstFree(h, last, reserved);
            && (r.Some? ==> h <= r.value <= last && r.value !in reserved
                            && forall g: u32 :: h <= g < r.value ==> g in reserved)
            && (r.None? ==> forall g: u32 :: h <= g <= last ==> g in reserved)
    decreases last - h
  {
    if h < last && h in reserved {
      FirstFreeIsLowest(h + 1, last, reserved);
    }
  }

  /** The one prefix whose base plus one wraps past the guard: 255.255.255.255/32. */
  predicate Wraps(sn: ServerNet) { sn.network == TWO32 - 1 }

  /** Away from the wrapping prefix the scan covers exactly the usable hosts. */
  lemma ScanRange(sn: ServerNet)
    requires sn.Valid() && !Wraps(sn)
    ensures sn.network + sn.Size() <= TWO32
    ensures var (network, broadcast) := Bounds(sn);
            && Add32(network, 1) == sn.network + 1
            && (broadcast <= Add32(network, 1) <==> sn.Size() <= 2)
            && (sn.Size() > 2 ==> Sub32(broadcast, 1) == sn.network + sn.Size() - 2)
  {
    SubnetFits(sn);
    BoundsAreUnwrapped(sn);
  }

  lemma OrdinaryScan(sn: ServerNet, used: seq<string>)
    requires sn.Valid() && !Wraps(sn)
    ensures sn.network + sn.Size() <= TWO32
    ensures AllocateHost(sn, used) == if sn.Size() <= 2 then None
                                      else FirstFree(sn.network + 1, sn.network + sn.Size() - 2, Reserved(sn, used))
  {
    ScanRange(sn);
  }

  /** A search for hosts: the lowest free one, or none at all. */
  ghost predicate FindsLowest(sn: ServerNet, used: seq<string>, host: Option<u32>)
    requires sn.ones <= 32
  {
    if host.Some? then LowestFree(sn, used, host.value) else forall h: u32 :: Usable(sn, h) ==> h in Reserved(sn, used)
  }

  lemma LowestInRange(sn: ServerNet, used: seq<string>, host: Option<u32>)
    requires sn.ones <= 32 && sn.network + sn.Size() <= TWO32
    requires host == if sn.Size() <= 2 then None
                     else FirstFree(sn.network + 1, sn.network + sn.Size() - 2, Reserved(sn, used))
    ensures FindsLowest(sn, used, host)
  {
    if sn.Size() > 2 {
      FirstFreeIsLowest(sn.network + 1, sn.network + sn.Size() - 2, Reserved(sn, used));
    }
  }

  lemma ScanFindsLowest(sn: ServerNet, used: seq<string>)
    requires sn.Valid() && !Wraps(sn)
    ensures FindsLowest(sn, used, AllocateHost(sn, used))
  {
    OrdinaryScan(sn, used);
    LowestInRange(sn, used, AllocateHost(sn, used));
  }

  lemma AllocateOnOrdinaryPrefix(sn: ServerNet, used: seq<string>)
    requires sn.Valid() && !Wraps(sn)
    ensures KeepsPromise(sn, used, Allocate(sn, used))
  {
    ScanFindsLowest(sn, used);
  }

  lemma ScanOnWrappingPrefix(sn: ServerNet, used: seq<string>)
    requires sn.Valid() && Wraps(sn)
    ensures AllocateHost(sn, used) == FirstFree(0, TWO32 - 2, Reserved(sn, used))
    ensures forall h: u32 :: !Usable(sn, h)
  {
    SubnetFits(sn);
    BoundsAreUnwrapped(sn);
    assert Sub32(TWO32 - 1, 1) == TWO32 - 2;
  }

  lemma AllocateOnWrappingPrefix(sn: ServerNet, used: seq<string>)
    requires sn.Valid() && Wraps(sn)
    ensures KeepsPromise(sn, used, Allocate(sn, used))
       <==> forall h: u32 :: h < TWO32 - 1 ==> h in Reserved(sn, used)
  {
    ScanOnWrappingPrefix(sn, used);
    FirstFreeIsLowest(0, TWO32 - 2, Reserved(sn, used));
  }

  /** What the scan hands out: the lowest free host; on the wrapping prefix, which has no hosts, the
      lowest address of all that is not reserved. */
  ghost predicate HandsOut(sn: ServerNet, used: seq<string>, h: u32)
    requires sn.ones <= 32
  {
    if Wraps(sn) then h < TWO32 - 1 && h !in Reserved(sn, used) && forall g: u32 :: g < h ==> g in Reserved(sn, used)
    else LowestFree(sn, used, h)
  }

  lemma ScanHandsOut(sn: ServerNet, used: seq<string>)
    requires sn.Valid()
    ensures var host := AllocateHost(sn, used); host.Some? ==> HandsOut(sn, used, host.value)
  {
    if Wraps(sn) {
      ScanOnWrappingPrefix(sn, used);
      FirstFreeIsLowest(0, TWO32 - 2, Reserved(sn, used));
    } else {
      ScanFindsLowest(sn, used);
    }
  }

  /** AllocateAddress keeps its promise on every valid server net exactly when the
      prefix is not 255.255.255.255/32 (or nothing at all is left to hand out). */
  lemma AllocateKeepsPromise(sn: ServerNet, used: seq<string>)
    requires sn.Valid()
    ensures KeepsPromise(sn, used, Allocate(sn, used))
       <==> (sn.network != TWO32 - 1 || forall h: u32 :: h < TWO32 - 1 ==> h in Reserved(sn, used))
  {
    if Wraps(sn) {
      AllocateOnWrappingPrefix(sn, used);
    } else {
      AllocateOnOrdinaryPrefix(sn, used);
    }
  }

  /** The failing input: on 255.255.255.255/32 with no clients, 0.0.0.0/32 is handed out. */
  lemma WrapExample()
    ensures var sn := MakeServerNet(TWO32 - 1, 32);
            Allocate(sn, []) == Some("0.0.0.0/32") && !KeepsPromise(sn, [], Allocate(sn, []))
  {
    var sn := MakeServerNet(TWO32 - 1, 32);
    BoundsAreUnwrapped(sn);
    assert Reserved(sn, []) == {TWO32 - 1};
    assert Add32(TWO32 - 1, 1) == 0;
    assert FirstFree(0, TWO32 - 2, {TWO32 - 1}) == Some(0);
    assert HostCidr(0) == "0.0.0.0/32";
    AllocateKeepsPromise(sn, []);
    assert 1 !in Reserved(sn, []);
  }

  lemma {:induction false} ParsedSetIsSmall(used: seq<string>)
    ensures |ParsedSet(used)| <= |used|
  {
    if used == [] {
      assert ParsedSet(used) == {};
    } else {
      var init := used[..|used| - 1];
      ParsedSetIsSmall(init);
      var v := ParseHost(used[|used| - 1]);
      assert used == init + [used[|used| - 1]];
      assert ParsedSet(used) == ParsedSet(init) + if v.Some? then {v.value} else {};
    }
  }

  lemma {:induction false} RangeSize(lo: u32, hi: u32, s: set<u32>)
    requires lo <= hi
    requires forall h: u32 :: lo <= h < hi ==> h in s
    ensures |s| >= hi - lo
    decreases hi - lo
  {
    if lo < hi {
      RangeSize(lo + 1, hi, s - {lo});
    }
  }

  /** Pigeonhole: with fewer used entries (plus the server) than hosts, allocation succeeds. */
  lemma AllocateSucceedsWhenRoom(sn: ServerNet, used: seq<string>)
    requires sn.Valid() && |used| + 1 < sn.Size() - 2
    ensures Allocate(sn, used).Some?
  {
    SubnetFits(sn);
    AllocateOnOrdinaryPrefix(sn, used);
    if Allocate(sn, used).None? {
      RangeSize(sn.network + 1, sn.network + sn.Size() - 1, Reserved(sn, used));
      ParsedSetIsSmall(used);
      assert false;
    }
  }
}
