/** CIDR arithmetic on 32-bit addresses, proved equal to plain intervals of integers. */
module Cidr {
  import opened Bits

  type Addr = x: int | 0 <= x < TWO_32
  type Length = b: int | 0 <= b <= 32

  /** A parsed prefix keeps the address it was written with, host bits and all. */
  datatype Prefix = Prefix(addr: Addr, bits: Length)

  datatype PrefixText = BadPrefix | V6Prefix | V4Prefix(p: Prefix)
  datatype AddrText = BadAddr | V6Addr | V4Addr(a: Addr)

  datatype Error = BadCidr | NotV4Cidr | BadGateway | NotV4Gateway | Outside | Collides | NegativeCount | NoHosts
  datatype Result<+T> = Ok(value: T) | Err(error: Error)

  datatype HostNet = HostNet(prefix: Prefix, gateway: Addr, broadcast: Addr)

  // ---- the operations on bits ----

  function Next(a: Addr): Result<Addr> {
    if a + 1 == TWO_32 then Err(NoHosts) else Ok(a + 1)
  }

  /** The 32-bit mask of b ones. */
  function NetMask(b: nat): nat
    requires b <= 32
  {
    Pow2(32 - b) * (Pow2(b) - 1)
  }

  function Masked(p: Prefix): nat
  {
    And(p.addr, NetMask(p.bits))
  }

  /** (1 << h) - 1 in 32 bits; both the shift by 32 and the subtraction from 0 wrap. */
  function HostMask(h: nat): nat {
    (Shl32(1, h) + TWO_32 - 1) % TWO_32
  }

  function Contains(p: Prefix, a: Addr): bool
  {
    Shr(Xor(a, p.addr), 32 - p.bits) == 0
  }

  // ---- the interval ----

  function Size(p: Prefix): (n: nat)
    ensures 1 <= n
  {
    Pow2(32 - p.bits)
  }

  function Base(p: Prefix): nat
  {
    Size(p) * Shr(p.addr, 32 - p.bits)
  }

  function Last(p: Prefix): nat
  {
    Base(p) + Size(p) - 1
  }

  lemma IntervalFits(p: Prefix)
    ensures Base(p) <= p.addr <= Last(p) < TWO_32
    ensures Shr(p.addr, 32 - p.bits) < Pow2(p.bits)
  {
    var k, q := 32 - p.bits, Shr(p.addr, 32 - p.bits);
    ShrDivides(p.addr, k);
    Pow2Of32();
    Pow2Sum(k, p.bits);
    if Pow2(p.bits) <= q {
      Scaled(Pow2(k), Pow2(p.bits), q);
    } else {
      Apart(Pow2(k), q, Pow2(p.bits));
    }
  }

  /** The mask test decides membership in the interval. */
  lemma ContainsIsInterval(p: Prefix, a: Addr)
    ensures Contains(p, a) <==> Base(p) <= a <= Last(p)
  {
    var k := 32 - p.bits;
    XorShift(a, p.addr, k);
    ShrDivides(a, k);
    if Base(p) <= a <= Last(p) {
      QuotientIsShr(a, Shr(p.addr, k), k);
    }
  }

  /** Masking gives the first address of the interval. */
  lemma MaskedIsBase(p: Prefix)
    ensures Masked(p) == Base(p)
  {
    IntervalFits(p);
    MaskHigh(p.addr, p.bits, 32 - p.bits);
  }

  lemma HostMaskValue(h: nat)
    requires h <= 32
    ensures HostMask(h) == Pow2(h) - 1
  {
    Pow2Of32();
    if h < 32 {
      Pow2Grows(h, 32);
    }
    WrapsOnce(Pow2(h));
  }

  lemma WrapsOnce(x: nat)
    requires 1 <= x <= TWO_32
    ensures (x % TWO_32 + TWO_32 - 1) % TWO_32 == x - 1
  {
  }

  /** The network or-ed with the host mask is the last address, for every length from 0 to 32. */
  lemma BroadcastIsLast(p: Prefix)
    ensures Or(Masked(p), HostMask(32 - p.bits)) == Last(p)
  {
    MaskedIsBase(p);
    HostMaskValue(32 - p.bits);
    OrLow(Shr(p.addr, 32 - p.bits), 32 - p.bits);
  }

  // ---- HostPrefix, FirstHostIP, ResolveGateway ----

  function Broadcast(p: Prefix): Addr
  {
    BroadcastIsLast(p);
    IntervalFits(p);
    Or(Masked(p), HostMask(32 - p.bits))
  }

  function Network(p: Prefix): Addr
  {
    MaskedIsBase(p);
    IntervalFits(p);
    Masked(p)
  }

  function HostPrefix(cidr: PrefixText, gateway: AddrText): Result<HostNet>
  {
    if cidr.BadPrefix? then Err(BadCidr)
    else if cidr.V6Prefix? then Err(NotV4Cidr)
    else if gateway.BadAddr? then Err(BadGateway)
    else if gateway.V6Addr? then Err(NotV4Gateway)
    else if !Contains(cidr.p, gateway.a) then Err(Outside)
    else if gateway.a == Network(cidr.p) || gateway.a == Broadcast(cidr.p) then Err(Collides)
    else Ok(HostNet(cidr.p, gateway.a, Broadcast(cidr.p)))
  }

  /** It accepts exactly the addresses strictly inside the interval, and reports the last address. */
  lemma HostPrefixAccepts(p: Prefix, g: Addr)
    ensures var r := HostPrefix(V4Prefix(p), V4Addr(g));
            && (r.Ok? <==> Base(p) < g < Last(p))
            && (r.Ok? ==> r.value.broadcast == Last(p) && 4 <= Size(p))
            && (r.Err? ==> r.error == if g < Base(p) || Last(p) < g then Outside else Collides)
  {
    ContainsIsInterval(p, g);
    MaskedIsBase(p);
    BroadcastIsLast(p);
    if Base(p) < g < Last(p) {
      SizeFour(p);
    }
  }

  lemma SizeFour(p: Prefix)
    requires 3 <= Size(p)
    ensures p.bits <= 30 && 4 <= Size(p)
  {
  }

  /** A /31 or a /32 has no gateway it accepts. */
  lemma ShortPrefixesRejected(p: Prefix, g: Addr)
    requires 31 <= p.bits
    ensures HostPrefix(V4Prefix(p), V4Addr(g)).Err?
  {
    HostPrefixAccepts(p, g);
    assert Pow2(0) == 1 && Pow2(1) == 2;
  }

  function FirstHostIp(cidr: PrefixText): Result<Addr>
  {
    if cidr.BadPrefix? then Err(BadCidr)
    else if cidr.V6Prefix? then Err(NotV4Cidr)
    else Next(Network(cidr.p))
  }

  function ResolveGateway(gateway: AddrText, given: bool, cidr: PrefixText): Result<AddrText>
  {
    if given then Ok(gateway)
    else if FirstHostIp(cidr).Err? then Err(FirstHostIp(cidr).error)
    else Ok(V4Addr(FirstHostIp(cidr).value))
  }

  /** The default gateway is one that HostPrefix accepts exactly when the prefix is a /30 or longer-ranged. */
  lemma DefaultGatewayAccepted(p: Prefix)
    ensures var g := ResolveGateway(BadAddr, false, V4Prefix(p));
            (g.Ok? && HostPrefix(V4Prefix(p), g.value).Ok?) <==> p.bits <= 30
  {
    MaskedIsBase(p);
    IntervalFits(p);
    assert Pow2(0) == 1 && Pow2(1) == 2 && Pow2(2) == 4;
    if Base(p) + 1 < TWO_32 {
      HostPrefixAccepts(p, Base(p) + 1);
    }
    if p.bits < 30 {
      Pow2Grows(2, 32 - p.bits);
    }
  }

  /** A gateway that is given is taken as it is, good or bad; otherwise it is the address after the first one of the
      interval, which only the last address of all does not have. */
  lemma GatewayValues(gateway: AddrText, cidr: PrefixText)
    ensures ResolveGateway(gateway, true, cidr) == Ok(gateway)
    ensures cidr.V4Prefix? ==>
              ResolveGateway(gateway, false, cidr)
              == if Base(cidr.p) + 1 < TWO_32 then Ok(V4Addr(Base(cidr.p) + 1)) else Err(NoHosts)
    ensures cidr.BadPrefix? ==> ResolveGateway(gateway, false, cidr) == Err(BadCidr)
    ensures cidr.V6Prefix? ==> ResolveGateway(gateway, false, cidr) == Err(NotV4Cidr)
  {
    if cidr.V4Prefix? {
      MaskedIsBase(cidr.p);
      IntervalFits(cidr.p);
    }
  }

  /** Which text is at fault, the prefix first. */
  lemma BadTexts(cidr: PrefixText, gateway: AddrText)
    ensures !cidr.V4Prefix? || !gateway.V4Addr? ==>
              HostPrefix(cidr, gateway)
              == Err(if cidr.BadPrefix? then BadCidr else if cidr.V6Prefix? then NotV4Cidr
                     else if gateway.BadAddr? then BadGateway else NotV4Gateway)
  {
  }

  // ---- SubnetIPs ----

  /** The i-th host: the gateway is stepped over. */
  function HostAt(h: HostNet, i: nat): int
  {
    Stepping(Base(h.prefix), h.gateway, i)
  }

  /** The i-th number after base, with gateway stepped over. */
  function Stepping(base: int, gateway: int, i: nat): int {
    if base + 1 + i < gateway then base + 1 + i else base + 2 + i
  }

  /** The hosts come in ascending order, and are all of the interval but network, gateway and broadcast. */
  lemma HostsAreTheRest(h: HostNet, x: int)
    requires Base(h.prefix) < h.gateway < Last(h.prefix)
    ensures forall i: nat, j: nat :: i < j ==> HostAt(h, i) < HostAt(h, j)
    ensures (exists i: nat :: i < Size(h.prefix) - 3 && HostAt(h, i) == x)
            <==> Base(h.prefix) < x < Last(h.prefix) && x != h.gateway
  {
    if Base(h.prefix) < x < Last(h.prefix) && x != h.gateway {
      var i := if x < h.gateway then x - Base(h.prefix) - 1 else x - Base(h.prefix) - 2;
      assert HostAt(h, i) == x && i < Size(h.prefix) - 3;
    }
  }

  function Smaller(a: int, b: int): int {
    if a <= b then a else b
  }

  method SubnetIps(cidr: PrefixText, gateway: AddrText, count: int) returns (r: Result<seq<Addr>>)
    ensures r.Err? <==> HostPrefix(cidr, gateway).Err? || count < 0
    ensures r.Err? ==>
              r.error == if HostPrefix(cidr, gateway).Err? then HostPrefix(cidr, gateway).error else NegativeCount
    ensures r.Ok? ==>
              var h := HostPrefix(cidr, gateway).value;
              && |r.value| == Smaller(count, Size(h.prefix) - 3)
              && forall i :: 0 <= i < |r.value| ==> r.value[i] == HostAt(h, i)
  {
    var hp := HostPrefix(cidr, gateway);
    if hp.Err? {
      return Err(hp.error);
    }
    if count < 0 {
      return Err(NegativeCount);
    }
    var h := hp.value;
    HostPrefixAccepts(h.prefix, h.gateway);
    IntervalFits(h.prefix);
    MaskedIsBase(h.prefix);
    forall a: Addr
      ensures Contains(h.prefix, a) <==> Base(h.prefix) <= a <= Last(h.prefix)
    {
      ContainsIsInterval(h.prefix, a);
    }
    var ips := Collect(h, Network(h.prefix), count, Last(h.prefix));
    return Ok(ips);
  }

  /** The walk from the network address up, over a prefix whose mask test is the interval from base to last. */
  method Collect(h: HostNet, base: Addr, count: nat, ghost last: int) returns (ips: seq<Addr>)
    requires base < h.gateway < last < TWO_32 && h.broadcast == last
    requires forall a: Addr :: Contains(h.prefix, a) <==> base <= a <= last
    ensures |ips| == Smaller(count, last - base - 2)
    ensures forall i :: 0 <= i < |ips| ==> ips[i] == Stepping(base, h.gateway, i)
  {
    ips := [];
    var addr: Result<Addr> := Next(base);
    while addr.Ok? && Contains(h.prefix, addr.value) && |ips| < count
      invariant |ips| <= count
      invariant forall i :: 0 <= i < |ips| ==> ips[i] == Stepping(base, h.gateway, i)
      invariant addr.Ok? ==> base < addr.value <= last + 1 && |ips| == Passed(base, last, h.gateway, addr.value)
      invariant addr.Err? ==> last + 1 == TWO_32 && |ips| == last - base - 2
      decreases if addr.Ok? then TWO_32 - addr.value else 0
    {
      if addr.value == h.gateway || addr.value == h.broadcast {
        addr := Next(addr.value);
        continue;
      }
      ips := ips + [addr.value];
      addr := Next(addr.value);
    }
  }

  /** How many hosts lie before a. */
  function Passed(base: int, last: int, gateway: int, a: int): int {
    a - base - 1 - (if gateway < a then 1 else 0) - (if last < a then 1 else 0)
  }

  // ---- CIDRContainsCIDR ----

  function CidrContainsCidr(outer: Prefix, inner: Prefix): bool
  {
    outer.bits <= inner.bits && Contains(outer, Network(inner))
  }

  /** True exactly when every address of inner lies in outer, whether or not the prefixes were written masked. */
  lemma ContainsIsInclusion(outer: Prefix, inner: Prefix)
    ensures CidrContainsCidr(outer, inner) <==> forall a: Addr :: Contains(inner, a) ==> Contains(outer, a)
  {
    IntervalFits(inner);
    MaskedIsBase(inner);
    var b: Addr := Base(inner);
    ContainsIsInterval(inner, b);
    if CidrContainsCidr(outer, inner) {
      forall a: Addr | Contains(inner, a)
        ensures Contains(outer, a)
      {
        SameBlock(outer, inner, a, b);
      }
    } else if inner.bits < outer.bits {
      var a := SticksOut(outer, inner);
    }
  }

  /** A shorter prefix holds an address that a longer one does not. */
  lemma SticksOut(outer: Prefix, inner: Prefix) returns (a: Addr)
    requires inner.bits < outer.bits
    ensures Contains(inner, a) && !Contains(outer, a)
  {
    IntervalFits(inner);
    var b: Addr := Base(inner);
    var l: Addr := Last(inner);
    ContainsIsInterval(inner, b);
    ContainsIsInterval(inner, l);
    ContainsIsInterval(outer, b);
    ContainsIsInterval(outer, l);
    Pow2Grows(32 - outer.bits, 32 - inner.bits);
    a := if Contains(outer, b) then l else b;
  }

  /** Two addresses of inner fall in the same block of a coarser prefix. */
  lemma SameBlock(outer: Prefix, inner: Prefix, a: Addr, b: Addr)
    requires outer.bits <= inner.bits
    requires Contains(inner, a) && Contains(inner, b) && Contains(outer, b)
    ensures Contains(outer, a)
  {
    var k, d := 32 - inner.bits, inner.bits - outer.bits;
    XorShift(a, inner.addr, k);
    XorShift(b, inner.addr, k);
    XorShift(b, outer.addr, k + d);
    XorShift(a, outer.addr, k + d);
    ShrTwice(a, k, d);
    ShrTwice(b, k, d);
  }

  /** So it is reflexive and transitive. */
  lemma ContainsIsPreorder(x: Prefix, y: Prefix, z: Prefix)
    ensures CidrContainsCidr(x, x)
    ensures CidrContainsCidr(x, y) && CidrContainsCidr(y, z) ==> CidrContainsCidr(x, z)
  {
    ContainsIsInclusion(x, x);
    ContainsIsInclusion(x, y);
    ContainsIsInclusion(y, z);
    ContainsIsInclusion(x, z);
  }
}
