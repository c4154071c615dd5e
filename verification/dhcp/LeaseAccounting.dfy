/** Exact pool accounting, and offers that are honoured. */
module LeaseAccounting {
  import opened LeaseModel
  import opened LeaseMachine
  import opened LeaseSafety

  // ---- tables, offers and file stay injective and inside the pool, whatever can be read ----

  ghost predicate FileShape(c: Conf, f: File) {
    && (forall j, k :: j in f && k in f && f[j].ip == f[k].ip ==> j == k)
    && (forall k :: k in f ==> f[k].ip in c.addresses)
  }

  ghost predicate MemShape(c: Conf, m: Mem) {
    InPool(c, m) && OneRowPerIp(m.leases)
  }

  ghost predicate Shape(c: Conf, routes: set<Ip>, s: State) {
    var disk := World(routes, s.journal).disk;
    && (disk.Some? ==> FileShape(c, disk.value))
    && (s.alive ==> MemShape(c, s.mem))
  }

  ghost predicate SavesShaped(c: Conf, es: seq<Effect>) {
    forall i :: 0 <= i < |es| && es[i].Saved? ==> FileShape(c, es[i].file)
  }

  lemma {:induction false} ShapedDisk(c: Conf, d: Durable, es: seq<Effect>)
    requires SavesShaped(c, es)
    requires d.disk.Some? ==> FileShape(c, d.disk.value)
    ensures DoAll(d, es).disk.Some? ==> FileShape(c, DoAll(d, es).disk.value)
  {
    if es != [] {
      ShapedDisk(c, d, es[..|es| - 1]);
    }
  }

  lemma ShapedFile(c: Conf, t: Table)
    requires OneRowPerIp(t) && forall k :: k in t ==> t[k].ip in c.addresses
    ensures FileShape(c, EntriesOf(t))
  {
  }

  lemma SweepShape(c: Conf, m: Mem, e: SweepEnv)
    requires MemShape(c, m) && SweepOk(m, e)
    ensures MemShape(c, Sweep(m, e).mem) && SavesShaped(c, Sweep(m, e).effects)
  {
    OffersSwept(c, m, e);
    if e.leaseOrder != [] && e.saveOk {
      LeasesSwept(c, m, SweepOffers(m, e), e.leaseOrder);
      ShapedFile(c, Without(m.leases, set k | k in e.leaseOrder));
      DeletionsOnlyRoutes(IpsOf(RowIps(m.leases), e.leaseOrder), e.delOk);
    }
  }

  /** The free addresses and the offers a grant leaves are in the pool, and so is the address it grants. */
  lemma GrantInPool(c: Conf, m: Mem, p: Packet, e: RequestEnv)
    requires InPool(c, m) && Refusal(m, p, e).None?
    ensures var g := GrantMem(c, m, p, e);
            && g.leases == AddLease(m.leases, p.mac, Lease(Wanted(p), p.arrived + c.leaseTime, p.arrived))
            && Wanted(p) in c.addresses && InPool(c, g)
  {
  }

  lemma GrantShape(c: Conf, m: Mem, p: Packet, e: RequestEnv)
    requires MemShape(c, m) && Refusal(m, p, e).None?
    ensures MemShape(c, GrantMem(c, m, p, e)) && SavesShaped(c, GrantEffects(c, m, p, e))
  {
    GrantInPool(c, m, p, e);
    ShapedFile(c, GrantMem(c, m, p, e).leases);
  }

  lemma ReleaseShape(c: Conf, m: Mem, mac: Mac, e: ReleaseEnv)
    requires MemShape(c, m)
    ensures MemShape(c, ReleaseLocked(m, mac, e).mem) && SavesShaped(c, ReleaseLocked(m, mac, e).effects)
  {
  }

  lemma HandlerShape(c: Conf, s: State, h: Handler)
    requires MemShape(c, s.mem) && HandlerOk(s, h)
    ensures MemShape(c, Run(c, s, h).mem) && SavesShaped(c, Run(c, s, h).effects)
  {
    match h {
      case OnDiscover(p, e) =>
      case OnRequest(p, e) => if Refusal(s.mem, p, e).None? { GrantShape(c, s.mem, p, e); }
      case OnRelease(p, e) => ReleaseShape(c, s.mem, p.mac, e);
      case OnControl(mac, e) => ReleaseShape(c, s.mem, mac, e);
      case OnSweep(e) => SweepShape(c, s.mem, e);
    }
  }

  lemma StartShape(c: Conf, disk: Option<File>, e: StartEnv)
    requires StartOk(disk, e) && (disk.Some? ==> FileShape(c, disk.value))
    ensures MemShape(c, Start(c, disk, e).mem) && OnlyRoutes(Start(c, disk, e).effects)
    ensures Start(c, disk, e).mem.leases == BootTable(disk, e)
    ensures Start(c, disk, e).mem.offers == map[]
    ensures Start(c, disk, e).mem.free == c.addresses - LeasedSet(BootTable(disk, e), e.t2)
    ensures Start(c, disk, e).mem.used == LeasedSet(BootTable(disk, e), e.t2)
  {
    var t := BootTable(disk, e);
    RestoreKeepsAll(c, FreshMem(c).(leases := t), e.order, |e.order|);
    RestoreOnlyRoutes(c, t, e.order, |e.order|, e);
    forall j, k | j in t && k in t && t[j].ip == t[k].ip
      ensures j == k
    {
      assert disk.value[j].ip == disk.value[k].ip;
    }
    EnumeratedIps(t, e.order, e.t2);
  }

  /** The addresses of the active rows. */
  function LeasedSet(t: Table, now: Time): set<Ip> {
    set k | k in t && now < t[k].expiry :: t[k].ip
  }

  lemma EnumeratedIps(t: Table, order: seq<Mac>, now: Time)
    requires Enumerates(order, ActiveMacs(t, now))
    ensures (set i | 0 <= i < |order| :: t[order[i]].ip) == LeasedSet(t, now)
  {
    var ips := set i | 0 <= i < |order| :: t[order[i]].ip;
    forall ip | ip in LeasedSet(t, now)
      ensures ip in ips
    {
      var k :| k in t && now < t[k].expiry && t[k].ip == ip;
      assert k in ActiveMacs(t, now);
      var i :| 0 <= i < |order| && order[i] == k;
    }
    forall ip | ip in ips
      ensures ip in LeasedSet(t, now)
    {
      var i :| 0 <= i < |order| && t[order[i]].ip == ip;
      assert order[i] in ActiveMacs(t, now);
    }
  }

  lemma StepKeepsShape(c: Conf, routes: set<Ip>, s: State, ev: Event)
    requires Shape(c, routes, s) && Enabled(c, routes, s, ev)
    ensures Shape(c, routes, Apply(c, routes, s, ev))
  {
    var d := World(routes, s.journal);
    match ev {
      case Tick(_) =>
      case Arrive(_) =>
      case Crash =>
      case Handle(h) =>
        HandlerShape(c, s, h);
        ShapedDisk(c, d, Run(c, s, h).effects);
        DoAppend(Origin(routes), s.journal, Run(c, s, h).effects);
      case DieIn(h, k) =>
        HandlerShape(c, s, h);
        ShapedDisk(c, d, Run(c, s, h).effects[..k]);
        DoAppend(Origin(routes), s.journal, Run(c, s, h).effects[..k]);
      case Boot(e) =>
        StartShape(c, d.disk, e);
        ShapedDisk(c, d, Start(c, d.disk, e).effects);
        DoAppend(Origin(routes), s.journal, Start(c, d.disk, e).effects);
      case DieInBoot(e, k) =>
        StartShape(c, d.disk, e);
        ShapedDisk(c, d, Start(c, d.disk, e).effects[..k]);
        DoAppend(Origin(routes), s.journal, Start(c, d.disk, e).effects[..k]);
    }
  }

  // ---- the books ----

  /** Every address is free or used; the used ones are those of the rows and of the offers, each counted once. */
  ghost predicate Books(c: Conf, m: Mem) {
    && m.free + m.used == c.addresses && m.free !! m.used
    && m.used == LeaseIps(m.leases) + OfferIps(m.offers) && LeaseIps(m.leases) !! OfferIps(m.offers)
    && OneRowPerIp(m.leases) && OneOfferPerIp(m.offers)
  }

  /** No MAC has both an active lease and a pending offer. */
  ghost predicate NoDouble(m: Mem, now: Time) {
    forall mac :: mac in m.offers && mac in m.leases ==> m.leases[mac].expiry <= now
  }

  lemma LeaseImage(t: Table)
    ensures LeaseIps(t) == Image(RowIps(t)) && |RowIps(t)| == |t| && (OneRowPerIp(t) ==> Injective(RowIps(t)))
  {
    assert forall k :: k in t ==> k in RowIps(t) && RowIps(t)[k] == t[k].ip;
    assert RowIps(t).Keys == t.Keys && |RowIps(t).Keys| == |RowIps(t)| && |t.Keys| == |t|;
  }

  lemma OfferImage(o: Offers)
    ensures OfferIps(o) == Image(OfferedAt(o)) && |OfferedAt(o)| == |o| &&
              (OneOfferPerIp(o) ==> Injective(OfferedAt(o)))
  {
    assert forall k :: k in o ==> k in OfferedAt(o) && OfferedAt(o)[k] == o[k].ip;
    assert OfferedAt(o).Keys == o.Keys && |OfferedAt(o).Keys| == |OfferedAt(o)| && |o.Keys| == |o|;
  }

  ghost predicate Injective(ips: map<Mac, Ip>) {
    forall j, k :: j in ips && k in ips && ips[j] == ips[k] ==> j == k
  }

  lemma ImageSplits(ips: map<Mac, Ip>, k: Mac)
    requires k in ips
    ensures Image(ips) == Image(ips - {k}) + {ips[k]}
  {
    forall ip | ip in Image(ips)
      ensures ip in Image(ips - {k}) + {ips[k]}
    {
      var j :| j in ips && ips[j] == ip;
      assert j == k || j in ips - {k};
    }
  }

  lemma {:induction false} OneIpEach(ips: map<Mac, Ip>)
    requires Injective(ips)
    ensures |Image(ips)| == |ips|
    decreases |ips|
  {
    if ips != map[] {
      SomeMember(ips.Keys);
      var k :| k in ips;
      var rest := ips - {k};
      OneIpEach(rest);
      assert forall j :: j in ips <==> j == k || j in rest;
      ImageSplits(ips, k);
      assert ips[k] !in Image(rest);
    }
  }

  /** The free count, the rows and the offers add up to the pool. */
  lemma BooksAddUp(c: Conf, m: Mem)
    requires Books(c, m)
    ensures |m.free| + |m.leases| + |m.offers| == |c.addresses|
  {
    LeaseImage(m.leases);
    OfferImage(m.offers);
    OneIpEach(RowIps(m.leases));
    OneIpEach(OfferedAt(m.offers));
    assert |m.used| == |LeaseIps(m.leases)| + |OfferIps(m.offers)|;
  }

  // ---- how rows and offers move addresses ----

  lemma IpsGone(ips: map<Mac, Ip>, gone: set<Mac>)
    requires Injective(ips) && gone <= ips.Keys
    ensures Image(ips - gone) == Image(ips) - set k | k in gone :: ips[k]
  {
    forall ip | ip in Image(ips) && ip !in (set k | k in gone :: ips[k])
      ensures ip in Image(ips - gone)
    {
      var k :| k in ips && ips[k] == ip;
      assert k in ips - gone;
    }
  }

  lemma RowsGone(t: Table, gone: set<Mac>)
    requires OneRowPerIp(t) && gone <= t.Keys
    ensures OneRowPerIp(Without(t, gone))
    ensures LeaseIps(Without(t, gone)) == LeaseIps(t) - set k | k in gone :: t[k].ip
  {
    LeaseImage(t);
    LeaseImage(Without(t, gone));
    IpsGone(RowIps(t), gone);
    assert RowIps(Without(t, gone)) == RowIps(t) - gone;
    assert (set k | k in gone :: t[k].ip) == set k | k in gone :: RowIps(t)[k];
  }

  lemma OffersGone(o: Offers, gone: set<Mac>)
    requires OneOfferPerIp(o) && gone <= o.Keys
    ensures OneOfferPerIp(WithoutOffers(o, gone))
    ensures OfferIps(WithoutOffers(o, gone)) == OfferIps(o) - set k | k in gone :: o[k].ip
  {
    OfferImage(o);
    OfferImage(WithoutOffers(o, gone));
    IpsGone(OfferedAt(o), gone);
    assert OfferedAt(WithoutOffers(o, gone)) == OfferedAt(o) - gone;
    assert (set k | k in gone :: o[k].ip) == set k | k in gone :: OfferedAt(o)[k];
  }

  lemma OneOfferGone(o: Offers, mac: Mac)
    requires OneOfferPerIp(o) && mac in o
    ensures OneOfferPerIp(o - {mac}) && OfferIps(o - {mac}) == OfferIps(o) - {o[mac].ip}
  {
    assert o - {mac} == WithoutOffers(o, {mac});
    OffersGone(o, {mac});
    assert (set k | k in {mac} :: o[k].ip) == {o[mac].ip};
  }

  lemma OfferIn(o: Offers, mac: Mac, n: Offer)
    requires OneOfferPerIp(o) && (mac in o ==> o[mac].ip == n.ip) && (mac !in o ==> n.ip !in OfferIps(o))
    ensures OneOfferPerIp(o[mac := n]) && OfferIps(o[mac := n]) == OfferIps(o) + {n.ip}
  {
    var o1 := o[mac := n];
    forall k | k in o
      ensures o[k].ip in OfferIps(o1)
    {
      assert k in o1 && o1[k].ip == o[k].ip;
    }
    assert o1[mac].ip in OfferIps(o1);
    forall k | k in o1 && k != mac
      ensures o1[k].ip in OfferIps(o) && o1[k].ip != n.ip
    {
      assert o[k].ip == o1[k].ip;
    }
  }

  lemma RowIn(t: Table, mac: Mac, l: Lease)
    requires OneRowPerIp(t) && forall k :: k in t && k != mac ==> t[k].ip != l.ip
    ensures AddLease(t, mac, l) == t[mac := l] && OneRowPerIp(t[mac := l])
    ensures LeaseIps(t[mac := l]) == LeaseIps(t) - (if mac in t then {t[mac].ip} else {}) + {l.ip}
  {
    assert EvictOthers(t, mac, l.ip) == t;
    var t1 := t[mac := l];
    assert t1[mac].ip in LeaseIps(t1);
    forall ip | ip in LeaseIps(t) - (if mac in t then {t[mac].ip} else {})
      ensures ip in LeaseIps(t1)
    {
      var k :| k in t && t[k].ip == ip;
      assert t1[k].ip == ip;
    }
    forall k | k in t1 && k != mac
      ensures t1[k].ip in LeaseIps(t) - (if mac in t then {t[mac].ip} else {})
    {
      assert t[k].ip == t1[k].ip;
    }
  }

  /** Freeing distinct used addresses, one after the other, strays nowhere. */
  lemma {:induction false} FreeUsed(m: Mem, ips: seq<Ip>)
    requires forall i :: 0 <= i < |ips| ==> ips[i] in m.used
    requires forall i, j :: 0 <= i < j < |ips| ==> ips[i] != ips[j]
    ensures FreeIps(m, ips).strays == m.strays
  {
    if ips != [] {
      var n := |ips| - 1;
      FreeUsed(m, ips[..n]);
      FreeIpsFrame(m, ips[..n]);
      assert ips[n] !in set i | 0 <= i < n :: ips[..n][i];
    }
  }

  // ---- every handler keeps the books, on every success and failure path ----

  lemma DropStaleBooks(c: Conf, m: Mem, mac: Mac, now: Time)
    requires Books(c, m)
    ensures var m1 := DropStaleOffer(m, mac, now);
            Books(c, m1) && m1.strays == m.strays && m1.leases == m.leases
  {
    if mac in m.offers {
      OneOfferGone(m.offers, mac);
      assert m.offers[mac].ip in OfferIps(m.offers);
    }
  }

  lemma DiscoverBooks(c: Conf, m: Mem, mac: Mac, e: DiscoverEnv)
    requires Books(c, m) && DiscoverOk(m, mac, e)
    ensures Books(c, Discover(m, mac, e).mem) && Discover(m, mac, e).mem.strays == m.strays
  {
    if !ActiveAt(m.leases, mac, e.t1) {
      DropStaleBooks(c, m, mac, e.t2);
      var m1 := DropStaleOffer(m, mac, e.t2);
      if mac in m1.offers {
        OfferIn(m1.offers, mac, Offer(m1.offers[mac].ip, e.t3 + OFFER_TIMEOUT));
        assert m1.offers[mac].ip in OfferIps(m1.offers);
      } else if m1.free != {} {
        OfferIn(m1.offers, mac, Offer(e.pick, e.t3 + OFFER_TIMEOUT));
      }
    }
  }

  /** With the books in order no other MAC has a row for the granted address, so none is evicted. */
  lemma NoEviction(c: Conf, m: Mem, p: Packet, e: RequestEnv)
    requires Books(c, m) && Refusal(m, p, e).None?
    ensures forall k :: k in m.leases && k != p.mac ==> m.leases[k].ip != Wanted(p)
    ensures EvictOthers(m.leases, p.mac, Wanted(p)) == m.leases
  {
  }

  lemma GrantBooks(c: Conf, m: Mem, p: Packet, e: RequestEnv)
    requires Books(c, m) && Refusal(m, p, e).None?
    ensures Books(c, GrantMem(c, m, p, e)) && GrantMem(c, m, p, e).strays == m.strays
  {
    var mac, ip := p.mac, Wanted(p);
    NoEviction(c, m, p, e);
    var l := Lease(ip, p.arrived + c.leaseTime, p.arrived);
    RowIn(m.leases, mac, l);
    if mac in m.offers {
      OneOfferGone(m.offers, mac);
      assert m.offers[mac].ip in OfferIps(m.offers);
    }
    if mac in m.leases {
      assert m.leases[mac].ip in LeaseIps(m.leases);
    }
    assert ip !in OfferIps(m.offers) || (mac in m.offers && m.offers[mac].ip == ip);
    assert ip in m.used ==> ip in LeaseIps(m.leases) || ip in OfferIps(m.offers);
  }

  lemma ReleaseBooks(c: Conf, m: Mem, mac: Mac, e: ReleaseEnv)
    requires Books(c, m)
    ensures Books(c, ReleaseLocked(m, mac, e).mem) && ReleaseLocked(m, mac, e).mem.strays == m.strays
  {
    if mac in m.leases {
      RowsGone(m.leases, {mac});
      assert (set k | k in {mac} :: m.leases[k].ip) == {m.leases[mac].ip};
      assert m.leases[mac].ip in LeaseIps(m.leases);
    }
  }

  lemma OrderedIps(ips: map<Mac, Ip>, order: seq<Mac>, gone: set<Mac>)
    requires Injective(ips) && gone <= ips.Keys && Enumerates(order, gone)
    ensures (set i | 0 <= i < |order| :: IpsOf(ips, order)[i]) == set k | k in gone :: ips[k]
    ensures forall i, j :: 0 <= i < j < |order| ==> IpsOf(ips, order)[i] != IpsOf(ips, order)[j]
  {
    var r, them := IpsOf(ips, order), set k | k in gone :: ips[k];
    forall ip | ip in them
      ensures ip in set i | 0 <= i < |order| :: r[i]
    {
      var k :| k in gone && ips[k] == ip;
      var i :| 0 <= i < |order| && order[i] == k;
      assert r[i] == ip;
    }
    forall i | 0 <= i < |order|
      ensures r[i] in set k | k in gone :: ips[k]
    {
      assert order[i] in gone;
    }
    forall i, j | 0 <= i < j < |order|
      ensures r[i] != r[j]
    {
      assert order[i] in gone && order[j] in gone;
    }
  }

  lemma SweepOffersBooks(c: Conf, m: Mem, e: SweepEnv)
    requires Books(c, m) && SweepOk(m, e)
    ensures var m1 := SweepOffers(m, e);
            && Books(c, m1) && m1.strays == m.strays && m1.leases == m.leases
            && m1.offers == WithoutOffers(m.offers, ExpiredOffers(m.offers, e.t1))
  {
    var gone := ExpiredOffers(m.offers, e.t1);
    var ips := IpsOf(OfferedAt(m.offers), e.offerOrder);
    MembersOf(e.offerOrder, gone);
    OffersGone(m.offers, gone);
    OrderedIps(OfferedAt(m.offers), e.offerOrder, gone);
    var m0 := m.(offers := WithoutOffers(m.offers, gone));
    FreeIpsFrame(m0, ips);
    FreeUsed(m0, ips);
  }

  lemma SweepBooks(c: Conf, m: Mem, e: SweepEnv)
    requires Books(c, m) && SweepOk(m, e)
    ensures Books(c, Sweep(m, e).mem) && Sweep(m, e).mem.strays == m.strays
  {
    SweepOffersBooks(c, m, e);
    if e.leaseOrder != [] && e.saveOk {
      var gone := ExpiredMacs(m.leases, e.t2);
      var ips := IpsOf(RowIps(m.leases), e.leaseOrder);
      MembersOf(e.leaseOrder, gone);
      RowsGone(m.leases, gone);
      OrderedIps(RowIps(m.leases), e.leaseOrder, gone);
      var m1 := SweepOffers(m, e).(leases := Without(m.leases, gone));
      FreeIpsFrame(m1, ips);
      FreeUsed(m1, ips);
    }
  }

  /** A sweep whose save succeeds, or that needs none, leaves free every address of the pool that no unexpired row or
      offer holds, and no other. */
  lemma SweepFreesTheRest(c: Conf, m: Mem, e: SweepEnv)
    requires Books(c, m) && SweepOk(m, e) && (e.saveOk || ExpiredMacs(m.leases, e.t2) == {})
    ensures Sweep(m, e).verdict.Done?
    ensures forall ip :: ip in Sweep(m, e).mem.free <==>
              && ip in c.addresses
              && (forall k :: k in m.leases && m.leases[k].ip == ip ==> m.leases[k].expiry < e.t2)
              && (forall k :: k in m.offers && m.offers[k].ip == ip ==> m.offers[k].expiry < e.t1)
  {
    var o := Sweep(m, e).mem;
    SweepBooks(c, m, e);
    SweepLeaves(c, m, e);
    forall ip
      ensures ip in LeaseIps(o.leases) <==>
                exists k :: k in m.leases && m.leases[k].ip == ip && e.t2 <= m.leases[k].expiry
    {
      if k :| k in m.leases && m.leases[k].ip == ip && e.t2 <= m.leases[k].expiry {
        assert k in o.leases;
      }
    }
    forall ip
      ensures ip in OfferIps(o.offers) <==>
                exists k :: k in m.offers && m.offers[k].ip == ip && e.t1 <= m.offers[k].expiry
    {
      if k :| k in m.offers && m.offers[k].ip == ip && e.t1 <= m.offers[k].expiry {
        assert k in o.offers;
      }
    }
  }

  lemma SweepLeaves(c: Conf, m: Mem, e: SweepEnv)
    requires Books(c, m) && SweepOk(m, e) && (e.saveOk || ExpiredMacs(m.leases, e.t2) == {})
    ensures Sweep(m, e).verdict.Done?
    ensures Sweep(m, e).mem.leases == Without(m.leases, ExpiredMacs(m.leases, e.t2))
    ensures Sweep(m, e).mem.offers == WithoutOffers(m.offers, ExpiredOffers(m.offers, e.t1))
  {
    SweepOffersBooks(c, m, e);
    MembersOf(e.leaseOrder, ExpiredMacs(m.leases, e.t2));
    FreeIpsFrame(SweepOffers(m, e).(leases := Without(m.leases, set k | k in e.leaseOrder)),
        IpsOf(RowIps(m.leases), e.leaseOrder));
    if e.leaseOrder == [] {
      assert Without(m.leases, {}) == m.leases;
    }
  }

  lemma HandlerBooks(c: Conf, s: State, h: Handler)
    requires Books(c, s.mem) && HandlerOk(s, h)
    ensures Books(c, Run(c, s, h).mem) && Run(c, s, h).mem.strays == s.mem.strays
  {
    match h {
      case OnDiscover(p, e) => DiscoverBooks(c, s.mem, p.mac, e);
      case OnRequest(p, e) => if Refusal(s.mem, p, e).None? { GrantBooks(c, s.mem, p, e); }
      case OnRelease(p, e) => ReleaseBooks(c, s.mem, p.mac, e);
      case OnControl(mac, e) => ReleaseBooks(c, s.mem, mac, e);
      case OnSweep(e) => SweepBooks(c, s.mem, e);
    }
  }

  lemma HandlerNoDouble(c: Conf, s: State, h: Handler)
    requires NoDouble(s.mem, s.now) && HandlerOk(s, h)
    ensures NoDouble(Run(c, s, h).mem, EndOf(h))
  {
    if h.OnSweep? {
      var e := h.se;
      FreeIpsFrame(s.mem.(offers := WithoutOffers(s.mem.offers, set k | k in e.offerOrder)),
          IpsOf(OfferedAt(s.mem.offers), e.offerOrder));
      FreeIpsFrame(SweepOffers(s.mem, e).(leases := Without(s.mem.leases, set k | k in e.leaseOrder)),
          IpsOf(RowIps(s.mem.leases), e.leaseOrder));
    }
  }

  // ---- start-up: the gap between the two clock readings ----

  /** No loaded lease runs out between the reading that keeps it and the reading that restores it. */
  ghost predicate NoGap(t: Table, now: Time) {
    forall k :: k in t ==> now < t[k].expiry
  }

  /** A start-up opens with its books in order exactly when no loaded expiry falls in the gap. */
  lemma StartBooks(c: Conf, disk: Option<File>, e: StartEnv)
    requires StartOk(disk, e) && (disk.Some? ==> FileShape(c, disk.value))
    ensures Books(c, Start(c, disk, e).mem) <==> NoGap(BootTable(disk, e), e.t2)
    ensures Start(c, disk, e).mem.strays == 0
  {
    StartShape(c, disk, e);
    var t := BootTable(disk, e);
    var m := Start(c, disk, e).mem;
    assert LeasedSet(t, e.t2) <= LeaseIps(t);
    if NoGap(t, e.t2) {
      assert LeasedSet(t, e.t2) == LeaseIps(t);
      assert OfferIps(m.offers) == {};
      assert LeasedSet(t, e.t2) <= c.addresses;
    } else {
      var k :| k in t && t[k].expiry <= e.t2;
      assert t[k].ip in LeaseIps(t);
      assert t[k].ip !in LeasedSet(t, e.t2);
    }
  }

  // ---- every run whose start-ups fall in no gap ----

  ghost predicate GapFree(c: Conf, routes: set<Ip>, evs: seq<Event>)
    requires ValidRun(c, routes, evs)
  {
    if evs == [] then true
    else
      var n := |evs| - 1;
      && GapFree(c, routes, evs[..n])
      && (evs[n].Boot? ==> NoGap(BootTable(World(routes, Final(c, routes, evs[..n]).journal).disk, evs[n].e),
           evs[n].e.t2))
  }

  /** The state between two handlers of a live process. */
  ghost predicate InOrder(c: Conf, s: State) {
    s.alive ==> Books(c, s.mem) && s.mem.strays == 0 && NoDouble(s.mem, s.now)
  }

  lemma {:induction false} RunsKeepShape(c: Conf, routes: set<Ip>, evs: seq<Event>)
    requires ValidRun(c, routes, evs)
    ensures Shape(c, routes, Final(c, routes, evs))
  {
    if evs != [] {
      RunsKeepShape(c, routes, evs[..|evs| - 1]);
      StepKeepsShape(c, routes, Final(c, routes, evs[..|evs| - 1]), evs[|evs| - 1]);
    }
  }

  /** In every state of every gap-free run, whatever fails and wherever it dies, a live process has its books in order:
      they add up, no release ever strayed, and no MAC is both leased and offered an address. */
  lemma {:induction false} RunsKeepBooks(c: Conf, routes: set<Ip>, evs: seq<Event>)
    requires ValidRun(c, routes, evs) && GapFree(c, routes, evs)
    ensures InOrder(c, Final(c, routes, evs))
    ensures var s := Final(c, routes, evs);
            s.alive ==> |s.mem.free| + |s.mem.leases| + |s.mem.offers| == |c.addresses|
  {
    if evs != [] {
      var n := |evs| - 1;
      RunsKeepBooks(c, routes, evs[..n]);
      RunsKeepShape(c, routes, evs[..n]);
      var s := Final(c, routes, evs[..n]);
      match evs[n] {
        case Handle(h) =>
          HandlerBooks(c, s, h);
          HandlerNoDouble(c, s, h);
        case Boot(e) =>
          StartShape(c, World(routes, s.journal).disk, e);
          StartBooks(c, World(routes, s.journal).disk, e);
        case _ =>
      }
    }
    if Final(c, routes, evs).alive {
      BooksAddUp(c, Final(c, routes, evs).mem);
    }
  }

  // ---- offers are honoured ----

  /** An address on offer is not free, not offered to another MAC and not leased to anyone. */
  lemma OfferIsReserved(c: Conf, m: Mem, mac: Mac)
    requires Books(c, m) && mac in m.offers
    ensures m.offers[mac].ip in m.used && m.offers[mac].ip !in m.free
    ensures forall k :: k in m.offers && k != mac ==> m.offers[k].ip != m.offers[mac].ip
    ensures forall k :: k in m.leases ==> m.leases[k].ip != m.offers[mac].ip
  {
  }

  lemma OfferIsGranted(c: Conf, m: Mem, p: Packet, e: RequestEnv, now: Time)
    requires Books(c, m) && NoDouble(m, now) && now <= e.t1 && RequestOk(e)
    requires p.mac in m.offers && Wanted(p) == m.offers[p.mac].ip && Wanted(p) != UNSPECIFIED
    requires e.t3 < m.offers[p.mac].expiry
    ensures Refusal(m, p, e) == (if !e.replyOk then Some(BuildFailed) else if !e.addOk then Some(NakRoute) else None)
  {
    OfferIsReserved(c, m, p.mac);
  }

  /** In every gap-free run the owner's REQUEST for an unexpired offer is granted unless the reply cannot be
      built or the route cannot be added; then the row is there, and the ACK goes out if save and send succeed. */
  lemma OfferIsHonoured(c: Conf, routes: set<Ip>, evs: seq<Event>, p: Packet, e: RequestEnv)
    requires ValidRun(c, routes, evs) && GapFree(c, routes, evs)
    requires var s := Final(c, routes, evs);
             && s.alive && HandlerOk(s, OnRequest(p, e))
             && p.mac in s.mem.offers && s.mem.offers[p.mac].ip != UNSPECIFIED
             && (if p.reqIp == UNSPECIFIED then p.ciaddr else p.reqIp) == s.mem.offers[p.mac].ip
             && e.t3 < s.mem.offers[p.mac].expiry
    ensures var ip := Final(c, routes, evs).mem.offers[p.mac].ip;
            var o := Request(c, Final(c, routes, evs).mem, p, e);
            && o.verdict == (if !e.replyOk then BuildFailed else if !e.addOk then NakRoute
                             else if !e.saveOk then SaveFailed else if !e.sendOk then SendFailed else Granting)
            && (e.replyOk && e.addOk ==>
                  && p.mac in o.mem.leases && p.mac !in o.mem.offers
                  && o.mem.leases[p.mac] == Lease(ip, p.arrived + c.leaseTime, p.arrived))
            && (o.verdict.Granting? ==> Acked(p.mac, ip, p.arrived + c.leaseTime, e.t5) in o.effects)
  {
    var s := Final(c, routes, evs);
    RunsKeepBooks(c, routes, evs);
    OfferIsGranted(c, s.mem, p, e, s.now);
    GrantedRow(c, s.mem, p, e);
  }
}
