/** Inputs on which a promise fails, each next to the condition that excludes them. */
module LeaseLimits {
  import opened LeaseModel
  import opened LeaseMachine
  import opened LeaseSafety

  lemma RunSnoc(c: Conf, routes: set<Ip>, evs: seq<Event>, ev: Event)
    requires ValidRun(c, routes, evs) && Enabled(c, routes, Final(c, routes, evs), ev)
    ensures ValidRun(c, routes, evs + [ev])
    ensures Final(c, routes, evs + [ev]) == Apply(c, routes, Final(c, routes, evs), ev)
  {
  }

  lemma {:induction false} BootBeforeNow(c: Conf, routes: set<Ip>, evs: seq<Event>)
    requires ValidRun(c, routes, evs)
    ensures Final(c, routes, evs).boot <= Final(c, routes, evs).now
  {
    if evs != [] {
      BootBeforeNow(c, routes, evs[..|evs| - 1]);
    }
  }

  // ---- a lease file that cannot be read ----

  /** A REQUEST of mac for ip that arrives and is handled at now, and everything it needs succeeds. */
  function AsksAt(mac: Mac, ip: Ip, now: Time): Packet {
    Packet(REQUEST, mac, ip, UNSPECIFIED, UNSPECIFIED, now)
  }

  function AllWellAt(now: Time): RequestEnv {
    RequestEnv(now, now, now, now, true, true, true, true, now, true)
  }

  /** A start-up that cannot read the file begins with the whole pool free and does nothing outside. */
  lemma StartsEmpty(c: Conf, disk: Option<File>, e: StartEnv)
    requires StartOk(disk, e) && !e.readable
    ensures Start(c, disk, e).mem == FreshMem(c) && Start(c, disk, e).effects == []
  {
    assert BootTable(disk, e) == map[];
    assert ActiveMacs(BootTable(disk, e), e.t2) == {};
    VisitsNone(e.order, ActiveMacs(BootTable(disk, e), e.t2));
  }

  lemma VisitsNone(order: seq<Mac>, s: set<Mac>)
    requires Enumerates(order, s)
    ensures s == {} ==> order == []
  {
    if order != [] {
      assert order[0] in s;
    }
  }

  lemma AfterEmptyStart(c: Conf, routes: set<Ip>, front: seq<Event>, e: StartEnv)
    requires ValidRun(c, routes, front) && ValidRun(c, routes, front + [Boot(e)]) && !e.readable
    ensures var s0, s := Final(c, routes, front), Final(c, routes, front + [Boot(e)]);
            && s.alive && s.mem == FreshMem(c) && s.now == e.t2 && s.journal == s0.journal && s0.now <= e.t2
  {
    var evs := front + [Boot(e)];
    assert evs[..|front|] == front && evs[|front|] == Boot(e);
    StartsEmpty(c, World(routes, Final(c, routes, front).journal).disk, e);
  }

  lemma ClaimedFromPool(c: Conf, routes: set<Ip>, evs: seq<Event>, mac: Mac, t: Time)
    requires ValidRun(c, routes, evs) && HarmlessStarts(c, routes, evs) && Final(c, routes, evs).now <= t
    requires var claims := World(routes, Final(c, routes, evs).journal).claims;
             mac in claims && t < claims[mac].until
    ensures var ip := World(routes, Final(c, routes, evs).journal).claims[mac].ip;
            ip in c.addresses && ip != UNSPECIFIED
  {
    RunsKeepInv(c, routes, evs);
  }

  function GrantSeen(mac: Mac, ip: Ip, f: File, expiry: Time, now: Time): seq<Effect> {
    [RouteAdded(ip), Committed(mac, ip), Saved(f, Granted, now), Acked(mac, ip, expiry, now)]
  }

  /** An empty process grants any address of its pool to whoever asks. */
  lemma EmptyGrants(c: Conf, mac: Mac, ip: Ip, now: Time)
    requires ip in c.addresses && ip != UNSPECIFIED
    ensures var m, p, e := FreshMem(c), AsksAt(mac, ip, now), AllWellAt(now);
            && Refusal(m, p, e).None?
            && Request(c, m, p, e).effects ==
                 GrantSeen(mac, ip, EntriesOf(GrantMem(c, m, p, e).leases), now + c.leaseTime, now)
  {
  }

  /** No start-up comes up in these events. */
  predicate OneLife(evs: seq<Event>) {
    forall k :: 0 <= k < |evs| ==> !evs[k].Boot?
  }

  /** So such a process can go on to grant it. */
  lemma EmptyGoesOn(c: Conf, routes: set<Ip>, evs: seq<Event>, mac: Mac, ip: Ip) returns (more: seq<Event>, f: File)
    requires ValidRun(c, routes, evs) && ip in c.addresses && ip != UNSPECIFIED
    requires Final(c, routes, evs).alive && Final(c, routes, evs).mem == FreshMem(c)
    ensures OneLife(more) && ValidRun(c, routes, evs + more)
    ensures var s := Final(c, routes, evs);
            && f == map[mac := Entry(ip, Trunc(s.now + c.leaseTime))]
            && Final(c, routes, evs + more).journal == s.journal + GrantSeen(mac, ip, f, s.now + c.leaseTime, s.now)
            && Final(c, routes, evs + more).alive && Final(c, routes, evs + more).now == s.now
  {
    var s := Final(c, routes, evs);
    var p, e := AsksAt(mac, ip, s.now), AllWellAt(s.now);
    EmptyGrants(c, mac, ip, s.now);
    BootBeforeNow(c, routes, evs);
    RunSnoc(c, routes, evs, Arrive(p));
    RunSnoc(c, routes, evs + [Arrive(p)], Handle(OnRequest(p, e)));
    more, f := [Arrive(p), Handle(OnRequest(p, e))], EntriesOf(GrantMem(c, FreshMem(c), p, e).leases);
    assert evs + more == evs + [Arrive(p)] + [Handle(OnRequest(p, e))];
  }

  /** A grant to another MAC right after j conflicts with the ACK behind any claim of j that is still alive. */
  lemma ConflictAppears(routes: set<Ip>, j: seq<Effect>, j1: seq<Effect>, victim: Mac, other: Mac, f: File,
      expiry: Time, now: Time)
    returns (i: nat, n: nat)
    requires other != victim && victim in World(routes, j).claims && now < World(routes, j).claims[victim].until
    requires j1 == j + GrantSeen(other, World(routes, j).claims[victim].ip, f, expiry, now)
    ensures i < n < |j1| && Conflict(j1, i, n) && j1[i].mac == victim && j1[n] == Acked(other, j1[i].ip, expiry, now)
  {
    assert j[..|j|] == j;
    i := ClaimIsAck(routes, j, |j|, victim);
    n := |j| + 3;
  }

  /** A process that forgot the claim cl gives its address to whichever other MAC asks for it. */
  lemma ForgottenGivenAway(c: Conf, routes: set<Ip>, evs: seq<Event>, j: seq<Effect>, victim: Mac, cl: Claim,
      other: Mac, now: Time)
    returns (more: seq<Event>, j1: seq<Effect>, i: nat, n: nat)
    requires ValidRun(c, routes, evs) && other != victim
    requires var s := Final(c, routes, evs); s.alive && s.mem == FreshMem(c) && s.now == now && s.journal == j
    requires var claims := World(routes, j).claims; victim in claims && claims[victim] == cl
    requires now < cl.until && cl.ip in c.addresses && cl.ip != UNSPECIFIED
    ensures OneLife(more) && ValidRun(c, routes, evs + more)
    ensures j1 == Final(c, routes, evs + more).journal
    ensures i < n < |j1| && Conflict(j1, i, n) && j1[i].mac == victim &&
              j1[n] == Acked(other, j1[i].ip, now + c.leaseTime, now)
  {
    var f: File;
    more, f := EmptyGoesOn(c, routes, evs, other, cl.ip);
    j1 := Final(c, routes, evs + more).journal;
    i, n := ConflictAppears(routes, j, j1, victim, other, f, now + c.leaseTime, now);
  }

  /** After such a start-up the address of any claim still alive is ACKed to whichever other MAC asks for it. */
  lemma GivenAway(c: Conf, routes: set<Ip>, front: seq<Event>, e: StartEnv, victim: Mac, other: Mac)
    returns (more: seq<Event>, i: nat, n: nat)
    requires ValidRun(c, routes, front) && ValidRun(c, routes, front + [Boot(e)]) && HarmlessStarts(c, routes, front)
    requires !e.readable && other != victim
    requires var claims := World(routes, Final(c, routes, front).journal).claims;
             victim in claims && e.t2 < claims[victim].until
    ensures OneLife(more) && ValidRun(c, routes, front + [Boot(e)] + more)
    ensures var j := Final(c, routes, front + [Boot(e)] + more).journal;
            && i < n < |j| && Conflict(j, i, n) && j[i].mac == victim
            && j[n] == Acked(other, j[i].ip, e.t2 + c.leaseTime, e.t2)
  {
    AfterEmptyStart(c, routes, front, e);
    ClaimedFromPool(c, routes, front, victim, e.t2);
    var j, j1 := Final(c, routes, front).journal, [];
    more, j1, i, n := ForgottenGivenAway(c, routes, front + [Boot(e)], j, victim, World(routes, j).claims[victim],
        other, e.t2);
  }

  /** In the life that begins after evs an address is ACKed to two MACs while the first may still use it. */
  ghost predicate AcksTwice(c: Conf, routes: set<Ip>, evs: seq<Event>, life: seq<Event>) {
    && OneLife(life)
    && ValidRun(c, routes, evs + life)
    && var j := Final(c, routes, evs + life).journal;
       exists i: nat, n: nat :: i < n < |j| && Conflict(j, i, n)
  }

  lemma {:induction false} HarmlessLife(c: Conf, routes: set<Ip>, evs: seq<Event>, life: seq<Event>)
    requires ValidRun(c, routes, evs + life) && ValidRun(c, routes, evs) && HarmlessStarts(c, routes, evs)
    requires OneLife(life)
    ensures HarmlessStarts(c, routes, evs + life)
    decreases |life|
  {
    if life == [] {
      assert evs + life == evs;
    } else {
      var n := |life| - 1;
      assert (evs + life)[..|evs| + n] == evs + life[..n] && (evs + life)[|evs| + n] == life[n];
      HarmlessLife(c, routes, evs, life[..n]);
    }
  }

  lemma HarmlessNeverTwice(c: Conf, routes: set<Ip>, evs: seq<Event>, life: seq<Event>)
    requires ValidRun(c, routes, evs) && HarmlessStarts(c, routes, evs)
    ensures !AcksTwice(c, routes, evs, life)
  {
    if AcksTwice(c, routes, evs, life) {
      HarmlessLife(c, routes, evs, life);
      var j := Final(c, routes, evs + life).journal;
      var i: nat, n: nat :| i < n < |j| && Conflict(j, i, n);
      ExclusiveAcks(c, routes, evs + life, i, n);
    }
  }

  lemma HarmfulTwice(c: Conf, routes: set<Ip>, front: seq<Event>, e: StartEnv) returns (life: seq<Event>)
    requires ValidRun(c, routes, front) && ValidRun(c, routes, front + [Boot(e)]) && HarmlessStarts(c, routes, front)
    requires !e.readable && !AllOver(World(routes, Final(c, routes, front).journal).claims, e.t2)
    ensures AcksTwice(c, routes, front + [Boot(e)], life)
  {
    var claims := World(routes, Final(c, routes, front).journal).claims;
    var victim :| victim in claims && e.t2 < claims[victim].until;
    var i: nat, n: nat;
    life, i, n := GivenAway(c, routes, front, e, victim, victim + 1);
  }

  /** In every run: the life a start-up begins can ACK an address twice exactly when that start-up
      cannot read the file while some claim is alive. */
  lemma UnreadableStart(c: Conf, routes: set<Ip>, front: seq<Event>, e: StartEnv)
    requires ValidRun(c, routes, front) && ValidRun(c, routes, front + [Boot(e)]) && HarmlessStarts(c, routes, front)
    ensures (exists life :: AcksTwice(c, routes, front + [Boot(e)], life))
            <==> !e.readable && !AllOver(World(routes, Final(c, routes, front).journal).claims, e.t2)
  {
    var evs := front + [Boot(e)];
    if Harmless(World(routes, Final(c, routes, front).journal), e) {
      assert evs[..|front|] == front && evs[|front|] == Boot(e);
      forall life
        ensures !AcksTwice(c, routes, evs, life)
      {
        HarmlessNeverTwice(c, routes, evs, life);
      }
    } else {
      var life := HarmfulTwice(c, routes, front, e);
    }
  }

  lemma GrantSeenSaves(d: Durable, mac: Mac, ip: Ip, f: File, expiry: Time, now: Time)
    ensures DoAll(d, GrantSeen(mac, ip, f, expiry, now)).disk == Some(f)
  {
    var es := GrantSeen(mac, ip, f, expiry, now);
    assert es == [es[0], es[1], es[2]] + [es[3]];
    DoSnoc(d, [es[0], es[1], es[2]], es[3]);
    assert [es[0], es[1], es[2]] == [es[0], es[1]] + [es[2]];
    DoSnoc(d, [es[0], es[1]], es[2]);
  }

  /** A process can begin with nothing, whatever the file. */
  lemma EmptyBoot(c: Conf, routes: set<Ip>, evs: seq<Event>) returns (up: seq<Event>)
    requires ValidRun(c, routes, evs) && !Final(c, routes, evs).alive && Final(c, routes, evs).now == 0
    ensures ValidRun(c, routes, up)
    ensures var s := Final(c, routes, up);
            s.alive && s.mem == FreshMem(c) && s.now == 0 && s.journal == Final(c, routes, evs).journal
  {
    var e := StartEnv(0, false, 0, [], {}, {});
    assert BootTable(World(routes, Final(c, routes, evs).journal).disk, e) == map[];
    RunSnoc(c, routes, evs, Boot(e));
    AfterEmptyStart(c, routes, evs, e);
    up := evs + [Boot(e)];
  }

  /** The first life of a process, which grants ip to mac and dies. */
  lemma FirstLife(c: Conf, routes: set<Ip>, mac: Mac, ip: Ip) returns (evs: seq<Event>)
    requires ip in c.addresses && ip != UNSPECIFIED
    ensures ValidRun(c, routes, evs)
    ensures var s, f := Final(c, routes, evs), map[mac := Entry(ip, Trunc(c.leaseTime))];
            && !s.alive && s.now == 0 && s.journal == GrantSeen(mac, ip, f, c.leaseTime, 0)
            && World(routes, s.journal).disk == Some(f)
  {
    var up := EmptyBoot(c, routes, []);
    var more, f := EmptyGoesOn(c, routes, up, mac, ip);
    RunSnoc(c, routes, up + more, Crash);
    evs := up + more + [Crash];
    GrantSeenSaves(Origin(routes), mac, ip, f, c.leaseTime, 0);
  }

  const LONG: Conf := Conf({7}, 100 * SECOND)

  lemma TwoGrants(f: File, g: File)
    ensures var j := GrantSeen(1, 7, f, 100 * SECOND, 0) + GrantSeen(2, 7, g, 100 * SECOND, 0);
            && |j| == 8 && j[3] == Acked(1, 7, 100 * SECOND, 0) && j[7] == Acked(2, 7, 100 * SECOND, 0)
            && Conflict(j, 3, 7)
  {
    TruncOfWhole(0, 100 * SECOND);
  }

  /** One start-up that cannot read the file is enough for two unexpired ACKs of one address. */
  lemma UnreadableFileAcksTwice(routes: set<Ip>) returns (evs: seq<Event>)
    ensures ValidRun(LONG, routes, evs)
    ensures var j := Final(LONG, routes, evs).journal;
            && |j| == 8 && j[3] == Acked(1, 7, 100 * SECOND, 0) && j[7] == Acked(2, 7, 100 * SECOND, 0)
            && Conflict(j, 3, 7)
  {
    var first := FirstLife(LONG, routes, 1, 7);
    var up := EmptyBoot(LONG, routes, first);
    var more, f := EmptyGoesOn(LONG, routes, up, 2, 7);
    evs := up + more;
    TwoGrants(map[1 := Entry(7, Trunc(100 * SECOND))], f);
  }

  // ---- a lease that runs out between the two readings of a start-up ----

  const SHORT: Conf := Conf({7}, 5 * SECOND)
  const START: StartEnv := StartEnv(5 * SECOND, true, 5 * SECOND, [], {}, {})
  const OFFER: DiscoverEnv := DiscoverEnv(5 * SECOND, 5 * SECOND, 5 * SECOND, 7, true, true)
  const SWEEP: SweepEnv := SweepEnv(6 * SECOND, [], 6 * SECOND, [1], true, {})

  /** The next start-up loads the row but does not take its address out of the pool, and the address is offered to MAC
      2. */
  lemma OfferedOver(disk: Option<File>)
    requires disk == Some(map[1 := Entry(7, 5 * SECOND)])
    ensures StartOk(disk, START) && Start(SHORT, disk, START).effects == []
    ensures var m0 := Start(SHORT, disk, START).mem;
            && DiscoverOk(m0, 2, OFFER)
            && Discover(m0, 2, OFFER).effects == []
            && Discover(m0, 2, OFFER).mem ==
                 Mem({}, {7}, 0, map[1 := Lease(7, 5 * SECOND, 0)], map[2 := Offer(7, 65 * SECOND)])
  {
    var t := BootTable(disk, START);
    assert t == map[1 := Lease(7, 5 * SECOND, 0)];
    assert ActiveMacs(t, 5 * SECOND) == {};
    var m0 := Start(SHORT, disk, START).mem;
    assert m0 == Mem({7}, {}, 0, t, map[]);
  }

  /** A sweep that finds one dead row and no dead offer. */
  lemma SweepsOne(m: Mem, e: SweepEnv, mac: Mac)
    requires e.t1 <= e.t2 && e.saveOk && e.offerOrder == [] && e.leaseOrder == [mac]
    requires forall k :: k in m.offers ==> e.t1 <= m.offers[k].expiry
    requires mac in m.leases && forall k :: k in m.leases ==> (m.leases[k].expiry < e.t2 <==> k == mac)
    ensures SweepOk(m, e)
    ensures Sweep(m, e).mem == FreeIp(m.(leases := Without(m.leases, {mac})), m.leases[mac].ip)
  {
    assert WithoutOffers(m.offers, set k | k in e.offerOrder) == m.offers;
    assert SweepOffers(m, e) == m;
    assert (set k | k in e.leaseOrder) == {mac};
    FreesOne(m.(leases := Without(m.leases, {mac})), IpsOf(RowIps(m.leases), e.leaseOrder));
  }

  lemma FreesOne(m: Mem, ips: seq<Ip>)
    requires |ips| == 1
    ensures FreeIps(m, ips) == FreeIp(m, ips[0])
  {
    assert ips[..0] == [];
  }

  /** 7 is free although it is on offer to MAC 2, and nobody has a lease. */
  ghost predicate FreeOnOffer(m: Mem) {
    && 7 in m.free && (forall k :: k !in m.leases)
    && (forall k :: k in m.offers <==> k == 2) && m.offers[2] == Offer(7, 65 * SECOND)
  }

  /** The sweep of the dead row frees the address on offer. */
  lemma SweptUnder(m: Mem)
    requires m == Mem({}, {7}, 0, map[1 := Lease(7, 5 * SECOND, 0)], map[2 := Offer(7, 65 * SECOND)])
    ensures SweepOk(m, SWEEP) && FreeOnOffer(Sweep(m, SWEEP).mem)
  {
    SweepsOne(m, SWEEP, 1);
  }

  /** A third MAC is granted it, after which the REQUEST of the offer's owner is refused. */
  lemma GrantedOver(m: Mem)
    requires FreeOnOffer(m)
    ensures var now := 6 * SECOND;
            var o := Request(SHORT, m, AsksAt(3, 7, now), AllWellAt(now));
            && o.verdict.Granting? && o.mem.offers == m.offers
            && Request(SHORT, o.mem, AsksAt(2, 7, now), AllWellAt(now)).verdict == NakLeased
  {
    var now := 6 * SECOND;
    var m1 := Request(SHORT, m, AsksAt(3, 7, now), AllWellAt(now)).mem;
    assert 3 in m1.leases && m1.leases[3] == Lease(7, 11 * SECOND, now);
    assert LeasedToOther(m1.leases, 2, 7, now);
  }

  /** The second life up to the sweep. */
  lemma SecondLife(routes: set<Ip>) returns (evs: seq<Event>)
    ensures ValidRun(SHORT, routes, evs)
    ensures var s := Final(SHORT, routes, evs);
            && s.alive && s.now == 6 * SECOND && s.pending == multiset{}
            && FreeOnOffer(s.mem)
  {
    var first := FirstLife(SHORT, routes, 1, 7);
    TruncOfWhole(0, 5 * SECOND);
    var evs0 := first + [Tick(5 * SECOND)];
    RunSnoc(SHORT, routes, first, Tick(5 * SECOND));
    OfferedOver(World(routes, Final(SHORT, routes, evs0).journal).disk);
    var evs1 := evs0 + [Boot(START)];
    RunSnoc(SHORT, routes, evs0, Boot(START));
    var p := Packet(DISCOVER, 2, UNSPECIFIED, UNSPECIFIED, UNSPECIFIED, 5 * SECOND);
    var evs2 := evs1 + [Arrive(p)];
    RunSnoc(SHORT, routes, evs1, Arrive(p));
    var evs3 := evs2 + [Handle(OnDiscover(p, OFFER))];
    RunSnoc(SHORT, routes, evs2, Handle(OnDiscover(p, OFFER)));
    SweptUnder(Final(SHORT, routes, evs3).mem);
    evs := evs3 + [Handle(OnSweep(SWEEP))];
    RunSnoc(SHORT, routes, evs3, Handle(OnSweep(SWEEP)));
  }

  /** A run from the very start in which an unexpired offer is not honoured: the owner's REQUEST is refused. */
  lemma GapFreesAnOffer(routes: set<Ip>) returns (evs: seq<Event>)
    ensures ValidRun(SHORT, routes, evs)
    ensures var s, p, e := Final(SHORT, routes, evs), AsksAt(2, 7, 6 * SECOND), AllWellAt(6 * SECOND);
            && s.alive && HandlerOk(s, OnRequest(p, e))
            && p.mac in s.mem.offers && Wanted(p) == s.mem.offers[p.mac].ip && e.t3 < s.mem.offers[p.mac].expiry
            && Request(SHORT, s.mem, p, e).verdict == NakLeased
  {
    var evs0 := SecondLife(routes);
    var p, q, e := AsksAt(2, 7, 6 * SECOND), AsksAt(3, 7, 6 * SECOND), AllWellAt(6 * SECOND);
    GrantedOver(Final(SHORT, routes, evs0).mem);
    var evs1 := evs0 + [Arrive(q)];
    BootBeforeNow(SHORT, routes, evs0);
    RunSnoc(SHORT, routes, evs0, Arrive(q));
    var evs2 := evs1 + [Handle(OnRequest(q, e))];
    RunSnoc(SHORT, routes, evs1, Handle(OnRequest(q, e)));
    evs := evs2 + [Arrive(p)];
    BootBeforeNow(SHORT, routes, evs2);
    RunSnoc(SHORT, routes, evs2, Arrive(p));
  }
}
