/** The DHCP server: handlers that change the pool, the offers, the leases, the routes and the lease file step by step.

    Each is proved against its function of LeaseMachine, memory and effects alike.  The clock readings and the
    answers of the outside world come in as parameters. */
module Server {
  import opened LeaseModel
  import opened LeaseMachine
  import opened LeaseFile
  import opened AtomicFile
  import opened Pool
  import opened LeaseStore
  import opened LeaseSafety

  class Server {
    const conf: Conf
    const pool: IpPool
    const leases: LeaseStore
    const offers: PendingOffers
    const umasked: nat
    /** The kernel's /32 routes on the link. */
    var routes: set<Ip>

    /** The routes before the first start, and every effect since. */
    ghost const origin: set<Ip>
    ghost var journal: seq<Effect>

    ghost function Mem(): Mem
      reads pool, leases, offers
    {
      LeaseMachine.Mem(pool.free, pool.used, pool.strays, leases.leases, offers.offers)
    }

    /** The kernel and the file are what the journal says. */
    ghost predicate Valid()
      reads this, leases, leases.file
    {
      var d := World(origin, journal);
      && routes == d.routes
      && (leases.file.target.None? <==> d.disk.None?)
      && (d.disk.Some? ==> Prints(leases.file.target.value.data, d.disk.value))
    }

    /** A new process over the file and the routes an earlier life left. */
    constructor (leaseTime: nat, ips: seq<Ip>, file: ReplacedFile<Line>, umasked: nat, routes: set<Ip>,
                 ghost origin: set<Ip>, ghost journal: seq<Effect>)
      requires routes == World(origin, journal).routes
      requires file.target.None? <==> World(origin, journal).disk.None?
      requires file.target.Some? ==> Prints(file.target.value.data, World(origin, journal).disk.value)
      ensures Valid() && Mem() == FreshMem(conf)
      ensures conf == Conf(set i | 0 <= i < |ips| :: ips[i], leaseTime)
      ensures leases.file == file && this.origin == origin && this.journal == journal
      ensures fresh(pool) && fresh(leases) && fresh(offers)
    {
      this.conf := Conf(set i | 0 <= i < |ips| :: ips[i], leaseTime);
      this.pool := new IpPool(ips);
      this.leases := new LeaseStore(file);
      this.offers := new PendingOffers();
      this.umasked := umasked;
      this.routes := routes;
      this.origin := origin;
      this.journal := journal;
    }

    // ---- effects ----

    method AddRoute(ip: Ip, ok: bool)
      requires Valid()
      modifies this`routes, this`journal
      ensures Valid() && journal == old(journal) + (if ok then [RouteAdded(ip)] else [])
    {
      if ok {
        DoSnoc(Origin(origin), journal, RouteAdded(ip));
        routes := routes + {ip};
        journal := journal + [RouteAdded(ip)];
      }
    }

    method DelRoute(ip: Ip, ok: bool)
      requires Valid()
      modifies this`routes, this`journal
      ensures Valid() && journal == old(journal) + (if ok then [RouteDeleted(ip)] else [])
    {
      if ok {
        DoSnoc(Origin(origin), journal, RouteDeleted(ip));
        routes := routes - {ip};
        journal := journal + [RouteDeleted(ip)];
      }
    }

    ghost method Commit(mac: Mac, ip: Ip)
      requires Valid()
      modifies this`journal
      ensures Valid() && journal == old(journal) + [Committed(mac, ip)]
    {
      DoSnoc(Origin(origin), journal, Committed(mac, ip));
      journal := journal + [Committed(mac, ip)];
    }

    method SaveLeases(ghost why: Reason, ghost at: Time, fault: Fault) returns (ok: bool)
      requires Valid()
      modifies leases.file, this`journal
      ensures Valid() && (ok <==> fault.NoFault?)
      ensures journal == old(journal) + (if ok then [Saved(EntriesOf(leases.leases), why, at)] else [])
    {
      ok := leases.Save(umasked, fault);
      if ok {
        DoSnoc(Origin(origin), journal, Saved(EntriesOf(leases.leases), why, at));
        journal := journal + [Saved(EntriesOf(leases.leases), why, at)];
      }
    }

    method SendAck(mac: Mac, ip: Ip, expiry: Time, at: Time, ok: bool)
      requires Valid()
      modifies this`journal
      ensures Valid() && journal == old(journal) + (if ok then [Acked(mac, ip, expiry, at)] else [])
    {
      if ok {
        DoSnoc(Origin(origin), journal, Acked(mac, ip, expiry, at));
        journal := journal + [Acked(mac, ip, expiry, at)];
      }
    }

    /** Deletes the route before the slot is free. */
    method FreeIp(ip: Ip, delOk: bool)
      requires Valid()
      modifies this`routes, this`journal, pool
      ensures Valid() && Mem() == LeaseMachine.FreeIp(old(Mem()), ip)
      ensures journal == old(journal) + (if delOk then [RouteDeleted(ip)] else [])
    {
      DelRoute(ip, delOk);
      pool.Release(ip);
    }

    // ---- DISCOVER ----

    method OfferIp(mac: Mac, t2: Time, t3: Time) returns (ip: Option<Ip>)
      modifies pool, offers
      ensures var m1 := DropStaleOffer(old(Mem()), mac, t2);
              if mac in m1.offers then
                ip == Some(m1.offers[mac].ip) &&
                    Mem() == m1.(offers := m1.offers[mac := Offer(m1.offers[mac].ip, t3 + OFFER_TIMEOUT)])
              else if ip.None? then
                m1.free == {} && Mem() == m1
              else
                && ip.value in m1.free
                && Mem() == ClaimIp(m1, ip.value).(offers := m1.offers[mac := Offer(ip.value, t3 + OFFER_TIMEOUT)])
    {
      var active, stale := offers.IpForMac(mac, t2);
      if stale.Some? {
        pool.Release(stale.value);
      }
      ip := active;
      if ip.None? {
        ip := pool.Allocate();
        if ip.None? {
          return;
        }
      }
      offers.Add(mac, ip.value, t3);
    }

    method HandleDiscover(p: Packet, t1: Time, t2: Time, t3: Time, replyOk: bool, sendOk: bool)
      returns (v: Verdict, ghost e: DiscoverEnv)
      requires Valid() && t1 <= t2 <= t3
      modifies pool, offers
      ensures Valid() && journal == old(journal)
      ensures e == DiscoverEnv(t1, t2, t3, e.pick, replyOk, sendOk) && DiscoverOk(old(Mem()), p.mac, e)
      ensures var o := Discover(old(Mem()), p.mac, e);
              Mem() == o.mem && v == o.verdict && o.effects == []
    {
      ghost var m0 := Mem();
      ghost var m1 := DropStaleOffer(m0, p.mac, t2);
      e := DiscoverEnv(t1, t2, t3, UNSPECIFIED, replyOk, sendOk);
      if m1.free != {} {
        SomeMember(m1.free);
        ghost var k :| k in m1.free;
        e := e.(pick := k);
      }
      var ip := leases.IpForMac(p.mac, t1);
      if ip.None? {
        ip := OfferIp(p.mac, t2, t3);
        if ip.None? {
          return Exhausted, e;
        }
        if p.mac !in m1.offers {
          e := e.(pick := ip.value);
        }
      }
      if !replyOk {
        return BuildFailed, e;
      }
      if !sendOk {
        return SendFailed, e;
      }
      v := Offering(ip.value);
    }

    // ---- REQUEST ----

    /** Everything after the claim and the route: the old offer goes, the row is written, the orphaned address is
        freed. */
    method CommitGrant(p: Packet, ip: Ip, delOk: bool)
      requires Valid()
      modifies this`routes, this`journal, pool, leases, offers
      ensures Valid()
      ensures var m := old(Mem());
              var m2 := DropOffer(m, p.mac, ip);
              var m3 := m2.(leases := AddLease(m.leases, p.mac, Lease(ip, p.arrived + conf.leaseTime, p.arrived)));
              var prev := Rebound(m.leases, p.mac, ip);
              && Mem() == (if prev.Some? then LeaseMachine.FreeIp(m3, prev.value) else m3)
              && journal == old(journal) + [Committed(p.mac, ip)] +
                   (if prev.Some? && delOk then [RouteDeleted(prev.value)] else [])
    {
      ghost var m := Mem();
      var oldIp := offers.Remove(p.mac);
      if oldIp.Some? && oldIp.value != ip {
        pool.Release(oldIp.value);
      }
      assert Mem() == DropOffer(m, p.mac, ip) by {
        assert p.mac !in m.offers ==> m.offers - {p.mac} == m.offers;
      }
      var evicted := leases.Add(p.mac, ip, conf.leaseTime, p.arrived);
      Commit(p.mac, ip);
      ghost var m3, j3 := Mem(), journal;
      for n := 0 to |evicted|
        invariant Valid()
        invariant var prev := Rebound(m.leases, p.mac, ip);
                  && Mem() == (if n > 0 && prev.Some? then LeaseMachine.FreeIp(m3, prev.value) else m3)
                  && journal == j3 + (if n > 0 && prev.Some? && delOk then [RouteDeleted(prev.value)] else [])
      {
        if evicted[n].mac == p.mac {
          FreeIp(evicted[n].ip, delOk);
          continue;
        }
      }
    }

    /** The grant itself, once the address is claimed and routed: commit, save, then ACK. */
    method Grant(p: Packet, ip: Ip, e: RequestEnv, fault: Fault, ghost m: Mem, ghost j: seq<Effect>)
        returns (v: Verdict)
      requires Valid() && (e.saveOk <==> fault.NoFault?) && ip == Wanted(p)
      requires Mem() == if HeldBy(m, p.mac, ip, e) then m else ClaimIp(m, ip)
      requires journal == j + [RouteAdded(ip)]
      modifies this`routes, this`journal, pool, leases, leases.file, offers
      ensures Valid() && Mem() == GrantMem(conf, m, p, e) && journal == j + GrantEffects(conf, m, p, e)
      ensures v == if !e.saveOk then SaveFailed else if !e.sendOk then SendFailed else Granting
    {
      CommitGrant(p, ip, e.delOk);
      assert Mem() == GrantMem(conf, m, p, e);
      var saved := SaveLeases(Granted, e.t5, fault);
      GrantSpelled(j, conf, m, p, e);
      if !saved {
        return SaveFailed;
      }
      SendAck(p.mac, ip, p.arrived + conf.leaseTime, e.t5, e.sendOk);
      v := if e.sendOk then Granting else SendFailed;
    }

    /** The checks before anything is promised; the address is claimed unless mac holds it already. */
    method Admit(p: Packet, ip: Ip, e: RequestEnv) returns (stop: Option<Verdict>, held: bool)
      requires ip == Wanted(p)
      modifies pool
      ensures var m := old(Mem());
              && (stop.Some? ==>
                    && Mem() == m && stop == Refusal(m, p, e)
                    && !stop.value.BuildFailed? && !stop.value.NakRoute?)
              && (stop.None? ==>
                    && held == HeldBy(m, p.mac, ip, e)
                    && Mem() == (if held then m else ClaimIp(m, ip))
                    && Refusal(m, p, e)
                       == if !e.replyOk then Some(BuildFailed) else if !e.addOk then Some(NakRoute) else None)
    {
      stop, held := None, false;
      if ip == UNSPECIFIED {
        return Some(NoIp), held;
      }
      var l := leases.Active(p.mac, e.t1);
      if l.Some? && l.value.granted > p.arrived {
        return Some(Ignored), held;
      }
      var taken := leases.IsLeasedToOther(p.mac, ip, e.t2);
      if taken {
        return Some(NakLeased), held;
      }
      held := OfferedTo(offers.offers, p.mac, ip, e.t3) || LeasedTo(leases.leases, p.mac, ip, e.t4);
      if !held {
        var claimed := pool.TryClaim(ip);
        if !claimed {
          return Some(NakUnavailable), held;
        }
      }
    }

    method HandleRequest(p: Packet, e: RequestEnv, fault: Fault) returns (v: Verdict)
      requires Valid() && RequestOk(e) && (e.saveOk <==> fault.NoFault?)
      modifies this`routes, this`journal, pool, leases, leases.file, offers
      ensures Valid()
      ensures var o := Request(conf, old(Mem()), p, e);
              Mem() == o.mem && journal == old(journal) + o.effects && v == o.verdict
    {
      var ip := p.reqIp;
      if ip == UNSPECIFIED {
        ip := p.ciaddr;
      }
      var stop, held := Admit(p, ip, e);
      if stop.Some? {
        return stop.value;
      }
      if !e.replyOk {
        if !held {
          pool.Release(ip);
        }
        return BuildFailed;
      }
      AddRoute(ip, e.addOk);
      if !e.addOk {
        if !held {
          pool.Release(ip);
        }
        return NakRoute;
      }
      v := Grant(p, ip, e, fault, old(Mem()), old(journal));
    }

    // ---- RELEASE and the control socket ----

    method ReleaseLeaseLocked(mac: Mac, e: ReleaseEnv, fault: Fault) returns (v: Verdict)
      requires Valid() && (e.saveOk <==> fault.NoFault?)
      modifies this`routes, this`journal, pool, leases, leases.file
      ensures Valid()
      ensures var o := ReleaseLocked(old(Mem()), mac, e);
              Mem() == o.mem && journal == old(journal) + o.effects && v == o.verdict
    {
      ghost var m := Mem();
      var l := leases.Take(mac);
      if l.None? {
        assert m.leases == Without(m.leases, {mac});
        return NoLease;
      }
      var saved := SaveLeases(Released(mac), e.t1, fault);
      if !saved {
        ghost var taken := leases.leases;
        var rows := [Row(mac, l.value)];
        leases.RestoreAll(rows);
        assert rows[..0] == [] && PutBack(taken, []) == taken;
        assert leases.leases == taken[mac := l.value];
        RowBack(m.leases, mac);
        return SaveFailed;
      }
      FreeIp(l.value.ip, e.delOk);
      return Done;
    }

    method HandleRelease(p: Packet, e: ReleaseEnv, fault: Fault) returns (v: Verdict)
      requires Valid() && (e.saveOk <==> fault.NoFault?)
      modifies this`routes, this`journal, pool, leases, leases.file
      ensures Valid()
      ensures var o := Release(old(Mem()), p, e);
              Mem() == o.mem && journal == old(journal) + o.effects && v == o.verdict
    {
      var l := leases.Active(p.mac, e.t1);
      if l.None? {
        return NoLease;
      }
      if p.src != l.value.ip || p.ciaddr != l.value.ip {
        return Spoofed;
      }
      if l.value.granted > p.arrived {
        return Ignored;
      }
      v := ReleaseLeaseLocked(p.mac, e, fault);
    }

    // ---- the sweep ----

    /** Expired offers go back to the pool. */
    method ReclaimOffers(t1: Time) returns (ghost order: seq<Mac>)
      requires Valid()
      modifies pool, offers
      ensures Valid()
      ensures var m := old(Mem());
              && Enumerates(order, ExpiredOffers(m.offers, t1))
              && Mem() == FreeIps(m.(offers := WithoutOffers(m.offers, set k | k in order)),
                   IpsOf(OfferedAt(m.offers), order))
              && leases.leases == m.leases && journal == old(journal)
    {
      ghost var m := Mem();
      var macs, ips := offers.ExpireOld(t1);
      ghost var m0 := Mem();
      for n := 0 to |ips|
        invariant Valid() && Mem() == FreeIps(m0, ips[..n]) && leases.leases == m.leases
      {
        assert ips[..n + 1][..n] == ips[..n];
        pool.Release(ips[n]);
      }
      assert ips[..|ips|] == ips;
      assert ips == IpsOf(OfferedAt(m.offers), macs);
      order := macs;
    }

    /** Expired leases, already out of the table and the file, lose their routes and go back to the pool. */
    method FreeExpired(rows: seq<Row>, ghost t: Table, delOk: set<Ip>)
      requires Valid()
      requires forall i :: 0 <= i < |rows| ==> rows[i].mac in t && t[rows[i].mac] == rows[i].lease
      modifies this`routes, this`journal, pool
      ensures Valid()
      ensures var ips := IpsOf(RowIps(t), MacsOf(rows));
              Mem() == FreeIps(old(Mem()), ips) && journal == old(journal) + RouteDeletions(ips, delOk)
    {
      ghost var ips := IpsOf(RowIps(t), MacsOf(rows));
      for n := 0 to |rows|
        invariant Valid() && Mem() == FreeIps(old(Mem()), ips[..n]) &&
                  journal == old(journal) + RouteDeletions(ips[..n], delOk)
      {
        assert ips[..n + 1][..n] == ips[..n];
        assert rows[n].lease.ip == ips[n];
        FreeIp(rows[n].lease.ip, rows[n].lease.ip in delOk);
      }
      assert ips[..|rows|] == ips;
    }

    /** Expired leases are taken out, persisted and freed, or all put back when the save fails. */
    method ReclaimLeases(t2: Time, fault: Fault, delOk: set<Ip>) returns (v: Verdict, ghost order: seq<Mac>)
      requires Valid()
      modifies this`routes, this`journal, pool, leases, leases.file
      ensures Valid()
      ensures Enumerates(order, ExpiredMacs(old(Mem()).leases, t2))
      ensures order == [] || !fault.NoFault? ==> Mem() == old(Mem()) && journal == old(journal)
      ensures order != [] && fault.NoFault? ==>
                var m := old(Mem());
                var rest := Without(m.leases, set k | k in order);
                && Mem() == FreeIps(m.(leases := rest), IpsOf(RowIps(m.leases), order))
                && journal == old(journal) + [Saved(EntriesOf(rest), Swept, t2)] +
                     RouteDeletions(IpsOf(RowIps(m.leases), order), delOk)
      ensures v == if order == [] || fault.NoFault? then Done else SaveFailed
    {
      ghost var m := Mem();
      var expired := leases.ExpireOld(t2);
      order := MacsOf(expired);
      MembersOf(order, ExpiredMacs(m.leases, t2));
      if |expired| > 0 {
        var saved := SaveLeases(Swept, t2, fault);
        if !saved {
          leases.RestoreAll(expired);
          PutBackUndoes(m.leases, expired, ExpiredMacs(m.leases, t2));
          return SaveFailed, order;
        }
      } else {
        NothingGone(m.leases);
      }
      FreeExpired(expired, m.leases, delOk);
      v := Done;
    }

    method SweepExpired(t1: Time, t2: Time, fault: Fault, delOk: set<Ip>) returns (v: Verdict, ghost e: SweepEnv)
      requires Valid() && t1 <= t2
      modifies this`routes, this`journal, pool, leases, leases.file, offers
      ensures Valid()
      ensures e == SweepEnv(t1, e.offerOrder, t2, e.leaseOrder, fault.NoFault?, delOk) && SweepOk(old(Mem()), e)
      ensures var o := Sweep(old(Mem()), e);
              Mem() == o.mem && journal == old(journal) + o.effects && v == o.verdict
    {
      ghost var m := Mem();
      ghost var offerOrder := ReclaimOffers(t1);
      ghost var m1, leaseOrder := Mem(), [];
      v, leaseOrder := ReclaimLeases(t2, fault, delOk);
      e := SweepEnv(t1, offerOrder, t2, leaseOrder, fault.NoFault?, delOk);
      assert m1 == SweepOffers(m, e);
    }

    // ---- start-up ----

    /** Active leases take their addresses out of the pool and get their routes back. */
    method RestoreLeases(ghost e: StartEnv, t2: Time, addOk: set<Ip>, delOk: set<Ip>) returns (ghost order: seq<Mac>)
      requires Valid() && pool.free + pool.used == conf.addresses && e.addOk == addOk && e.delOk == delOk
      modifies this`routes, this`journal, pool, leases
      ensures Valid()
      ensures var m := old(Mem());
              && Enumerates(order, ActiveMacs(m.leases, t2))
              && Mem() == RestoreFirst(m, order, |order|)
              && journal == old(journal) + RestoreEffects(conf, m.leases, order, |order|, e)
    {
      ghost var m := Mem();
      var rows := leases.ActiveLeases(t2);
      order := MacsOf(rows);
      RestoreRows(rows, m, order, addOk, delOk, e);
    }

    method RestoreRows(rows: seq<Row>, ghost m: Mem, ghost order: seq<Mac>, addOk: set<Ip>, delOk: set<Ip>,
        ghost e: StartEnv)
      requires Valid() && Mem() == m && m.free + m.used == conf.addresses && e.addOk == addOk && e.delOk == delOk
      requires |order| == |rows| && forall i :: 0 <= i < |order| ==>
                order[i] in m.leases && rows[i] == Row(order[i], m.leases[order[i]])
      requires forall i, j :: 0 <= i < j < |order| ==> order[i] != order[j]
      modifies this`routes, this`journal, pool, leases
      ensures Valid()
      ensures Mem() == RestoreFirst(m, order, |order|)
      ensures journal == old(journal) + RestoreEffects(conf, m.leases, order, |order|, e)
    {
      for n := 0 to |rows|
        invariant Valid() && Mem() == RestoreFirst(m, order, n)
        invariant journal == old(journal) + RestoreEffects(conf, m.leases, order, n, e)
      {
        RestoreRow(rows[n], Mem(), addOk, delOk, e);
      }
    }

    method RestoreRow(row: Row, ghost m: Mem, addOk: set<Ip>, delOk: set<Ip>, ghost e: StartEnv)
      requires Valid() && Mem() == m && m.free + m.used == conf.addresses && e.addOk == addOk && e.delOk == delOk
      requires row.mac in m.leases && m.leases[row.mac] == row.lease
      modifies this`routes, this`journal, pool, leases
      ensures Valid() && Mem() == RestoreOne(m, row.mac)
      ensures journal == old(journal) + RestoreEffect(conf, row.lease.ip, e)
    {
      var known := pool.MarkUsed(row.lease.ip);
      if !known {
        var gone := leases.Take(row.mac);
        DelRoute(row.lease.ip, row.lease.ip in delOk);
        assert m.free - {row.lease.ip} == m.free;
        return;
      }
      AddRoute(row.lease.ip, row.lease.ip in addOk);
    }

    method Start(t1: Time, readable: bool, t2: Time, addOk: set<Ip>, delOk: set<Ip>) returns (ghost e: StartEnv)
      requires Valid() && Mem() == FreshMem(conf) && t1 <= t2
      modifies this`routes, this`journal, pool, leases
      ensures Valid()
      ensures e == StartEnv(t1, readable, t2, e.order, addOk, delOk) && StartOk(old(World(origin, journal)).disk, e)
      ensures var o := LeaseMachine.Start(conf, old(World(origin, journal)).disk, e);
              Mem() == o.mem && journal == old(journal) + o.effects
    {
      ghost var disk := World(origin, journal).disk;
      var loaded := leases.Load(readable, t1);
      if loaded {
        LoadDecodes(leases.file.target.value.data, t1);
        DecodePrinted(leases.file.target.value.data, disk.value);
      }
      e := StartEnv(t1, readable, t2, [], addOk, delOk);
      ghost var t := leases.leases;
      assert t == BootTable(disk, e);
      if loaded {
        ghost var order := RestoreLeases(e, t2, addOk, delOk);
        SameAnswers(conf, t, order, |order|, e, e.(order := order));
        e := e.(order := order);
      }
    }
  }

  lemma GrantSpelled(j: seq<Effect>, c: Conf, m: Mem, p: Packet, e: RequestEnv)
    ensures var prev := Rebound(m.leases, p.mac, Wanted(p));
            j + [RouteAdded(Wanted(p))] + [Committed(p.mac, Wanted(p))]
            + (if prev.Some? && e.delOk then [RouteDeleted(prev.value)] else [])
            + (if e.saveOk then [Saved(EntriesOf(GrantMem(c, m, p, e).leases), Granted, e.t5)] else [])
            + (if e.saveOk && e.sendOk then [Acked(p.mac, Wanted(p), p.arrived + c.leaseTime, e.t5)] else [])
            == j + GrantEffects(c, m, p, e)
  {
  }

  lemma {:induction false} SameAnswers(c: Conf, t: Table, order: seq<Mac>, n: nat, e: StartEnv, e1: StartEnv)
    requires n <= |order|
    requires forall i :: 0 <= i < |order| ==> order[i] in t
    requires e1.addOk == e.addOk && e1.delOk == e.delOk
    ensures RestoreEffects(c, t, order, n, e1) == RestoreEffects(c, t, order, n, e)
  {
    if n != 0 {
      SameAnswers(c, t, order, n - 1, e, e1);
    }
  }

  lemma RowBack(t: Table, mac: Mac)
    requires mac in t
    ensures Without(t, {mac})[mac := t[mac]] == t
  {
  }

  lemma NothingGone(t: Table)
    ensures Without(t, {}) == t
  {
  }
}
