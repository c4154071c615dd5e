/** What each handler answers and leaves, said of the packet, the tables and the file, and when it does so. */
module LeaseDecisions {
  import opened LeaseModel
  import opened LeaseMachine
  import opened LeaseSafety

  // ---- REQUEST ----

  /** When a REQUEST is granted, and how it fails otherwise, in the order the checks come in.  The address is the one
      asked for, or else the one the client says it has. */
  lemma RequestDecides(c: Conf, m: Mem, p: Packet, e: RequestEnv)
    ensures var ip := if p.reqIp == UNSPECIFIED then p.ciaddr else p.reqIp;
            var t := m.leases;
            var late := p.mac in t && e.t1 < t[p.mac].expiry && p.arrived < t[p.mac].granted;
            var taken := exists k :: k in t && k != p.mac && t[k].ip == ip && e.t2 < t[k].expiry;
            var mine := || (p.mac in m.offers && m.offers[p.mac].ip == ip && e.t3 < m.offers[p.mac].expiry)
                        || (p.mac in t && t[p.mac].ip == ip && e.t4 < t[p.mac].expiry)
                        || ip in m.free;
            Request(c, m, p, e).verdict ==
              if ip == UNSPECIFIED then NoIp
              else if late then Ignored
              else if taken then NakLeased
              else if !mine then NakUnavailable
              else if !e.replyOk then BuildFailed
              else if !e.addOk then NakRoute
              else if !e.saveOk then SaveFailed
              else if !e.sendOk then SendFailed
              else Granting
  {
    var ip := if p.reqIp == UNSPECIFIED then p.ciaddr else p.reqIp;
    assert ip == Wanted(p);
  }

  /** A REQUEST that is not granted leaves everything as it was: a claim made on the way is given back. */
  lemma RefusalChangesNothing(c: Conf, m: Mem, p: Packet, e: RequestEnv)
    requires m.free !! m.used
    ensures var o := Request(c, m, p, e);
            o.verdict.SaveFailed? || o.verdict.SendFailed? || o.verdict.Granting? || (o.mem == m && o.effects == [])
  {
    var ip := Wanted(p);
    if ip in m.free {
      assert m.free - {ip} + {ip} == m.free && m.used + {ip} - {ip} == m.used;
    }
  }

  /** What a granted REQUEST leaves: the row of its client is written with the full lease time from its arrival, other
      rows of the address go and no others, the client's offer is gone, and the rebound address is free. */
  lemma GrantLeaves(c: Conf, m: Mem, p: Packet, e: RequestEnv)
    requires var v := Request(c, m, p, e).verdict; v.SaveFailed? || v.SendFailed? || v.Granting?
    ensures var ip := if p.reqIp == UNSPECIFIED then p.ciaddr else p.reqIp;
            var o := Request(c, m, p, e).mem;
            && p.mac in o.leases && o.leases[p.mac] == Lease(ip, p.arrived + c.leaseTime, p.arrived)
            && (forall k :: k != p.mac ==> (k in o.leases <==> k in m.leases && m.leases[k].ip != ip))
            && (forall k :: k != p.mac && k in o.leases ==> o.leases[k] == m.leases[k])
            && (forall k :: k in o.offers <==> k in m.offers && k != p.mac)
            && (forall k :: k in o.offers ==> o.offers[k] == m.offers[k])
            && (p.mac in m.leases && m.leases[p.mac].ip != ip ==> m.leases[p.mac].ip in o.free)
  {
  }

  /** What others see of a granted REQUEST: the route is added first, the rebound address loses its route, the whole
      table is saved, and the ACK comes last and right after the save. */
  lemma GrantShows(c: Conf, m: Mem, p: Packet, e: RequestEnv)
    requires var v := Request(c, m, p, e).verdict; v.SaveFailed? || v.SendFailed? || v.Granting?
    ensures var ip := if p.reqIp == UNSPECIFIED then p.ciaddr else p.reqIp;
            var o := Request(c, m, p, e);
            var save := Saved(EntriesOf(o.mem.leases), Granted, e.t5);
            var ack := Acked(p.mac, ip, p.arrived + c.leaseTime, e.t5);
            && |o.effects| >= 2 && o.effects[0] == RouteAdded(ip)
            && (save in o.effects <==> e.saveOk)
            && (ack in o.effects <==> e.saveOk && e.sendOk)
            && (ack in o.effects ==> o.effects[|o.effects| - 2..] == [save, ack])
            && (p.mac in m.leases && m.leases[p.mac].ip != ip ==>
                  (RouteDeleted(m.leases[p.mac].ip) in o.effects <==> e.delOk))
  {
    GrantEffectsSplit(c, m, p, e);
    HeadShows(m, p, e);
    Shows(GrantHead(m, p, e), Saved(EntriesOf(GrantMem(c, m, p, e).leases), Granted, e.t5),
          Acked(p.mac, Wanted(p), p.arrived + c.leaseTime, e.t5), e.saveOk, e.sendOk, GrantEffects(c, m, p, e));
  }

  lemma HeadShows(m: Mem, p: Packet, e: RequestEnv)
    ensures var ip, head := Wanted(p), GrantHead(m, p, e);
            && |head| >= 2 && head[0] == RouteAdded(ip)
            && (forall x :: x in head ==> !x.Saved? && !x.Acked?)
            && (p.mac in m.leases && m.leases[p.mac].ip != ip ==>
                  (RouteDeleted(m.leases[p.mac].ip) in head <==> e.delOk))
  {
  }

  lemma Shows(head: seq<Effect>, save: Effect, ack: Effect, saved: bool, sent: bool, es: seq<Effect>)
    requires |head| >= 2 && save.Saved? && ack.Acked? && forall x :: x in head ==> !x.Saved? && !x.Acked?
    requires es == if !saved then head else if !sent then head + [save] else head + [save] + [ack]
    ensures |es| >= 2 && es[0] == head[0] && (save in es <==> saved) && (ack in es <==> saved && sent)
    ensures saved && sent ==> es[|es| - 2..] == [save, ack]
    ensures forall x: Effect :: !x.Saved? && !x.Acked? ==> (x in es <==> x in head)
  {
    assert forall x :: x in head + [save] <==> x in head || x == save;
    assert forall x :: x in head + [save] + [ack] <==> x in head || x == save || x == ack;
  }

  // ---- RELEASE and the control socket ----

  /** A RELEASE takes its client's row exactly when the row is active, the packet comes from the leased address and
      names it, is no older than the grant, and the save succeeds; then the address is free, the file without the row
      is saved first, and the route deleted.  Otherwise nothing happens. */
  lemma ReleaseDecides(m: Mem, p: Packet, e: ReleaseEnv)
    ensures var o := Release(m, p, e);
            var goes := && p.mac in m.leases && e.t1 < m.leases[p.mac].expiry
                        && p.src == m.leases[p.mac].ip && p.ciaddr == m.leases[p.mac].ip
                        && m.leases[p.mac].granted <= p.arrived && e.saveOk;
            && (p.mac in m.leases && p.mac !in o.mem.leases <==> goes)
            && (goes ==> RowIsGone(m, p.mac, o, e))
            && (!goes ==> o.mem == m && o.effects == [])
            && (o.verdict.Done? <==> goes)
  {
    if p.mac in m.leases {
      Goes(m, p.mac, e);
    }
  }

  /** A control delete takes the row, expired or not, exactly when there is one and the save succeeds. */
  lemma ControlDeletes(m: Mem, mac: Mac, e: ReleaseEnv)
    ensures var o := ReleaseLocked(m, mac, e);
            var goes := mac in m.leases && e.saveOk;
            && (goes ==> RowIsGone(m, mac, o, e))
            && (!goes ==> o.mem == m && o.effects == [])
            && (o.verdict.NoLease? <==> mac !in m.leases) && (o.verdict.Done? <==> goes)
  {
    if mac in m.leases {
      Goes(m, mac, e);
    }
  }

  /** The row of mac is gone, and only that; its address is free; the file without it came first, then the route
      went. */
  ghost predicate RowIsGone(m: Mem, mac: Mac, o: Outcome, e: ReleaseEnv)
    requires mac in m.leases
  {
    && (forall k :: k in o.mem.leases <==> k in m.leases && k != mac)
    && (forall k :: k in o.mem.leases ==> o.mem.leases[k] == m.leases[k])
    && o.mem.offers == m.offers
    && o.mem.free == m.free + {m.leases[mac].ip} && o.mem.used == m.used - {m.leases[mac].ip}
    && o.effects == [Saved(EntriesOf(o.mem.leases), Released(mac), e.t1)]
                    + if e.delOk then [RouteDeleted(m.leases[mac].ip)] else []
  }

  lemma Goes(m: Mem, mac: Mac, e: ReleaseEnv)
    requires mac in m.leases
    ensures e.saveOk ==> RowIsGone(m, mac, ReleaseLocked(m, mac, e), e)
  {
  }

  // ---- the sweep ----

  /** A sweep takes every offer past its time, and every row past its time when it can save; the addresses of all it
      takes are free; it saves exactly when there is a row to take. */
  lemma SweepDecides(m: Mem, e: SweepEnv)
    requires SweepOk(m, e)
    ensures var o := Sweep(m, e);
            && (forall k :: k in o.mem.offers <==> k in m.offers && e.t1 <= m.offers[k].expiry)
            && (forall k :: k in o.mem.offers ==> o.mem.offers[k] == m.offers[k])
            && (forall k :: k in o.mem.leases <==> k in m.leases && (e.t2 <= m.leases[k].expiry || !e.saveOk))
            && (forall k :: k in o.mem.leases ==> o.mem.leases[k] == m.leases[k])
            && (forall k :: k in m.offers && k !in o.mem.offers ==> m.offers[k].ip in o.mem.free)
            && (forall k :: k in m.leases && k !in o.mem.leases ==> m.leases[k].ip in o.mem.free)
            && (o.effects != [] <==> e.saveOk && exists k :: k in m.leases && m.leases[k].expiry < e.t2)
            && (o.effects != [] ==> o.effects[0] == Saved(EntriesOf(o.mem.leases), Swept, e.t2))
  {
    SweepsOffers(m, e);
    SweepsRows(m, e);
  }

  lemma SweepsOffers(m: Mem, e: SweepEnv)
    requires SweepOk(m, e)
    ensures var m1 := SweepOffers(m, e);
            && m1.leases == m.leases && m.free <= m1.free
            && m1.offers == WithoutOffers(m.offers, ExpiredOffers(m.offers, e.t1))
            && (forall k :: k in ExpiredOffers(m.offers, e.t1) ==> m.offers[k].ip in m1.free)
  {
    var ips := IpsOf(OfferedAt(m.offers), e.offerOrder);
    MembersOf(e.offerOrder, ExpiredOffers(m.offers, e.t1));
    FreeIpsFrame(m.(offers := WithoutOffers(m.offers, set k | k in e.offerOrder)), ips);
    forall k | k in ExpiredOffers(m.offers, e.t1)
      ensures m.offers[k].ip in SweepOffers(m, e).free
    {
      var i :| 0 <= i < |e.offerOrder| && e.offerOrder[i] == k;
      assert ips[i] == m.offers[k].ip;
    }
  }

  lemma SweepsRows(m: Mem, e: SweepEnv)
    requires SweepOk(m, e)
    ensures var m1, o, gone := SweepOffers(m, e), Sweep(m, e), ExpiredMacs(m.leases, e.t2);
            && o.mem.offers == m1.offers && m1.free <= o.mem.free
            && o.mem.leases == (if e.saveOk then Without(m.leases, gone) else m.leases)
            && (e.saveOk ==> forall k :: k in gone ==> m.leases[k].ip in o.mem.free)
            && (o.effects != [] <==> e.saveOk && exists k :: k in gone)
            && (o.effects != [] ==> o.effects[0] == Saved(EntriesOf(o.mem.leases), Swept, e.t2))
  {
    SweepsOffers(m, e);
    var m1, gone := SweepOffers(m, e), ExpiredMacs(m.leases, e.t2);
    MembersOf(e.leaseOrder, gone);
    if e.leaseOrder == [] {
      assert forall k :: k in gone ==> k in e.leaseOrder;
      assert forall k :: k !in gone;
      assert Without(m.leases, gone) == m.leases;
    } else {
      assert e.leaseOrder[0] in gone && exists k :: k in gone;
      assert e.saveOk ==> Sweep(m, e).effects[0].Saved?;
      var ips := IpsOf(RowIps(m.leases), e.leaseOrder);
      FreeIpsFrame(m1.(leases := Without(m.leases, gone)), ips);
      forall k | k in gone && e.saveOk
        ensures m.leases[k].ip in Sweep(m, e).mem.free
      {
        var i :| 0 <= i < |e.leaseOrder| && e.leaseOrder[i] == k;
        assert ips[i] == m.leases[k].ip;
      }
    }
  }

  // ---- start-up ----

  /** From any file: a start-up keeps the lines that are not past and whose address the pool has; of those whose address
      it never had it keeps only the ones that ran out before it came to restore them.  No offer and no grant stamp
      survive. */
  lemma StartDecides(c: Conf, disk: Option<File>, e: StartEnv)
    requires StartOk(disk, e)
    ensures var t := Start(c, disk, e).mem.leases;
            && Start(c, disk, e).mem.offers == map[]
            && (disk.None? || !e.readable ==> t == map[])
            && (disk.Some? && e.readable ==>
                  && (forall k :: k in t <==>
                        && k in disk.value && e.t1 <= disk.value[k].expiry
                        && (disk.value[k].ip in c.addresses || disk.value[k].expiry <= e.t2))
                  && (forall k :: k in t ==> t[k] == Lease(disk.value[k].ip, disk.value[k].expiry, 0)))
  {
    var t := BootTable(disk, e);
    RestoreDecides(c, FreshMem(c).(leases := t), e.order, |e.order|);
    MembersOf(e.order, ActiveMacs(t, e.t2));
    forall k | k in t
      ensures (exists i :: 0 <= i < |e.order| && e.order[i] == k) <==> e.t2 < t[k].expiry
    {
      if e.t2 < t[k].expiry {
        assert k in ActiveMacs(t, e.t2) && k in e.order;
      }
    }
    if t == map[] {
      assert Start(c, disk, e).mem.leases == map[];
    }
  }

  lemma {:induction false} RestoreDecides(c: Conf, m: Mem, order: seq<Mac>, n: nat)
    requires n <= |order| && m.free + m.used == c.addresses
    requires forall i :: 0 <= i < |order| ==> order[i] in m.leases
    requires forall i, j :: 0 <= i < j < |order| ==> order[i] != order[j]
    ensures forall k :: k in RestoreFirst(m, order, n).leases <==>
              && k in m.leases
              && (m.leases[k].ip in c.addresses || forall i :: 0 <= i < n ==> order[i] != k)
  {
    if n != 0 {
      RestoreDecides(c, m, order, n - 1);
    }
  }

  /** The route effects of a start-up: one for each active line, an add when the pool has its address and a delete when
      it does not, as far as the kernel lets it. */
  lemma StartRoutesDecide(c: Conf, disk: Option<File>, e: StartEnv, ip: Ip)
    requires StartOk(disk, e)
    ensures var named := disk.Some? && e.readable
                         && exists k :: k in disk.value && e.t1 <= disk.value[k].expiry && e.t2 < disk.value[k].expiry
                                        && disk.value[k].ip == ip;
            && (RouteAdded(ip) in Start(c, disk, e).effects <==> named && ip in c.addresses && ip in e.addOk)
            && (RouteDeleted(ip) in Start(c, disk, e).effects <==> named && ip !in c.addresses && ip in e.delOk)
  {
    var t := BootTable(disk, e);
    RestoreEffectsDecide(c, t, e.order, |e.order|, e, ip);
    if i :| 0 <= i < |e.order| && t[e.order[i]].ip == ip {
      assert e.order[i] in ActiveMacs(t, e.t2);
    }
    if disk.Some? && e.readable {
      if k :| k in disk.value && e.t1 <= disk.value[k].expiry && e.t2 < disk.value[k].expiry && disk.value[k].ip == ip {
        assert k in ActiveMacs(t, e.t2) && k in e.order;
        var i :| 0 <= i < |e.order| && e.order[i] == k;
      }
    }
  }

  lemma {:induction false} RestoreEffectsDecide(c: Conf, t: Table, order: seq<Mac>, n: nat, e: StartEnv, ip: Ip)
    requires n <= |order|
    requires forall i :: 0 <= i < |order| ==> order[i] in t
    ensures var es, named := RestoreEffects(c, t, order, n, e), exists i :: 0 <= i < n && t[order[i]].ip == ip;
            && (RouteAdded(ip) in es <==> named && ip in c.addresses && ip in e.addOk)
            && (RouteDeleted(ip) in es <==> named && ip !in c.addresses && ip in e.delOk)
  {
    if n != 0 {
      RestoreEffectsDecide(c, t, order, n - 1, e, ip);
      var es := RestoreEffects(c, t, order, n - 1, e);
      var last := RestoreEffect(c, t[order[n - 1]].ip, e);
      assert forall x :: x in es + last <==> x in es || x in last;
    }
  }
}
