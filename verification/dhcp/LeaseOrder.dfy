/** What reaches the lease file and the kernel before an address is free again, and routes that follow the leases. */
module LeaseOrder {
  import opened LeaseModel
  import opened LeaseMachine
  import opened LeaseSafety
  import opened LeaseAccounting
  import opened LeaseFencing

  // ---- persist before free ----

  predicate Names(f: File, ip: Ip) {
    exists k :: k in f && f[k].ip == ip
  }

  lemma GoneFromFile(t: Table, gone: set<Mac>, k: Mac)
    requires OneRowPerIp(t) && k in t && k in gone
    ensures !Names(EntriesOf(Without(t, gone)), t[k].ip)
  {
  }

  /** A release, a control delete or a sweep touches routes and rows only after a save that no longer names the
      address; when the save fails the table is exactly what it was and no effect is seen. */
  lemma PersistBeforeFree(c: Conf, s: State, h: Handler)
    requires OneRowPerIp(s.mem.leases) && HandlerOk(s, h)
    requires h.OnRelease? || h.OnControl? || h.OnSweep?
    ensures var o := Run(c, s, h);
            && (o.effects != [] ==> o.effects[0].Saved?)
            && (forall k :: k in s.mem.leases && k !in o.mem.leases
                  ==> o.effects != [] && !Names(o.effects[0].file, s.mem.leases[k].ip))
            && (o.effects == [] ==> o.mem.leases == s.mem.leases)
            && (o.verdict.SaveFailed? ==> o.effects == [])
  {
    TableAfter(c, s, h);
    var t := s.mem.leases;
    match h {
      case OnRelease(p, e) => if p.mac in t { GoneFromFile(t, {p.mac}, p.mac); }
      case OnControl(mac, e) => if mac in t { GoneFromFile(t, {mac}, mac); }
      case OnSweep(e) =>
        var gone := ExpiredMacs(t, e.t2);
        MembersOf(e.leaseOrder, gone);
        OffersUntouched(s.mem, e);
        forall k | k in gone
          ensures !Names(EntriesOf(Without(t, gone)), t[k].ip)
        {
          GoneFromFile(t, gone, k);
        }
      case _ =>
    }
  }

  lemma OffersUntouched(m: Mem, e: SweepEnv)
    requires SweepOk(m, e)
    ensures SweepOffers(m, e).leases == m.leases
  {
    FreeIpsFrame(m.(offers := WithoutOffers(m.offers, set k | k in e.offerOrder)),
        IpsOf(OfferedAt(m.offers), e.offerOrder));
  }

  /** With the books in order: a leased address is free after such a handler only if its row is gone too,
      so the file written first does not name it; after a failed save no leased address is free. */
  lemma FreedIsForgotten(c: Conf, s: State, h: Handler, k: Mac)
    requires Books(c, s.mem) && HandlerOk(s, h) && k in s.mem.leases
    requires h.OnRelease? || h.OnControl? || h.OnSweep?
    ensures var o := Run(c, s, h);
            s.mem.leases[k].ip in o.mem.free
            ==> k !in o.mem.leases && o.effects != [] && o.effects[0].Saved? &&
                !Names(o.effects[0].file, s.mem.leases[k].ip)
  {
    PersistBeforeFree(c, s, h);
    HandlerBooks(c, s, h);
    TableAfter(c, s, h);
    var o := Run(c, s, h);
    if k in o.mem.leases {
      assert o.mem.leases[k].ip in LeaseIps(o.mem.leases);
    }
  }

  /** A rebind frees the old address before the save: the file still names the freed address exactly when the save
      fails and the file named it before. */
  lemma RebindFreesFirst(c: Conf, d: Durable, m: Mem, p: Packet, e: RequestEnv)
    requires OneRowPerIp(m.leases) && Refusal(m, p, e).None?
    requires Rebound(m.leases, p.mac, Wanted(p)).Some?
    ensures var prev := m.leases[p.mac].ip;
            var after := DoAll(d, GrantEffects(c, m, p, e)).disk;
            && prev in GrantMem(c, m, p, e).free
            && (after.Some? && Names(after.value, prev) <==> !e.saveOk && d.disk.Some? && Names(d.disk.value, prev))
  {
    var prev := m.leases[p.mac].ip;
    var t := GrantMem(c, m, p, e).leases;
    assert m.leases[p.mac].ip == prev;
    assert forall k :: k in t ==> t[k].ip != prev;
    GrantDisk(c, d, m, p, e);
  }

  lemma GrantDisk(c: Conf, d: Durable, m: Mem, p: Packet, e: RequestEnv)
    ensures DoAll(d, GrantEffects(c, m, p, e)).disk ==
              (if e.saveOk then Some(EntriesOf(GrantMem(c, m, p, e).leases)) else d.disk)
    ensures DoAll(d, GrantEffects(c, m, p, e)).routes == GrantRoutes(d.routes, m, p, e)
  {
    var head := GrantHead(m, p, e);
    var save := Saved(EntriesOf(GrantMem(c, m, p, e).leases), Granted, e.t5);
    var ack := Acked(p.mac, Wanted(p), p.arrived + c.leaseTime, e.t5);
    HeadDisk(d, m, p, e);
    DoSnoc(d, head, save);
    DoSnoc(d, head + [save], ack);
    GrantEffectsSplit(c, m, p, e);
  }

  lemma HeadDisk(d: Durable, m: Mem, p: Packet, e: RequestEnv)
    ensures DoAll(d, GrantHead(m, p, e)).disk == d.disk
    ensures DoAll(d, GrantHead(m, p, e)).routes == GrantRoutes(d.routes, m, p, e)
  {
    var prev := Rebound(m.leases, p.mac, Wanted(p));
    var es0: seq<Effect> := [RouteAdded(Wanted(p))];
    var es1 := es0 + [Committed(p.mac, Wanted(p))];
    DoSnoc(d, [], RouteAdded(Wanted(p)));
    assert [] + es0 == es0;
    DoSnoc(d, es0, Committed(p.mac, Wanted(p)));
    if prev.Some? && e.delOk {
      DoSnoc(d, es1, RouteDeleted(prev.value));
      assert GrantHead(m, p, e) == es1 + [RouteDeleted(prev.value)];
    } else {
      assert GrantHead(m, p, e) == es1;
    }
  }

  // ---- routes follow leases ----

  function GrantRoutes(r: set<Ip>, m: Mem, p: Packet, e: RequestEnv): set<Ip> {
    var prev := Rebound(m.leases, p.mac, Wanted(p));
    r + {Wanted(p)} - (if prev.Some? && e.delOk then {prev.value} else {})
  }

  /** The addresses whose route deletion a handler tried and saw fail: a release, control delete or sweep tries none
      unless it got past its save. */
  function FailedDeletes(c: Conf, s: State, h: Handler): set<Ip>
    requires HandlerOk(s, h)
  {
    var t := s.mem.leases;
    if !h.OnRequest? && !Run(c, s, h).verdict.Done? then {} else
    match h
    case OnDiscover(_, _) => {}
    case OnRequest(p, e) =>
      if Refusal(s.mem, p, e).None? && Rebound(t, p.mac, Wanted(p)).Some? && !e.delOk then {t[p.mac].ip} else {}
    case OnRelease(p, e) => if e.delOk then {} else {t[p.mac].ip}
    case OnControl(mac, e) => if e.delOk then {} else {t[mac].ip}
    case OnSweep(e) => (set k | k in ExpiredMacs(t, e.t2) :: t[k].ip) - e.delOk
  }

  lemma {:induction false} DeletionsDelete(d: Durable, ips: seq<Ip>, ok: set<Ip>)
    ensures DoAll(d, RouteDeletions(ips, ok)).routes == d.routes - ((set i | 0 <= i < |ips| :: ips[i]) * ok)
  {
    if ips != [] {
      var n := |ips| - 1;
      DeletionsDelete(d, ips[..n], ok);
      assert (set i | 0 <= i < |ips| :: ips[i]) == (set i | 0 <= i < n :: ips[..n][i]) + {ips[n]};
      if ips[n] in ok {
        DoSnoc(d, RouteDeletions(ips[..n], ok), RouteDeleted(ips[n]));
      } else {
        assert RouteDeletions(ips, ok) == RouteDeletions(ips[..n], ok);
      }
    }
  }

  lemma SaveKeepsRoutes(d: Durable, save: Effect, tail: seq<Effect>)
    requires save.Saved?
    ensures DoAll(d, [save] + tail) == DoAll(Do(d, save), tail)
  {
    DoSnoc(d, [], save);
    assert [] + [save] == [save];
    DoAppend(d, [save], tail);
  }

  lemma ReleaseRoutes(d: Durable, m: Mem, mac: Mac, e: ReleaseEnv)
    requires OneRowPerIp(m.leases) && LeaseIps(m.leases) <= d.routes
    ensures var o := ReleaseLocked(m, mac, e);
            var r := DoAll(d, o.effects).routes;
            && LeaseIps(o.mem.leases) <= r
            && r - LeaseIps(o.mem.leases) <= (d.routes - LeaseIps(m.leases)) +
                 (if o.verdict.Done? && !e.delOk then {m.leases[mac].ip} else {})
  {
    if mac in m.leases && e.saveOk {
      var o := ReleaseLocked(m, mac, e);
      var ip := m.leases[mac].ip;
      RowsGone(m.leases, {mac});
      assert (set k | k in {mac} :: m.leases[k].ip) == {ip};
      var tail := if e.delOk then [RouteDeleted(ip)] else [];
      SaveKeepsRoutes(d, o.effects[0], tail);
      DoSnoc(Do(d, o.effects[0]), [], RouteDeleted(ip));
      assert [] + [RouteDeleted(ip)] == [RouteDeleted(ip)];
    }
  }

  lemma SweepRoutes(d: Durable, m: Mem, e: SweepEnv)
    requires OneRowPerIp(m.leases) && LeaseIps(m.leases) <= d.routes && SweepOk(m, e)
    ensures var o := Sweep(m, e);
            var r := DoAll(d, o.effects).routes;
            && LeaseIps(o.mem.leases) <= r
            && r - LeaseIps(o.mem.leases)
               <= (d.routes - LeaseIps(m.leases))
                  + (if o.verdict.Done?
                     then (set k | k in ExpiredMacs(m.leases, e.t2) :: m.leases[k].ip) - e.delOk else {})
  {
    OffersUntouched(m, e);
    if e.leaseOrder != [] && e.saveOk {
      var gone := ExpiredMacs(m.leases, e.t2);
      var ips := IpsOf(RowIps(m.leases), e.leaseOrder);
      MembersOf(e.leaseOrder, gone);
      RowsGone(m.leases, gone);
      OrderedIps(RowIps(m.leases), e.leaseOrder, gone);
      FreeIpsFrame(SweepOffers(m, e).(leases := Without(m.leases, gone)), ips);
      var save := Saved(EntriesOf(Without(m.leases, gone)), Swept, e.t2);
      SaveKeepsRoutes(d, save, RouteDeletions(ips, e.delOk));
      DeletionsDelete(Do(d, save), ips, e.delOk);
    }
  }

  lemma RequestRoutes(c: Conf, d: Durable, m: Mem, p: Packet, e: RequestEnv)
    requires OneRowPerIp(m.leases) && LeaseIps(m.leases) <= d.routes && Refusal(m, p, e).None?
    ensures var t := GrantMem(c, m, p, e).leases;
            var r := DoAll(d, GrantEffects(c, m, p, e)).routes;
            && LeaseIps(t) <= r
            && r - LeaseIps(t) <= (d.routes - LeaseIps(m.leases))
                                  + (if Rebound(m.leases, p.mac, Wanted(p)).Some? && !e.delOk
                                     then {m.leases[p.mac].ip} else {})
  {
    GrantDisk(c, d, m, p, e);
    var t := GrantMem(c, m, p, e).leases;
    assert t[p.mac].ip in LeaseIps(t);
    forall ip | ip in LeaseIps(m.leases) && ip != Wanted(p) && (p.mac in m.leases ==> ip != m.leases[p.mac].ip)
      ensures ip in LeaseIps(t)
    {
      var k :| k in m.leases && m.leases[k].ip == ip;
      assert t[k].ip == ip;
    }
    forall k | k in t && k != p.mac
      ensures t[k].ip in LeaseIps(m.leases) && (p.mac in m.leases ==> t[k].ip != m.leases[p.mac].ip)
    {
      assert m.leases[k].ip == t[k].ip;
    }
  }

  lemma DiscoverRoutes(d: Durable, m: Mem, mac: Mac, e: DiscoverEnv)
    ensures var o := Discover(m, mac, e); o.mem.leases == m.leases && DoAll(d, o.effects) == d
  {
  }

  /** A handler that finds every row routed leaves every row routed, and leaves no new route without a row
      except where it saw a deletion fail. */
  lemma RoutesFollow(c: Conf, d: Durable, s: State, h: Handler)
    requires OneRowPerIp(s.mem.leases) && LeaseIps(s.mem.leases) <= d.routes && HandlerOk(s, h)
    ensures var o := Run(c, s, h);
            var r := DoAll(d, o.effects).routes;
            && LeaseIps(o.mem.leases) <= r
            && r - LeaseIps(o.mem.leases) <= (d.routes - LeaseIps(s.mem.leases)) + FailedDeletes(c, s, h)
  {
    match h {
      case OnDiscover(p, e) => DiscoverRoutes(d, s.mem, p.mac, e);
      case OnRequest(p, e) => if Refusal(s.mem, p, e).None? { RequestRoutes(c, d, s.mem, p, e); }
      case OnRelease(p, e) => ReleaseRoutes(d, s.mem, p.mac, e);
      case OnControl(mac, e) => ReleaseRoutes(d, s.mem, mac, e);
      case OnSweep(e) => SweepRoutes(d, s.mem, e);
    }
  }

  lemma {:induction false} RestoreRoutes(c: Conf, d: Durable, t: Table, order: seq<Mac>, n: nat, e: StartEnv)
    requires n <= |order|
    requires forall i :: 0 <= i < |order| ==>
              order[i] in t && t[order[i]].ip in c.addresses && t[order[i]].ip in e.addOk
    ensures DoAll(d, RestoreEffects(c, t, order, n, e)).routes == d.routes + set i | 0 <= i < n :: t[order[i]].ip
  {
    if n != 0 {
      RestoreRoutes(c, d, t, order, n - 1, e);
      DoSnoc(d, RestoreEffects(c, t, order, n - 1, e), RouteAdded(t[order[n - 1]].ip));
      FirstIps(t, order, n);
      assert RestoreEffects(c, t, order, n, e) == RestoreEffects(c, t, order, n - 1, e) +
          [RouteAdded(t[order[n - 1]].ip)];
    }
  }

  /** A gap-free start-up whose route adds succeed leaves every row routed. */
  lemma StartRoutes(c: Conf, d: Durable, e: StartEnv)
    requires StartOk(d.disk, e) && (d.disk.Some? ==> FileShape(c, d.disk.value))
    requires NoGap(BootTable(d.disk, e), e.t2) && LeaseIps(BootTable(d.disk, e)) <= e.addOk
    ensures var o := Start(c, d.disk, e);
            LeaseIps(o.mem.leases) <= DoAll(d, o.effects).routes
  {
    var t := BootTable(d.disk, e);
    StartShape(c, d.disk, e);
    forall i | 0 <= i < |e.order|
      ensures t[e.order[i]].ip in c.addresses && t[e.order[i]].ip in e.addOk
    {
      assert e.order[i] in t && t[e.order[i]].ip in LeaseIps(t);
    }
    RestoreRoutes(c, d, t, e.order, |e.order|, e);
    EnumeratedIps(t, e.order, e.t2);
    assert LeasedSet(t, e.t2) == LeaseIps(t);
  }

  /** Routed addresses without a lease row. */
  function StrayRoutes(routes: set<Ip>, s: State): set<Ip> {
    World(routes, s.journal).routes - LeaseIps(s.mem.leases)
  }

  /** Every deletion that failed in the events evs, from the state s on. */
  ghost function FailedIn(c: Conf, routes: set<Ip>, before: seq<Event>, evs: seq<Event>): set<Ip>
    requires ValidRun(c, routes, before + evs)
    decreases |evs|
  {
    if evs == [] then {}
    else
      var n := |evs| - 1;
      assert (before + evs)[..|before| + n] == before + evs[..n] && (before + evs)[|before| + n] == evs[n];
      FailedIn(c, routes, before, evs[..n])
      + (if evs[n].Handle? then FailedDeletes(c, Final(c, routes, before + evs[..n]), evs[n].h) else {})
  }

  /** In one life of the process that began with every row routed, every row is routed whenever the lock is free,
      and the routes without a row are at most those of the beginning and those whose deletion failed. */
  lemma {:induction false} RoutesOverALife(c: Conf, routes: set<Ip>, before: seq<Event>, evs: seq<Event>)
    requires ValidRun(c, routes, before + evs) && ValidRun(c, routes, before)
    requires forall n :: 0 <= n < |evs| ==> evs[n].Tick? || evs[n].Arrive? || evs[n].Handle?
    requires Final(c, routes, before).alive
    requires LeaseIps(Final(c, routes, before).mem.leases) <= World(routes, Final(c, routes, before).journal).routes
    ensures var s0, s := Final(c, routes, before), Final(c, routes, before + evs);
            && s.alive
            && LeaseIps(s.mem.leases) <= World(routes, s.journal).routes
            && StrayRoutes(routes, s) <= StrayRoutes(routes, s0) + FailedIn(c, routes, before, evs)
    decreases |evs|
  {
    if evs == [] {
      assert before + evs == before;
    } else {
      var n := |evs| - 1;
      assert (before + evs)[..|before| + n] == before + evs[..n] && (before + evs)[|before| + n] == evs[n];
      RoutesOverALife(c, routes, before, evs[..n]);
      var s := Final(c, routes, before + evs[..n]);
      if evs[n].Handle? {
        RunsKeepShape(c, routes, before + evs[..n]);
        RoutesFollow(c, World(routes, s.journal), s, evs[n].h);
        DoAppend(Origin(routes), s.journal, Run(c, s, evs[n].h).effects);
      }
    }
  }

  /** The same from the start-up on: it is enough that the start-up fell in no gap and its route adds succeeded. */
  lemma RoutesFromStart(c: Conf, routes: set<Ip>, earlier: seq<Event>, e: StartEnv, evs: seq<Event>)
    requires ValidRun(c, routes, earlier + [Boot(e)] + evs) && ValidRun(c, routes, earlier + [Boot(e)]) &&
              ValidRun(c, routes, earlier)
    requires forall n :: 0 <= n < |evs| ==> evs[n].Tick? || evs[n].Arrive? || evs[n].Handle?
    requires var t := BootTable(World(routes, Final(c, routes, earlier).journal).disk, e);
             NoGap(t, e.t2) && LeaseIps(t) <= e.addOk
    ensures var s0, s := Final(c, routes, earlier + [Boot(e)]), Final(c, routes, earlier + [Boot(e)] + evs);
            && LeaseIps(s.mem.leases) <= World(routes, s.journal).routes
            && StrayRoutes(routes, s) <= StrayRoutes(routes, s0) + FailedIn(c, routes, earlier + [Boot(e)], evs)
  {
    var before := earlier + [Boot(e)];
    assert before[..|earlier|] == earlier && before[|earlier|] == Boot(e);
    var s := Final(c, routes, earlier);
    var d := World(routes, s.journal);
    RunsKeepShape(c, routes, earlier);
    StartRoutes(c, d, e);
    DoAppend(Origin(routes), s.journal, Start(c, d.disk, e).effects);
    RoutesOverALife(c, routes, before, evs);
  }
}
