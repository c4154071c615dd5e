/** Steps from any memory, whatever the pool and the offers say: lease exclusion, fencing of
    out-of-order packets, persist before free, and routes that follow the leases. */
module LeaseFencing {
  import opened LeaseModel
  import opened LeaseMachine
  import opened LeaseSafety

  // ---- lease exclusion without trusting the pool ----

  /** From any pool and offers contents a handler leaves at most one row per address. */
  lemma ExclusionKept(c: Conf, s: State, h: Handler)
    requires OneRowPerIp(s.mem.leases) && HandlerOk(s, h)
    ensures OneRowPerIp(Run(c, s, h).mem.leases)
  {
    TableAfter(c, s, h);
  }

  /** Exactly the rows a handler leaves: a REQUEST that is not refused writes the row of its client over any other row
      of the address; a RELEASE takes the row of its client when it is active, the packet comes from and names its
      address, is no older than the grant, and the save succeeds; a control delete takes the row when the save succeeds;
      so does a sweep with those past their time; nothing else changes. */
  lemma TableAfter(c: Conf, s: State, h: Handler)
    requires HandlerOk(s, h)
    ensures var t, t1 := s.mem.leases, Run(c, s, h).mem.leases;
            match h
            case OnDiscover(_, _) => t1 == t
            case OnRequest(p, e) =>
              t1 == if Refusal(s.mem, p, e).Some? then t
                    else AddLease(t, p.mac, Lease(Wanted(p), p.arrived + c.leaseTime, p.arrived))
            case OnRelease(p, e) =>
              t1 == if p.mac in t && e.t1 < t[p.mac].expiry && p.src == p.ciaddr == t[p.mac].ip
                       && t[p.mac].granted <= p.arrived && e.saveOk
                    then Without(t, {p.mac}) else t
            case OnControl(mac, e) => t1 == if e.saveOk then Without(t, {mac}) else t
            case OnSweep(e) => t1 == if e.saveOk then Without(t, ExpiredMacs(t, e.t2)) else t
  {
    if h.OnControl? {
      assert h.mac !in s.mem.leases ==> Without(s.mem.leases, {h.mac}) == s.mem.leases;
    }
    if h.OnSweep? {
      var e := h.se;
      MembersOf(e.leaseOrder, ExpiredMacs(s.mem.leases, e.t2));
      FreeIpsFrame(s.mem.(offers := WithoutOffers(s.mem.offers, set k | k in e.offerOrder)),
          IpsOf(OfferedAt(s.mem.offers), e.offerOrder));
      FreeIpsFrame(SweepOffers(s.mem, e).(leases := Without(s.mem.leases, set k | k in e.leaseOrder)),
          IpsOf(RowIps(s.mem.leases), e.leaseOrder));
      assert e.leaseOrder == [] ==> Without(s.mem.leases, ExpiredMacs(s.mem.leases, e.t2)) == s.mem.leases;
    }
  }

  /** The packet a handler serves, if it serves one. */
  function PacketOf(h: Handler): Option<Packet> {
    match h
    case OnDiscover(p, _) => Some(p)
    case OnRequest(p, _) => Some(p)
    case OnRelease(p, _) => Some(p)
    case OnControl(_, _) => None
    case OnSweep(_) => None
  }

  /** A lease that stays active through a handler is kept as it is, unless the handler serves its own MAC:
      a control delete of that MAC, or a REQUEST or RELEASE of that MAC that arrived no earlier than the
      REQUEST the lease was granted for, the RELEASE from the leased address.  So a grant never displaces another
      MAC's unexpired lease. */
  lemma ActiveLeaseFenced(c: Conf, s: State, h: Handler, mac: Mac)
    requires HandlerOk(s, h) && ActiveAt(s.mem.leases, mac, EndOf(h))
    ensures var l, t1 := s.mem.leases[mac], Run(c, s, h).mem.leases;
            || (mac in t1 && t1[mac] == l)
            || (h.OnControl? && h.mac == mac)
            || (PacketOf(h).Some? && PacketOf(h).value.mac == mac && l.granted <= PacketOf(h).value.arrived
                && (h.OnRelease? ==> PacketOf(h).value.src == PacketOf(h).value.ciaddr == l.ip))
    ensures var l, t1 := s.mem.leases[mac], Run(c, s, h).mem.leases;
            mac in t1 ==> l.granted <= t1[mac].granted
  {
    TableAfter(c, s, h);
  }

  lemma StampKept(c: Conf, routes: set<Ip>, s: State, ev: Event, mac: Mac)
    requires Enabled(c, routes, s, ev) && s.alive && Apply(c, routes, s, ev).alive && mac in s.mem.leases
    requires ev.Handle? ==> ActiveAt(s.mem.leases, mac, EndOf(ev.h))
    ensures var t1 := Apply(c, routes, s, ev).mem.leases;
            mac in t1 ==> s.mem.leases[mac].granted <= t1[mac].granted
  {
    if ev.Handle? {
      ActiveLeaseFenced(c, s, ev.h, mac);
    }
  }

  /** Over any run in which mac's lease stays active, from a live state on and without a restart,
      the grant stamp of mac never goes back. */
  lemma {:induction false} StampNeverGoesBack(c: Conf, routes: set<Ip>, before: seq<Event>, after: seq<Event>, mac: Mac)
    requires ValidRun(c, routes, before + after)
    requires forall n :: 0 <= n <= |after| ==> LeasedDuring(c, routes, before, after, mac, n)
    ensures ValidRun(c, routes, before)
    ensures mac in Final(c, routes, before).mem.leases && mac in Final(c, routes, before + after).mem.leases
    ensures Final(c, routes, before).mem.leases[mac].granted <= Final(c, routes, before + after).mem.leases[mac].granted
    decreases |after|
  {
    assert before + after[..0] == before;
    assert LeasedDuring(c, routes, before, after, mac, 0);
    if after == [] {
      assert before + after == before;
    } else {
      var n := |after| - 1;
      assert (before + after)[..|before| + n] == before + after[..n];
      assert (before + after)[|before| + n] == after[n];
      forall k | 0 <= k <= n
        ensures LeasedDuring(c, routes, before, after[..n], mac, k)
      {
        assert LeasedDuring(c, routes, before, after, mac, k);
        assert after[..n][..k] == after[..k];
      }
      StampNeverGoesBack(c, routes, before, after[..n], mac);
      assert LeasedDuring(c, routes, before, after, mac, n) && LeasedDuring(c, routes, before, after, mac, |after|);
      assert after[..|after|] == after;
      StampKept(c, routes, Final(c, routes, before + after[..n]), after[n], mac);
    }
  }

  /** After n of the later events the process lives and mac's lease has not run out, also not by the end of the next
      handler. */
  ghost predicate LeasedDuring(c: Conf, routes: set<Ip>, before: seq<Event>, after: seq<Event>, mac: Mac, n: nat)
    requires n <= |after|
  {
    && ValidRun(c, routes, before + after[..n])
    && Final(c, routes, before + after[..n]).alive
    && ActiveAt(Final(c, routes, before + after[..n]).mem.leases, mac, Final(c, routes, before + after[..n]).now)
    && (n < |after| && after[n].Handle? ==>
         ActiveAt(Final(c, routes, before + after[..n]).mem.leases, mac, EndOf(after[n].h)))
  }
}
