/** From OFFER to ACK: what DISCOVER puts on offer is what the owner's REQUEST is granted, whatever happens between. */
module LeaseHandshake {
  import opened LeaseModel
  import opened LeaseMachine
  import opened LeaseSafety
  import opened LeaseAccounting

  /** A DISCOVER is answered exactly when the client has a lease or an offer or an address is free, the reply can be
      built and the send succeeds.  The address it answers with is the client's own active lease, or is now on offer
      to it for the full time: the one it was offered before while that offer lasts, and otherwise one the pool
      picked. */
  lemma OfferedIsHeld(m: Mem, mac: Mac, e: DiscoverEnv)
    requires DiscoverOk(m, mac, e)
    ensures var o := Discover(m, mac, e);
            && (o.verdict.Offering? ==>
                  || (LeasedTo(m.leases, mac, o.verdict.ip, e.t1) && o.mem == m)
                  || (!ActiveAt(m.leases, mac, e.t1)
                      && mac in o.mem.offers && o.mem.offers[mac] == Offer(o.verdict.ip, e.t3 + OFFER_TIMEOUT)))
            && var can := (mac in m.leases && e.t1 < m.leases[mac].expiry) || mac in m.offers || m.free != {};
            && (o.verdict.Offering? <==> can && e.replyOk && e.sendOk)
            && (o.verdict.BuildFailed? <==> can && !e.replyOk)
            && (o.verdict.SendFailed? <==> can && e.replyOk && !e.sendOk)
            && (o.verdict.Exhausted? <==> !can)
            && (!ActiveAt(m.leases, mac, e.t1) && !o.verdict.Exhausted?
                && (mac !in m.offers || m.offers[mac].expiry <= e.t2) ==>
                  && (e.pick in m.free || (mac in m.offers && e.pick == m.offers[mac].ip))
                  && mac in o.mem.offers && o.mem.offers[mac].ip == e.pick)
            && (mac in m.offers && e.t2 < m.offers[mac].expiry && !ActiveAt(m.leases, mac, e.t1) ==>
                  mac in o.mem.offers && o.mem.offers[mac].ip == m.offers[mac].ip)
  {
    if mac in m.offers && m.offers[mac].expiry <= e.t2 {
      assert m.offers[mac].ip in DropStaleOffer(m, mac, e.t2).free;
    }
  }

  /** A handler that serves neither a DISCOVER nor a REQUEST of mac. */
  predicate Elsewhere(h: Handler, mac: Mac) {
    (h.OnDiscover? ==> h.p.mac != mac) && (h.OnRequest? ==> h.p.mac != mac)
  }

  lemma OfferSurvives(c: Conf, s: State, h: Handler, mac: Mac)
    requires HandlerOk(s, h) && Elsewhere(h, mac)
    requires mac in s.mem.offers && EndOf(h) <= s.mem.offers[mac].expiry
    ensures var o := Run(c, s, h).mem.offers;
            mac in o && o[mac] == s.mem.offers[mac]
  {
    if h.OnSweep? {
      var e := h.se;
      MembersOf(e.offerOrder, ExpiredOffers(s.mem.offers, e.t1));
      var m0 := s.mem.(offers := WithoutOffers(s.mem.offers, set k | k in e.offerOrder));
      FreeIpsFrame(m0, IpsOf(OfferedAt(s.mem.offers), e.offerOrder));
      FreeIpsFrame(SweepOffers(s.mem, e).(leases := Without(s.mem.leases, set k | k in e.leaseOrder)),
          IpsOf(RowIps(s.mem.leases), e.leaseOrder));
    }
  }

  /** An event in the life of a process that is no DISCOVER or REQUEST of mac. */
  predicate Aside(ev: Event, mac: Mac) {
    ev.Tick? || ev.Arrive? || (ev.Handle? && Elsewhere(ev.h, mac))
  }

  predicate Meanwhile(evs: seq<Event>, mac: Mac) {
    forall n :: 0 <= n < |evs| ==> Aside(evs[n], mac)
  }

  /** s is alive and has offer o for mac. */
  predicate HasOffer(s: State, mac: Mac, o: Offer) {
    s.alive && mac in s.mem.offers && s.mem.offers[mac] == o
  }

  lemma OfferSurvivesEvent(c: Conf, routes: set<Ip>, s: State, ev: Event, mac: Mac, o: Offer)
    requires Enabled(c, routes, s, ev) && Aside(ev, mac)
    ensures s.now <= Apply(c, routes, s, ev).now
    ensures HasOffer(s, mac, o) && Apply(c, routes, s, ev).now <= o.expiry ==> HasOffer(Apply(c, routes, s, ev), mac, o)
  {
    if ev.Handle? && HasOffer(s, mac, o) && EndOf(ev.h) <= o.expiry {
      OfferSurvives(c, s, ev.h, mac);
    }
  }

  /** An offer stands, unchanged, until it runs out. */
  lemma {:induction false} OfferStands(c: Conf, routes: set<Ip>, before: seq<Event>, evs: seq<Event>, mac: Mac,
      o: Offer)
    requires ValidRun(c, routes, before + evs) && ValidRun(c, routes, before) && Meanwhile(evs, mac)
    requires HasOffer(Final(c, routes, before), mac, o)
    requires Final(c, routes, before + evs).now <= o.expiry
    ensures HasOffer(Final(c, routes, before + evs), mac, o)
    decreases |evs|
  {
    if evs == [] {
      assert before + evs == before;
    } else {
      var n := |evs| - 1;
      var all, front := before + evs, before + evs[..n];
      assert all[..|all| - 1] == front && all[|all| - 1] == evs[n];
      OfferSurvivesEvent(c, routes, Final(c, routes, front), evs[n], mac, o);
      OfferStands(c, routes, before, evs[..n], mac, o);
    }
  }

  /** In every gap-free run: a client without a lease, where it has an offer or an address is free, is offered one when
      the reply can be built and sent.  Whatever other clients, sweeps and releases do meanwhile, its REQUEST for that
      address handled before the offer runs out is granted, and the ACK sent, unless the reply cannot be built, the
      route not added, the file not saved or the packet not sent. */
  lemma HandshakeCompletes(c: Conf, routes: set<Ip>, earlier: seq<Event>, p: Packet, de: DiscoverEnv, evs: seq<Event>,
                           q: Packet, re: RequestEnv)
    requires var before := earlier + [Handle(OnDiscover(p, de))];
             && ValidRun(c, routes, earlier) && ValidRun(c, routes, before)
             && ValidRun(c, routes, before + evs) && GapFree(c, routes, before + evs)
    requires var s := Final(c, routes, earlier);
             && HandlerOk(s, OnDiscover(p, de)) && !ActiveAt(s.mem.leases, p.mac, de.t1)
             && (p.mac in s.mem.offers || s.mem.free != {}) && de.replyOk && de.sendOk
    requires var ip := if q.reqIp == UNSPECIFIED then q.ciaddr else q.reqIp;
             var v := Discover(Final(c, routes, earlier).mem, p.mac, de).verdict;
             q.mac == p.mac && ip != UNSPECIFIED && (v.Offering? ==> ip == v.ip)
    requires Meanwhile(evs, p.mac) && re.t3 < de.t3 + OFFER_TIMEOUT
    requires HandlerOk(Final(c, routes, earlier + [Handle(OnDiscover(p, de))] + evs), OnRequest(q, re))
    ensures var v := Discover(Final(c, routes, earlier).mem, p.mac, de).verdict;
            var o := Request(c, Final(c, routes, earlier + [Handle(OnDiscover(p, de))] + evs).mem, q, re);
            && v.Offering?
            && o.verdict == (if !re.replyOk then BuildFailed else if !re.addOk then NakRoute
                             else if !re.saveOk then SaveFailed else if !re.sendOk then SendFailed else Granting)
            && (o.verdict.Granting? ==> Acked(p.mac, v.ip, q.arrived + c.leaseTime, re.t5) in o.effects)
  {
    var before := earlier + [Handle(OnDiscover(p, de))];
    var ip := if q.reqIp == UNSPECIFIED then q.ciaddr else q.reqIp;
    assert before[..|earlier|] == earlier && before[|earlier|] == Handle(OnDiscover(p, de));
    OfferedIsHeld(Final(c, routes, earlier).mem, p.mac, de);
    OfferStands(c, routes, before, evs, p.mac, Offer(ip, de.t3 + OFFER_TIMEOUT));
    OfferIsHonoured(c, routes, before + evs, q, re);
  }
}
