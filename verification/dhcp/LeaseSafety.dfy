/** Exclusive and durable ACKs over every run, with crashes, restarts and failing operations. */
module LeaseSafety {
  import opened LeaseModel
  import opened LeaseMachine

  // ---- what an effect must respect when it happens ----

  /** f has mac's claim on it, with at least the promised time. */
  ghost predicate Lists(f: File, mac: Mac, cl: Claim) {
    mac in f && f[mac].ip == cl.ip && cl.until <= f[mac].expiry
  }

  ghost predicate FileOk(c: Conf, f: File, now: Time) {
    && (forall j, k :: j in f && k in f && f[j].ip == f[k].ip ==> j == k)
    && (forall k :: k in f ==> f[k].ip in c.addresses && f[k].expiry <= now + c.leaseTime && f[k].expiry % SECOND == 0)
  }

  ghost predicate Allowed(c: Conf, d: Durable, e: Effect) {
    match e
    case RouteAdded(_) => true
    case RouteDeleted(_) => true
    case Committed(_, _) => true
    case Saved(f, why, at) =>
      && FileOk(c, f, at)
      && forall mac :: mac in d.claims && (why.Released? ==> mac != why.mac) && at < d.claims[mac].until
           ==> Lists(f, mac, d.claims[mac])
    case Acked(mac, ip, expiry, at) =>
      && ip != UNSPECIFIED
      && d.disk.Some? && Lists(d.disk.value, mac, Claim(ip, Trunc(expiry)))
      && forall other :: other in d.claims && other != mac && d.claims[other].ip == ip ==> d.claims[other].until <= at
  }

  ghost predicate AllAllowed(c: Conf, d: Durable, es: seq<Effect>) {
    es == [] || (AllAllowed(c, d, es[..|es| - 1]) && Allowed(c, DoAll(d, es[..|es| - 1]), es[|es| - 1]))
  }

  ghost predicate StampedBy(es: seq<Effect>, now: Time) {
    forall i :: 0 <= i < |es| ==>
      && (es[i].Saved? ==> es[i].at <= now)
      && (es[i].Acked? ==> es[i].at <= now)
  }

  /** Every unexpired claim is on disk. */
  ghost predicate OnDisk(c: Conf, d: Durable, now: Time) {
    && (forall mac :: mac in d.claims ==> d.claims[mac].until % SECOND == 0 && d.claims[mac].ip != UNSPECIFIED)
    && (d.disk.Some? ==> FileOk(c, d.disk.value, now))
    && forall mac :: mac in d.claims && now < d.claims[mac].until
         ==> d.disk.Some? && Lists(d.disk.value, mac, d.claims[mac])
  }

  // ---- sequences of effects ----

  lemma DoSnoc(d: Durable, es: seq<Effect>, e: Effect)
    ensures DoAll(d, es + [e]) == Do(DoAll(d, es), e)
  {
  }

  lemma AllowedSnoc(c: Conf, d: Durable, es: seq<Effect>, e: Effect)
    ensures AllAllowed(c, d, es + [e]) <==> AllAllowed(c, d, es) && Allowed(c, DoAll(d, es), e)
  {
  }

  lemma {:induction false} DoAppend(d: Durable, a: seq<Effect>, b: seq<Effect>)
    ensures DoAll(d, a + b) == DoAll(DoAll(d, a), b)
  {
    if b == [] {
      assert a + b == a;
    } else {
      var b0, e := b[..|b| - 1], b[|b| - 1];
      assert b == b0 + [e] && a + b == (a + b0) + [e];
      DoSnoc(d, a + b0, e);
      DoAppend(d, a, b0);
    }
  }

  lemma {:induction false} AllowedAppend(c: Conf, d: Durable, a: seq<Effect>, b: seq<Effect>)
    ensures AllAllowed(c, d, a + b) <==> AllAllowed(c, d, a) && AllAllowed(c, DoAll(d, a), b)
  {
    if b == [] {
      assert a + b == a;
    } else {
      var b0, e := b[..|b| - 1], b[|b| - 1];
      assert b == b0 + [e] && a + b == (a + b0) + [e];
      AllowedSnoc(c, d, a + b0, e);
      AllowedAppend(c, d, a, b0);
      DoAppend(d, a, b0);
    }
  }

  lemma AllowedPrefix(c: Conf, d: Durable, es: seq<Effect>, k: nat)
    requires k <= |es| && AllAllowed(c, d, es)
    ensures AllAllowed(c, d, es[..k])
  {
    assert es == es[..k] + es[k..];
    AllowedAppend(c, d, es[..k], es[k..]);
  }

  lemma OnDiskLater(c: Conf, d: Durable, t: Time, u: Time)
    requires OnDisk(c, d, t) && t <= u
    ensures OnDisk(c, d, u)
  {
  }

  /** Effects that are allowed when they happen leave every unexpired claim on disk. */
  lemma {:induction false} AllowedKeepsOnDisk(c: Conf, d: Durable, es: seq<Effect>, now: Time)
    requires OnDisk(c, d, now) && AllAllowed(c, d, es) && StampedBy(es, now)
    ensures OnDisk(c, DoAll(d, es), now)
  {
    if es != [] {
      AllowedKeepsOnDisk(c, d, es[..|es| - 1], now);
      OneAllowedKeepsOnDisk(c, DoAll(d, es[..|es| - 1]), es[|es| - 1], now);
    }
  }

  lemma OneAllowedKeepsOnDisk(c: Conf, d: Durable, e: Effect, now: Time)
    requires OnDisk(c, d, now) && Allowed(c, d, e)
    requires e.Saved? || e.Acked? ==> e.at <= now
    ensures OnDisk(c, Do(d, e), now)
  {
  }

  // ---- the invariant of a live process ----

  ghost predicate InPool(c: Conf, m: Mem) {
    && m.free <= c.addresses
    && (forall k :: k in m.leases ==> m.leases[k].ip in c.addresses)
    && (forall k :: k in m.offers ==> m.offers[k].ip in c.addresses)
  }

  /** Every unexpired claim has its row, with at least the promised time. */
  ghost predicate Backed(claims: map<Mac, Claim>, t: Table, now: Time) {
    forall mac :: mac in claims && now < claims[mac].until
      ==> mac in t && t[mac].ip == claims[mac].ip && claims[mac].until <= t[mac].expiry
  }

  /** No row outlives what a packet arriving now would be given. */
  ghost predicate Bounded(c: Conf, t: Table, boot: Time, now: Time) {
    forall k :: k in t ==>
      && t[k].granted <= now
      && (t[k].expiry <= t[k].granted + c.leaseTime || t[k].expiry <= boot + c.leaseTime)
  }

  ghost predicate MemOk(c: Conf, m: Mem, claims: map<Mac, Claim>, boot: Time, now: Time) {
    && InPool(c, m)
    && OneRowPerIp(m.leases)
    && Backed(claims, m.leases, now)
    && Bounded(c, m.leases, boot, now)
  }

  ghost predicate Inv(c: Conf, routes: set<Ip>, s: State) {
    var d := World(routes, s.journal);
    && AllAllowed(c, Origin(routes), s.journal)
    && OnDisk(c, d, s.now)
    && s.boot <= s.now
    && (s.alive ==> MemOk(c, s.mem, d.claims, s.boot, s.now))
    && (forall p :: p in s.pending ==> s.boot <= p.arrived <= s.now)
  }

  // ---- route effects change nothing but routes ----

  ghost predicate OnlyRoutes(es: seq<Effect>) {
    forall i :: 0 <= i < |es| ==> es[i].RouteAdded? || es[i].RouteDeleted?
  }

  lemma {:induction false} RoutesOnly(c: Conf, d: Durable, es: seq<Effect>)
    requires OnlyRoutes(es)
    ensures AllAllowed(c, d, es)
    ensures DoAll(d, es).disk == d.disk && DoAll(d, es).claims == d.claims
  {
    if es != [] {
      RoutesOnly(c, d, es[..|es| - 1]);
    }
  }

  lemma {:induction false} DeletionsOnlyRoutes(ips: seq<Ip>, ok: set<Ip>)
    ensures OnlyRoutes(RouteDeletions(ips, ok))
  {
    if ips != [] {
      DeletionsOnlyRoutes(ips[..|ips| - 1], ok);
    }
  }

  lemma {:induction false} RestoreOnlyRoutes(c: Conf, t: Table, order: seq<Mac>, n: nat, e: StartEnv)
    requires n <= |order|
    requires forall i :: 0 <= i < |order| ==> order[i] in t
    ensures OnlyRoutes(RestoreEffects(c, t, order, n, e))
  {
    if n != 0 {
      RestoreOnlyRoutes(c, t, order, n - 1, e);
    }
  }

  lemma {:induction false} FreeIpsFrame(m: Mem, ips: seq<Ip>)
    ensures FreeIps(m, ips).leases == m.leases && FreeIps(m, ips).offers == m.offers
    ensures FreeIps(m, ips).free == m.free + set i | 0 <= i < |ips| :: ips[i]
    ensures FreeIps(m, ips).used == m.used - set i | 0 <= i < |ips| :: ips[i]
  {
    if ips != [] {
      var n := |ips| - 1;
      FreeIpsFrame(m, ips[..n]);
      assert (set i | 0 <= i < |ips| :: ips[i]) == (set i | 0 <= i < n :: ips[..n][i]) + {ips[n]};
    }
  }

  /** The file a table saves is one start-up can trust. */
  lemma SavedFileOk(c: Conf, t: Table, boot: Time, now: Time)
    requires OneRowPerIp(t) && Bounded(c, t, boot, now) && boot <= now
    requires forall k :: k in t ==> t[k].ip in c.addresses
    ensures FileOk(c, EntriesOf(t), now)
  {
  }

  /** A table that backs the claims saves a file that lists them. */
  lemma SavedFileLists(claims: map<Mac, Claim>, t: Table, now: Time)
    requires forall mac :: mac in claims ==> claims[mac].until % SECOND == 0
    requires Backed(claims, t, now)
    ensures forall mac :: mac in claims && now < claims[mac].until ==> Lists(EntriesOf(t), mac, claims[mac])
  {
  }

  // ---- the handlers ----

  /** What one handler must deliver, from a world d and a memory m that are in order. */
  ghost predicate StepOk(c: Conf, d: Durable, boot: Time, end: Time, o: Outcome) {
    && AllAllowed(c, d, o.effects)
    && StampedBy(o.effects, end)
    && MemOk(c, o.mem, DoAll(d, o.effects).claims, boot, end)
  }

  lemma DiscoverSafe(c: Conf, d: Durable, m: Mem, mac: Mac, e: DiscoverEnv, boot: Time, now: Time)
    requires MemOk(c, m, d.claims, boot, now) && now <= e.t1 && DiscoverOk(m, mac, e)
    ensures StepOk(c, d, boot, e.t3, Discover(m, mac, e))
  {
  }

  /** A save followed by route changes. */
  lemma SaveThenRoutes(c: Conf, d: Durable, save: Effect, tail: seq<Effect>)
    requires save.Saved? && Allowed(c, d, save) && OnlyRoutes(tail)
    ensures AllAllowed(c, d, [save] + tail)
    ensures StampedBy([save] + tail, save.at)
    ensures DoAll(d, [save] + tail).claims == Do(d, save).claims
    ensures DoAll(d, [save] + tail).disk == Some(save.file)
  {
    DoSnoc(d, [], save);
    AllowedSnoc(c, d, [], save);
    assert [] + [save] == [save];
    RoutesOnly(c, DoAll(d, [save]), tail);
    AllowedAppend(c, d, [save], tail);
    DoAppend(d, [save], tail);
  }

  lemma ReleaseSafe(c: Conf, d: Durable, m: Mem, mac: Mac, e: ReleaseEnv, boot: Time, now: Time)
    requires MemOk(c, m, d.claims, boot, now) && OnDisk(c, d, now) && boot <= now <= e.t1
    ensures StepOk(c, d, boot, e.t1, ReleaseLocked(m, mac, e))
  {
    if mac in m.leases && e.saveOk {
      var rest := Without(m.leases, {mac});
      SavedFileOk(c, rest, boot, e.t1);
      SavedFileLists(d.claims - {mac}, rest, e.t1);
      var save := Saved(EntriesOf(rest), Released(mac), e.t1);
      assert Allowed(c, d, save) by {
        forall k | k in d.claims && k != mac && e.t1 < d.claims[k].until
          ensures Lists(EntriesOf(rest), k, d.claims[k])
        {
          assert k in d.claims - {mac};
        }
      }
      SaveThenRoutes(c, d, save, if e.delOk then [RouteDeleted(m.leases[mac].ip)] else []);
    }
  }

  /** A table without its expired rows is still in order. */
  lemma SweptTable(c: Conf, d: Durable, m: Mem, gone: set<Mac>, boot: Time, now: Time)
    requires MemOk(c, m, d.claims, boot, now) && OnDisk(c, d, now) && boot <= now
    requires gone <= ExpiredMacs(m.leases, now)
    ensures Backed(d.claims, Without(m.leases, gone), now)
    ensures OneRowPerIp(Without(m.leases, gone)) && Bounded(c, Without(m.leases, gone), boot, now)
    ensures Allowed(c, d, Saved(EntriesOf(Without(m.leases, gone)), Swept, now))
  {
  }

  lemma MembersOf(order: seq<Mac>, s: set<Mac>)
    requires Enumerates(order, s)
    ensures (set k | k in order) == s
  {
    forall k | k in order
      ensures k in s
    {
      var i :| 0 <= i < |order| && order[i] == k;
    }
    forall k | k in s
      ensures k in set k | k in order
    {
      assert k in order;
    }
  }

  lemma OffersSwept(c: Conf, m: Mem, e: SweepEnv)
    requires InPool(c, m) && SweepOk(m, e)
    ensures InPool(c, SweepOffers(m, e)) && SweepOffers(m, e).leases == m.leases
  {
    FreeIpsFrame(m.(offers := WithoutOffers(m.offers, set k | k in e.offerOrder)),
        IpsOf(OfferedAt(m.offers), e.offerOrder));
  }

  lemma LeasesSwept(c: Conf, m: Mem, m1: Mem, order: seq<Mac>)
    requires InPool(c, m1) && m1.leases == m.leases
    requires forall i :: 0 <= i < |order| ==> order[i] in m.leases
    ensures var rest := Without(m.leases, set k | k in order);
            var m2 := FreeIps(m1.(leases := rest), IpsOf(RowIps(m.leases), order));
            InPool(c, m2) && m2.leases == rest
  {
    var ips := IpsOf(RowIps(m.leases), order);
    FreeIpsFrame(m1.(leases := Without(m.leases, set k | k in order)), ips);
    forall i | 0 <= i < |ips|
      ensures ips[i] in c.addresses
    {
      var k := order[i];
      assert k in m1.leases;
      assert m1.leases[k].ip in c.addresses;
      assert ips[i] == m.leases[k].ip;
    }
  }

  lemma SweepSafe(c: Conf, d: Durable, m: Mem, e: SweepEnv, boot: Time, now: Time)
    requires MemOk(c, m, d.claims, boot, now) && OnDisk(c, d, now) && boot <= now <= e.t1 && SweepOk(m, e)
    ensures StepOk(c, d, boot, e.t2, Sweep(m, e))
  {
    OffersSwept(c, m, e);
    if e.leaseOrder != [] && e.saveOk {
      MembersOf(e.leaseOrder, ExpiredMacs(m.leases, e.t2));
      SweptTable(c, d, m, ExpiredMacs(m.leases, e.t2), boot, e.t2);
      LeasesSwept(c, m, SweepOffers(m, e), e.leaseOrder);
      var ips := IpsOf(RowIps(m.leases), e.leaseOrder);
      DeletionsOnlyRoutes(ips, e.delOk);
      SaveThenRoutes(c, d, Saved(EntriesOf(Without(m.leases, set k | k in e.leaseOrder)), Swept, e.t2),
          RouteDeletions(ips, e.delOk));
    }
  }

  /** A granted row backs what mac was promised, and no other row is lost that backs an unexpired claim. */
  lemma GrantBacks(c: Conf, d: Durable, m: Mem, p: Packet, e: RequestEnv, boot: Time, now: Time)
    requires MemOk(c, m, d.claims, boot, now) && boot <= p.arrived <= now <= e.t1 && RequestOk(e)
    requires Refusal(m, p, e).None?
    ensures Backed(Do(d, Committed(p.mac, Wanted(p))).claims, GrantMem(c, m, p, e).leases, e.t2)
    ensures MemOk(c, GrantMem(c, m, p, e), Do(d, Committed(p.mac, Wanted(p))).claims, boot, e.t5)
  {
    var ip := Wanted(p);
    var t := GrantMem(c, m, p, e).leases;
    var claims := Do(d, Committed(p.mac, ip)).claims;
    assert t == AddLease(m.leases, p.mac, Lease(ip, p.arrived + c.leaseTime, p.arrived));
    forall mac | mac in claims && e.t2 < claims[mac].until
      ensures mac in t && t[mac].ip == claims[mac].ip && claims[mac].until <= t[mac].expiry
    {
      if mac == p.mac {
        assert ActiveAt(m.leases, mac, e.t1);
      } else {
        assert m.leases[mac].ip != ip;
      }
    }
  }

  /** The part of a grant before the save. */
  function GrantHead(m: Mem, p: Packet, e: RequestEnv): seq<Effect> {
    var prev := Rebound(m.leases, p.mac, Wanted(p));
    [RouteAdded(Wanted(p)), Committed(p.mac, Wanted(p))] +
        (if prev.Some? && e.delOk then [RouteDeleted(prev.value)] else [])
  }

  lemma GrantHeadSafe(c: Conf, d: Durable, m: Mem, p: Packet, e: RequestEnv)
    ensures AllAllowed(c, d, GrantHead(m, p, e))
    ensures DoAll(d, GrantHead(m, p, e)).claims == Do(d, Committed(p.mac, Wanted(p))).claims
  {
    var es0: seq<Effect> := [RouteAdded(Wanted(p))];
    var commit := Committed(p.mac, Wanted(p));
    RoutesOnly(c, d, es0);
    DoSnoc(d, es0, commit);
    AllowedSnoc(c, d, es0, commit);
    var es1 := es0 + [commit];
    var tail := GrantHead(m, p, e)[2..];
    RoutesOnly(c, DoAll(d, es1), tail);
    assert GrantHead(m, p, e) == es1 + tail;
    DoAppend(d, es1, tail);
    AllowedAppend(c, d, es1, tail);
  }

  lemma RequestSafe(c: Conf, d: Durable, m: Mem, p: Packet, e: RequestEnv, boot: Time, now: Time)
    requires MemOk(c, m, d.claims, boot, now) && OnDisk(c, d, now) && boot <= p.arrived <= now <= e.t1 && RequestOk(e)
    ensures StepOk(c, d, boot, e.t5, Request(c, m, p, e))
  {
    if Refusal(m, p, e).None? {
      GrantBacks(c, d, m, p, e, boot, now);
      GrantHeadSafe(c, d, m, p, e);
      GrantSaves(c, d, m, p, e, boot);
    }
  }

  lemma GrantEffectsSplit(c: Conf, m: Mem, p: Packet, e: RequestEnv)
    ensures var save := Saved(EntriesOf(GrantMem(c, m, p, e).leases), Granted, e.t5);
            var ack := Acked(p.mac, Wanted(p), p.arrived + c.leaseTime, e.t5);
            GrantEffects(c, m, p, e) == if !e.saveOk then GrantHead(m, p, e)
                                        else if !e.sendOk then GrantHead(m, p, e) + [save]
                                        else GrantHead(m, p, e) + [save] + [ack]
  {
  }

  /** Two more effects after a head, one after the other. */
  lemma ThenTwo(c: Conf, d: Durable, head: seq<Effect>, save: Effect, ack: Effect)
    requires AllAllowed(c, d, head) && Allowed(c, DoAll(d, head), save) && Allowed(c, Do(DoAll(d, head), save), ack)
    ensures AllAllowed(c, d, head + [save]) && AllAllowed(c, d, head + [save] + [ack])
    ensures DoAll(d, head + [save]) == Do(DoAll(d, head), save)
    ensures DoAll(d, head + [save] + [ack]) == Do(Do(DoAll(d, head), save), ack)
  {
    DoSnoc(d, head, save);
    AllowedSnoc(c, d, head, save);
    DoSnoc(d, head + [save], ack);
    AllowedSnoc(c, d, head + [save], ack);
  }

  lemma GrantSaves(c: Conf, d: Durable, m: Mem, p: Packet, e: RequestEnv, boot: Time)
    requires OnDisk(c, d, e.t1) && boot <= e.t1 && RequestOk(e) && Wanted(p) != UNSPECIFIED
    requires AllAllowed(c, d, GrantHead(m, p, e))
    requires DoAll(d, GrantHead(m, p, e)).claims == Do(d, Committed(p.mac, Wanted(p))).claims
    requires Backed(Do(d, Committed(p.mac, Wanted(p))).claims, GrantMem(c, m, p, e).leases, e.t2)
    requires MemOk(c, GrantMem(c, m, p, e), Do(d, Committed(p.mac, Wanted(p))).claims, boot, e.t5)
    ensures AllAllowed(c, d, GrantEffects(c, m, p, e)) && StampedBy(GrantEffects(c, m, p, e), e.t5)
    ensures Backed(DoAll(d, GrantEffects(c, m, p, e)).claims, GrantMem(c, m, p, e).leases, e.t5)
  {
    var t := GrantMem(c, m, p, e).leases;
    var head := GrantHead(m, p, e);
    var save := Saved(EntriesOf(t), Granted, e.t5);
    var ack := Acked(p.mac, Wanted(p), p.arrived + c.leaseTime, e.t5);
    GrantEffectsSplit(c, m, p, e);
    if e.saveOk {
      SaveAndAck(c, DoAll(d, head), t, p, Wanted(p), e, boot);
      ThenTwo(c, d, head, save, ack);
    }
  }

  lemma SaveAndAck(c: Conf, d: Durable, t: Table, p: Packet, ip: Ip, e: RequestEnv, boot: Time)
    requires RequestOk(e) && boot <= e.t1 && ip != UNSPECIFIED
    requires forall mac :: mac in d.claims ==> d.claims[mac].until % SECOND == 0
    requires OneRowPerIp(t) && Bounded(c, t, boot, e.t5) && Backed(d.claims, t, e.t2)
    requires forall k :: k in t ==> t[k].ip in c.addresses
    requires p.mac in t && t[p.mac] == Lease(ip, p.arrived + c.leaseTime, p.arrived)
    ensures var save := Saved(EntriesOf(t), Granted, e.t5);
            var ack := Acked(p.mac, ip, p.arrived + c.leaseTime, e.t5);
            && Allowed(c, d, save)
            && Allowed(c, Do(d, save), ack)
            && Backed(Do(Do(d, save), ack).claims, t, e.t5)
  {
    SavedFileOk(c, t, boot, e.t5);
    SavedFileLists(d.claims, t, e.t5);
    AckExclusive(c, Do(d, Saved(EntriesOf(t), Granted, e.t5)), t, p, ip, e);
  }

  /** Right after the save, the row just written is the only unexpired hold on its address. */
  lemma AckExclusive(c: Conf, d: Durable, t: Table, p: Packet, ip: Ip, e: RequestEnv)
    requires RequestOk(e) && ip != UNSPECIFIED && OneRowPerIp(t) && Backed(d.claims, t, e.t2)
    requires p.mac in t && t[p.mac] == Lease(ip, p.arrived + c.leaseTime, p.arrived)
    requires d.disk == Some(EntriesOf(t))
    ensures Allowed(c, d, Acked(p.mac, ip, p.arrived + c.leaseTime, e.t5))
  {
  }

  lemma ReleasePacketSafe(c: Conf, d: Durable, m: Mem, p: Packet, e: ReleaseEnv, boot: Time, now: Time)
    requires MemOk(c, m, d.claims, boot, now) && OnDisk(c, d, now) && boot <= now <= e.t1
    ensures StepOk(c, d, boot, e.t1, Release(m, p, e))
  {
    ReleaseSafe(c, d, m, p.mac, e, boot, now);
  }

  lemma HandlerSafe(c: Conf, routes: set<Ip>, s: State, h: Handler)
    requires Inv(c, routes, s) && s.alive && HandlerOk(s, h)
    ensures s.now <= EndOf(h)
    ensures StepOk(c, World(routes, s.journal), s.boot, EndOf(h), Run(c, s, h))
  {
    var d := World(routes, s.journal);
    match h {
      case OnDiscover(p, e) => DiscoverSafe(c, d, s.mem, p.mac, e, s.boot, s.now);
      case OnRequest(p, e) => RequestSafe(c, d, s.mem, p, e, s.boot, s.now);
      case OnRelease(p, e) => ReleasePacketSafe(c, d, s.mem, p, e, s.boot, s.now);
      case OnControl(mac, e) => ReleaseSafe(c, d, s.mem, mac, e, s.boot, s.now);
      case OnSweep(e) => SweepSafe(c, d, s.mem, e, s.boot, s.now);
    }
  }

  // ---- start-up ----

  lemma FirstIps(t: Table, order: seq<Mac>, n: nat)
    requires 0 < n <= |order|
    requires forall i :: 0 <= i < |order| ==> order[i] in t
    ensures (set i | 0 <= i < n :: t[order[i]].ip) == (set i | 0 <= i < n - 1 :: t[order[i]].ip) + {t[order[n - 1]].ip}
  {
  }

  /** With every address in the pool, start-up drops no lease. */
  lemma {:induction false} RestoreKeepsAll(c: Conf, m: Mem, order: seq<Mac>, n: nat)
    requires n <= |order|
    requires forall i :: 0 <= i < |order| ==> order[i] in m.leases
    requires forall i, j :: 0 <= i < j < |order| ==> order[i] != order[j]
    requires m.free + m.used == c.addresses
    requires forall k :: k in m.leases ==> m.leases[k].ip in c.addresses
    ensures RestoreFirst(m, order, n).leases == m.leases
    ensures RestoreFirst(m, order, n).free == m.free - set i | 0 <= i < n :: m.leases[order[i]].ip
    ensures RestoreFirst(m, order, n).used == m.used + set i | 0 <= i < n :: m.leases[order[i]].ip
  {
    if n != 0 {
      RestoreKeepsAll(c, m, order, n - 1);
      var last := m.leases[order[n - 1]].ip;
      FirstIps(m.leases, order, n);
      assert last in c.addresses;
    }
  }

  /** No claim is alive at now. */
  ghost predicate AllOver(claims: map<Mac, Claim>, now: Time) {
    forall mac :: mac in claims ==> claims[mac].until <= now
  }

  /** A start-up that can read the file, or that finds no claim alive. */
  ghost predicate Harmless(d: Durable, e: StartEnv) {
    e.readable || AllOver(d.claims, e.t2)
  }

  lemma StartSafe(c: Conf, d: Durable, e: StartEnv, now: Time)
    requires OnDisk(c, d, now) && now <= e.t1 && StartOk(d.disk, e)
    ensures OnlyRoutes(Start(c, d.disk, e).effects)
    ensures Harmless(d, e) ==> MemOk(c, Start(c, d.disk, e).mem, d.claims, e.t1, e.t2)
    ensures Start(c, d.disk, e).mem.leases == BootTable(d.disk, e)
  {
    var t := BootTable(d.disk, e);
    RestoreKeepsAll(c, FreshMem(c).(leases := t), e.order, |e.order|);
    RestoreOnlyRoutes(c, t, e.order, |e.order|, e);
    forall j, k | j in t && k in t && t[j].ip == t[k].ip
      ensures j == k
    {
      assert d.disk.value[j].ip == d.disk.value[k].ip;
    }
  }

  // ---- every run ----

  /** Every start-up that came up was harmless; one that died on the way promised nothing. */
  ghost predicate HarmlessStarts(c: Conf, routes: set<Ip>, evs: seq<Event>)
    requires ValidRun(c, routes, evs)
  {
    if evs == [] then true
    else
      var n := |evs| - 1;
      && HarmlessStarts(c, routes, evs[..n])
      && (evs[n].Boot? ==> Harmless(World(routes, Final(c, routes, evs[..n]).journal), evs[n].e))
  }

  lemma JournalGrows(c: Conf, routes: set<Ip>, s: State, es: seq<Effect>, k: nat, now: Time)
    requires Inv(c, routes, s) && s.now <= now && k <= |es|
    requires AllAllowed(c, World(routes, s.journal), es) && StampedBy(es, now)
    ensures AllAllowed(c, Origin(routes), s.journal + es[..k])
    ensures OnDisk(c, World(routes, s.journal + es[..k]), now)
  {
    var d := World(routes, s.journal);
    AllowedPrefix(c, d, es, k);
    AllowedAppend(c, Origin(routes), s.journal, es[..k]);
    DoAppend(Origin(routes), s.journal, es[..k]);
    OnDiskLater(c, d, s.now, now);
    AllowedKeepsOnDisk(c, d, es[..k], now);
  }

  /** The whole of h's effects leaves a live process in order; any first part of them leaves a dead one in order. */
  lemma HandlerStep(c: Conf, routes: set<Ip>, s: State, h: Handler, k: nat)
    requires Inv(c, routes, s) && s.alive && HandlerOk(s, h) && k <= |Run(c, s, h).effects|
    ensures Inv(c, routes, Dead(s, EndOf(h), s.journal + Run(c, s, h).effects[..k]))
    ensures k == |Run(c, s, h).effects| ==>
              MemOk(c, Run(c, s, h).mem, World(routes, s.journal + Run(c, s, h).effects).claims, s.boot, EndOf(h))
  {
    var es := Run(c, s, h).effects;
    HandlerSafe(c, routes, s, h);
    JournalGrows(c, routes, s, es, k, EndOf(h));
    DoAppend(Origin(routes), s.journal, es);
  }

  lemma StartStep(c: Conf, routes: set<Ip>, s: State, e: StartEnv, k: nat)
    requires Inv(c, routes, s) && BootOk(routes, s, e)
    requires k <= |Start(c, World(routes, s.journal).disk, e).effects|
    ensures var o := Start(c, World(routes, s.journal).disk, e);
            && Inv(c, routes, Dead(s, e.t2, s.journal + o.effects[..k]))
            && (k == |o.effects| && Harmless(World(routes, s.journal), e) ==>
                 MemOk(c, o.mem, World(routes, s.journal + o.effects).claims, e.t1, e.t2))
  {
    var d := World(routes, s.journal);
    var es := Start(c, d.disk, e).effects;
    StartSafe(c, d, e, s.now);
    RoutesOnly(c, d, es);
    JournalGrows(c, routes, s, es, k, e.t2);
    DoAppend(Origin(routes), s.journal, es);
  }

  lemma StepKeepsInv(c: Conf, routes: set<Ip>, s: State, ev: Event)
    requires Inv(c, routes, s) && Enabled(c, routes, s, ev)
    requires ev.Boot? ==> Harmless(World(routes, s.journal), ev.e)
    ensures Inv(c, routes, Apply(c, routes, s, ev))
  {
    match ev {
      case Tick(t) => OnDiskLater(c, World(routes, s.journal), s.now, t);
      case Arrive(p) =>
      case Crash =>
      case Handle(h) =>
        var es := Run(c, s, h).effects;
        HandlerStep(c, routes, s, h, |es|);
        assert es[..|es|] == es;
      case DieIn(h, k) => HandlerStep(c, routes, s, h, k);
      case Boot(e) =>
        var es := Start(c, World(routes, s.journal).disk, e).effects;
        StartStep(c, routes, s, e, |es|);
        assert es[..|es|] == es;
      case DieInBoot(e, k) => StartStep(c, routes, s, e, k);
    }
  }

  lemma {:induction false} RunsKeepInv(c: Conf, routes: set<Ip>, evs: seq<Event>)
    requires ValidRun(c, routes, evs) && HarmlessStarts(c, routes, evs)
    ensures Inv(c, routes, Final(c, routes, evs))
  {
    if evs != [] {
      var n := |evs| - 1;
      RunsKeepInv(c, routes, evs[..n]);
      StepKeepsInv(c, routes, Final(c, routes, evs[..n]), evs[n]);
    }
  }

  // ---- claims, read off the journal ----

  /** e ends what an earlier ACK of ip promised mac: mac's own REQUEST for another address was committed
      (which an ACK of another address also shows), or mac's release was persisted. */
  predicate Ends(e: Effect, mac: Mac, ip: Ip) {
    match e
    case Committed(m, i) => m == mac && i != ip
    case Acked(m, i, _, _) => m == mac && i != ip
    case Saved(_, why, _) => why.Released? && why.mac == mac
    case _ => false
  }

  /** The ACK at place i has not been ended before place n. */
  ghost predicate Unended(j: seq<Effect>, i: nat, n: nat)
    requires i < n <= |j| && j[i].Acked?
  {
    forall k :: i < k < n ==> !Ends(j[k], j[i].mac, j[i].ip)
  }

  /** An ACK that has not been ended is still the claim of its MAC. */
  lemma {:induction false} AckIsClaim(d: Durable, j: seq<Effect>, i: nat, n: nat)
    requires i < n <= |j| && j[i].Acked? && Unended(j, i, n)
    ensures var cl := DoAll(d, j[..n]).claims;
            j[i].mac in cl && cl[j[i].mac].ip == j[i].ip && Trunc(j[i].expiry) <= cl[j[i].mac].until
    decreases n
  {
    assert j[..n] == j[..n - 1] + [j[n - 1]];
    DoSnoc(d, j[..n - 1], j[n - 1]);
    if n - 1 > i {
      AckIsClaim(d, j, i, n - 1);
      assert !Ends(j[n - 1], j[i].mac, j[i].ip);
    }
  }

  /** Every claim goes back to an ACK that has not been ended and promised that very second. */
  lemma {:induction false} ClaimIsAck(routes: set<Ip>, j: seq<Effect>, n: nat, mac: Mac) returns (i: nat)
    requires n <= |j| && mac in World(routes, j[..n]).claims
    ensures i < n && j[i].Acked? && Unended(j, i, n) && j[i].mac == mac
    ensures var cl := World(routes, j[..n]).claims[mac];
            j[i].ip == cl.ip && Trunc(j[i].expiry) == cl.until
    decreases n
  {
    i := 0;
    if n != 0 {
      var e, d := j[n - 1], World(routes, j[..n - 1]);
      assert j[..n] == j[..n - 1] + [e];
      DoSnoc(Origin(routes), j[..n - 1], e);
      if e.Acked? && e.mac == mac &&
          (mac !in d.claims || d.claims[mac].ip != e.ip || d.claims[mac].until <= Trunc(e.expiry)) {
        i := n - 1;
      } else {
        i := ClaimIsAck(routes, j, n - 1, mac);
      }
    }
  }

  /** The ACKs at places i and n give one address to two MACs, the first of which may still use it. */
  ghost predicate Conflict(j: seq<Effect>, i: nat, n: nat)
    requires i < n < |j|
  {
    && j[i].Acked? && j[n].Acked? && j[i].ip == j[n].ip && j[i].mac != j[n].mac
    && Unended(j, i, n) && j[n].at < Trunc(j[i].expiry)
  }

  lemma EachIsAllowed(c: Conf, d: Durable, j: seq<Effect>, n: nat)
    requires AllAllowed(c, d, j) && n < |j|
    ensures Allowed(c, DoAll(d, j[..n]), j[n])
  {
    AllowedPrefix(c, d, j, n + 1);
    assert j[..n + 1] == j[..n] + [j[n]];
    AllowedSnoc(c, d, j[..n], j[n]);
  }

  /** In every run, when an ACK gives an address to one MAC, every earlier ACK of it to another MAC has been
      ended or is past the second it expires in. */
  lemma ExclusiveAcks(c: Conf, routes: set<Ip>, evs: seq<Event>, i: nat, n: nat)
    requires ValidRun(c, routes, evs) && HarmlessStarts(c, routes, evs)
    requires i < n < |Final(c, routes, evs).journal|
    ensures !Conflict(Final(c, routes, evs).journal, i, n)
  {
    var j := Final(c, routes, evs).journal;
    RunsKeepInv(c, routes, evs);
    EachIsAllowed(c, Origin(routes), j, n);
    if Conflict(j, i, n) {
      AckIsClaim(Origin(routes), j, i, n);
    }
  }

  /** In every state of every run, the process being alive, dead or dead half-way through a handler, an
      ACKed binding that has neither ended nor expired is in the lease file, and in the table of a live process. */
  lemma DurableAcks(c: Conf, routes: set<Ip>, evs: seq<Event>, i: nat)
    requires ValidRun(c, routes, evs) && HarmlessStarts(c, routes, evs)
    requires var s := Final(c, routes, evs);
             i < |s.journal| && s.journal[i].Acked? && Unended(s.journal, i, |s.journal|) &&
                 s.now < Trunc(s.journal[i].expiry)
    ensures var s := Final(c, routes, evs);
            var d := World(routes, s.journal);
            var a := s.journal[i];
            && d.disk.Some? && Lists(d.disk.value, a.mac, Claim(a.ip, Trunc(a.expiry)))
            && (s.alive ==> LeasedTo(s.mem.leases, a.mac, a.ip, s.now) && Trunc(a.expiry) <= s.mem.leases[a.mac].expiry)
  {
    var s := Final(c, routes, evs);
    RunsKeepInv(c, routes, evs);
    AckIsClaim(Origin(routes), s.journal, i, |s.journal|);
    assert s.journal[..|s.journal|] == s.journal;
  }

  lemma GrantedRow(c: Conf, m: Mem, p: Packet, e: RequestEnv)
    ensures var t := GrantMem(c, m, p, e).leases;
            p.mac in t && t[p.mac] == Lease(Wanted(p), p.arrived + c.leaseTime, p.arrived)
    ensures p.mac !in GrantMem(c, m, p, e).offers
    ensures e.saveOk && e.sendOk ==>
              GrantEffects(c, m, p, e)[|GrantEffects(c, m, p, e)| - 1] ==
                  Acked(p.mac, Wanted(p), p.arrived + c.leaseTime, e.t5)
  {
  }

  /** In every run the owner can renew: its REQUEST for an ACKed address that has neither ended nor expired, arriving no
      earlier than its grant, is granted unless the reply cannot be built or the route cannot be added. */
  lemma RenewalIsGranted(c: Conf, routes: set<Ip>, evs: seq<Event>, i: nat, p: Packet, e: RequestEnv)
    requires ValidRun(c, routes, evs) && HarmlessStarts(c, routes, evs)
    requires var s := Final(c, routes, evs);
             && s.alive && HandlerOk(s, OnRequest(p, e))
             && i < |s.journal| && s.journal[i].Acked? && Unended(s.journal, i, |s.journal|)
             && p.mac == s.journal[i].mac
             && (if p.reqIp == UNSPECIFIED then p.ciaddr else p.reqIp) == s.journal[i].ip
             && e.t4 < Trunc(s.journal[i].expiry)
             && (p.mac in s.mem.leases ==> s.mem.leases[p.mac].granted <= p.arrived)
    ensures var s := Final(c, routes, evs);
            var o := Request(c, s.mem, p, e);
            && o.verdict == (if !e.replyOk then BuildFailed else if !e.addOk then NakRoute
                             else if !e.saveOk then SaveFailed else if !e.sendOk then SendFailed else Granting)
            && (e.replyOk && e.addOk ==>
                  && p.mac in o.mem.leases
                  && o.mem.leases[p.mac] == Lease(s.journal[i].ip, p.arrived + c.leaseTime, p.arrived))
            && (o.verdict.Granting? ==> Acked(p.mac, s.journal[i].ip, p.arrived + c.leaseTime, e.t5) in o.effects)
  {
    var s := Final(c, routes, evs);
    GrantedRow(c, s.mem, p, e);
    DurableAcks(c, routes, evs, i);
    LiveClaim(c, routes, evs, i);
    NobodyElse(s.mem.leases, p.mac, Wanted(p), e.t2);
  }

  lemma LiveClaim(c: Conf, routes: set<Ip>, evs: seq<Event>, i: nat)
    requires ValidRun(c, routes, evs) && HarmlessStarts(c, routes, evs)
    requires var s := Final(c, routes, evs); s.alive && i < |s.journal| && s.journal[i].Acked?
    ensures var s := Final(c, routes, evs); OneRowPerIp(s.mem.leases) && s.journal[i].ip != UNSPECIFIED
  {
    var j := Final(c, routes, evs).journal;
    RunsKeepInv(c, routes, evs);
    EachIsAllowed(c, Origin(routes), j, i);
  }

  lemma NobodyElse(t: Table, mac: Mac, ip: Ip, now: Time)
    requires OneRowPerIp(t) && mac in t && t[mac].ip == ip
    ensures !LeasedToOther(t, mac, ip, now)
  {
  }
}
