/** The server as a state machine.

    A handler is a function from the memory it finds under the lifecycle lock, and from what
    the outside world answers, to the memory it leaves and the ordered list of effects the
    outside world sees.  A process that dies inside a handler leaves some prefix of those
    effects and loses its memory. */
module LeaseMachine {
  import opened LeaseModel

  // ---- memory: the pool, the lease table and the pending offers ----

  /** strays counts the releases that hit an address the pool did not hold as used. */
  datatype Mem = Mem(free: set<Ip>, used: set<Ip>, strays: nat, leases: Table, offers: Offers)

  function ClaimIp(m: Mem, ip: Ip): Mem {
    m.(free := m.free - {ip}, used := m.used + {ip})
  }

  function FreeIp(m: Mem, ip: Ip): Mem {
    m.(free := m.free + {ip}, used := m.used - {ip}, strays := if ip in m.used then m.strays else m.strays + 1)
  }

  function FreeIps(m: Mem, ips: seq<Ip>): Mem {
    if ips == [] then m else FreeIp(FreeIps(m, ips[..|ips| - 1]), ips[|ips| - 1])
  }

  /** The addresses of the MACs of order, one by one. */
  function IpsOf(ips: map<Mac, Ip>, order: seq<Mac>): (r: seq<Ip>)
    requires forall i :: 0 <= i < |order| ==> order[i] in ips
    ensures |r| == |order|
    ensures forall i :: 0 <= i < |order| ==> r[i] == ips[order[i]]
  {
    seq(|order|, i requires 0 <= i < |order| => ips[order[i]])
  }

  // ---- what the outside world sees ----

  datatype Reason = Granted | Released(mac: Mac) | Swept

  datatype Effect =
    | RouteAdded(ip: Ip)
    | RouteDeleted(ip: Ip)
    | Committed(mac: Mac, ip: Ip)                             // a REQUEST entered the lease table
    | Saved(file: File, why: Reason, at: Time)                // the lease file was replaced
    | Acked(mac: Mac, ip: Ip, expiry: Time, at: Time)         // an ACK reached the wire

  /** What a client was promised: ip until the second its lease expires in. */
  datatype Claim = Claim(ip: Ip, until: Time)

  datatype Durable = Durable(routes: set<Ip>, disk: Option<File>, claims: map<Mac, Claim>)

  function Later(d: Durable, mac: Mac, ip: Ip, until: Time): Time {
    if mac in d.claims && d.claims[mac].ip == ip && until < d.claims[mac].until then d.claims[mac].until else until
  }

  function Do(d: Durable, e: Effect): Durable {
    match e
    case RouteAdded(ip) => d.(routes := d.routes + {ip})
    case RouteDeleted(ip) => d.(routes := d.routes - {ip})
    case Committed(mac, ip) =>
      if mac in d.claims && d.claims[mac].ip != ip then d.(claims := d.claims - {mac}) else d
    case Saved(f, why, _) =>
      d.(disk := Some(f), claims := if why.Released? then d.claims - {why.mac} else d.claims)
    case Acked(mac, ip, expiry, _) =>
      d.(claims := d.claims[mac := Claim(ip, Later(d, mac, ip, Trunc(expiry)))])
  }

  function DoAll(d: Durable, es: seq<Effect>): Durable {
    if es == [] then d else Do(DoAll(d, es[..|es| - 1]), es[|es| - 1])
  }

  // ---- packets and the answers of the outside world ----

  datatype Kind = DISCOVER | REQUEST | RELEASE

  /** An absent requested address and the unspecified one are both 0. */
  datatype Packet = Packet(kind: Kind, mac: Mac, reqIp: Ip, ciaddr: Ip, src: Ip, arrived: Time)

  datatype DiscoverEnv = DiscoverEnv(t1: Time, t2: Time, t3: Time, pick: Ip, replyOk: bool, sendOk: bool)

  datatype RequestEnv = RequestEnv(t1: Time, t2: Time, t3: Time, t4: Time, replyOk: bool, addOk: bool,
                                   delOk: bool, saveOk: bool, t5: Time, sendOk: bool)

  datatype ReleaseEnv = ReleaseEnv(t1: Time, saveOk: bool, delOk: bool)

  /** leaseOrder and offerOrder are the orders the two expired lists come in. */
  datatype SweepEnv = SweepEnv(t1: Time, offerOrder: seq<Mac>, t2: Time, leaseOrder: seq<Mac>, saveOk: bool,
      delOk: set<Ip>)

  datatype StartEnv = StartEnv(t1: Time, readable: bool, t2: Time, order: seq<Mac>, addOk: set<Ip>, delOk: set<Ip>)

  datatype Verdict =
    | NoIp | Ignored | NakLeased | NakUnavailable | BuildFailed | NakRoute | SaveFailed | SendFailed | Granting
    | Exhausted | Offering(ip: Ip) | NoLease | Spoofed | Done

  datatype Outcome = Outcome(mem: Mem, effects: seq<Effect>, verdict: Verdict)

  // ---- DISCOVER ----

  /** Memory after an expired offer of mac has been reclaimed. */
  function DropStaleOffer(m: Mem, mac: Mac, now: Time): Mem {
    if mac in m.offers && m.offers[mac].expiry <= now
    then FreeIp(m.(offers := m.offers - {mac}), m.offers[mac].ip)
    else m
  }

  ghost predicate DiscoverOk(m: Mem, mac: Mac, e: DiscoverEnv) {
    var m1 := DropStaleOffer(m, mac, e.t2);
    && e.t1 <= e.t2 <= e.t3
    && (m1.free != {} ==> e.pick in m1.free)
  }

  function Discover(m: Mem, mac: Mac, e: DiscoverEnv): Outcome {
    if ActiveAt(m.leases, mac, e.t1) then
      Outcome(m, [], OfferVerdict(m.leases[mac].ip, e))
    else
      var m1 := DropStaleOffer(m, mac, e.t2);
      if mac in m1.offers then
        var ip := m1.offers[mac].ip;
        Outcome(m1.(offers := m1.offers[mac := Offer(ip, e.t3 + OFFER_TIMEOUT)]), [], OfferVerdict(ip, e))
      else if m1.free == {} then
        Outcome(m1, [], Exhausted)
      else
        Outcome(ClaimIp(m1, e.pick).(offers := m1.offers[mac := Offer(e.pick, e.t3 + OFFER_TIMEOUT)]), [],
            OfferVerdict(e.pick, e))
  }

  function OfferVerdict(ip: Ip, e: DiscoverEnv): Verdict {
    if !e.replyOk then BuildFailed else if !e.sendOk then SendFailed else Offering(ip)
  }

  // ---- REQUEST ----

  function Wanted(p: Packet): Ip {
    if p.reqIp == UNSPECIFIED then p.ciaddr else p.reqIp
  }

  ghost predicate RequestOk(e: RequestEnv) {
    e.t1 <= e.t2 <= e.t3 <= e.t4 <= e.t5
  }

  predicate HeldBy(m: Mem, mac: Mac, ip: Ip, e: RequestEnv) {
    OfferedTo(m.offers, mac, ip, e.t3) || LeasedTo(m.leases, mac, ip, e.t4)
  }

  /** Why a REQUEST stops before the grant, if it does. */
  function Refusal(m: Mem, p: Packet, e: RequestEnv): Option<Verdict> {
    var ip := Wanted(p);
    if ip == UNSPECIFIED then Some(NoIp)
    else if ActiveAt(m.leases, p.mac, e.t1) && m.leases[p.mac].granted > p.arrived then Some(Ignored)
    else if LeasedToOther(m.leases, p.mac, ip, e.t2) then Some(NakLeased)
    else if !HeldBy(m, p.mac, ip, e) && ip !in m.free then Some(NakUnavailable)
    else if !e.replyOk then Some(BuildFailed)
    else if !e.addOk then Some(NakRoute)
    else None
  }

  /** Memory after a refusal: a claim made on the way is given back. */
  function RefusedMem(m: Mem, p: Packet, e: RequestEnv, v: Verdict): Mem {
    if (v.BuildFailed? || v.NakRoute?) && !HeldBy(m, p.mac, Wanted(p), e)
    then FreeIp(ClaimIp(m, Wanted(p)), Wanted(p))
    else m
  }

  /** The other address mac's lease row names, which a grant of ip orphans. */
  function Rebound(t: Table, mac: Mac, ip: Ip): Option<Ip> {
    if mac in t && t[mac].ip != ip then Some(t[mac].ip) else None
  }

  function GrantMem(c: Conf, m: Mem, p: Packet, e: RequestEnv): Mem {
    var ip := Wanted(p);
    var m1 := if HeldBy(m, p.mac, ip, e) then m else ClaimIp(m, ip);
    var m2 := DropOffer(m1, p.mac, ip);
    var m3 := m2.(leases := AddLease(m2.leases, p.mac, Lease(ip, p.arrived + c.leaseTime, p.arrived)));
    var prev := Rebound(m.leases, p.mac, ip);
    if prev.Some? then FreeIp(m3, prev.value) else m3
  }

  function DropOffer(m: Mem, mac: Mac, ip: Ip): Mem {
    if mac !in m.offers then m
    else
      var m1 := m.(offers := m.offers - {mac});
      if m.offers[mac].ip == ip then m1 else FreeIp(m1, m.offers[mac].ip)
  }

  function GrantEffects(c: Conf, m: Mem, p: Packet, e: RequestEnv): seq<Effect> {
    var ip := Wanted(p);
    var prev := Rebound(m.leases, p.mac, ip);
    [RouteAdded(ip), Committed(p.mac, ip)]
    + (if prev.Some? && e.delOk then [RouteDeleted(prev.value)] else [])
    + (if e.saveOk then [Saved(EntriesOf(GrantMem(c, m, p, e).leases), Granted, e.t5)] else [])
    + (if e.saveOk && e.sendOk then [Acked(p.mac, ip, p.arrived + c.leaseTime, e.t5)] else [])
  }

  function Request(c: Conf, m: Mem, p: Packet, e: RequestEnv): Outcome {
    var r := Refusal(m, p, e);
    if r.Some? then Outcome(RefusedMem(m, p, e, r.value), [], r.value)
    else Outcome(GrantMem(c, m, p, e), GrantEffects(c, m, p, e),
                 if !e.saveOk then SaveFailed else if !e.sendOk then SendFailed else Granting)
  }

  // ---- RELEASE and the control socket ----

  function ReleaseLocked(m: Mem, mac: Mac, e: ReleaseEnv): Outcome {
    if mac !in m.leases then Outcome(m, [], NoLease)
    else if !e.saveOk then Outcome(m, [], SaveFailed)
    else
      var rest := Without(m.leases, {mac});
      var ip := m.leases[mac].ip;
      Outcome(FreeIp(m.(leases := rest), ip),
              [Saved(EntriesOf(rest), Released(mac), e.t1)] + (if e.delOk then [RouteDeleted(ip)] else []),
              Done)
  }

  function Release(m: Mem, p: Packet, e: ReleaseEnv): Outcome {
    if !ActiveAt(m.leases, p.mac, e.t1) then Outcome(m, [], NoLease)
    else if p.src != m.leases[p.mac].ip || p.ciaddr != m.leases[p.mac].ip then Outcome(m, [], Spoofed)
    else if m.leases[p.mac].granted > p.arrived then Outcome(m, [], Ignored)
    else ReleaseLocked(m, p.mac, e)
  }

  // ---- the sweep ----

  ghost predicate SweepOk(m: Mem, e: SweepEnv) {
    && e.t1 <= e.t2
    && Enumerates(e.offerOrder, ExpiredOffers(m.offers, e.t1))
    && Enumerates(e.leaseOrder, ExpiredMacs(m.leases, e.t2))
  }

  function RouteDeletions(ips: seq<Ip>, ok: set<Ip>): seq<Effect> {
    if ips == [] then []
    else RouteDeletions(ips[..|ips| - 1], ok) + (if ips[|ips| - 1] in ok then [RouteDeleted(ips[|ips| - 1])] else [])
  }

  /** Memory after the expired offers went back to the pool. */
  function SweepOffers(m: Mem, e: SweepEnv): Mem
    requires forall i :: 0 <= i < |e.offerOrder| ==> e.offerOrder[i] in m.offers
  {
    FreeIps(m.(offers := WithoutOffers(m.offers, set k | k in e.offerOrder)), IpsOf(OfferedAt(m.offers), e.offerOrder))
  }

  function Sweep(m: Mem, e: SweepEnv): Outcome
    requires SweepOk(m, e)
  {
    var m1 := SweepOffers(m, e);
    if e.leaseOrder == [] then Outcome(m1, [], Done)
    else if !e.saveOk then Outcome(m1, [], SaveFailed)
    else
      var ips := IpsOf(RowIps(m.leases), e.leaseOrder);
      var rest := Without(m.leases, set k | k in e.leaseOrder);
      Outcome(FreeIps(m1.(leases := rest), ips),
          [Saved(EntriesOf(rest), Swept, e.t2)] + RouteDeletions(ips, e.delOk), Done)
  }

  // ---- start-up ----

  function FreshMem(c: Conf): Mem {
    Mem(c.addresses, {}, 0, map[], map[])
  }

  /** The table a start-up begins with: nothing when the file is missing or cannot be read. */
  function BootTable(disk: Option<File>, e: StartEnv): Table {
    if disk.Some? && e.readable then Loaded(disk.value, e.t1) else map[]
  }

  ghost predicate StartOk(disk: Option<File>, e: StartEnv) {
    && e.t1 <= e.t2
    && Enumerates(e.order, ActiveMacs(BootTable(disk, e), e.t2))
  }

  /** One active lease put back: its address is marked used, or the lease is dropped when the pool never had it. */
  function RestoreOne(m: Mem, mac: Mac): Mem
    requires mac in m.leases
  {
    var ip := m.leases[mac].ip;
    if ip in m.free || ip in m.used then ClaimIp(m, ip) else m.(leases := Without(m.leases, {mac}))
  }

  /** The first n leases of order put back. */
  function RestoreFirst(m: Mem, order: seq<Mac>, n: nat): (r: Mem)
    requires n <= |order|
    requires forall i :: 0 <= i < |order| ==> order[i] in m.leases
    requires forall i, j :: 0 <= i < j < |order| ==> order[i] != order[j]
    ensures r.free + r.used == m.free + m.used && r.offers == m.offers && r.strays == m.strays
    ensures forall k :: k in r.leases ==> k in m.leases && r.leases[k] == m.leases[k]
    ensures forall i :: n <= i < |order| ==> order[i] in r.leases
  {
    if n == 0 then m else RestoreOne(RestoreFirst(m, order, n - 1), order[n - 1])
  }

  function RestoreEffects(c: Conf, t: Table, order: seq<Mac>, n: nat, e: StartEnv): seq<Effect>
    requires n <= |order|
    requires forall i :: 0 <= i < |order| ==> order[i] in t
  {
    if n == 0 then [] else RestoreEffects(c, t, order, n - 1, e) + RestoreEffect(c, t[order[n - 1]].ip, e)
  }

  function RestoreEffect(c: Conf, ip: Ip, e: StartEnv): seq<Effect> {
    if ip in c.addresses
    then if ip in e.addOk then [RouteAdded(ip)] else []
    else if ip in e.delOk then [RouteDeleted(ip)] else []
  }

  function Start(c: Conf, disk: Option<File>, e: StartEnv): Outcome
    requires StartOk(disk, e)
  {
    var t := BootTable(disk, e);
    Outcome(RestoreFirst(FreshMem(c).(leases := t), e.order, |e.order|), RestoreEffects(c, t, e.order, |e.order|, e),
        Done)
  }

  // ---- runs ----

  datatype Handler =
    | OnDiscover(p: Packet, de: DiscoverEnv)
    | OnRequest(p: Packet, re: RequestEnv)
    | OnRelease(p: Packet, le: ReleaseEnv)
    | OnControl(mac: Mac, le: ReleaseEnv)
    | OnSweep(se: SweepEnv)

  datatype Event =
    | Tick(t: Time)
    | Arrive(p: Packet)
    | Handle(h: Handler)
    | Crash
    | DieIn(h: Handler, k: nat)
    | Boot(e: StartEnv)
    | DieInBoot(e: StartEnv, k: nat)

  /** pending holds the packets whose goroutine has not yet taken the lifecycle lock. */
  datatype State = State(alive: bool, now: Time, boot: Time, mem: Mem, pending: multiset<Packet>, journal: seq<Effect>)

  function Origin(routes: set<Ip>): Durable {
    Durable(routes, None, map[])
  }

  /** The world a journal leaves behind, from kernel routes that were there before the first start. */
  function World(routes: set<Ip>, journal: seq<Effect>): Durable {
    DoAll(Origin(routes), journal)
  }

  function EndOf(h: Handler): Time {
    match h
    case OnDiscover(_, e) => e.t3
    case OnRequest(_, e) => e.t5
    case OnRelease(_, e) => e.t1
    case OnControl(_, e) => e.t1
    case OnSweep(e) => e.t2
  }

  ghost predicate HandlerOk(s: State, h: Handler) {
    match h
    case OnDiscover(p, e) => p in s.pending && p.kind == DISCOVER && s.now <= e.t1 && DiscoverOk(s.mem, p.mac, e)
    case OnRequest(p, e) => p in s.pending && p.kind == REQUEST && s.now <= e.t1 && RequestOk(e)
    case OnRelease(p, e) => p in s.pending && p.kind == RELEASE && s.now <= e.t1
    case OnControl(_, e) => s.now <= e.t1
    case OnSweep(e) => s.now <= e.t1 && SweepOk(s.mem, e)
  }

  function Run(c: Conf, s: State, h: Handler): Outcome
    requires HandlerOk(s, h)
  {
    match h
    case OnDiscover(p, e) => Discover(s.mem, p.mac, e)
    case OnRequest(p, e) => Request(c, s.mem, p, e)
    case OnRelease(p, e) => Release(s.mem, p, e)
    case OnControl(mac, e) => ReleaseLocked(s.mem, mac, e)
    case OnSweep(e) => Sweep(s.mem, e)
  }

  /** A packet is stamped at any moment of this life up to now, also while a handler was under way. */
  ghost predicate Enabled(c: Conf, routes: set<Ip>, s: State, ev: Event) {
    match ev
    case Tick(t) => s.now <= t
    case Arrive(p) => s.alive && s.boot <= p.arrived <= s.now
    case Handle(h) => s.alive && HandlerOk(s, h)
    case Crash => s.alive
    case DieIn(h, k) => s.alive && HandlerOk(s, h) && k <= |Run(c, s, h).effects|
    case Boot(e) => BootOk(routes, s, e)
    case DieInBoot(e, k) => BootOk(routes, s, e) && k <= |Start(c, World(routes, s.journal).disk, e).effects|
  }

  ghost predicate BootOk(routes: set<Ip>, s: State, e: StartEnv) {
    !s.alive && s.now <= e.t1 && StartOk(World(routes, s.journal).disk, e)
  }

  function Served(s: State, h: Handler): multiset<Packet> {
    match h
    case OnDiscover(p, _) => s.pending - multiset{p}
    case OnRequest(p, _) => s.pending - multiset{p}
    case OnRelease(p, _) => s.pending - multiset{p}
    case OnControl(_, _) => s.pending
    case OnSweep(_) => s.pending
  }

  function Dead(s: State, now: Time, journal: seq<Effect>): State {
    s.(alive := false, now := now, pending := multiset{}, journal := journal)
  }

  function Apply(c: Conf, routes: set<Ip>, s: State, ev: Event): State
    requires Enabled(c, routes, s, ev)
  {
    match ev
    case Tick(t) => s.(now := t)
    case Arrive(p) => s.(pending := s.pending + multiset{p})
    case Handle(h) =>
      var o := Run(c, s, h);
      s.(now := EndOf(h), mem := o.mem, pending := Served(s, h), journal := s.journal + o.effects)
    case Crash => Dead(s, s.now, s.journal)
    case DieIn(h, k) => Dead(s, EndOf(h), s.journal + Run(c, s, h).effects[..k])
    case Boot(e) =>
      var o := Start(c, World(routes, s.journal).disk, e);
      State(true, e.t2, e.t1, o.mem, multiset{}, s.journal + o.effects)
    case DieInBoot(e, k) => Dead(s, e.t2, s.journal + Start(c, World(routes, s.journal).disk, e).effects[..k])
  }

  /** Before the first start: no process, no lease file. */
  function Initial(c: Conf): State {
    State(false, 0, 0, FreshMem(c), multiset{}, [])
  }

  ghost predicate ValidRun(c: Conf, routes: set<Ip>, evs: seq<Event>)
    decreases |evs|, 0
  {
    evs == [] || (ValidRun(c, routes, evs[..|evs| - 1]) &&
        Enabled(c, routes, Final(c, routes, evs[..|evs| - 1]), evs[|evs| - 1]))
  }

  ghost function Final(c: Conf, routes: set<Ip>, evs: seq<Event>): State
    requires ValidRun(c, routes, evs)
    decreases |evs|, 1
  {
    if evs == [] then Initial(c) else Apply(c, routes, Final(c, routes, evs[..|evs| - 1]), evs[|evs| - 1])
  }
}
