/** The values the DHCP server works on, and the meaning of its table operations.

    A MAC and an IPv4 address are the numbers their bytes spell.  A time is a number of
    nanoseconds since the zero time of the clock, so the zero grant stamp is 0. */
module LeaseModel {

  type Mac = int
  type Ip = int
  type Time = nat

  const UNSPECIFIED: Ip := 0
  const SECOND: nat := 1_000_000_000
  const OFFER_TIMEOUT: nat := 60 * SECOND

  datatype Option<+T> = None | Some(value: T)

  /** A row of the lease table; its MAC is the key it is stored under. */
  datatype Lease = Lease(ip: Ip, expiry: Time, granted: Time)

  /** An address OFFERed but not yet ACKed. */
  datatype Offer = Offer(ip: Ip, expiry: Time)

  /** What the lease file keeps of a lease: no grant stamp, and an expiry cut to the second. */
  datatype Entry = Entry(ip: Ip, expiry: Time)

  type Table = map<Mac, Lease>
  type File = map<Mac, Entry>

  /** The address set and the lease time stay the same across restarts. */
  datatype Conf = Conf(addresses: set<Ip>, leaseTime: nat)

  // ---- time ----

  function Trunc(t: Time): (r: Time)
    ensures r <= t < r + SECOND
    ensures r % SECOND == 0
  {
    t - t % SECOND
  }

  lemma TruncOfWhole(t: Time, u: Time)
    requires u % SECOND == 0
    ensures Trunc(u) == u
    ensures u <= t ==> u <= Trunc(t)
  {
  }

  // ---- queries on the lease table ----

  predicate ActiveAt(t: Table, mac: Mac, now: Time) {
    mac in t && now < t[mac].expiry
  }

  predicate LeasedTo(t: Table, mac: Mac, ip: Ip, now: Time) {
    mac in t && t[mac].ip == ip && now < t[mac].expiry
  }

  predicate LeasedToOther(t: Table, mac: Mac, ip: Ip, now: Time) {
    exists k :: k in t && k != mac && t[k].ip == ip && now < t[k].expiry
  }

  function ActiveMacs(t: Table, now: Time): set<Mac> {
    set k | k in t && now < t[k].expiry
  }

  function ExpiredMacs(t: Table, now: Time): set<Mac> {
    set k | k in t && now > t[k].expiry
  }

  /** The address of each MAC that has a row. */
  function RowIps(t: Table): map<Mac, Ip> {
    map k | k in t :: t[k].ip
  }

  function Image(ips: map<Mac, Ip>): set<Ip> {
    set k | k in ips :: ips[k]
  }

  function LeaseIps(t: Table): set<Ip> {
    set k | k in t :: t[k].ip
  }

  /** At most one row per address. */
  ghost predicate OneRowPerIp(t: Table) {
    forall j, k :: j in t && k in t && t[j].ip == t[k].ip ==> j == k
  }

  // ---- changes to the lease table ----

  /** The rows of t without those of other MACs that hold ip. */
  function EvictOthers(t: Table, mac: Mac, ip: Ip): Table {
    map k | k in t && (k == mac || t[k].ip != ip) :: t[k]
  }

  function AddLease(t: Table, mac: Mac, l: Lease): Table {
    EvictOthers(t, mac, l.ip)[mac := l]
  }

  function Without(t: Table, gone: set<Mac>): Table {
    map k | k in t && k !in gone :: t[k]
  }

  // ---- offers ----

  type Offers = map<Mac, Offer>

  predicate OfferedTo(o: Offers, mac: Mac, ip: Ip, now: Time) {
    mac in o && o[mac].ip == ip && now < o[mac].expiry
  }

  function ExpiredOffers(o: Offers, now: Time): set<Mac> {
    set k | k in o && now > o[k].expiry
  }

  /** The address on offer to each MAC that has an offer. */
  function OfferedAt(o: Offers): map<Mac, Ip> {
    map k | k in o :: o[k].ip
  }

  function OfferIps(o: Offers): set<Ip> {
    set k | k in o :: o[k].ip
  }

  function WithoutOffers(o: Offers, gone: set<Mac>): Offers {
    map k | k in o && k !in gone :: o[k]
  }

  ghost predicate OneOfferPerIp(o: Offers) {
    forall j, k :: j in o && k in o && o[j].ip == o[k].ip ==> j == k
  }

  // ---- the lease file ----

  function EntriesOf(t: Table): File {
    map k | k in t :: Entry(t[k].ip, Trunc(t[k].expiry))
  }

  function Loaded(f: File, now: Time): Table {
    map k | k in f && now <= f[k].expiry :: Lease(f[k].ip, f[k].expiry, 0)
  }

  /** order visits each member of s once. */
  ghost predicate Enumerates(order: seq<Mac>, s: set<Mac>) {
    && (forall i, j :: 0 <= i < j < |order| ==> order[i] != order[j])
    && (forall i :: 0 <= i < |order| ==> order[i] in s)
    && (forall m :: m in s ==> m in order)
  }

  lemma SomeMember(s: set<int>)
    ensures s != {} ==> exists k :: k in s
  {
    if forall k :: k !in s {
      assert s == {};
    }
  }
}
