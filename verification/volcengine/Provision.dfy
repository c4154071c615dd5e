/** Provisioning on Volcengine: interfaces, then addresses, reporting the interface ids on every exit. */
module Provision {
  import opened Eni

  const ENIS_PER_NODE := 7
  const IPS_PER_ENI := 20

  /** What the cloud answers: whether the metadata, security group, subnet and instance id were found, the listing and
      the rounds of the interface loop, how many addresses each assign call added, whether a gateway was found. */
  datatype Answers = Answers(ready: bool, listing: Option<seq<Nic>>, rounds: seq<Round>,
                             topUps: seq<Option<nat>>, gateway: bool) {
    ghost predicate Long() {
      ENIS_PER_NODE <= |rounds| && ENIS_PER_NODE <= |topUps|
    }
  }

  /** What the caller gets: an error alone, an error with ids, or ids and a number of addresses. */
  datatype Outcome = Bare | Failed(ids: seq<Id>) | Done(ids: seq<Id>, addresses: nat)

  function OutcomeIds(o: Outcome): seq<Id> {
    match o
    case Bare => []
    case Failed(ids) => ids
    case Done(ids, _) => ids
  }

  /** The addresses on the first k interfaces once each has been topped up. */
  function Addresses(nics: seq<Nic>, topUps: seq<Option<nat>>, k: nat): nat
    requires k <= |nics| && k <= |topUps|
  {
    if k == 0 then 0
    else
      var n, a := nics[k - 1].addresses, topUps[k - 1];
      Addresses(nics, topUps, k - 1) + n + (if n < IPS_PER_ENI && a.Some? then a.value else 0)
  }

  /** No address at all means no interface held one and no assign call that was made added one. */
  lemma {:induction false} NoAddresses(nics: seq<Nic>, topUps: seq<Option<nat>>, k: nat)
    requires k <= |nics| && k <= |topUps|
    ensures Addresses(nics, topUps, k) == 0 <==>
            forall i :: 0 <= i < k ==> nics[i].addresses == 0 && (topUps[i].None? || topUps[i].value == 0)
  {
    if k > 0 {
      NoAddresses(nics, topUps, k - 1);
    }
  }

  function Kept(cloud: Cloud, a: Answers): seq<Nic>
    requires a.Long()
  {
    if a.listing.None? then []
    else SelectReusable(a.listing.value, ENIS_PER_NODE) + Blank(Ensured(cloud, a.listing, a.rounds, ENIS_PER_NODE).kept)
  }

  lemma {:induction false} KeptBound(cloud: Cloud, a: Answers)
    requires a.Long()
    ensures |Kept(cloud, a)| <= ENIS_PER_NODE
  {
    if a.listing.Some? {
      EveryIdAccounted(cloud, a.rounds, 0, ENIS_PER_NODE - |SelectReusable(a.listing.value, ENIS_PER_NODE)|);
    }
  }

  /** The cloud and the outcome of a whole provisioning. */
  function CloudAfter(cloud: Cloud, a: Answers): Cloud
    requires a.Long()
  {
    if a.ready then Ensured(cloud, a.listing, a.rounds, ENIS_PER_NODE).cloud else cloud
  }

  function Provisioned(cloud: Cloud, a: Answers): Outcome
    requires a.Long()
  {
    if !a.ready then Bare
    else
      var nics := Kept(cloud, a);
      KeptBound(cloud, a);
      if !Ensured(cloud, a.listing, a.rounds, ENIS_PER_NODE).ok then Failed(IdsOf(nics))
      else if Addresses(nics, a.topUps, |nics|) == 0 || !a.gateway then Failed(IdsOf(nics))
      else Done(IdsOf(nics), Addresses(nics, a.topUps, |nics|))
  }

  /** How provisioning ends: with an error alone before the interface loop; with ids and addresses when the listing
      came, every missing round went on, some interface holds or was given an address, and there is a gateway;
      otherwise with an error and ids.  The ids are always those of the interfaces kept. */
  lemma ProvisionDecides(cloud: Cloud, a: Answers)
    requires a.Long()
    ensures |Kept(cloud, a)| <= ENIS_PER_NODE
    ensures var out, enis := Provisioned(cloud, a), Kept(cloud, a);
            && (out.Bare? <==> !a.ready)
            && (out.Done? <==>
                  && a.ready && a.listing.Some? && a.gateway
                  && (forall i :: 0 <= i < ENIS_PER_NODE - |SelectReusable(a.listing.value, ENIS_PER_NODE)|
                        ==> GoesOn(a.rounds[i]))
                  && exists i :: 0 <= i < |enis| &&
                       (enis[i].addresses > 0 || (a.topUps[i].Some? && a.topUps[i].value > 0)))
            && (!out.Bare? ==> OutcomeIds(out) == IdsOf(enis))
            && (out.Done? ==> out.addresses == Addresses(enis, a.topUps, |enis|))
  {
    KeptBound(cloud, a);
    if a.ready && a.listing.Some? {
      var enis := Kept(cloud, a);
      LoopSucceeds(cloud, a.rounds, 0, ENIS_PER_NODE - |SelectReusable(a.listing.value, ENIS_PER_NODE)|);
      SomeAddresses(enis, a.topUps);
      ReturnsKept(cloud, a);
    }
  }

  lemma SomeAddresses(nics: seq<Nic>, topUps: seq<Option<nat>>)
    requires |nics| <= |topUps|
    ensures Addresses(nics, topUps, |nics|) > 0 <==>
              exists i :: 0 <= i < |nics| && (nics[i].addresses > 0 || (topUps[i].Some? && topUps[i].value > 0))
  {
    NoAddresses(nics, topUps, |nics|);
  }

  function Held(nics: seq<Nic>, k: nat): nat
    requires k <= |nics|
  {
    if k == 0 then 0 else Held(nics, k - 1) + nics[k - 1].addresses
  }

  /** Interfaces short of 20 are topped up: with what is missing to 20 each.  Those that hold 20, and those whose call
      failed, count with what they hold. */
  lemma {:induction false} ToppedUp(nics: seq<Nic>, topUps: seq<Option<nat>>, k: nat)
    requires k <= |nics| && k <= |topUps|
    ensures (forall i :: 0 <= i < k ==> nics[i].addresses <= 20 && topUps[i] == Some(20 - nics[i].addresses)) ==>
              Addresses(nics, topUps, k) == 20 * k
    ensures (forall i :: 0 <= i < k ==> nics[i].addresses >= 20 || topUps[i].None?) ==>
              Addresses(nics, topUps, k) == Held(nics, k)
  {
    if k > 0 {
      ToppedUp(nics, topUps, k - 1);
    }
  }

  /** However provisioning ends, an id learned during it whose interface still exists is among the ids it returns. */
  lemma LearnedIsReturned(cloud: Cloud, a: Answers)
    requires a.Long() && cloud.live <= cloud.used && FreshIds(a.rounds, 0, cloud.used)
    ensures var after := CloudAfter(cloud, a);
            && cloud.learned <= after.learned && cloud.deleted <= after.deleted
            && after.live <= after.used && cloud.used <= after.used
            && after.live * cloud.used == cloud.live
            && (after.learned - cloud.learned) * after.live <= Members(OutcomeIds(Provisioned(cloud, a)))
            && (after.learned - cloud.learned) !! cloud.used
            && after.learned - cloud.learned <= after.used
  {
    if a.ready && a.listing.Some? {
      var reused := SelectReusable(a.listing.value, ENIS_PER_NODE);
      var n := ENIS_PER_NODE - |reused|;
      var r := Rounds(cloud, a.rounds, 0, n);
      EveryIdAccounted(cloud, a.rounds, 0, n);
      KeptOrGone(cloud, a.rounds, 0, n);
      assert IdsOf(reused + Blank(r.kept)) == IdsOf(reused) + r.kept;
      assert r.named * r.cloud.live == Members(r.kept);
      forall id | id in Members(r.kept)
        ensures id in Members(IdsOf(reused) + r.kept)
      {
        assert id in r.kept;
      }
    }
  }

  /** The interfaces found attached that provisioning takes over. */
  function Reused(a: Answers): set<Id> {
    if a.ready && a.listing.Some? then Members(IdsOf(SelectReusable(a.listing.value, ENIS_PER_NODE))) else {}
  }

  lemma IdsOfKept(reused: seq<Nic>, kept: seq<Id>)
    ensures Members(IdsOf(reused + Blank(kept))) == Members(IdsOf(reused)) + Members(kept)
  {
    assert IdsOf(reused + Blank(kept)) == IdsOf(reused) + kept;
  }

  lemma ReturnsKept(cloud: Cloud, a: Answers)
    requires a.Long()
    ensures OutcomeIds(Provisioned(cloud, a)) == if a.ready then IdsOf(Kept(cloud, a)) else []
  {
  }

  lemma KeptReused(cloud: Cloud, a: Answers)
    requires a.Long() && cloud.live <= cloud.used && FreshIds(a.rounds, 0, cloud.used) && a.listing.Some?
    ensures var reused := IdsOf(SelectReusable(a.listing.value, ENIS_PER_NODE));
            Members(IdsOf(Kept(cloud, a))) * cloud.used == Members(reused) * cloud.used
  {
    var reused := SelectReusable(a.listing.value, ENIS_PER_NODE);
    var n := ENIS_PER_NODE - |reused|;
    EveryIdAccounted(cloud, a.rounds, 0, n);
    KeptOrGone(cloud, a.rounds, 0, n);
    var kept := Rounds(cloud, a.rounds, 0, n).kept;
    IdsOfKept(reused, kept);
    AddOutside(Members(IdsOf(reused)), Members(kept), cloud.used);
  }

  /** Of the interfaces there were before, provisioning returns exactly those it takes over. */
  lemma ReturnsReused(cloud: Cloud, a: Answers)
    requires a.Long() && cloud.live <= cloud.used && FreshIds(a.rounds, 0, cloud.used)
    ensures Members(OutcomeIds(Provisioned(cloud, a))) * cloud.used == Reused(a) * cloud.used
  {
    ReturnsKept(cloud, a);
    if a.ready && a.listing.Some? {
      KeptReused(cloud, a);
    } else {
      assert Members([]) == {};
    }
  }

  lemma AddOutside(r: set<Id>, k: set<Id>, u: set<Id>)
    requires k !! u
    ensures (r + k) * u == r * u
  {
  }

  method ListIds(enis: seq<Nic>) returns (ids: seq<Id>)
    ensures ids == IdsOf(enis)
  {
    ids := [];
    for i := 0 to |enis|
      invariant ids == IdsOf(enis)[..i]
    {
      ids := ids + [enis[i].id];
    }
  }

  /** Interfaces short of addresses are topped up; a call that fails is passed over. */
  method TopUp(enis: seq<Nic>, topUps: seq<Option<nat>>) returns (total: nat)
    requires |enis| <= |topUps|
    ensures total == Addresses(enis, topUps, |enis|)
  {
    total := 0;
    for i := 0 to |enis|
      invariant total == Addresses(enis, topUps, i)
    {
      total := total + enis[i].addresses;
      if IPS_PER_ENI - enis[i].addresses > 0 {
        if topUps[i].None? {
          continue;
        }
        total := total + topUps[i].value;
      }
    }
  }

  method ProvisionNetwork(cloud0: Cloud, a: Answers) returns (cloud: Cloud, out: Outcome)
    requires a.Long()
    ensures cloud == CloudAfter(cloud0, a) && out == Provisioned(cloud0, a)
  {
    if !a.ready {
      return cloud0, Bare;
    }
    var enis, ok;
    cloud, enis, ok := EnsureEnis(cloud0, a.listing, a.rounds, ENIS_PER_NODE);
    assert enis == Kept(cloud0, a);
    KeptBound(cloud0, a);
    var ids := ListIds(enis);
    if !ok {
      return cloud, Failed(ids);
    }
    var total := TopUp(enis, a.topUps);
    if total == 0 || !a.gateway {
      return cloud, Failed(ids);
    }
    out := Done(ids, total);
  }
}
