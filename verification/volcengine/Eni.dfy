/** Network interfaces: reused, created, attached, deleted, and torn down. */
module Eni {

  type Id = string

  datatype Option<+T> = None | Some(value: T)

  /** An interface as the cloud describes it: device is the instance it is attached to, if any, and addresses is
      how many secondary addresses it holds. */
  datatype Nic = Nic(id: Id, primary: bool, device: string, addresses: nat)

  // ---- pure parts ----

  function NonPrimary(nics: seq<Nic>): (r: seq<Nic>)
    ensures forall n :: n in r <==> n in nics && !n.primary
  {
    if nics == [] then []
    else
      assert nics == nics[..|nics| - 1] + [nics[|nics| - 1]];
      NonPrimary(nics[..|nics| - 1]) + (if nics[|nics| - 1].primary then [] else [nics[|nics| - 1]])
  }

  /** They come in listing order, each as often as it is listed: wherever the listing is cut in two, first those of the
      first part, then those of the second; and of one interface it is that one, unless it is primary. */
  lemma {:induction false} NonPrimaryInOrder(a: seq<Nic>, b: seq<Nic>, nic: Nic)
    ensures NonPrimary(a + b) == NonPrimary(a) + NonPrimary(b)
    ensures NonPrimary([nic]) == if nic.primary then [] else [nic]
  {
    assert NonPrimary([nic][..0]) == [];
    if b == [] {
      assert a + b == a;
    } else {
      var n := |b| - 1;
      NonPrimaryInOrder(a, b[..n], nic);
      assert (a + b)[..|a + b| - 1] == a + b[..n] && (a + b)[|a + b| - 1] == b[n];
    }
  }

  function SelectReusable(nics: seq<Nic>, count: nat): seq<Nic> {
    var all := NonPrimary(nics);
    all[..if |all| < count then |all| else count]
  }

  function IdsOf(nics: seq<Nic>): (ids: seq<Id>)
    ensures |ids| == |nics| && forall i :: 0 <= i < |ids| ==> ids[i] == nics[i].id
  {
    seq(|nics|, i requires 0 <= i < |nics| => nics[i].id)
  }

  function Members(ids: seq<Id>): set<Id> {
    set x | x in ids
  }

  function Merge(recorded: seq<Id>, attached: seq<Id>): seq<Id> {
    if attached == [] then recorded
    else
      var m := Merge(recorded, attached[..|attached| - 1]);
      var id := attached[|attached| - 1];
      if id in m then m else m + [id]
  }

  ghost predicate Distinct(ids: seq<Id>) {
    forall i, j :: 0 <= i < j < |ids| ==> ids[i] != ids[j]
  }

  /** Merging keeps what was recorded in its place, adds what is missing, and repeats nothing. */
  lemma {:induction false} MergeAdds(recorded: seq<Id>, attached: seq<Id>)
    ensures recorded <= Merge(recorded, attached)
    ensures Members(Merge(recorded, attached)) == Members(recorded) + Members(attached)
    ensures Distinct(recorded) ==> Distinct(Merge(recorded, attached))
  {
    if attached != [] {
      var n := |attached| - 1;
      var m := Merge(recorded, attached[..n]);
      MergeAdds(recorded, attached[..n]);
      assert attached == attached[..n] + [attached[n]];
      assert Members(attached) == Members(attached[..n]) + {attached[n]};
      assert Members(m + [attached[n]]) == Members(m) + {attached[n]};
      if attached[n] in m {
        assert attached[n] in Members(m);
      }
    }
  }

  method MergeEniIds(recorded: seq<Id>, attached: seq<Id>) returns (ids: seq<Id>)
    ensures ids == Merge(recorded, attached)
  {
    ids := recorded;
    for n := 0 to |attached|
      invariant ids == Merge(recorded, attached[..n])
    {
      assert attached[..n + 1][..n] == attached[..n];
      if attached[n] !in ids {
        ids := ids + [attached[n]];
      }
    }
    assert attached[..|attached|] == attached;
  }

  // ---- the cloud ----

  /** What exists now, the ids our parsed create replies named, the ids we deleted, every id the cloud ever used. */
  datatype Cloud = Cloud(live: set<Id>, learned: set<Id>, deleted: set<Id>, used: set<Id>) {
    /** An interface comes up; its id is learned only when the reply can be parsed. */
    function Create(id: Id, parsed: bool): Cloud {
      this.(live := live + {id}, used := used + {id}, learned := if parsed then learned + {id} else learned)
    }

    function Delete(id: Id, ok: bool): Cloud {
      if ok then this.(live := live - {id}, deleted := deleted + {id}) else this
    }
  }

  // ---- the create, attach, delete loop ----

  datatype Create = Refused | Unparsed(id: Id) | Created(id: Id)

  /** What the cloud and the context answer in one round of the loop: the create call, the wait after it, the attach
      call, the clean-up delete, whether the context is done after that, and the wait after an attach. */
  datatype Round = Round(create: Create, settled: bool, attached: bool, deleted: bool, cancelled: bool, waited: bool)

  /** Where the loop ends: the interfaces it keeps, the ids it learned, and the ones of those it deleted again. */
  datatype Looped = Looped(cloud: Cloud, kept: seq<Id>, named: set<Id>, gone: set<Id>, ok: bool)

  /** Rounds k to n of the loop. */
  function Rounds(cloud: Cloud, rounds: seq<Round>, k: nat, n: nat): Looped
    requires k <= n <= |rounds|
    decreases n - k
  {
    if k == n then Looped(cloud, [], {}, {}, true)
    else
      var rd := rounds[k];
      match rd.create
      case Refused => Looped(cloud, [], {}, {}, false)
      case Unparsed(id) => Looped(cloud.Create(id, false), [], {}, {}, false)
      case Created(id) =>
        var up := cloud.Create(id, true);
        if rd.settled && rd.attached then
          if rd.waited then Keep(id, Rounds(up, rounds, k + 1, n)) else Looped(up, [id], {id}, {}, false)
        else if !rd.deleted then Looped(up, [id], {id}, {}, false)
        else if !rd.settled || rd.cancelled then Looped(up.Delete(id, true), [], {id}, {id}, false)
        else Drop(id, Rounds(up.Delete(id, true), rounds, k + 1, n))
  }

  function Keep(id: Id, rest: Looped): Looped {
    rest.(kept := [id] + rest.kept, named := {id} + rest.named)
  }

  function Drop(id: Id, rest: Looped): Looped {
    rest.(named := {id} + rest.named, gone := {id} + rest.gone)
  }

  /** The cloud never gives an id twice. */
  ghost predicate FreshIds(rounds: seq<Round>, k: nat, used: set<Id>) {
    && (forall i :: k <= i < |rounds| && !rounds[i].create.Refused? ==> rounds[i].create.id !in used)
    && (forall i, j :: k <= i < j < |rounds| && !rounds[i].create.Refused? && !rounds[j].create.Refused?
          ==> rounds[i].create.id != rounds[j].create.id)
  }

  /** For any answers and any cancellation point: the ids learned are exactly those kept and those deleted again, at
      most one interface is kept a round, and every id deleted had been learned in this very loop. */
  lemma {:induction false} EveryIdAccounted(cloud: Cloud, rounds: seq<Round>, k: nat, n: nat)
    requires k <= n <= |rounds|
    ensures var r := Rounds(cloud, rounds, k, n);
            && r.named == Members(r.kept) + r.gone
            && |r.kept| <= n - k
            && r.cloud.learned == cloud.learned + r.named
            && r.cloud.deleted == cloud.deleted + r.gone
            && cloud.used <= r.cloud.used
    decreases n - k
  {
    if k < n && rounds[k].create.Created? {
      var rd, id := rounds[k], rounds[k].create.id;
      var up := cloud.Create(id, true);
      if rd.settled && rd.attached && rd.waited {
        EveryIdAccounted(up, rounds, k + 1, n);
        KeepMembers(id, Rounds(up, rounds, k + 1, n).kept);
      } else if rd.settled && !rd.attached && rd.deleted && !rd.cancelled {
        EveryIdAccounted(up.Delete(id, true), rounds, k + 1, n);
      }
    }
  }

  lemma KeepMembers(id: Id, ids: seq<Id>)
    ensures Members([id] + ids) == {id} + Members(ids)
  {
  }

  /** When the cloud gives no id twice, no id is both kept and deleted, what is kept exists, what was deleted does
      not, nobody else's interface is touched, and a learned id that still exists is one of those kept. After a run
      without error, every round created an interface, kept if it could be attached and deleted if not. */
  lemma {:induction false} KeptOrGone(cloud: Cloud, rounds: seq<Round>, k: nat, n: nat)
    requires k <= n <= |rounds| && cloud.live <= cloud.used && FreshIds(rounds, k, cloud.used)
    ensures var r := Rounds(cloud, rounds, k, n);
            && Members(r.kept) !! r.gone && Distinct(r.kept)
            && r.named !! cloud.used
            && Members(r.kept) <= r.cloud.live <= r.cloud.used && r.gone !! r.cloud.live
            && r.cloud.live * cloud.used == cloud.live
            && r.named <= r.cloud.used
            && r.named * r.cloud.live == Members(r.kept)
            && (r.ok ==> forall i :: k <= i < n ==>
                  && rounds[i].create.Created?
                  && rounds[i].create.id in (if rounds[i].attached then Members(r.kept) else r.gone))
    decreases n - k
  {
    if k < n && rounds[k].create.Created? {
      var rd, id := rounds[k], rounds[k].create.id;
      var up := cloud.Create(id, true);
      if rd.settled && rd.attached && rd.waited {
        var r := Rounds(up, rounds, k + 1, n);
        KeptOrGone(up, rounds, k + 1, n);
        EveryIdAccounted(up, rounds, k + 1, n);
        KeepMembers(id, r.kept);
        forall i | 0 <= i < |r.kept|
          ensures r.kept[i] != id
        {
          assert r.kept[i] in Members(r.kept);
        }
      } else if rd.settled && !rd.attached && rd.deleted && !rd.cancelled {
        KeptOrGone(up.Delete(id, true), rounds, k + 1, n);
        EveryIdAccounted(up.Delete(id, true), rounds, k + 1, n);
      }
    }
  }

  /** A round after which the loop goes on: an interface was created and either attached and waited for, or not
      attached and deleted again while the context was not done. */
  predicate GoesOn(rd: Round) {
    && rd.create.Created? && rd.settled
    && if rd.attached then rd.waited else rd.deleted && !rd.cancelled
  }

  /** The loop ends without error exactly when it goes on after every round, and when besides every interface could be
      attached it keeps one for each round, in order. */
  lemma {:induction false} LoopSucceeds(cloud: Cloud, rounds: seq<Round>, k: nat, n: nat)
    requires k <= n <= |rounds|
    ensures var r := Rounds(cloud, rounds, k, n);
            && (r.ok <==> forall i :: k <= i < n ==> GoesOn(rounds[i]))
            && (r.ok && (forall i :: k <= i < n ==> rounds[i].attached) ==>
                  |r.kept| == n - k && forall i :: 0 <= i < n - k ==> r.kept[i] == rounds[k + i].create.id)
    decreases n - k
  {
    if k < n && GoesOn(rounds[k]) {
      var up := cloud.Create(rounds[k].create.id, true);
      var next := if rounds[k].attached then up else up.Delete(rounds[k].create.id, true);
      LoopSucceeds(next, rounds, k + 1, n);
    }
  }

  /** What the loop does to one interface, in each round up to and with the first after which it does not go on. */
  lemma {:induction false} EachRoundDecides(cloud: Cloud, rounds: seq<Round>, k: nat, n: nat, i: nat)
    requires k <= i < n <= |rounds| && rounds[i].create.Created?
    requires forall j :: k <= j < i ==> GoesOn(rounds[j])
    ensures var r, rd := Rounds(cloud, rounds, k, n), rounds[i];
            && rd.create.id in r.named
            && (rd.settled && rd.attached ==> rd.create.id in r.kept)
            && (!(rd.settled && rd.attached) && !rd.deleted ==> rd.create.id in r.kept)
            && (!(rd.settled && rd.attached) && rd.deleted ==> rd.create.id in r.gone)
    decreases n - k
  {
    if k < i {
      var up := cloud.Create(rounds[k].create.id, true);
      var next := if rounds[k].attached then up else up.Delete(rounds[k].create.id, true);
      EachRoundDecides(next, rounds, k + 1, n, i);
    }
  }

  /** An interface just created: all that is known of it is its id. */
  function Blank(ids: seq<Id>): (nics: seq<Nic>)
    ensures IdsOf(nics) == ids && forall n :: n in nics ==> !n.primary && n.device == ""
  {
    seq(|ids|, i requires 0 <= i < |ids| => Nic(ids[i], false, "", 0))
  }

  lemma KeepOne(reused: seq<Nic>, kept: seq<Id>, id: Id, rest: seq<Id>)
    ensures reused + Blank(kept + [id]) == reused + Blank(kept) + [Nic(id, false, "", 0)]
    ensures kept + ([id] + rest) == kept + [id] + rest
    ensures kept + [] == kept
  {
  }

  /** The whole of ensureENIs: what the listing offers for reuse, then the loop for what is missing. */
  function Ensured(cloud: Cloud, listing: Option<seq<Nic>>, rounds: seq<Round>, count: nat): Looped
    requires count <= |rounds|
  {
    if listing.None? then Looped(cloud, [], {}, {}, false)
    else Rounds(cloud, rounds, 0, count - |SelectReusable(listing.value, count)|)
  }

  method EnsureEnis(cloud0: Cloud, listing: Option<seq<Nic>>, rounds: seq<Round>, count: nat)
    returns (cloud: Cloud, result: seq<Nic>, ok: bool)
    requires count <= |rounds|
    ensures var r := Ensured(cloud0, listing, rounds, count);
            && cloud == r.cloud && ok == r.ok
            && result == (if listing.None? then [] else SelectReusable(listing.value, count) + Blank(r.kept))
  {
    cloud, result, ok := cloud0, [], false;
    if listing.None? {
      return;
    }
    result := SelectReusable(listing.value, count);
    var n := count - |result|;
    ghost var reused, kept := result, [];
    ghost var whole := Rounds(cloud0, rounds, 0, n);
    assert reused + Blank([]) == reused;
    for k := 0 to n
      invariant result == reused + Blank(kept)
      invariant Rounds(cloud, rounds, k, n).cloud == whole.cloud
      invariant Rounds(cloud, rounds, k, n).ok == whole.ok
      invariant kept + Rounds(cloud, rounds, k, n).kept == whole.kept
    {
      var rd := rounds[k];
      if rd.create.Refused? {
        return;
      }
      var id := rd.create.id;
      KeepOne(reused, kept, id, []);
      if rd.create.Unparsed? {
        cloud := cloud.Create(id, false);
        return;
      }
      cloud := cloud.Create(id, true);
      if !rd.settled {
        cloud := cloud.Delete(id, rd.deleted);
        if !rd.deleted {
          result, kept := result + [Nic(id, false, "", 0)], kept + [id];
        }
        return;
      }
      if !rd.attached {
        cloud := cloud.Delete(id, rd.deleted);
        if !rd.deleted {
          result, kept := result + [Nic(id, false, "", 0)], kept + [id];
          return;
        }
        if rd.cancelled {
          return;
        }
        continue;
      }
      KeepOne(reused, kept, id, Rounds(cloud, rounds, k + 1, n).kept);
      result, kept := result + [Nic(id, false, "", 0)], kept + [id];
      if !rd.waited {
        return;
      }
    }
    ok := true;
  }

  /** What is offered for reuse: listed interfaces that are not primary, in listing order, as many as asked for or
      all there are. */
  lemma ReuseKeepsSecondaries(nics: seq<Nic>, count: nat)
    ensures var r := SelectReusable(nics, count);
            && r <= NonPrimary(nics)
            && (|r| == count || r == NonPrimary(nics))
            && |r| <= count
            && forall n :: n in r ==> n in nics && !n.primary
  {
  }

  /** The interface ledger, on every exit: the reused interfaces stay first in the result and are not primary, the
      result never exceeds count, and each id a parsed create reply named is in the result or was deleted, never
      both.  There is no error exactly when the listing came and every missing round went on, and when all could be
      attached the result has count interfaces. */
  lemma EniLedger(cloud: Cloud, listing: Option<seq<Nic>>, rounds: seq<Round>, count: nat)
    requires count <= |rounds| && cloud.live <= cloud.used && FreshIds(rounds, 0, cloud.used)
    requires listing.Some? ==> Members(IdsOf(listing.value)) <= cloud.used
    ensures var r := Ensured(cloud, listing, rounds, count);
            var reused := if listing.None? then [] else SelectReusable(listing.value, count);
            var result := IdsOf(reused) + r.kept;
            && r.cloud.learned == cloud.learned + r.named
            && r.cloud.deleted == cloud.deleted + r.gone
            && (forall id :: id in r.named ==> (id in result) != (id in r.gone))
            && r.gone !! Members(result)
            && (forall n :: n in reused ==> !n.primary && n.id in result)
            && |result| <= count
            && (r.ok <==> listing.Some? && forall i :: 0 <= i < count - |reused| ==> GoesOn(rounds[i]))
            && (r.ok && (forall i :: 0 <= i < count - |reused| ==> rounds[i].attached) ==> |result| == count)
  {
    if listing.Some? {
      var reused := SelectReusable(listing.value, count);
      var n := count - |reused|;
      var r := Rounds(cloud, rounds, 0, n);
      EveryIdAccounted(cloud, rounds, 0, n);
      KeptOrGone(cloud, rounds, 0, n);
      LoopSucceeds(cloud, rounds, 0, n);
      ReuseKeepsSecondaries(listing.value, count);
      forall i | 0 <= i < |reused|
        ensures IdsOf(reused)[i] in cloud.used && reused[i].id in IdsOf(reused)
      {
        assert reused[i] in listing.value;
        var j :| 0 <= j < |listing.value| && listing.value[j] == reused[i];
        assert IdsOf(listing.value)[j] in Members(IdsOf(listing.value));
        assert IdsOf(reused)[i] == reused[i].id;
      }
      forall id | id in r.kept
        ensures id in Members(r.kept)
      {
      }
    }
  }

  // ---- teardown ----

  /** What the cloud and the context answer while one listed interface is torn down. */
  datatype Answer = Answer(detached: bool, settled: bool, deleted: bool)

  datatype Torn = Torn(cloud: Cloud, gone: set<Id>, ok: bool)

  /** The listed interfaces from k on. */
  function TornDown(cloud: Cloud, nics: seq<Nic>, answers: seq<Answer>, k: nat): Torn
    requires k <= |nics| <= |answers|
    decreases |nics| - k
  {
    if k == |nics| then Torn(cloud, {}, true)
    else
      var nic, a := nics[k], answers[k];
      if nic.primary then TornDown(cloud, nics, answers, k + 1)
      else if nic.device != "" && !a.detached then TornDown(cloud, nics, answers, k + 1).(ok := false)
      else if nic.device != "" && !a.settled then Torn(cloud, {}, false)
      else if !a.deleted then TornDown(cloud, nics, answers, k + 1).(ok := false)
      else
        var rest := TornDown(cloud.Delete(nic.id, true), nics, answers, k + 1);
        rest.(gone := {nic.id} + rest.gone)
  }

  /** The ids of the interfaces from k on that are not primary. */
  ghost function Doomed(nics: seq<Nic>, k: nat): set<Id> {
    set i | k <= i < |nics| && !nics[i].primary :: nics[i].id
  }

  /** Only listed interfaces that are not primary are deleted, and all of them when no error is reported. */
  lemma {:induction false} TeardownDeletes(cloud: Cloud, nics: seq<Nic>, answers: seq<Answer>, k: nat)
    requires k <= |nics| <= |answers|
    ensures var r := TornDown(cloud, nics, answers, k);
            && r.gone <= Doomed(nics, k)
            && (r.ok ==> r.gone == Doomed(nics, k))
            && r.cloud == cloud.(live := cloud.live - r.gone, deleted := cloud.deleted + r.gone)
    decreases |nics| - k
  {
    if k == |nics| {
      assert Doomed(nics, k) == {};
      assert cloud.live - {} == cloud.live && cloud.deleted + {} == cloud.deleted;
    } else {
      var nic, a := nics[k], answers[k];
      assert Doomed(nics, k) == Doomed(nics, k + 1) + (if nic.primary then {} else {nic.id});
      assert cloud.live - {} == cloud.live && cloud.deleted + {} == cloud.deleted;
      TeardownDeletes(cloud, nics, answers, k + 1);
      TeardownDeletes(cloud.Delete(nic.id, true), nics, answers, k + 1);
      var rest := TornDown(cloud.Delete(nic.id, true), nics, answers, k + 1);
      assert cloud.live - {nic.id} - rest.gone == cloud.live - ({nic.id} + rest.gone);
      assert cloud.deleted + {nic.id} + rest.gone == cloud.deleted + ({nic.id} + rest.gone);
    }
  }

  /** Whether the cloud lets one listed interface go. */
  predicate LetsGo(nic: Nic, a: Answer) {
    !nic.primary && (nic.device == "" || (a.detached && a.settled)) && a.deleted
  }

  /** The context ends while this one is detached: nothing after it is looked at. */
  predicate Interrupts(nic: Nic, a: Answer) {
    !nic.primary && nic.device != "" && a.detached && !a.settled
  }

  /** Exactly which interfaces are deleted, and when no error is reported: those the cloud lets go before the context
      ends, however many others it does not; and no error when it lets all go that are not primary. */
  lemma {:induction false} TornDownExactly(cloud: Cloud, nics: seq<Nic>, answers: seq<Answer>, k: nat)
    requires k <= |nics| <= |answers|
    ensures var r := TornDown(cloud, nics, answers, k);
            && (r.ok <==> forall i :: k <= i < |nics| ==> nics[i].primary || LetsGo(nics[i], answers[i]))
            && (forall id :: id in r.gone <==>
                  exists i :: k <= i < |nics| && nics[i].id == id && LetsGo(nics[i], answers[i])
                              && forall j :: k <= j < i ==> !Interrupts(nics[j], answers[j]))
    decreases |nics| - k
  {
    if k < |nics| {
      var nic, a := nics[k], answers[k];
      var next := if LetsGo(nic, a) then cloud.Delete(nic.id, true) else cloud;
      TornDownExactly(next, nics, answers, k + 1);
      var r, rest := TornDown(cloud, nics, answers, k), TornDown(next, nics, answers, k + 1);
      forall id
        ensures id in r.gone <==>
                  exists i :: k <= i < |nics| && nics[i].id == id && LetsGo(nics[i], answers[i])
                              && forall j :: k <= j < i ==> !Interrupts(nics[j], answers[j])
      {
        if i :| k <= i < |nics| && nics[i].id == id && LetsGo(nics[i], answers[i])
                && forall j :: k <= j < i ==> !Interrupts(nics[j], answers[j]) {
          assert i == k || !Interrupts(nics[k], answers[k]);
        }
      }
    }
  }

  method Teardown(cloud0: Cloud, listing: Option<seq<Nic>>, answers: seq<Answer>) returns (cloud: Cloud, ok: bool)
    requires listing.Some? ==> |listing.value| <= |answers|
    ensures listing.None? ==> cloud == cloud0 && !ok
    ensures listing.Some? ==>
              var r := TornDown(cloud0, listing.value, answers, 0);
              cloud == r.cloud && ok == r.ok
  {
    cloud, ok := cloud0, false;
    if listing.None? {
      return;
    }
    var nics := listing.value;
    ghost var whole := TornDown(cloud0, nics, answers, 0);
    var errs := 0;
    for k := 0 to |nics|
      invariant 0 <= errs
      invariant TornDown(cloud, nics, answers, k).cloud == whole.cloud
      invariant whole.ok == (errs == 0 && TornDown(cloud, nics, answers, k).ok)
    {
      var nic := nics[k];
      if nic.primary {
        continue;
      }
      if nic.device != "" {
        if !answers[k].detached {
          errs := errs + 1;
          continue;
        }
        if !answers[k].settled {
          return;
        }
      }
      cloud := cloud.Delete(nic.id, answers[k].deleted);
      if !answers[k].deleted {
        errs := errs + 1;
        continue;
      }
    }
    ok := errs == 0;
  }
}
