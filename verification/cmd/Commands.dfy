/** The init and teardown commands, the state file between them, and what becomes of the interfaces created. */
module Commands {
  import opened Eni
  import opened Provision

  datatype Platform = Volcengine | Gke

  /** The part of pool.json that teardown acts on. */
  datatype State = State(platform: Platform, ids: seq<Id>)

  /** What a command leaves behind: the state file, if any, and the cloud. */
  datatype Node = Node(disk: Option<State>, cloud: Cloud)

  /** The most interfaces one listing reply holds. */
  const PAGE_SIZE := 100

  function Load(disk: Option<State>, readable: bool): Option<State> {
    if readable then disk else None
  }

  function Recorded(n: Node): set<Id> {
    if n.disk.Some? then Members(n.disk.value.ids) else {}
  }

  /** The interfaces we created, know of, and have not seen deleted. */
  function Outstanding(n: Node): set<Id> {
    n.cloud.learned * n.cloud.live
  }

  /** The interfaces nothing on this node will ever delete. */
  function Lost(n: Node): set<Id> {
    Outstanding(n) - Recorded(n)
  }

  ghost predicate Known(c: Cloud) {
    c.live <= c.used && c.learned <= c.used
  }

  // ---- init ----

  /** What one init meets: its flags, the state file, the platform, the cloud, the two kinds of save, and whether
      the node could be set up afterwards. */
  datatype InitEnv = InitEnv(flags: bool, dryRun: bool, readable: bool, platform: Platform, seedSaved: bool,
                             platformOk: bool, answers: Answers, gke: bool, saved: bool, nodeOk: bool)

  function Outcomes(c: Cloud, e: InitEnv): (r: (Cloud, Outcome))
    requires e.answers.Long()
  {
    if e.platform.Volcengine? then (CloudAfter(c, e.answers), Provisioned(c, e.answers))
    else (c, if e.gke then Done([], 1) else Bare)
  }

  /** The state file once the seed, if one is needed, is saved; none when that save fails. */
  function Seeded(n: Node, e: InitEnv): Option<Option<State>> {
    if Load(n.disk, e.readable).Some? then Some(n.disk)
    else if e.seedSaved then Some(Some(State(e.platform, [])))
    else None
  }

  predicate Provisions(n: Node, e: InitEnv) {
    e.flags && !e.dryRun && Seeded(n, e).Some? && e.platformOk
  }

  function Init(n: Node, e: InitEnv): Node
    requires e.answers.Long()
  {
    if !e.flags || e.dryRun || Seeded(n, e).None? then n
    else
      var disk := Seeded(n, e).value;
      if !e.platformOk then Node(disk, n.cloud)
      else
        var (cloud, out) := Outcomes(n.cloud, e);
        var existing := Load(n.disk, e.readable);
        var recorded := if existing.Some? then existing.value else State(e.platform, []);
        var ids := Merge(recorded.ids, OutcomeIds(out));
        if out.Bare? || (out.Failed? && out.ids == []) || !e.saved then Node(disk, cloud)
        else if out.Failed? then Node(Some(recorded.(ids := ids)), cloud)
        else Node(Some(State(e.platform, ids)), cloud)
  }

  // ---- teardown ----

  datatype TeardownEnv = TeardownEnv(readable: bool, dryRun: bool, force: bool, daemon: bool, platformOk: bool,
                                     listing: Option<seq<Nic>>, answers: seq<Answer>, gke: bool, removed: bool) {
    ghost predicate Long() {
      listing.Some? ==> |listing.value| <= |answers|
    }
  }

  function TeardownResult(c: Cloud, platform: Platform, e: TeardownEnv): (Cloud, bool)
    requires e.Long()
  {
    if platform.Gke? then (c, e.gke)
    else if e.listing.None? then (c, false)
    else
      var r := TornDown(c, e.listing.value, e.answers, 0);
      (r.cloud, r.ok)
  }

  predicate TearsDown(n: Node, e: TeardownEnv) {
    Load(n.disk, e.readable).Some? && !e.dryRun && (e.force || !e.daemon) && e.platformOk
  }

  function TeardownStep(n: Node, e: TeardownEnv): Node
    requires e.Long()
  {
    if !TearsDown(n, e) then n
    else
      var (cloud, ok) := TeardownResult(n.cloud, n.disk.value.platform, e);
      Node(if ok && e.removed then None else n.disk, cloud)
  }

  /** An honest listing by ids names every recorded interface that exists, and none we created is a primary one. */
  ghost predicate Honest(nics: seq<Nic>, ids: seq<Id>, c: Cloud) {
    && Members(ids) * c.live <= Members(IdsOf(nics))
    && forall n :: n in nics && n.primary ==> n.id !in c.learned
  }

  // ---- the commands as the source runs them ----

  class Machine {
    var disk: Option<State>
    var cloud: Cloud

    function Now(): Node
      reads this
    {
      Node(disk, cloud)
    }

    constructor (disk: Option<State>, cloud: Cloud)
      ensures Now() == Node(disk, cloud)
    {
      this.disk, this.cloud := disk, cloud;
    }

    /** The file is replaced whole or not at all. */
    method Save(state: State, ok: bool)
      modifies this`disk
      ensures disk == if ok then Some(state) else old(disk)
    {
      if ok {
        disk := Some(state);
      }
    }

    method RunInit(e: InitEnv) returns (ok: bool)
      requires e.answers.Long()
      modifies this
      ensures Now() == Init(old(Now()), e)
      ensures ok <==>
                && e.flags
                && (e.dryRun || (Provisions(old(Now()), e) && Outcomes(old(cloud), e).1.Done? && e.saved && e.nodeOk))
    {
      if !e.flags {
        return false;
      }
      if e.dryRun {
        return true;
      }
      var state := State(e.platform, []);
      var existing := Load(disk, e.readable);
      if existing.None? {
        Save(state, e.seedSaved);
        if !e.seedSaved {
          return false;
        }
      }
      if !e.platformOk {
        return false;
      }
      var out := Bare;
      if e.platform.Volcengine? {
        cloud, out := ProvisionNetwork(cloud, e.answers);
      } else if e.gke {
        out := Done([], 1);
      }
      var recorded := if existing.Some? then existing.value else state;
      if !out.Done? {
        if out.Failed? && |out.ids| > 0 {
          var ids := MergeEniIds(recorded.ids, out.ids);
          recorded := recorded.(ids := ids);
          Save(recorded, e.saved);
        }
        return false;
      }
      var ids := MergeEniIds(recorded.ids, out.ids);
      state := state.(ids := ids);
      Save(state, e.saved);
      return e.saved && e.nodeOk;
    }

    method RunTeardown(e: TeardownEnv) returns (ok: bool)
      requires e.Long()
      modifies this
      ensures Now() == TeardownStep(old(Now()), e)
      ensures ok <==>
                && Load(old(disk), e.readable).Some?
                && (e.dryRun
                    || (TearsDown(old(Now()), e) && TeardownResult(old(cloud), old(disk).value.platform, e).1))
    {
      var state := Load(disk, e.readable);
      if state.None? {
        return false;
      }
      if e.dryRun {
        return true;
      }
      if !e.force && e.daemon {
        return false;
      }
      if !e.platformOk {
        return false;
      }
      match state.value.platform {
        case Volcengine => cloud, ok := Teardown(cloud, e.listing, e.answers);
        case Gke => ok := e.gke;
      }
      if !ok {
        return;
      }
      if e.removed {
        disk := None;
      }
    }
  }

  // ---- when a command acts, and what it leaves ----

  /** An init with bad flags, a dry one, and one that can neither read a state file nor save a seed change nothing.  One
      that cannot set up its platform leaves the record, or the seed.  Any other provisions; it records the ids it was
      told of, after those recorded before, when it can save: under its own platform if it succeeds, under the recorded
      one if it fails with ids. */
  lemma InitLeaves(n: Node, e: InitEnv)
    requires e.answers.Long()
    ensures var after := Init(n, e);
            var found := n.disk.Some? && e.readable;
            var kept := if found then n.disk else Some(State(e.platform, []));
            if !e.flags || e.dryRun || (!found && !e.seedSaved) then after == n
            else if !e.platformOk then after == Node(kept, n.cloud)
            else
              var out := if e.platform.Volcengine? then Provisioned(n.cloud, e.answers)
                         else if e.gke then Done([], 1) else Bare;
              && after.cloud == (if e.platform.Volcengine? then CloudAfter(n.cloud, e.answers) else n.cloud)
              && after.disk.Some?
              && (out.Done? && e.saved ==> after.disk.value.platform == e.platform)
              && ((out.Done? || OutcomeIds(out) != []) && e.saved ==>
                    && kept.value.ids <= after.disk.value.ids
                    && Members(after.disk.value.ids) == Members(kept.value.ids) + Members(OutcomeIds(out)))
              && (!out.Done? ==> after.disk.value.platform == kept.value.platform)
              && (!e.saved || (!out.Done? && OutcomeIds(out) == []) ==> after.disk == kept)
  {
    var existing := if n.disk.Some? && e.readable then n.disk.value.ids else [];
    MergeAdds(existing, OutcomeIds(Outcomes(n.cloud, e).1));
  }

  /** A teardown that finds no readable record, a dry one, one refused because the daemon runs, and one whose platform
      cannot be set up change neither file nor cloud.  Any other deletes what the cloud lets go; the state file goes
      exactly when the listing came, every listed interface was primary or let go, and the file can be removed. */
  lemma TeardownLeaves(n: Node, e: TeardownEnv)
    requires e.Long()
    ensures var after := TeardownStep(n, e);
            if n.disk.None? || !e.readable || e.dryRun || (e.daemon && !e.force) || !e.platformOk then after == n
            else if n.disk.value.platform.Gke? then
              after.cloud == n.cloud && after.disk == if e.gke && e.removed then None else n.disk
            else if e.listing.None? then after == n
            else
              var nics := e.listing.value;
              && (forall i :: 0 <= i < |nics| && LetsGo(nics[i], e.answers[i])
                      && (forall j :: 0 <= j < i ==> !Interrupts(nics[j], e.answers[j]))
                    ==> nics[i].id in after.cloud.deleted && nics[i].id !in after.cloud.live)
              && var allGone := forall i :: 0 <= i < |nics| ==> nics[i].primary || LetsGo(nics[i], e.answers[i]);
              after.disk == if e.removed && allGone then None else n.disk
  {
    if n.disk.Some? && n.disk.value.platform.Volcengine? && e.listing.Some? {
      TornDownExactly(n.cloud, e.listing.value, e.answers, 0);
      TeardownDeletes(n.cloud, e.listing.value, e.answers, 0);
    }
  }

  // ---- what one command does to the ledger ----

  /** The interfaces an init learns of itself. */
  function Learned(n: Node, e: InitEnv): set<Id>
    requires e.answers.Long()
  {
    Init(n, e).cloud.learned - n.cloud.learned
  }

  /** The interfaces an init finds attached and takes over: none when it does not get as far as saving them. */
  function Found(e: InitEnv): set<Id> {
    if e.saved && e.platformOk && e.platform.Volcengine? then Reused(e.answers) else {}
  }

  /** An init that starts over: it overwrites a state file it cannot read. */
  predicate StartsOver(n: Node, e: InitEnv) {
    e.flags && !e.dryRun && e.seedSaved && n.disk.Some? && !e.readable
  }

  lemma InitKnows(n: Node, e: InitEnv)
    requires e.answers.Long() && Known(n.cloud) && FreshIds(e.answers.rounds, 0, n.cloud.used)
    ensures var after := Init(n, e);
            && Known(after.cloud) && n.cloud.learned <= after.cloud.learned
            && after.cloud.live * n.cloud.used == n.cloud.live
            && Learned(n, e) !! n.cloud.used
            && Outstanding(after) == Outstanding(n) + Learned(n, e) * after.cloud.live
  {
    var after := Init(n, e);
    LearnedIsReturned(n.cloud, e.answers);
    assert n.cloud.learned * after.cloud.live == n.cloud.learned * n.cloud.live by {
      assert n.cloud.learned <= n.cloud.used;
      assert n.cloud.learned * after.cloud.live == n.cloud.learned * (after.cloud.live * n.cloud.used);
    }
  }

  /** An init that does not start over never forgets a recorded id, and strands no interface when its save succeeds:
      when the save fails, only interfaces it has just created. */
  lemma InitStrandsOnlyUnsaved(n: Node, e: InitEnv)
    requires e.answers.Long() && Known(n.cloud) && FreshIds(e.answers.rounds, 0, n.cloud.used)
    requires !StartsOver(n, e)
    ensures Recorded(n) <= Recorded(Init(n, e))
    ensures Lost(Init(n, e)) <= Lost(n) + (if e.saved then {} else Learned(n, e))
  {
    InitKnows(n, e);
    assert Members([]) == {};
    if Provisions(n, e) {
      var out := Outcomes(n.cloud, e).1;
      var existing := Load(n.disk, e.readable);
      var recorded: seq<Id> := if existing.Some? then existing.value.ids else [];
      LearnedIsReturned(n.cloud, e.answers);
      MergeAdds(recorded, OutcomeIds(out));
      assert Recorded(n) == Members(recorded);
    }
  }

  /** What an init that starts over writes down: what provisioning returned, if it gets there and can save. */
  lemma StartedOver(n: Node, e: InitEnv)
    requires e.answers.Long() && StartsOver(n, e)
    ensures Recorded(Init(n, e)) == if e.platformOk && e.saved then Members(OutcomeIds(Outcomes(n.cloud, e).1)) else {}
  {
    assert Members([]) == {};
    MergeAdds([], OutcomeIds(Outcomes(n.cloud, e).1));
  }

  /** What an init that starts over strands, exactly: on every exit the recorded interfaces that still exist and that it
      does not take over again, and when it cannot save, those it has just created. */
  lemma UnreadableStateStrands(n: Node, e: InitEnv)
    requires e.answers.Long() && Known(n.cloud) && FreshIds(e.answers.rounds, 0, n.cloud.used)
    requires StartsOver(n, e)
    ensures Lost(Init(n, e)) == (Outstanding(n) - Found(e))
                                + (if e.saved then {} else Learned(n, e) * Init(n, e).cloud.live)
  {
    InitKnows(n, e);
    StartedOver(n, e);
    LearnedIsReturned(n.cloud, e.answers);
    ReturnsReused(n.cloud, e.answers);
    if e.saved {
      assert Recorded(Init(n, e)) * n.cloud.used == Found(e) * n.cloud.used;
      NotRecorded(Outstanding(n), Learned(n, e) * Init(n, e).cloud.live, Recorded(Init(n, e)), Found(e), n.cloud.used);
    }
  }

  lemma NotRecorded(before: set<Id>, more: set<Id>, recorded: set<Id>, found: set<Id>, used: set<Id>)
    requires before <= used && more <= recorded && recorded * used == found * used
    ensures before + more - recorded == before - found
  {
    forall id | id in before
      ensures id in recorded <==> id in found
    {
      assert id in recorded * used <==> id in found * used;
    }
  }

  /** Of any init at all: it strands no interface it did not create itself, if and only if it can read the state file
      or takes over every recorded interface that still exists. */
  lemma InitStrandsIff(n: Node, e: InitEnv)
    requires e.answers.Long() && Known(n.cloud) && FreshIds(e.answers.rounds, 0, n.cloud.used)
    ensures Lost(Init(n, e)) <= Lost(n) + (if e.saved then {} else Learned(n, e)) <==> InitSpares(n, e)
  {
    if StartsOver(n, e) {
      InitKnows(n, e);
      UnreadableStateStrands(n, e);
    } else {
      InitStrandsOnlyUnsaved(n, e);
    }
  }

  predicate InitSpares(n: Node, e: InitEnv) {
    StartsOver(n, e) ==> Outstanding(n) * Recorded(n) <= Found(e)
  }

  /** A teardown that gets to removing the state file. */
  predicate Removes(n: Node, e: TeardownEnv)
    requires e.Long()
  {
    TearsDown(n, e) && TeardownResult(n.cloud, n.disk.value.platform, e).1 && e.removed
  }

  /** What a teardown without error deletes: every listed interface that is not primary. */
  ghost function DoomedBy(n: Node, e: TeardownEnv): set<Id> {
    if n.disk.Some? && n.disk.value.platform.Volcengine? && e.listing.Some? then Doomed(e.listing.value, 0) else {}
  }

  /** A teardown that removes the state file strands exactly the outstanding interfaces it did not delete: those not
      listed or listed as primary ones, and on another platform all. */
  lemma TeardownStrandsUnlisted(n: Node, e: TeardownEnv)
    requires e.Long() && Removes(n, e)
    ensures TeardownStep(n, e).disk.None?
    ensures Lost(TeardownStep(n, e)) == Outstanding(n) - DoomedBy(n, e)
  {
    if n.disk.value.platform.Volcengine? {
      TeardownDeletes(n.cloud, e.listing.value, e.answers, 0);
    }
  }

  ghost predicate TeardownSpares(n: Node, e: TeardownEnv)
    requires e.Long()
  {
    Removes(n, e) ==> Outstanding(n) * Recorded(n) <= DoomedBy(n, e)
  }

  /** Of any teardown at all, however it ends: it strands no interface if and only if it either leaves the state file
      or deletes every recorded interface of ours that still exists.  The file goes only once every listed interface
      that is not primary was deleted. */
  lemma TeardownKeepsLedger(n: Node, e: TeardownEnv)
    requires e.Long() && Known(n.cloud)
    ensures var after := TeardownStep(n, e);
            && Known(after.cloud) && after.cloud.learned == n.cloud.learned
            && (Lost(after) <= Lost(n) <==> TeardownSpares(n, e))
            && (n.disk.Some? && after.disk.None? ==> Removes(n, e) && DoomedBy(n, e) !! after.cloud.live)
            && (after.disk.None? || after.disk == n.disk)
  {
    if TearsDown(n, e) && e.listing.Some? {
      TeardownDeletes(n.cloud, e.listing.value, e.answers, 0);
    }
    if Removes(n, e) {
      TeardownStrandsUnlisted(n, e);
    }
  }

  lemma ListedEitherWay(nics: seq<Nic>, id: Id)
    requires id in Members(IdsOf(nics))
    ensures id in Doomed(nics, 0) || exists nic :: nic in nics && nic.id == id && nic.primary
  {
  }

  /** A Volcengine record and an honest reply that did not fill its page are enough: nothing is stranded, and of the
      recorded interfaces only primary ones still exist when the state file is gone. */
  lemma HonestListingSpares(n: Node, e: TeardownEnv)
    requires e.Long() && Known(n.cloud) && n.disk.Some? && n.disk.value.platform.Volcengine?
    requires e.listing.Some? ==> |e.listing.value| < PAGE_SIZE
    requires Truthful(n, e)
    ensures TeardownSpares(n, e)
    ensures Removes(n, e) ==>
              forall id :: id in Recorded(n) * TeardownStep(n, e).cloud.live ==>
                exists nic :: nic in e.listing.value && nic.id == id && nic.primary
  {
    if Removes(n, e) {
      var nics, ids := e.listing.value, n.disk.value.ids;
      TeardownDeletes(n.cloud, nics, e.answers, 0);
      assert ids == [] ==> Members(ids) == {};
      forall id | id in Members(ids) * n.cloud.live
        ensures id in Doomed(nics, 0) || exists nic :: nic in nics && nic.id == id && nic.primary
      {
        ListedEitherWay(nics, id);
      }
    }
  }

  /** What a cloud that answers honestly guarantees: a reply that did not fill its page is whole. */
  ghost predicate Truthful(n: Node, e: TeardownEnv) {
    n.disk.Some? && e.listing.Some? && |e.listing.value| < PAGE_SIZE && n.disk.value.ids != [] ==>
      Honest(e.listing.value, n.disk.value.ids, n.cloud)
  }

  /** A record made on Volcengine and then claimed by an init on GKE: the next teardown removes it and deletes
      nothing. */
  lemma PlatformSwitchStrands(n: Node, i: InitEnv, t: TeardownEnv)
    requires i.answers.Long() && t.Long() && n.disk.Some? && Lost(n) == {}
    requires i.readable && i.platform.Gke? && Provisions(n, i) && i.gke && i.saved
    requires TearsDown(Init(n, i), t) && t.gke && t.removed
    ensures Init(n, i).disk.value.ids == n.disk.value.ids
    ensures TeardownStep(Init(n, i), t).disk.None? && Lost(TeardownStep(Init(n, i), t)) == Outstanding(n)
  {
  }

  // ---- sequences of commands ----

  /** A command, or something others do to the cloud meanwhile. */
  datatype Event = Inits(init: InitEnv) | TearsDowns(teardown: TeardownEnv) | Appears(id: Id) | Vanishes(id: Id) {
    ghost predicate Long() {
      match this
      case Inits(e) => e.answers.Long()
      case TearsDowns(e) => e.Long()
      case _ => true
    }
  }

  function Step(n: Node, ev: Event): Node
    requires ev.Long()
  {
    match ev
    case Inits(e) => Init(n, e)
    case TearsDowns(e) => TeardownStep(n, e)
    case Appears(id) => n.(cloud := n.cloud.(live := n.cloud.live + {id}, used := n.cloud.used + {id}))
    case Vanishes(id) => n.(cloud := n.cloud.(live := n.cloud.live - {id}))
  }

  /** The cloud never gives an id twice. */
  ghost predicate Admissible(n: Node, ev: Event) {
    && ev.Long()
    && match ev
       case Inits(e) => FreshIds(e.answers.rounds, 0, n.cloud.used)
       case TearsDowns(e) => true
       case Appears(id) => id !in n.cloud.used
       case Vanishes(id) => true
  }

  /** The exact condition on which a command strands nothing it should not. */
  ghost predicate Spares(n: Node, ev: Event)
    requires ev.Long()
  {
    match ev
    case Inits(e) => InitSpares(n, e)
    case TearsDowns(e) => TeardownSpares(n, e)
    case _ => true
  }

  /** What a command may strand: the interfaces an init created and could not save. */
  function Excused(n: Node, ev: Event): set<Id>
    requires ev.Long()
  {
    if ev.Inits? && !ev.init.saved then Learned(n, ev.init) else {}
  }

  ghost predicate ValidRun(n: Node, evs: seq<Event>)
    decreases |evs|
  {
    evs == [] || (Admissible(n, evs[0]) && ValidRun(Step(n, evs[0]), evs[1..]))
  }

  ghost function Final(n: Node, evs: seq<Event>): Node
    requires ValidRun(n, evs)
    decreases |evs|
  {
    if evs == [] then n else Final(Step(n, evs[0]), evs[1..])
  }

  /** Every command of the run spares what it should. */
  ghost predicate AllSpare(n: Node, evs: seq<Event>)
    requires ValidRun(n, evs)
    decreases |evs|
  {
    evs == [] || (Spares(n, evs[0]) && AllSpare(Step(n, evs[0]), evs[1..]))
  }

  /** The ids learned by the inits whose last save failed. */
  ghost function Unsaved(n: Node, evs: seq<Event>): set<Id>
    requires ValidRun(n, evs)
    decreases |evs|
  {
    if evs == [] then {} else Excused(n, evs[0]) + Unsaved(Step(n, evs[0]), evs[1..])
  }

  lemma StepStrandsIff(n: Node, ev: Event)
    requires Known(n.cloud) && Admissible(n, ev)
    ensures Known(Step(n, ev).cloud)
    ensures Lost(Step(n, ev)) <= Lost(n) + Excused(n, ev) <==> Spares(n, ev)
  {
    match ev
    case Inits(e) =>
      InitKnows(n, e);
      InitStrandsIff(n, e);
    case TearsDowns(e) => TeardownKeepsLedger(n, e);
    case _ =>
  }

  lemma {:induction false} SparingRunsLoseNothing(n: Node, evs: seq<Event>)
    requires Known(n.cloud) && ValidRun(n, evs) && AllSpare(n, evs)
    ensures Known(Final(n, evs).cloud)
    ensures Outstanding(Final(n, evs)) <= Recorded(Final(n, evs)) + Lost(n) + Unsaved(n, evs)
    decreases |evs|
  {
    if evs != [] {
      StepStrandsIff(n, evs[0]);
      SparingRunsLoseNothing(Step(n, evs[0]), evs[1..]);
    }
  }

  // ---- what a caller can check ----

  /** Before an init, that the state file can be read if there is one; before the deletions of a teardown, that the
      record was made on Volcengine and the listing does not fill its page. */
  predicate Checked(n: Node, ev: Event) {
    match ev
    case Inits(e) => n.disk.Some? ==> e.readable
    case TearsDowns(e) =>
      n.disk.Some? ==> n.disk.value.platform.Volcengine? && (e.listing.Some? ==> |e.listing.value| < PAGE_SIZE)
    case _ => true
  }

  ghost predicate AllChecked(n: Node, evs: seq<Event>)
    requires ValidRun(n, evs)
    decreases |evs|
  {
    evs == [] || (Checked(n, evs[0]) && AllChecked(Step(n, evs[0]), evs[1..]))
  }

  /** The cloud answers each listing honestly. */
  ghost predicate HonestCloud(n: Node, evs: seq<Event>)
    requires ValidRun(n, evs)
    decreases |evs|
  {
    evs == [] || ((evs[0].TearsDowns? ==> Truthful(n, evs[0].teardown)) && HonestCloud(Step(n, evs[0]), evs[1..]))
  }

  lemma CheckedSpares(n: Node, ev: Event)
    requires Known(n.cloud) && Admissible(n, ev) && Checked(n, ev)
    requires ev.TearsDowns? ==> Truthful(n, ev.teardown)
    ensures Spares(n, ev)
  {
    if ev.TearsDowns? && n.disk.Some? {
      HonestListingSpares(n, ev.teardown);
    }
  }

  lemma {:induction false} CheckedRunsSpare(n: Node, evs: seq<Event>)
    requires Known(n.cloud) && ValidRun(n, evs) && HonestCloud(n, evs) && AllChecked(n, evs)
    ensures AllSpare(n, evs)
    decreases |evs|
  {
    if evs != [] {
      CheckedSpares(n, evs[0]);
      StepStrandsIff(n, evs[0]);
      CheckedRunsSpare(Step(n, evs[0]), evs[1..]);
    }
  }

  /** Over any sequence of inits and teardowns, however each ends, whatever fails and whatever others do to the cloud
      meanwhile, as long as inits can read the state file and teardowns find a Volcengine record and a listing that does
      not fill its page: an interface that was created, became known and still exists is in the state file, unless the
      very init that created it could not save the file. */
  lemma NoEniIsLost(n: Node, evs: seq<Event>)
    requires Known(n.cloud) && ValidRun(n, evs) && HonestCloud(n, evs) && AllChecked(n, evs)
    ensures Outstanding(Final(n, evs)) <= Recorded(Final(n, evs)) + Lost(n) + Unsaved(n, evs)
  {
    CheckedRunsSpare(n, evs);
    SparingRunsLoseNothing(n, evs);
  }

  /** With every save successful, from a node that had lost nothing, nothing is ever lost. */
  lemma SavedRunsLoseNothing(n: Node, evs: seq<Event>)
    requires Known(n.cloud) && ValidRun(n, evs) && HonestCloud(n, evs) && AllChecked(n, evs) && Lost(n) == {}
    requires forall i :: 0 <= i < |evs| && evs[i].Inits? ==> evs[i].init.saved
    ensures Outstanding(Final(n, evs)) <= Recorded(Final(n, evs))
  {
    NothingUnsaved(n, evs);
    NoEniIsLost(n, evs);
  }

  lemma {:induction false} NothingUnsaved(n: Node, evs: seq<Event>)
    requires ValidRun(n, evs) && forall i :: 0 <= i < |evs| && evs[i].Inits? ==> evs[i].init.saved
    ensures Unsaved(n, evs) == {}
    decreases |evs|
  {
    if evs != [] {
      NothingUnsaved(Step(n, evs[0]), evs[1..]);
    }
  }

  /** A command that does not spare loses something at once, even from a node that had lost nothing. */
  lemma SparingIsNeeded(n: Node, evs: seq<Event>, ev: Event)
    requires Known(n.cloud) && ValidRun(n, evs) && AllSpare(n, evs)
    requires var s := Final(n, evs); Admissible(s, ev) && !Spares(s, ev)
    ensures var s := Final(n, evs); exists id :: id in Lost(Step(s, ev)) && id !in Lost(s) && id !in Excused(s, ev)
  {
    SparingRunsLoseNothing(n, evs);
    StepStrandsIff(Final(n, evs), ev);
  }

  // ---- inputs on which an interface is lost ----

  /** A node whose record names all we created, all of which exist. */
  function Tidy(ids: seq<Id>): Node {
    Node(Some(State(Volcengine, ids)), Cloud(Members(ids), Members(ids), {}, Members(ids)))
  }

  const ONE: Node := Tidy(["eni-1"])

  /** Answers of a cloud that cannot even say which instance this is. */
  function NoAnswers(): (a: Answers)
    ensures a.Long() && !a.ready && forall i :: 0 <= i < |a.rounds| ==> a.rounds[i].create.Refused?
  {
    Answers(false, None, seq(ENIS_PER_NODE, _ => Round(Refused, false, false, false, false, false)),
            seq(ENIS_PER_NODE, _ => None), false)
  }

  /** An unreadable state file, and an init that gets no further than its seed. */
  lemma UnreadableStateLosesOne()
    ensures var e := InitEnv(true, false, false, Volcengine, true, true, NoAnswers(), false, true, true);
            Lost(ONE) == {} && Lost(Init(ONE, e)) == {"eni-1"}
  {
    var e := InitEnv(true, false, false, Volcengine, true, true, NoAnswers(), false, true, true);
    assert "eni-1" in Members(["eni-1"]) && Members(["eni-1"]) == {"eni-1"};
    UnreadableStateStrands(ONE, e);
  }

  /** A record claimed by an init on GKE, and a teardown there. */
  lemma PlatformSwitchLosesOne()
    ensures var i := InitEnv(true, false, true, Gke, true, true, NoAnswers(), true, true, true);
            var t := TeardownEnv(true, false, true, false, true, None, [], true, true);
            Lost(ONE) == {} && Lost(TeardownStep(Init(ONE, i), t)) == {"eni-1"}
  {
    var i := InitEnv(true, false, true, Gke, true, true, NoAnswers(), true, true, true);
    var t := TeardownEnv(true, false, true, false, true, None, [], true, true);
    assert "eni-1" in Members(["eni-1"]) && Members(["eni-1"]) == {"eni-1"};
    PlatformSwitchStrands(ONE, i, t);
  }

  /** Ids of different lengths. */
  function Numbered(n: nat): (ids: seq<Id>)
    ensures |ids| == n && forall i :: 0 <= i < n ==> |ids[i]| == i
  {
    seq(n, i requires 0 <= i < n => seq(i, _ => 'e'))
  }

  lemma {:induction false} AllAreDeleted(cloud: Cloud, nics: seq<Nic>, answers: seq<Answer>, k: nat)
    requires k <= |nics| <= |answers|
    requires forall i :: 0 <= i < |nics| ==> nics[i].device == "" && answers[i].deleted
    ensures TornDown(cloud, nics, answers, k).ok
    decreases |nics| - k
  {
    if k < |nics| {
      AllAreDeleted(cloud, nics, answers, k + 1);
      AllAreDeleted(cloud.Delete(nics[k].id, true), nics, answers, k + 1);
    }
  }

  /** A record of one interface more than a listing page holds: the last is not listed, and forgotten. */
  lemma FullPageLosesOne()
    ensures var ids := Numbered(PAGE_SIZE + 1);
            var nics := Blank(ids[..PAGE_SIZE]);
            var t := TeardownEnv(true, false, true, false, true, Some(nics),
                                 seq(PAGE_SIZE, _ => Answer(true, true, true)), false, true);
            Lost(Tidy(ids)) == {} && Truthful(Tidy(ids), t) && ids[PAGE_SIZE] in Lost(TeardownStep(Tidy(ids), t))
  {
    var ids := Numbered(PAGE_SIZE + 1);
    var nics := Blank(ids[..PAGE_SIZE]);
    var answers := seq(PAGE_SIZE, _ => Answer(true, true, true));
    var t := TeardownEnv(true, false, true, false, true, Some(nics), answers, false, true);
    AllAreDeleted(Tidy(ids).cloud, nics, answers, 0);
    TeardownStrandsUnlisted(Tidy(ids), t);
    assert ids[PAGE_SIZE] in Members(ids);
    forall i | 0 <= i < |nics|
      ensures nics[i].id != ids[PAGE_SIZE]
    {
      assert nics[i].id == IdsOf(nics)[i] == ids[i];
    }
  }
}
