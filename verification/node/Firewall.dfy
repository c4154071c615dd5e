/** The egress-isolation rules of the FORWARD chain, reconciled in place. */
module Firewall {
  import opened Bits
  import opened Cidr

  const BRIDGE := "cni0"
  const TAG := "cocoon-net-drop"

  /** One word of a listed rule; a destination is a CIDR in canonical form. */
  datatype Word = W(text: string) | D(dst: Prefix)

  /** Drop is the tagged rule, Pass an ACCEPT between two interfaces, Masquerade the NAT rule; Foreign is any rule
      without the tag that someone else put there. */
  datatype Rule =
    | Drop(dst: Prefix)
    | Pass(inIf: string, outIf: string)
    | Masquerade(subnet: PrefixText)
    | Foreign(id: int)

  /** What the list command prints: a rule for every destination carries no -d. */
  function Words(r: Rule): seq<Word> {
    match r
    case Drop(d) =>
      [W("-A"), W("FORWARD"), W("-i"), W(BRIDGE)] + (if d.bits == 0 then [] else [W("-d"), D(d)])
      + [W("-m"), W("comment"), W("--comment"), W(TAG), W("-j"), W("DROP")]
    case Pass(i, o) => [W("-A"), W("FORWARD"), W("-i"), W(i), W("-o"), W(o), W("-j"), W("ACCEPT")]
    case Masquerade(_) => [W("-s"), W("subnet"), W("!"), W("-o"), W(BRIDGE), W("-j"), W("MASQUERADE")]
    case Foreign(_) => []
  }

  function IndexOf(ws: seq<Word>, w: Word): (i: nat)
    ensures i <= |ws| && (i < |ws| ==> ws[i] == w) && forall k :: 0 <= k < i ==> ws[k] != w
  {
    if ws == [] || ws[0] == w then 0 else 1 + IndexOf(ws[1..], w)
  }

  function RuleDest(fields: seq<Word>): Result<Word> {
    var i := IndexOf(fields, W("-d"));
    if i + 1 < |fields| then Ok(fields[i + 1]) else Err(BadCidr)
  }

  /** Of a tagged rule the destination is read back, except for the one that covers every address. */
  lemma DestOfDrop(d: Prefix)
    ensures RuleDest(Words(Drop(d))) == if d.bits == 0 then Err(BadCidr) else Ok(D(d))
  {
    var ws := Words(Drop(d));
    var i := IndexOf(ws, W("-d"));
    assert W(BRIDGE) != W("-d") && W(TAG) != W("-d");
    if d.bits == 0 {
      assert ws == [W("-A"), W("FORWARD"), W("-i"), W(BRIDGE), W("-m"), W("comment"), W("--comment"), W(TAG),
          W("-j"), W("DROP")];
    } else {
      assert ws[4] == W("-d") && ws[5] == D(d);
    }
  }

  // ---- chains ----

  type Chain = seq<Rule>

  /** The tagged rules are a prefix of the chain. */
  ghost predicate DropsFirst(c: Chain) {
    forall i, j :: 0 <= i < j < |c| && c[j].Drop? ==> c[i].Drop?
  }

  ghost predicate DropsOnce(c: Chain) {
    forall i, j :: 0 <= i < j < |c| && c[i].Drop? ==> c[i] != c[j]
  }

  /** Both at once, rule by rule. */
  ghost predicate Orderly(c: Chain) {
    c == [] || (Orderly(c[1..]) && if c[0].Drop? then c[0] !in c[1..] else forall r :: r in c[1..] ==> !r.Drop?)
  }

  /** A chain is orderly exactly when its tagged rules are a prefix of it and occur once each. */
  lemma {:induction false} OrderlyMeans(c: Chain)
    ensures Orderly(c) <==> DropsFirst(c) && DropsOnce(c)
  {
    if c != [] {
      var rest := c[1..];
      OrderlyMeans(rest);
      assert forall i :: 0 <= i < |rest| ==> rest[i] == c[i + 1];
      if DropsFirst(c) && DropsOnce(c) {
        forall r | r in rest
          ensures if c[0].Drop? then r != c[0] else !r.Drop?
        {
          var k :| 0 <= k < |rest| && rest[k] == r;
          assert c[k + 1] == r;
        }
      }
    }
  }

  function RemoveFirst(c: Chain, r: Rule): Chain {
    if c == [] then [] else if c[0] == r then c[1..] else [c[0]] + RemoveFirst(c[1..], r)
  }

  /** Deleting a tagged rule takes that rule and nothing else. */
  lemma {:induction false} RemoveFirstTakes(c: Chain, r: Rule)
    requires Orderly(c) && r.Drop?
    ensures Orderly(RemoveFirst(c, r))
    ensures forall x :: x in RemoveFirst(c, r) <==> x in c && x != r
  {
    if c != [] {
      var rest := c[1..];
      assert forall x :: x in c <==> x == c[0] || x in rest;
      if c[0] != r {
        RemoveFirstTakes(rest, r);
        var c1, rest1 := RemoveFirst(c, r), RemoveFirst(rest, r);
        assert c1 == [c[0]] + rest1 && c1[1..] == rest1;
        assert forall x :: x in c1 <==> x == c[0] || x in rest1;
      }
    }
  }

  /** The rules without the tag, in their order. */
  function Others(c: Chain): Chain {
    if c == [] then []
    else (if c[0].Drop? then [] else [c[0]]) + Others(c[1..])
  }

  lemma {:induction false} OthersAppend(c: Chain, r: Rule)
    requires !r.Drop?
    ensures Others(c + [r]) == Others(c) + [r]
  {
    if c == [] {
      assert c + [r] == [r];
    } else {
      assert (c + [r])[1..] == c[1..] + [r];
      OthersAppend(c[1..], r);
    }
  }

  lemma {:induction false} OthersPrefix(c: Chain, more: Chain)
    ensures Others(c) <= Others(c + more)
  {
    if c != [] {
      assert (c + more)[1..] == c[1..] + more;
      OthersPrefix(c[1..], more);
    }
  }

  /** Deleting a tagged rule moves and removes no other. */
  lemma {:induction false} OthersUndisturbed(c: Chain, r: Rule)
    requires r.Drop?
    ensures Others(RemoveFirst(c, r)) == Others(c)
  {
    if c != [] && c[0] != r {
      OthersUndisturbed(c[1..], r);
      assert RemoveFirst(c, r)[1..] == RemoveFirst(c[1..], r);
    }
  }

  lemma InsertKeeps(c: Chain, r: Rule)
    requires Orderly(c) && r.Drop? && r !in c
    ensures Orderly([r] + c) && Others([r] + c) == Others(c)
  {
    assert ([r] + c)[1..] == c;
  }

  lemma {:induction false} AppendKeeps(c: Chain, r: Rule)
    requires Orderly(c) && !r.Drop?
    ensures Orderly(c + [r]) && Others(c + [r]) == Others(c) + [r]
  {
    OthersAppend(c, r);
    if c == [] {
      assert c + [r] == [r];
    } else {
      AppendKeeps(c[1..], r);
      assert (c + [r])[1..] == c[1..] + [r];
    }
  }

  // ---- what a packet from the bridge meets ----

  /** The first rule that matches a packet to a; whether the other rules match is up to them. */
  function FirstHit(c: Chain, a: Addr, hits: Rule -> bool): Result<Rule> {
    if c == [] then Err(NoHosts)
    else if (if c[0].Drop? then Contains(c[0].dst, a) else hits(c[0])) then Ok(c[0])
    else FirstHit(c[1..], a, hits)
  }

  ghost predicate Dropped(c: Chain, a: Addr, hits: Rule -> bool) {
    FirstHit(c, a, hits).Ok? && FirstHit(c, a, hits).value.Drop?
  }

  /** With the tagged rules first, a packet to a covered address meets a DROP before anything else. */
  lemma {:induction false} CoveredIsDropped(c: Chain, a: Addr, hits: Rule -> bool, d: Prefix)
    requires DropsFirst(c) && Drop(d) in c && Contains(d, a)
    ensures Dropped(c, a, hits)
  {
    var k :| 0 <= k < |c| && c[k] == Drop(d);
    assert k > 0 ==> c[0].Drop?;
    if c[0].Drop? && Contains(c[0].dst, a) {
    } else {
      assert c[1..][k - 1] == Drop(d);
      CoveredIsDropped(c[1..], a, hits, d);
    }
  }

  ghost predicate HasDrops(c: Chain, before: Chain) {
    forall d :: Drop(d) in before ==> Drop(d) in c
  }

  /** No tagged rule but those of before and those of targets. */
  ghost predicate Within(c: Chain, before: Chain, targets: seq<Prefix>) {
    forall d :: Drop(d) in c ==> Drop(d) in before || d in targets
  }

  /** Every old tagged rule is still there, or every new target has its rule; and there is no other tagged rule. */
  ghost predicate Guarded(c: Chain, before: Chain, targets: seq<Prefix>) {
    && Within(c, before, targets)
    && (HasDrops(c, before) || forall d :: d in targets && d.bits != 0 ==> Drop(d) in c)
  }

  /** An address that an old rule and a new target both cover is dropped by every chain in between. */
  lemma NoGap(c: Chain, before: Chain, targets: seq<Prefix>, a: Addr, hits: Rule -> bool, was: Prefix, wanted: Prefix)
    requires DropsFirst(c) && Guarded(c, before, targets)
    requires Drop(was) in before && Contains(was, a)
    requires wanted in targets && wanted.bits != 0 && Contains(wanted, a)
    ensures Dropped(c, a, hits)
  {
    if Drop(was) in c {
      CoveredIsDropped(c, a, hits, was);
    } else {
      CoveredIsDropped(c, a, hits, wanted);
    }
  }

  /** The chain a completed setup leaves: exactly the targets but 0.0.0.0/0 have a tagged rule. */
  ghost predicate Settled(c: Chain, targets: seq<Prefix>) {
    forall d :: Drop(d) in c <==> d in targets && d.bits != 0
  }

  /** Some target other than a /0 covers a. */
  ghost predicate Covered(targets: seq<Prefix>, a: Addr) {
    exists d :: d in targets && d.bits != 0 && Contains(d, a)
  }

  /** After a completed setup an address is dropped by a tagged rule exactly when a target other than 0.0.0.0/0 covers
      it. */
  lemma DroppedIffTargeted(c: Chain, targets: seq<Prefix>, a: Addr, hits: Rule -> bool)
    requires DropsFirst(c) && Settled(c, targets)
    ensures Dropped(c, a, hits) <==> Covered(targets, a)
  {
    if Covered(targets, a) {
      var d :| d in targets && d.bits != 0 && Contains(d, a);
      CoveredIsDropped(c, a, hits, d);
    } else {
      HitIsThere(c, a, hits);
    }
  }

  lemma {:induction false} HitIsThere(c: Chain, a: Addr, hits: Rule -> bool)
    ensures var h := FirstHit(c, a, hits);
            h.Ok? ==> h.value in c && (h.value.Drop? ==> Contains(h.value.dst, a))
  {
    if c != [] {
      HitIsThere(c[1..], a, hits);
    }
  }

  // ---- targets ----

  /** Canonical targets, in order; one bad text refuses them all. */
  function Targets(raw: seq<PrefixText>): Result<seq<Prefix>> {
    if raw == [] then Ok([])
    else
      var n := |raw| - 1;
      var r := Targets(raw[..n]);
      if r.Err? then r
      else if raw[n].BadPrefix? then Err(BadCidr)
      else if raw[n].V6Prefix? then Err(NotV4Cidr)
      else Ok(r.value + [Prefix(Network(raw[n].p), raw[n].p.bits)])
  }

  /** The canonical form covers the same addresses. */
  lemma CanonicalCovers(p: Prefix, a: Addr)
    ensures Contains(Prefix(Network(p), p.bits), a) <==> Contains(p, a)
  {
    var q := Prefix(Network(p), p.bits);
    MaskedIsBase(p);
    IntervalFits(p);
    QuotientIsShr(Base(p), Shr(p.addr, 32 - p.bits), 32 - p.bits);
    ContainsIsInterval(p, a);
    ContainsIsInterval(q, a);
  }

  /** Some configured CIDR other than a /0 covers a. */
  ghost predicate Configured(raw: seq<PrefixText>, a: Addr) {
    exists i :: 0 <= i < |raw| && raw[i].V4Prefix? && raw[i].p.bits != 0 && Contains(raw[i].p, a)
  }

  lemma ConfiguredSnoc(raw: seq<PrefixText>, a: Addr)
    requires raw != []
    ensures var last := raw[|raw| - 1];
            Configured(raw, a) <==>
              Configured(raw[..|raw| - 1], a) || (last.V4Prefix? && last.p.bits != 0 && Contains(last.p, a))
  {
    var front := raw[..|raw| - 1];
    assert forall i :: 0 <= i < |front| ==> front[i] == raw[i];
  }

  lemma CoveredSnoc(front: seq<Prefix>, last: Prefix, a: Addr)
    ensures Covered(front + [last], a) <==> Covered(front, a) || (last.bits != 0 && Contains(last, a))
  {
    assert forall d :: d in front + [last] <==> d in front || d == last;
  }

  /** The targets cover what the configured CIDRs cover, whether or not those were written masked. */
  lemma {:induction false} TargetsCover(raw: seq<PrefixText>, a: Addr)
    requires Targets(raw).Ok?
    ensures Configured(raw, a) <==> Covered(Targets(raw).value, a)
  {
    if raw != [] {
      var n := |raw| - 1;
      TargetsCover(raw[..n], a);
      CanonicalCovers(raw[n].p, a);
      ConfiguredSnoc(raw, a);
      CoveredSnoc(Targets(raw[..n]).value, Prefix(Network(raw[n].p), raw[n].p.bits), a);
    }
  }

  /** After a completed setup an address is dropped by a tagged rule exactly when a configured CIDR other than a /0,
      which is to say other than 0.0.0.0/0, covers it. */
  lemma DroppedIffConfigured(c: Chain, raw: seq<PrefixText>, a: Addr, hits: Rule -> bool)
    ensures DropsFirst(c) && Targets(raw).Ok? && Settled(c, Targets(raw).value) ==>
              (Dropped(c, a, hits) <==> Configured(raw, a))
  {
    if DropsFirst(c) && Targets(raw).Ok? && Settled(c, Targets(raw).value) {
      DroppedIffTargeted(c, Targets(raw).value, a, hits);
      TargetsCover(raw, a);
    }
  }

  /** So a setup asked for a /0 alone drops nothing: the target covers every address, and no tagged rule drops any. */
  lemma EverythingIsNotDropped(c: Chain, p: Prefix, raw: seq<PrefixText>, a: Addr, hits: Rule -> bool)
    requires p.bits == 0 && raw == [V4Prefix(p)]
    ensures Targets(raw).Ok? && Contains(p, a) && DropsFirst([]) && Settled([], Targets(raw).value)
    ensures DropsFirst(c) && Settled(c, Targets(raw).value) ==> !Dropped(c, a, hits)
  {
    assert raw[..|raw| - 1] == [] && raw[|raw| - 1] == V4Prefix(p);
    assert Targets(raw[..|raw| - 1]) == Ok([]);
    IntervalFits(p);
    Pow2Of32();
    ContainsIsInterval(p, a);
    assert Shr(p.addr, 32) == 0;
    if DropsFirst(c) && Settled(c, Targets(raw).value) {
      DroppedIffConfigured(c, raw, a, hits);
    }
  }

  method ResolveDropTargets(subnet: PrefixText, dropInternal: bool, dropCidrs: seq<PrefixText>)
      returns (r: Result<seq<Prefix>>)
    ensures var raw := (if dropInternal then [subnet] else []) + dropCidrs;
            (r.Ok? <==> Targets(raw).Ok?) && (r.Ok? ==> r == Targets(raw))
  {
    var raw: seq<PrefixText> := [];
    if dropInternal {
      raw := raw + [subnet];
    }
    raw := raw + dropCidrs;
    assert raw == (if dropInternal then [subnet] else []) + dropCidrs;
    var out: seq<Prefix> := [];
    for n := 0 to |raw|
      invariant Targets(raw[..n]) == Ok(out)
    {
      assert raw[..n + 1][..n] == raw[..n];
      if !raw[n].V4Prefix? {
        assert Targets(raw[..n + 1]).Err?;
        ErrorStays(raw, n + 1);
        return Err(if raw[n].BadPrefix? then BadCidr else NotV4Cidr);
      }
      out := out + [Prefix(Network(raw[n].p), raw[n].p.bits)];
    }
    assert raw[..|raw|] == raw;
    return Ok(out);
  }

  lemma {:induction false} ErrorStays(raw: seq<PrefixText>, n: nat)
    requires n <= |raw| && Targets(raw[..n]).Err?
    ensures Targets(raw).Err?
  {
    if n == |raw| {
      assert raw[..n] == raw;
    } else {
      assert raw[..|raw| - 1][..n] == raw[..n];
      ErrorStays(raw[..|raw| - 1], n);
    }
  }

  // ---- the tables, changed command by command ----

  datatype Config = Config(subnet: PrefixText, nics: seq<string>, dropInternal: bool, dropCidrs: seq<PrefixText>)

  function TargetsOf(cfg: Config): Result<seq<Prefix>> {
    Targets((if cfg.dropInternal then [cfg.subnet] else []) + cfg.dropCidrs)
  }

  lemma {:induction false} TargetsOkMeans(raw: seq<PrefixText>)
    ensures Targets(raw).Ok? <==> forall i :: 0 <= i < |raw| ==> raw[i].V4Prefix?
  {
    if raw != [] {
      TargetsOkMeans(raw[..|raw| - 1]);
    }
  }

  /** Some CIDR other than a /0 covers a. */
  ghost predicate Covers(t: PrefixText, a: Addr) {
    t.V4Prefix? && t.p.bits != 0 && Contains(t.p, a)
  }

  lemma OneInFront(t: PrefixText, rest: seq<PrefixText>, a: Addr)
    ensures Configured([t] + rest, a) <==> Covers(t, a) || Configured(rest, a)
    ensures Targets([t] + rest).Ok? <==> t.V4Prefix? && Targets(rest).Ok?
  {
    var raw := [t] + rest;
    assert raw[0] == t && forall i :: 0 <= i < |rest| ==> raw[i + 1] == rest[i];
    assert forall i :: 0 < i < |raw| ==> raw[i] == rest[i - 1];
    TargetsOkMeans(raw);
    TargetsOkMeans(rest);
  }

  /** A configuration is good when every CIDR it names is an IPv4 one, the subnet only if it is to be dropped; its
      targets then cover what those CIDRs cover, but for /0s. */
  lemma TargetsOfMeans(cfg: Config, a: Addr)
    ensures TargetsOf(cfg).Ok? <==>
              && (cfg.dropInternal ==> cfg.subnet.V4Prefix?)
              && forall i :: 0 <= i < |cfg.dropCidrs| ==> cfg.dropCidrs[i].V4Prefix?
    ensures TargetsOf(cfg).Ok? ==>
              (Covered(TargetsOf(cfg).value, a) <==>
                 (cfg.dropInternal && Covers(cfg.subnet, a)) || Configured(cfg.dropCidrs, a))
  {
    var raw := (if cfg.dropInternal then [cfg.subnet] else []) + cfg.dropCidrs;
    TargetsOkMeans(cfg.dropCidrs);
    if cfg.dropInternal {
      OneInFront(cfg.subnet, cfg.dropCidrs, a);
    } else {
      assert raw == cfg.dropCidrs;
    }
    if TargetsOf(cfg).Ok? {
      TargetsCover(raw, a);
    }
  }

  /** The ACCEPT rules a setup wants. */
  ghost predicate Accepts(c: Chain, nics: seq<string>) {
    && Pass(BRIDGE, BRIDGE) in c
    && forall n :: n in nics ==> Pass(n, BRIDGE) in c && Pass(BRIDGE, n) in c
  }

  ghost predicate SameDrops(c: Chain, before: Chain) {
    forall d :: Drop(d) in c <==> Drop(d) in before
  }

  ghost predicate HasRules(c: Chain, before: Chain) {
    forall r :: r in before ==> r in c
  }

  ghost predicate OnlyNew(c: Chain, before: Chain, targets: seq<Prefix>) {
    forall r :: r in c ==> r in before || (r.Drop? && r.dst in targets)
  }

  /** The old tagged rules are all there, and no others but some of targets. */
  ghost predicate Kept(c: Chain, before: Chain, targets: seq<Prefix>) {
    HasDrops(c, before) && Within(c, before, targets)
  }

  ghost predicate KeptSince(history: seq<Chain>, moment: nat, before: Chain, targets: seq<Prefix>) {
    forall k {:trigger Kept(history[k], before, targets)} :: moment <= k < |history| ==>
        Kept(history[k], before, targets)
  }

  predicate Wanted(r: Rule, want: seq<Prefix>) {
    r.Drop? && r.dst in want && r.dst.bits != 0
  }

  /** The wanted ones of the old tagged rules are all there, and no new ones. */
  ghost predicate Spared(c: Chain, before: Chain, want: seq<Prefix>) {
    && (forall r :: r in before && Wanted(r, want) ==> r in c)
    && Within(c, before, [])
  }

  ghost predicate SparedSince(history: seq<Chain>, moment: nat, before: Chain, want: seq<Prefix>) {
    forall k {:trigger Spared(history[k], before, want)} :: moment <= k < |history| ==> Spared(history[k], before, want)
  }

  /** Nothing new, and nothing gone but unwanted tagged rules. */
  ghost predicate Left(c: Chain, before: Chain, want: seq<Prefix>) {
    && (forall r :: r in c ==> r in before)
    && (forall r :: r in before && (!r.Drop? || Wanted(r, want)) ==> r in c)
  }

  lemma SparedOn(h0: seq<Chain>, h: seq<Chain>, moment: nat, before: Chain, now: Chain, want: seq<Prefix>)
    requires moment <= |h0| && SparedSince(h0, moment, before, want) && (h == h0 || h == h0 + [now])
    requires Left(now, before, want)
    ensures SparedSince(h, moment, before, want)
  {
    forall k | moment <= k < |h|
      ensures Spared(h[k], before, want)
    {
      assert k < |h0| ==> Spared(h0[k], before, want);
    }
  }

  /** d is c with one rule inserted at the head, appended at the tail, or deleted. */
  ghost predicate OneRule(c: Chain, d: Chain) {
    || (exists r: Rule :: r.Drop? && d == [r] + c)
    || (exists r: Rule :: !r.Drop? && d == c + [r])
    || (exists r: Rule :: r.Drop? && r in c && d == RemoveFirst(c, r))
  }

  /** The k-th chain of a history that began with origin differs by one rule from the one before. */
  ghost predicate Linked(origin: Chain, history: seq<Chain>, k: nat)
    requires k < |history|
  {
    OneRule(if k == 0 then origin else history[k - 1], history[k])
  }

  /** The history misses no change, every chain in it is orderly, and the last is the present one. */
  ghost predicate Traced(origin: Chain, history: seq<Chain>, now: Chain) {
    && now == (if history == [] then origin else history[|history| - 1])
    && (forall k :: 0 <= k < |history| ==> Linked(origin, history, k))
    && (forall k {:trigger Orderly(history[k])} :: 0 <= k < |history| ==> Orderly(history[k]))
  }

  lemma OneMore(origin: Chain, history: seq<Chain>, now: Chain, next: Chain)
    requires Traced(origin, history, now) && OneRule(now, next) && Orderly(next)
    ensures Traced(origin, history + [next], next)
  {
    forall k | 0 <= k < |history| + 1
      ensures Linked(origin, history + [next], k)
    {
      if k < |history| {
        assert Linked(origin, history, k);
      }
    }
  }

  ghost predicate GuardedSince(history: seq<Chain>, moment: nat, before: Chain, targets: seq<Prefix>) {
    forall k {:trigger Guarded(history[k], before, targets)} ::
      moment <= k < |history| ==> Guarded(history[k], before, targets)
  }

  lemma KeptThrough(h0: seq<Chain>, h: seq<Chain>, moment: nat, before: Chain, mid: Chain)
    requires h0 <= h && moment <= |h0| && KeptSince(h0, moment, before, [])
    requires SameDrops(mid, before) && KeptSince(h, |h0|, mid, [])
    ensures KeptSince(h, moment, before, [])
  {
    forall k | moment <= k < |h|
      ensures Kept(h[k], before, [])
    {
      assert if k < |h0| then Kept(h0[k], before, []) else Kept(h[k], mid, []);
    }
  }

  lemma GuardedThrough(h0: seq<Chain>, h: seq<Chain>, moment: nat, before: Chain, mid: Chain, targets: seq<Prefix>)
    requires h0 <= h && moment <= |h0| && KeptSince(h0, moment, before, []) && SameDrops(mid, before)
    requires GuardedSince(h, |h0|, mid, targets)
    ensures GuardedSince(h, moment, before, targets)
  {
    forall k | moment <= k < |h|
      ensures Guarded(h[k], before, targets)
    {
      assert if k < |h0| then Kept(h0[k], before, []) else Guarded(h[k], mid, targets);
    }
  }

  /** All the old rules while the new ones come, all the new ones while the old ones go. */
  lemma FirstComeThenGo(h0: seq<Chain>, h: seq<Chain>, moment: nat, before: Chain, mid: Chain, targets: seq<Prefix>)
    requires h0 <= h && moment <= |h0| && KeptSince(h0, moment, before, targets)
    requires Within(mid, before, targets) && SparedSince(h, |h0|, mid, targets)
    requires |h0| < |h| ==> forall d :: d in targets ==> Drop(d) in mid
    ensures GuardedSince(h, moment, before, targets)
  {
    forall k | moment <= k < |h|
      ensures Guarded(h[k], before, targets)
    {
      assert if k < |h0| then Kept(h0[k], before, targets) else Spared(h[k], mid, targets);
      if |h0| <= k {
        forall d | d in targets && d.bits != 0
          ensures Drop(d) in h[k]
        {
          assert Wanted(Drop(d), targets);
        }
      }
    }
  }

  /** The chains since a given moment, and the present one, of a setup that guards: an address covered by an old tagged
      rule and by a configured CIDR other than a /0 meets a DROP before any other rule in every one of them. */
  lemma NeverOpen(t: Tables, moment: nat, before: Chain, raw: seq<PrefixText>, a: Addr, hits: Rule -> bool, was: Prefix)
    requires t.Valid() && Targets(raw).Ok?
    requires GuardedSince(t.history, moment, before, Targets(raw).value)
    requires Guarded(t.forward, before, Targets(raw).value)
    requires Drop(was) in before && Contains(was, a) && Configured(raw, a)
    ensures Dropped(t.forward, a, hits)
    ensures forall k :: moment <= k < |t.history| ==> Dropped(t.history[k], a, hits)
  {
    var targets := Targets(raw).value;
    TargetsCover(raw, a);
    var wanted :| wanted in targets && wanted.bits != 0 && Contains(wanted, a);
    OrderlyMeans(t.forward);
    NoGap(t.forward, before, targets, a, hits, was, wanted);
    forall k | moment <= k < |t.history|
      ensures Dropped(t.history[k], a, hits)
    {
      assert Orderly(t.history[k]) && Guarded(t.history[k], before, targets);
      OrderlyMeans(t.history[k]);
      NoGap(t.history[k], before, targets, a, hits, was, wanted);
    }
  }

  /** Every command from the first on, up to the second, succeeds. */
  ghost predicate Worked(works: nat -> bool, from: nat, to: nat) {
    from <= to && forall k {:trigger works(k)} :: from <= k < to ==> works(k)
  }

  class Tables {
    var forward: Chain
    var postrouting: Chain
    /** FORWARD at first, and after every command that changed it. */
    ghost const origin: Chain
    ghost var history: seq<Chain>
    /** The number of commands so far. */
    var calls: nat
    /** Whether the n-th command succeeds; a failed one changes nothing. */
    const works: nat -> bool

    ghost predicate Valid()
      reads this
    {
      Orderly(forward) && Traced(origin, history, forward)
    }

    constructor (forward: Chain, postrouting: Chain, works: nat -> bool)
      ensures origin == forward && (Orderly(forward) ==> Valid())
      ensures this.forward == forward && this.postrouting == postrouting && history == [] && this.works == works
    {
      this.forward, this.postrouting, this.works := forward, postrouting, works;
      calls := 0;
      origin, history := forward, [];
    }

    method Call() returns (ok: bool)
      modifies this`calls
      ensures ok == works(old(calls)) && calls == old(calls) + 1
    {
      ok := works(calls);
      calls := calls + 1;
    }

    /** Adds a rule that is not there yet: a tagged one at the head, any other at the tail. */
    method EnsureForward(r: Rule) returns (ok: bool)
      requires Valid()
      modifies this`forward, this`history, this`calls
      ensures old(calls) <= calls && (ok <==> Worked(works, old(calls), calls))
      ensures Valid()
      ensures || forward == old(forward)
              || (r !in old(forward) && forward == if r.Drop? then [r] + old(forward) else old(forward) + [r])
      ensures ok ==> r in forward
      ensures history == if forward == old(forward) then old(history) else old(history) + [forward]
      ensures r in old(forward) ==> forward == old(forward)
    {
      ok := Call();
      if !ok || r in forward {
        return;
      }
      ok := Call();
      if !ok {
        return;
      }
      if r.Drop? {
        InsertKeeps(forward, r);
        OneMore(origin, history, forward, [r] + forward);
        forward := [r] + forward;
      } else {
        AppendKeeps(forward, r);
        OneMore(origin, history, forward, forward + [r]);
        forward := forward + [r];
      }
      history := history + [forward];
    }

    method EnsureNat(r: Rule) returns (ok: bool)
      modifies this`postrouting, this`calls
      ensures old(calls) <= calls && (ok <==> Worked(works, old(calls), calls))
      ensures postrouting == old(postrouting) || postrouting == old(postrouting) + [r]
      ensures ok ==> r in postrouting
      ensures r in old(postrouting) ==> postrouting == old(postrouting)
    {
      ok := Call();
      if !ok || r in postrouting {
        return;
      }
      ok := Call();
      if ok {
        postrouting := postrouting + [r];
      }
    }

    /** Deletes a tagged rule unless its destination is read back and wanted. */
    method Prune(r: Rule, want: seq<Prefix>) returns (ok: bool)
      requires Valid() && r.Drop? && r in forward
      modifies this`forward, this`history, this`calls
      ensures old(calls) <= calls && (ok <==> Worked(works, old(calls), calls))
      ensures Valid() && Others(forward) == Others(old(forward))
      ensures Wanted(r, want) ==> ok
      ensures Wanted(r, want) || !ok ==> forward == old(forward) && history == old(history)
      ensures !Wanted(r, want) && ok ==>
                && history == old(history) + [forward]
                && forall x :: x in forward <==> x in old(forward) && x != r
    {
      DestOfDrop(r.dst);
      var dest := RuleDest(Words(r));
      if dest.Ok? && dest.value.D? && dest.value.dst in want {
        return true;
      }
      ok := Call();
      if ok {
        RemoveFirstTakes(forward, r);
        OthersUndisturbed(forward, r);
        OneMore(origin, history, forward, RemoveFirst(forward, r));
        forward := RemoveFirst(forward, r);
        history := history + [forward];
      }
    }

    /** Deletes the tagged rules whose destination is not wanted; a rule whose destination cannot be read back goes
        too. */
    method ReconcileDropRules(want: seq<Prefix>) returns (ok: bool)
      requires Valid()
      modifies this`forward, this`history, this`calls
      ensures old(calls) <= calls && (ok <==> Worked(works, old(calls), calls))
      ensures Valid() && Others(forward) == Others(old(forward))
      ensures Left(forward, old(forward), want)
      ensures ok ==> forall d :: Drop(d) in forward ==> Wanted(Drop(d), want)
      ensures old(history) <= history && SparedSince(history, |old(history)|, old(forward), want)
      ensures (forall d :: Drop(d) in old(forward) ==> Wanted(Drop(d), want)) ==>
                forward == old(forward) && history == old(history)
    {
      ok := Call();
      if !ok {
        return;
      }
      var rules := forward;
      var failed := 0;
      ghost var settled := forall d :: Drop(d) in rules ==> Wanted(Drop(d), want);
      for n := 0 to |rules|
        invariant Valid() && Others(forward) == Others(rules) && 0 <= failed
        invariant old(calls) <= calls && (failed == 0 <==> Worked(works, old(calls), calls))
        invariant Left(forward, rules, want)
        invariant Orderly(rules[n..]) && forall r :: r in rules[n..] ==> r in forward
        invariant failed == 0 ==> forall r :: r in forward && r.Drop? && !Wanted(r, want) ==> r in rules[n..]
        invariant old(history) <= history && SparedSince(history, |old(history)|, rules, want)
        invariant settled ==> forward == rules && history == old(history)
      {
        var rule := rules[n];
        assert rules[n..] == [rule] + rules[n + 1..] && rules[n..][1..] == rules[n + 1..];
        assert rule in rules[n..];
        if !rule.Drop? {
          continue;
        }
        assert settled ==> Wanted(Drop(rule.dst), want);
        ghost var h0 := history;
        var pruned := Prune(rule, want);
        SparedOn(h0, history, |old(history)|, rules, forward, want);
        if !pruned {
          failed := failed + 1;
        }
      }
      ok := failed == 0;
    }

    method ClearDropRules() returns (ok: bool)
      requires Valid()
      modifies this`forward, this`history, this`calls
      ensures old(calls) <= calls && (ok <==> Worked(works, old(calls), calls))
      ensures Valid()
      ensures ok ==> forall d :: Drop(d) !in forward
      ensures old(history) <= history
      ensures Others(forward) == Others(old(forward))
    {
      ok := Call();
      if ok {
        ok := ReconcileDropRules([]);
      }
    }

    /** Both directions between the bridge and a link. */
    method AcceptPair(nic: string) returns (ok: bool)
      requires Valid()
      modifies this`forward, this`history, this`calls
      ensures old(calls) <= calls && (ok <==> Worked(works, old(calls), calls))
      ensures Valid() && old(forward) <= forward && SameDrops(forward, old(forward))
      ensures ok ==> Pass(nic, BRIDGE) in forward && Pass(BRIDGE, nic) in forward
      ensures old(history) <= history && KeptSince(history, |old(history)|, old(forward), [])
      ensures Pass(nic, BRIDGE) in old(forward) && Pass(BRIDGE, nic) in old(forward) ==>
                forward == old(forward) && history == old(history)
    {
      ok := EnsureForward(Pass(nic, BRIDGE));
      if !ok {
        return;
      }
      ok := EnsureForward(Pass(BRIDGE, nic));
    }

    method AcceptNics(nics: seq<string>) returns (ok: bool)
      requires Valid()
      modifies this`forward, this`history, this`calls
      ensures old(calls) <= calls && (ok <==> Worked(works, old(calls), calls))
      ensures Valid() && old(forward) <= forward && SameDrops(forward, old(forward))
      ensures ok ==> Accepts(forward, nics)
      ensures old(history) <= history && KeptSince(history, |old(history)|, old(forward), [])
      ensures Accepts(old(forward), nics) ==> forward == old(forward) && history == old(history)
    {
      for n := 0 to |nics|
        invariant Valid() && old(forward) <= forward && SameDrops(forward, old(forward))
        invariant Worked(works, old(calls), calls)
        invariant forall i :: 0 <= i < n ==> Pass(nics[i], BRIDGE) in forward && Pass(BRIDGE, nics[i]) in forward
        invariant old(history) <= history && KeptSince(history, |old(history)|, old(forward), [])
        invariant Accepts(old(forward), nics) ==> forward == old(forward) && history == old(history)
      {
        assert nics[n] in nics;
        ghost var h0, mid := history, forward;
        ok := AcceptPair(nics[n]);
        KeptThrough(h0, history, |old(history)|, old(forward), mid);
        if !ok {
          return;
        }
      }
      ok := EnsureForward(Pass(BRIDGE, BRIDGE));
    }

    method InsertDrop(d: Prefix) returns (ok: bool)
      requires Valid()
      modifies this`forward, this`history, this`calls
      ensures old(calls) <= calls && (ok <==> Worked(works, old(calls), calls))
      ensures Valid() && Others(forward) == Others(old(forward))
      ensures forall r :: r in old(forward) ==> r in forward
      ensures forall r :: r in forward ==> r in old(forward) || r == Drop(d)
      ensures ok ==> Drop(d) in forward
      ensures history == if forward == old(forward) then old(history) else old(history) + [forward]
      ensures Drop(d) in old(forward) ==> forward == old(forward)
    {
      assert ([Drop(d)] + forward)[1..] == forward;
      ok := EnsureForward(Drop(d));
    }

    method InsertDrops(targets: seq<Prefix>) returns (ok: bool)
      requires Valid()
      modifies this`forward, this`history, this`calls
      ensures old(calls) <= calls && (ok <==> Worked(works, old(calls), calls))
      ensures Valid()
      ensures HasRules(forward, old(forward)) && OnlyNew(forward, old(forward), targets)
      ensures ok ==> forall d :: d in targets ==> Drop(d) in forward
      ensures old(history) <= history && KeptSince(history, |old(history)|, old(forward), targets)
      ensures (forall d :: d in targets ==> Drop(d) in old(forward)) ==>
                forward == old(forward) && history == old(history)
      ensures Others(forward) == Others(old(forward))
    {
      ok := true;
      ghost var c0, h0 := forward, history;
      ghost var settled := forall d :: d in targets ==> Drop(d) in c0;
      for n := 0 to |targets|
        invariant ok && Valid() && Others(forward) == Others(c0) && Worked(works, old(calls), calls)
        invariant HasRules(forward, c0) && OnlyNew(forward, c0, targets)
        invariant forall i :: 0 <= i < n ==> Drop(targets[i]) in forward
        invariant h0 <= history && KeptSince(history, |h0|, c0, targets)
        invariant settled ==> forward == c0 && history == h0
      {
        assert targets[n] in targets;
        ok := InsertDrop(targets[n]);
        if !ok {
          return;
        }
      }
    }

    /** New tagged rules first, then the old ones go: at every moment all the old rules are there or all the new. */
    method InstallDrops(targets: seq<Prefix>) returns (ok: bool)
      requires Valid()
      modifies this`forward, this`history, this`calls
      ensures old(calls) <= calls && (ok <==> Worked(works, old(calls), calls))
      ensures Valid() && Others(forward) == Others(old(forward))
      ensures ok ==> Settled(forward, targets)
      ensures forall r :: r in old(forward) && !r.Drop? ==> r in forward
      ensures old(history) <= history
      ensures Guarded(forward, old(forward), targets)
      ensures GuardedSince(history, |old(history)|, old(forward), targets)
      ensures Settled(old(forward), targets) && (forall d :: d in targets ==> d.bits != 0) ==>
                forward == old(forward) && history == old(history)
    {
      ok := InsertDrops(targets);
      ghost var h0, mid := history, forward;
      if ok {
        ok := ReconcileDropRules(targets);
      }
      FirstComeThenGo(h0, history, |old(history)|, old(forward), mid, targets);
    }

    /** The rules that let traffic through, before any tagged rule is touched. */
    method InstallAccepts(nics: seq<string>, subnet: PrefixText) returns (ok: bool)
      requires Valid()
      modifies this`forward, this`postrouting, this`history, this`calls
      ensures old(calls) <= calls && (ok <==> Worked(works, old(calls), calls))
      ensures Valid() && SameDrops(forward, old(forward))
      ensures Others(old(forward)) <= Others(forward) && old(postrouting) <= postrouting
      ensures ok ==> Accepts(forward, nics) && Masquerade(subnet) in postrouting
      ensures old(history) <= history && KeptSince(history, |old(history)|, old(forward), [])
      ensures Accepts(old(forward), nics) && Masquerade(subnet) in old(postrouting) ==>
                forward == old(forward) && postrouting == old(postrouting) && history == old(history)
    {
      ok := AcceptNics(nics);
      assert forward == old(forward) + forward[|old(forward)|..];
      OthersPrefix(old(forward), forward[|old(forward)|..]);
      if ok {
        ok := EnsureNat(Masquerade(subnet));
      }
    }

    /** The commands of a setup, once its targets are known to be good. */
    method Install(nics: seq<string>, subnet: PrefixText, targets: seq<Prefix>) returns (ok: bool)
      requires Valid()
      modifies this`forward, this`postrouting, this`history, this`calls
      ensures Valid()
      ensures old(calls) <= calls && (ok <==> Worked(works, old(calls), calls))
      ensures ok ==> Settled(forward, targets) && Accepts(forward, nics) && Masquerade(subnet) in postrouting
      ensures Others(old(forward)) <= Others(forward) && old(postrouting) <= postrouting
      ensures old(history) <= history
      ensures Guarded(forward, old(forward), targets)
      ensures GuardedSince(history, |old(history)|, old(forward), targets)
      ensures (Settled(old(forward), targets) && Accepts(old(forward), nics)
               && Masquerade(subnet) in old(postrouting) && forall d :: d in targets ==> d.bits != 0)
              ==> forward == old(forward) && postrouting == old(postrouting) && history == old(history)
    {
      ok := Call();
      if !ok {
        return;
      }
      ok := InstallAccepts(nics, subnet);
      ghost var h0, mid := history, forward;
      if ok {
        ok := InstallDrops(targets);
      }
      GuardedThrough(h0, history, |old(history)|, old(forward), mid, targets);
    }

    /** Moves FORWARD to the wanted tagged rules without a gap, whatever command fails.  It succeeds exactly when the
        configuration is good and no command it issued failed; then the tagged rules are exactly the targets (but
        0.0.0.0/0, whose rule is pruned again), and doing it over such a chain changes nothing.  No other rule is
        ever moved or removed. */
    method SetupIptables(cfg: Config) returns (ok: bool)
      requires Valid()
      modifies this`forward, this`postrouting, this`history, this`calls
      ensures old(calls) <= calls && (ok <==> TargetsOf(cfg).Ok? && Worked(works, old(calls), calls))
      ensures Valid()
      ensures TargetsOf(cfg).Err? ==> !ok && forward == old(forward) && postrouting == old(postrouting)
      ensures ok ==> TargetsOf(cfg).Ok? && Settled(forward, TargetsOf(cfg).value) && Accepts(forward, cfg.nics)
      ensures ok ==> forall d :: Drop(d) in forward <==> d in TargetsOf(cfg).value && d.bits != 0
      ensures ok ==> Pass(BRIDGE, BRIDGE) in forward
      ensures ok ==> forall n :: n in cfg.nics ==> Pass(n, BRIDGE) in forward && Pass(BRIDGE, n) in forward
      ensures ok ==> Masquerade(cfg.subnet) in postrouting
      ensures Others(old(forward)) <= Others(forward) && old(postrouting) <= postrouting
      ensures old(history) <= history
      ensures TargetsOf(cfg).Err? ==> history == old(history)
      ensures TargetsOf(cfg).Ok? ==>
                && Guarded(forward, old(forward), TargetsOf(cfg).value)
                && GuardedSince(history, |old(history)|, old(forward), TargetsOf(cfg).value)
      ensures (TargetsOf(cfg).Ok? && Settled(old(forward), TargetsOf(cfg).value) && Accepts(old(forward), cfg.nics)
               && Masquerade(cfg.subnet) in old(postrouting) && forall d :: d in TargetsOf(cfg).value ==> d.bits != 0)
              ==> forward == old(forward) && postrouting == old(postrouting) && history == old(history)
    {
      var resolved := ResolveDropTargets(cfg.subnet, cfg.dropInternal, cfg.dropCidrs);
      if resolved.Err? {
        return false;
      }
      ok := Install(cfg.nics, cfg.subnet, resolved.value);
    }
  }

  datatype Command = Setup(cfg: Config) | Clear

  /** Over any sequence of setups and clears, failing or not, from a chain without tagged rules, the tagged rules
      stay a prefix of the chain without duplicates. */
  method RunAll(t: Tables, cmds: seq<Command>)
    requires t.history == [] && t.origin == t.forward && forall r :: r in t.forward ==> !r.Drop?
    modifies t
    ensures DropsFirst(t.forward) && DropsOnce(t.forward)
  {
    OrderlyMeans(t.forward);
    for n := 0 to |cmds|
      invariant t.Valid()
    {
      if cmds[n].Setup? {
        var ok := t.SetupIptables(cmds[n].cfg);
      } else {
        var ok := t.ClearDropRules();
      }
    }
    OrderlyMeans(t.forward);
  }
}
