/** The pool of an adopted Volcengine node: filter, dedupe, sort, and the interfaces that contribute. */
module AdoptPool {
  import opened Cidr

  /** An address as listed: the canonical text of an IPv4 address, or any other text. */
  datatype IpText = Dotted(a: Addr) | Other(text: string)

  datatype Eni = Eni(id: string, ips: seq<IpText>)

  /** The text of an address inside the prefix that is neither the gateway nor the broadcast address. */
  predicate Qualifies(h: HostNet, t: IpText)
  {
    t.Dotted? && Contains(h.prefix, t.a) && t.a != h.gateway && t.a != h.broadcast
  }

  function Listed(enis: seq<Eni>): set<IpText> {
    if enis == [] then {}
    else
      var last := enis[|enis| - 1].ips;
      Listed(enis[..|enis| - 1]) + (set t | t in last)
  }

  /** The interfaces that hold a qualifying address none before them holds, in listing order. */
  function Contributors(h: HostNet, enis: seq<Eni>): seq<Eni>
  {
    if enis == [] then []
    else
      var front, eni := enis[..|enis| - 1], enis[|enis| - 1];
      Contributors(h, front) +
          (if exists t :: t in eni.ips && Qualifies(h, t) && t !in Listed(front) then [eni] else [])
  }

  /** Every qualifying listed address is held by a contributor. */
  lemma {:induction false} ContributorsCover(h: HostNet, enis: seq<Eni>, t: IpText)
    requires t in Listed(enis) && Qualifies(h, t)
    ensures exists i :: 0 <= i < |Contributors(h, enis)| && t in Contributors(h, enis)[i].ips
  {
    var n := |enis| - 1;
    var c0, c := Contributors(h, enis[..n]), Contributors(h, enis);
    if t in Listed(enis[..n]) {
      ContributorsCover(h, enis[..n], t);
      var i :| 0 <= i < |c0| && t in c0[i].ips;
      assert c[i] == c0[i];
    } else {
      assert c[|c| - 1] == enis[n];
    }
  }

  lemma {:induction false} ListedMeans(enis: seq<Eni>, t: IpText)
    ensures t in Listed(enis) <==> exists j :: 0 <= j < |enis| && t in enis[j].ips
  {
    if enis != [] {
      var n := |enis| - 1;
      ListedMeans(enis[..n], t);
      assert forall j :: 0 <= j < n ==> enis[..n][j] == enis[j];
    }
  }

  /** An address qualifies when it is an IPv4 one in the interval of the prefix, but not the gateway or the
      broadcast. */
  lemma QualifiesMeans(h: HostNet, t: IpText)
    ensures Qualifies(h, t) <==>
              t.Dotted? && Base(h.prefix) <= t.a <= Last(h.prefix) && t.a != h.gateway && t.a != h.broadcast
  {
    if t.Dotted? {
      ContainsIsInterval(h.prefix, t.a);
    }
  }

  /** The interface at j holds a qualifying address that none before it holds. */
  ghost predicate FirstHolder(h: HostNet, enis: seq<Eni>, j: nat)
    requires j < |enis|
  {
    exists t :: t in enis[j].ips && Qualifies(h, t) && forall i :: 0 <= i < j ==> t !in enis[i].ips
  }

  lemma LastContributes(h: HostNet, enis: seq<Eni>)
    requires enis != []
    ensures var n := |enis| - 1;
            Contributors(h, enis) == Contributors(h, enis[..n]) + if FirstHolder(h, enis, n) then [enis[n]] else []
  {
    var n := |enis| - 1;
    forall t | t in enis[n].ips
      ensures t !in Listed(enis[..n]) <==> forall i :: 0 <= i < n ==> t !in enis[i].ips
    {
      ListedMeans(enis[..n], t);
      assert forall j :: 0 <= j < n ==> enis[..n][j] == enis[j];
    }
  }

  /** The contributors are exactly the interfaces that hold a qualifying address none before them holds, in listing
      order: at says where each stands in the listing. */
  lemma {:induction false} ContributorsInOrder(h: HostNet, enis: seq<Eni>) returns (at: seq<nat>)
    ensures |at| == |Contributors(h, enis)|
    ensures forall i :: 0 <= i < |at| ==> at[i] < |enis| && enis[at[i]] == Contributors(h, enis)[i]
    ensures forall i, j :: 0 <= i < j < |at| ==> at[i] < at[j]
    ensures forall k :: 0 <= k < |enis| ==> (FirstHolder(h, enis, k) <==> k in at)
  {
    if enis == [] {
      at := [];
    } else {
      var n := |enis| - 1;
      var front := ContributorsInOrder(h, enis[..n]);
      LastContributes(h, enis);
      assert forall k :: 0 <= k < n ==> enis[..n][k] == enis[k];
      forall k | 0 <= k < n
        ensures FirstHolder(h, enis, k) <==> FirstHolder(h, enis[..n], k)
      {
      }
      at := front + if FirstHolder(h, enis, n) then [n] else [];
      assert forall k :: k in at <==> k in front || (k == n && FirstHolder(h, enis, n));
    }
  }

  ghost predicate Ascending(s: seq<int>) {
    forall i, j :: 0 <= i < j < |s| ==> s[i] < s[j]
  }

  /** Sorts in place. */
  method SortIps(a: array<Addr>)
    modifies a
    ensures forall i, j :: 0 <= i < j < a.Length ==> a[i] <= a[j]
    ensures multiset(a[..]) == multiset(old(a[..]))
  {
    for n := 0 to a.Length
      invariant forall i, j :: 0 <= i < j < n ==> a[i] <= a[j]
      invariant multiset(a[..]) == multiset(old(a[..]))
    {
      SinkInto(a, n);
    }
  }

  /** Moves element n down into the sorted part before it. */
  method SinkInto(a: array<Addr>, n: nat)
    requires n < a.Length && forall i, j :: 0 <= i < j < n ==> a[i] <= a[j]
    modifies a
    ensures forall i, j :: 0 <= i < j <= n ==> a[i] <= a[j]
    ensures multiset(a[..]) == multiset(old(a[..]))
  {
    var k := n;
    while 0 < k && a[k] < a[k - 1]
      invariant 0 <= k <= n
      invariant forall i, j :: 0 <= i < j <= n && j != k ==> a[i] <= a[j]
      invariant multiset(a[..]) == multiset(old(a[..]))
    {
      a[k - 1], a[k] := a[k], a[k - 1];
      k := k - 1;
    }
  }

  lemma SortedDistinct(s: seq<Addr>, t: seq<Addr>)
    requires multiset(s) == multiset(t)
    requires forall i, j :: 0 <= i < j < |s| ==> s[i] != s[j]
    requires forall i, j :: 0 <= i < j < |t| ==> t[i] <= t[j]
    ensures Ascending(t) && forall x :: x in t <==> x in s
  {
    forall x
      ensures x in t <==> x in s
    {
      assert x in multiset(s) <==> x in multiset(t);
    }
    forall i, j | 0 <= i < j < |t|
      ensures t[i] != t[j]
    {
      if t[i] == t[j] {
        Twice(t, i, j);
        Once(s, t[i]);
      }
    }
  }

  lemma Twice(t: seq<Addr>, i: nat, j: nat)
    requires i < j < |t| && t[i] == t[j]
    ensures multiset(t)[t[i]] >= 2
  {
    assert t == t[..j] + [t[j]] + t[j + 1..];
    assert t[i] in t[..j];
    assert t[i] in multiset(t[..j]);
  }

  lemma {:induction false} Once(s: seq<Addr>, x: Addr)
    requires forall i, j :: 0 <= i < j < |s| ==> s[i] != s[j]
    ensures multiset(s)[x] <= 1
  {
    if s != [] {
      var n := |s| - 1;
      assert s == s[..n] + [s[n]];
      Once(s[..n], x);
      if x == s[n] {
        assert x !in s[..n];
        assert x !in multiset(s[..n]);
      }
    }
  }

  method AdoptPool(volcengine: bool, cidr: PrefixText, gateway: AddrText, poolSize: int, status: Result<seq<Eni>>)
    returns (r: Result<(seq<Addr>, seq<Eni>)>)
    ensures volcengine && r.Ok? ==>
              && HostPrefix(cidr, gateway).Ok? && status.Ok?
              && var h := HostPrefix(cidr, gateway).value;
              && Ascending(r.value.0)
              && (forall a :: a in r.value.0 <==> Dotted(a) in Listed(status.value) && Qualifies(h, Dotted(a)))
              && r.value.1 == Contributors(h, status.value)
    ensures volcengine ==> (r.Err? <==>
              || HostPrefix(cidr, gateway).Err? || status.Err?
              || forall t :: t in Listed(status.value) ==> !Qualifies(HostPrefix(cidr, gateway).value, t))
    ensures !volcengine ==> (r.Err? <==> HostPrefix(cidr, gateway).Err? || poolSize < 0)
    ensures !volcengine && r.Ok? ==>
              && r.value.1 == [] && HostPrefix(cidr, gateway).Ok?
              && |r.value.0| == Smaller(poolSize, Size(HostPrefix(cidr, gateway).value.prefix) - 3)
              && forall i :: 0 <= i < |r.value.0| ==> r.value.0[i] == HostAt(HostPrefix(cidr, gateway).value, i)
  {
    if !volcengine {
      var s := SubnetIps(cidr, gateway, poolSize);
      return if s.Err? then Err(s.error) else Ok((s.value, []));
    }
    var hp := HostPrefix(cidr, gateway);
    if hp.Err? {
      return Err(hp.error);
    }
    if status.Err? {
      return Err(status.error);
    }
    var h, enis := hp.value, status.value;
    var ips, poolEnis := Collected(h, enis);
    if |ips| == 0 {
      return Err(NoHosts);
    }
    assert Dotted(ips[0]) in Listed(enis) && Qualifies(h, Dotted(ips[0]));
    var a := new Addr[|ips|](i requires 0 <= i < |ips| => ips[i]);
    assert a[..] == ips;
    SortIps(a);
    SortedDistinct(ips, a[..]);
    return Ok((a[..], poolEnis));
  }

  method Collected(h: HostNet, enis: seq<Eni>) returns (ips: seq<Addr>, poolEnis: seq<Eni>)
    ensures forall i, j :: 0 <= i < j < |ips| ==> ips[i] != ips[j]
    ensures forall a :: a in ips <==> Dotted(a) in Listed(enis) && Qualifies(h, Dotted(a))
    ensures poolEnis == Contributors(h, enis)
  {
    ips, poolEnis := [], [];
    for n := 0 to |enis|
      invariant forall i, j :: 0 <= i < j < |ips| ==> ips[i] != ips[j]
      invariant forall a :: a in ips <==> Dotted(a) in Listed(enis[..n]) && Qualifies(h, Dotted(a))
      invariant poolEnis == Contributors(h, enis[..n])
    {
      assert enis[..n + 1][..n] == enis[..n];
      var eni := enis[n];
      var contributed := false;
      ghost var before := ips;
      for k := 0 to |eni.ips|
        invariant forall i, j :: 0 <= i < j < |ips| ==> ips[i] != ips[j]
        invariant forall a :: a in ips <==> a in before || (Dotted(a) in eni.ips[..k] && Qualifies(h, Dotted(a)))
        invariant contributed <==> exists t :: t in eni.ips[..k] && Qualifies(h, t) && t !in Listed(enis[..n])
      {
        assert eni.ips[..k + 1] == eni.ips[..k] + [eni.ips[k]];
        var t := eni.ips[k];
        if !Qualifies(h, t) || t.a in ips {
          continue;
        }
        ips := ips + [t.a];
        contributed := true;
      }
      assert eni.ips[..|eni.ips|] == eni.ips;
      if contributed {
        poolEnis := poolEnis + [eni];
      }
    }
    assert enis[..|enis|] == enis;
  }
}
