/** The lease table, changed in place, and the file it is saved to. */
module LeaseStore {
  import opened LeaseModel
  import opened LeaseFile
  import opened AtomicFile

  const LEASE_FILE_MODE: nat := 0x1A4 // 0644

  datatype Row = Row(mac: Mac, lease: Lease)

  datatype Evicted = Evicted(mac: Mac, ip: Ip)

  function MacsOf(rows: seq<Row>): (macs: seq<Mac>)
    ensures |macs| == |rows| && forall i :: 0 <= i < |rows| ==> macs[i] == rows[i].mac
  {
    seq(|rows|, i requires 0 <= i < |rows| => rows[i].mac)
  }

  /** The rows are rows of t, each once, and their MACs are those of s. */
  ghost predicate RowsOf(rows: seq<Row>, t: Table, s: set<Mac>) {
    && Enumerates(MacsOf(rows), s)
    && forall i :: 0 <= i < |rows| ==> rows[i].mac in t && t[rows[i].mac] == rows[i].lease
  }

  /** The table with the rows put back. */
  function PutBack(t: Table, rows: seq<Row>): Table {
    if rows == [] then t
    else PutBack(t, rows[..|rows| - 1])[rows[|rows| - 1].mac := rows[|rows| - 1].lease]
  }

  lemma {:induction false} PutBackHas(t: Table, rows: seq<Row>, all: Table)
    requires forall i :: 0 <= i < |rows| ==> rows[i].mac in all && all[rows[i].mac] == rows[i].lease
    requires forall k :: k in t ==> k in all && all[k] == t[k]
    ensures forall k :: k in PutBack(t, rows) <==> k in t || k in MacsOf(rows)
    ensures forall k :: k in PutBack(t, rows) ==> k in all && PutBack(t, rows)[k] == all[k]
  {
    if rows != [] {
      var n := |rows| - 1;
      PutBackHas(t, rows[..n], all);
      assert MacsOf(rows) == MacsOf(rows[..n]) + [rows[n].mac];
    }
  }

  /** Rolling back: rows taken out of a table and put back give the table. */
  lemma PutBackUndoes(all: Table, rows: seq<Row>, gone: set<Mac>)
    requires RowsOf(rows, all, gone) && gone <= all.Keys
    ensures PutBack(Without(all, gone), rows) == all
  {
    var t := PutBack(Without(all, gone), rows);
    PutBackHas(Without(all, gone), rows, all);
    forall k | k in all
      ensures k in t && t[k] == all[k]
    {
      assert k in Without(all, gone) || k in MacsOf(rows);
    }
    forall k | k in t
      ensures k in all
    {
    }
  }

  class LeaseStore {
    var leases: Table
    const file: ReplacedFile<Line>

    constructor (file: ReplacedFile<Line>)
      ensures leases == map[] && this.file == file
    {
      leases := map[];
      this.file := file;
    }

    /** The own row that is rebound comes first, then the other MACs' rows for the address. */
    method Add(mac: Mac, ip: Ip, duration: nat, granted: Time) returns (evicted: seq<Evicted>)
      modifies this
      ensures leases == AddLease(old(leases), mac, Lease(ip, granted + duration, granted))
      ensures mac in old(leases) && old(leases)[mac].ip != ip ==>
                evicted != [] && evicted[0] == Evicted(mac, old(leases)[mac].ip)
      ensures forall i :: 0 <= i < |evicted| && evicted[i].mac == mac ==>
                i == 0 && mac in old(leases) && old(leases)[mac].ip != ip
      ensures forall k :: k in old(leases) && k != mac && old(leases)[k].ip == ip ==> Evicted(k, ip) in evicted
    {
      evicted := [];
      var all := leases;
      if mac in leases && leases[mac].ip != ip {
        evicted := [Evicted(mac, leases[mac].ip)];
      }
      ghost var own := |evicted|;
      var keys := leases.Keys;
      while keys != {}
        invariant keys <= all.Keys
        invariant forall k :: k in leases <==> k in all && (k in keys || k == mac || all[k].ip != ip)
        invariant forall k :: k in leases ==> leases[k] == all[k]
        invariant own <= |evicted|
        invariant own == 1 ==> evicted[0] == Evicted(mac, all[mac].ip)
        invariant forall i :: own <= i < |evicted| ==> evicted[i].mac != mac
        invariant forall k :: k in all && k !in keys && k != mac && all[k].ip == ip ==> Evicted(k, ip) in evicted
        decreases keys
      {
        SomeMember(keys);
        var k :| k in keys;
        keys := keys - {k};
        if leases[k].ip == ip && k != mac {
          ghost var before := evicted;
          evicted := evicted + [Evicted(k, ip)];
          leases := leases - {k};
          assert forall v :: v in before ==> v in evicted;
          assert evicted[|before|] == Evicted(k, ip);
        }
      }
      SameRows(leases, EvictOthers(all, mac, ip));
      leases := leases[mac := Lease(ip, granted + duration, granted)];
    }

    method Active(mac: Mac, now: Time) returns (l: Option<Lease>)
      ensures l == if ActiveAt(leases, mac, now) then Some(leases[mac]) else None
    {
      if mac in leases && now < leases[mac].expiry {
        return Some(leases[mac]);
      }
      return None;
    }

    method Take(mac: Mac) returns (l: Option<Lease>)
      modifies this
      ensures l == if mac in old(leases) then Some(old(leases)[mac]) else None
      ensures leases == Without(old(leases), {mac})
    {
      if mac !in leases {
        assert leases == Without(leases, {mac});
        return None;
      }
      l := Some(leases[mac]);
      leases := leases - {mac};
      assert leases == Without(old(leases), {mac});
    }

    method RestoreAll(rows: seq<Row>)
      modifies this
      ensures leases == PutBack(old(leases), rows)
    {
      for n := 0 to |rows|
        invariant leases == PutBack(old(leases), rows[..n])
      {
        assert rows[..n + 1][..n] == rows[..n];
        leases := leases[rows[n].mac := rows[n].lease];
      }
      assert rows[..|rows|] == rows;
    }

    method IpForMac(mac: Mac, now: Time) returns (ip: Option<Ip>)
      ensures ip == if ActiveAt(leases, mac, now) then Some(leases[mac].ip) else None
    {
      if mac in leases && now < leases[mac].expiry {
        return Some(leases[mac].ip);
      }
      return None;
    }

    method IsLeasedToOther(mac: Mac, ip: Ip, now: Time) returns (yes: bool)
      ensures yes <==> LeasedToOther(leases, mac, ip, now)
    {
      var keys := leases.Keys;
      while keys != {}
        invariant keys <= leases.Keys
        invariant forall k :: k in leases && k !in keys ==> !(k != mac && leases[k].ip == ip && now < leases[k].expiry)
        decreases keys
      {
        SomeMember(keys);
        var k :| k in keys;
        keys := keys - {k};
        if leases[k].ip == ip && now < leases[k].expiry && k != mac {
          return true;
        }
      }
      return false;
    }

    method ActiveLeases(now: Time) returns (rows: seq<Row>)
      ensures RowsOf(rows, leases, ActiveMacs(leases, now))
    {
      rows := [];
      var keys := leases.Keys;
      while keys != {}
        invariant keys <= leases.Keys
        invariant RowsOf(rows, leases, ActiveMacs(leases, now) - keys)
        decreases keys
      {
        SomeMember(keys);
        var k :| k in keys;
        if now < leases[k].expiry {
          RowAdded(rows, leases, ActiveMacs(leases, now) - keys, k);
          rows := rows + [Row(k, leases[k])];
          assert ActiveMacs(leases, now) - keys + {k} == ActiveMacs(leases, now) - (keys - {k});
        } else {
          assert ActiveMacs(leases, now) - keys == ActiveMacs(leases, now) - (keys - {k});
        }
        keys := keys - {k};
      }
      assert ActiveMacs(leases, now) - keys == ActiveMacs(leases, now);
    }

    method ExpireOld(now: Time) returns (rows: seq<Row>)
      modifies this
      ensures RowsOf(rows, old(leases), ExpiredMacs(old(leases), now))
      ensures leases == Without(old(leases), ExpiredMacs(old(leases), now))
    {
      rows := [];
      var all := leases;
      var keys := leases.Keys;
      assert leases == Without(all, ExpiredMacs(all, now) - keys);
      while keys != {}
        invariant keys <= all.Keys
        invariant RowsOf(rows, all, ExpiredMacs(all, now) - keys)
        invariant leases == Without(all, ExpiredMacs(all, now) - keys)
        decreases keys
      {
        SomeMember(keys);
        var k :| k in keys;
        if now > all[k].expiry {
          RowAdded(rows, all, ExpiredMacs(all, now) - keys, k);
          rows := rows + [Row(k, all[k])];
          leases := leases - {k};
          assert ExpiredMacs(all, now) - keys + {k} == ExpiredMacs(all, now) - (keys - {k});
        } else {
          assert ExpiredMacs(all, now) - keys == ExpiredMacs(all, now) - (keys - {k});
        }
        keys := keys - {k};
      }
      assert ExpiredMacs(all, now) - keys == ExpiredMacs(all, now);
    }

    /** The lines come in the order the table is walked in; the file holds them exactly when nothing failed. */
    method Save(umasked: nat, fault: Fault) returns (ok: bool)
      modifies file
      ensures ok <==> fault.NoFault?
      ensures !ok ==> file.target == old(file.target)
      ensures ok ==> file.target.Some? && file.target.value.mode == LEASE_FILE_MODE
                     && Prints(file.target.value.data, EntriesOf(leases))
    {
      var lines: seq<Line> := [];
      var keys := leases.Keys;
      while keys != {}
        invariant keys <= leases.Keys && file.target == old(file.target)
        invariant forall i :: 0 <= i < |lines| ==>
                    && lines[i].mac in leases && lines[i].mac !in keys
                    && lines[i] == Line(lines[i].mac, leases[lines[i].mac].ip, Trunc(leases[lines[i].mac].expiry))
        invariant forall i, j :: 0 <= i < j < |lines| ==> lines[i].mac != lines[j].mac
        invariant forall mac :: mac in leases && mac !in keys ==> exists i :: 0 <= i < |lines| && lines[i].mac == mac
        decreases keys
      {
        SomeMember(keys);
        var k :| k in keys;
        keys := keys - {k};
        ghost var before := lines;
        lines := lines + [Line(k, leases[k].ip, Trunc(leases[k].expiry))];
        forall mac | mac in leases && mac !in keys
          ensures exists i :: 0 <= i < |lines| && lines[i].mac == mac
        {
          if mac == k {
            assert lines[|before|].mac == mac;
          } else {
            var i :| 0 <= i < |before| && before[i].mac == mac;
            assert lines[i].mac == mac;
          }
        }
      }
      assert Prints(lines, EntriesOf(leases));
      ok := file.Write(lines, LEASE_FILE_MODE, umasked, fault);
    }

    /** Loads into an empty table; a missing or unreadable file leaves it empty. */
    method Load(readable: bool, now: Time) returns (ok: bool)
      requires leases == map[]
      modifies this
      ensures ok <==> file.target.Some? && readable
      ensures leases == if ok then LoadLines(file.target.value.data, now) else map[]
    {
      if file.target.None? || !readable {
        return false;
      }
      var lines := file.target.value.data;
      for n := 0 to |lines|
        invariant leases == LoadLines(lines[..n], now)
      {
        assert lines[..n + 1][..n] == lines[..n];
        if now > lines[n].expiry {
          continue;
        }
        leases := leases[lines[n].mac := Lease(lines[n].ip, lines[n].expiry, 0)];
      }
      assert lines[..|lines|] == lines;
      return true;
    }
  }

  lemma SameRows(t: Table, u: Table)
    requires forall k :: k in t ==> k in u && t[k] == u[k]
    requires forall k :: k in u ==> k in t
    ensures t == u
  {
    assert forall k :: k in t ==> k in u && t[k] == u[k];
    assert forall k :: k in u ==> k in t;
  }

  lemma RowAdded(rows: seq<Row>, t: Table, s: set<Mac>, k: Mac)
    requires RowsOf(rows, t, s) && k in t && k !in s
    ensures RowsOf(rows + [Row(k, t[k])], t, s + {k})
  {
    var macs, macs1 := MacsOf(rows), MacsOf(rows + [Row(k, t[k])]);
    assert macs1 == macs + [k];
    forall m | m in s + {k}
      ensures m in macs1
    {
      assert m == k || m in macs;
    }
  }
}
