/** The address pool and the pending offers, changed in place. */
module Pool {
  import opened LeaseModel

  class IpPool {
    var free: set<Ip>
    var used: set<Ip>
    /** Releases so far that hit an address not held as used. */
    ghost var strays: nat

    constructor (ips: seq<Ip>)
      ensures free == (set i | 0 <= i < |ips| :: ips[i]) && used == {} && strays == 0
    {
      free := set i | 0 <= i < |ips| :: ips[i];
      used := {};
      strays := 0;
    }

    method Allocate() returns (ip: Option<Ip>)
      modifies this
      ensures ip.None? <==> old(free) == {}
      ensures ip.Some? ==> ip.value in old(free) && free == old(free) - {ip.value} && used == old(used) + {ip.value}
      ensures ip.None? ==> free == old(free) && used == old(used)
      ensures strays == old(strays)
    {
      if free == {} {
        return None;
      }
      SomeMember(free);
      var k :| k in free;
      free, used := free - {k}, used + {k};
      return Some(k);
    }

    method Release(ip: Ip)
      modifies this
      ensures free == old(free) + {ip} && used == old(used) - {ip}
      ensures strays == old(strays) + if ip in old(used) then 0 else 1
    {
      if ip !in used {
        strays := strays + 1;
      }
      used := used - {ip};
      free := free + {ip};
    }

    /** False for an address the pool was never given. */
    method MarkUsed(ip: Ip) returns (known: bool)
      modifies this
      ensures known <==> ip in old(free) || ip in old(used)
      ensures free == old(free) - {ip} && used == old(used) + (if known then {ip} else {})
      ensures strays == old(strays)
    {
      if ip !in free {
        assert free == free - {ip};
        known := ip in used;
        assert known ==> used == used + {ip};
        return;
      }
      free, used := free - {ip}, used + {ip};
      return true;
    }

    method TryClaim(ip: Ip) returns (ok: bool)
      modifies this
      ensures ok <==> ip in old(free)
      ensures ok ==> free == old(free) - {ip} && used == old(used) + {ip}
      ensures !ok ==> free == old(free) && used == old(used)
      ensures strays == old(strays)
    {
      if ip !in free {
        return false;
      }
      free, used := free - {ip}, used + {ip};
      return true;
    }
  }

  class PendingOffers {
    var offers: Offers

    constructor ()
      ensures offers == map[]
    {
      offers := map[];
    }

    method Add(mac: Mac, ip: Ip, now: Time)
      modifies this
      ensures offers == old(offers)[mac := Offer(ip, now + OFFER_TIMEOUT)]
    {
      offers := offers[mac := Offer(ip, now + OFFER_TIMEOUT)];
    }

    method Remove(mac: Mac) returns (ip: Option<Ip>)
      modifies this
      ensures ip == if mac in old(offers) then Some(old(offers)[mac].ip) else None
      ensures offers == old(offers) - {mac}
    {
      if mac !in offers {
        assert offers == offers - {mac};
        return None;
      }
      ip := Some(offers[mac].ip);
      offers := offers - {mac};
    }

    /** The address on offer, or the address of an offer that has run out and is dropped here. */
    method IpForMac(mac: Mac, now: Time) returns (active: Option<Ip>, expired: Option<Ip>)
      modifies this
      ensures mac !in old(offers) ==> active == None && expired == None && offers == old(offers)
      ensures mac in old(offers) && now < old(offers)[mac].expiry ==>
                active == Some(old(offers)[mac].ip) && expired == None && offers == old(offers)
      ensures mac in old(offers) && old(offers)[mac].expiry <= now ==>
                active == None && expired == Some(old(offers)[mac].ip) && offers == old(offers) - {mac}
    {
      if mac !in offers {
        return None, None;
      }
      var o := offers[mac];
      if now < o.expiry {
        return Some(o.ip), None;
      }
      offers := offers - {mac};
      return None, Some(o.ip);
    }

    /** Drops the offers that have run out; their MACs come in some order, each once, with their addresses. */
    method ExpireOld(now: Time) returns (order: seq<Mac>, ips: seq<Ip>)
      modifies this
      ensures Enumerates(order, ExpiredOffers(old(offers), now))
      ensures |ips| == |order| && forall i :: 0 <= i < |order| ==> ips[i] == old(offers)[order[i]].ip
      ensures offers == WithoutOffers(old(offers), set k | k in order)
    {
      order, ips := [], [];
      var all := offers;
      var keys := offers.Keys;
      assert offers == WithoutOffers(all, set k | k in order);
      while keys != {}
        invariant keys <= all.Keys
        invariant forall i :: 0 <= i < |order| ==> order[i] in ExpiredOffers(all, now) && order[i] !in keys
        invariant forall i, j :: 0 <= i < j < |order| ==> order[i] != order[j]
        invariant forall k :: k in ExpiredOffers(all, now) && k !in keys ==> k in order
        invariant |ips| == |order| && forall i :: 0 <= i < |order| ==> ips[i] == all[order[i]].ip
        invariant offers == WithoutOffers(all, set k | k in order)
        decreases keys
      {
        SomeMember(keys);
        var k :| k in keys;
        keys := keys - {k};
        if now > all[k].expiry {
          ghost var before := order;
          order, ips := order + [k], ips + [all[k].ip];
          offers := offers - {k};
          assert forall j :: j in order <==> j in before || j == k;
          assert forall i :: 0 <= i < |before| ==> order[i] == before[i];
        }
      }
    }
  }
}
