/** The bounded cache of the off-tunnel resolver: which entry leaves when a new host comes in. */
module DnsCache {
  import opened Common

  const CACHE_MAX: nat := 256

  type Host = string

  /** `asked` is the generation of the server list that answered; it is history, the cache does not look at it. */
  datatype Entry = Entry(ips: seq<string>, expires: nat, negative: bool, asked: nat)

  type Cache = map<Host, Entry>

  /** Some order of iteration over the cache. */
  predicate IsOrder(order: seq<Host>, cache: Cache)
  {
    && (forall h | h in order :: h in cache) && (forall h | h in cache :: h in order)
    && (forall i, j | 0 <= i < j < |order| :: order[i] != order[j])
  }

  /** Expired entries, in the order of iteration. */
  function Expired(order: seq<Host>, cache: Cache, now: nat): seq<Host>
  {
    if order == [] then []
    else
      var earlier := Expired(order[..|order| - 1], cache, now);
      var last := order[|order| - 1];
      if last in cache && now > cache[last].expires then earlier + [last] else earlier
  }

  /** Hosts with a non-empty name, in the order of iteration. */
  function Named(order: seq<Host>): seq<Host>
  {
    if order == [] then []
    else
      var earlier := Named(order[..|order| - 1]);
      if order[|order| - 1] != "" then earlier + [order[|order| - 1]] else earlier
  }

  /**
    The entry that makes room: the first expired one, else the first one with a name. The empty name stands for
    "none found", so an expired entry under the empty name keeps everything in place.
  */
  function Victim(order: seq<Host>, cache: Cache, now: nat): Option<Host>
  {
    var expired := Expired(order, cache, now);
    if expired != [] then (if expired[0] == "" then None else Some(expired[0]))
    else if Named(order) != [] then Some(Named(order)[0])
    else None
  }

  function Remember(cache: Cache, host: Host, entry: Entry, now: nat, order: seq<Host>): Cache
  {
    if |cache| >= CACHE_MAX && host !in cache && Victim(order, cache, now).Some? then
      (cache - {Victim(order, cache, now).value})[host := entry]
    else cache[host := entry]
  }

  /** The walk over the cache; "" when it finds nothing to evict. */
  method FindEvicted(cache: Cache, now: nat, order: seq<Host>) returns (evicted: Host)
    requires IsOrder(order, cache)
    ensures Victim(order, cache, now) == if evicted == "" then None else Some(evicted)
  {
    hide IsOrder;
    evicted := "";
    for i := 0 to |order|
      invariant Expired(order[..i], cache, now) == []
      invariant evicted == if Named(order[..i]) == [] then "" else Named(order[..i])[0]
      invariant evicted != "" || Named(order[..i]) == []
    {
      var k := order[i];
      OrderIsCached(order, cache, i);
      OneFurther(order, cache, now, i);
      if now > cache[k].expires {
        FrontStays(order, cache, now, i + 1);
        assert Expired(order[..i + 1], cache, now) == [k];
        assert Expired(order, cache, now)[0] == k;
        return k;
      }
      if evicted == "" {
        evicted := k;
      }
    }
    assert order[..|order|] == order;
  }

  lemma OrderIsCached(order: seq<Host>, cache: Cache, i: nat)
    requires IsOrder(order, cache) && i < |order|
    ensures order[i] in cache
  {
  }

  class Store {
    var cache: Cache

    constructor ()
      ensures cache == map[]
    {
      cache := map[];
    }

    method RememberLocked(host: Host, entry: Entry, now: nat, order: seq<Host>)
      requires IsOrder(order, cache)
      modifies this
      ensures cache == Remember(old(cache), host, entry, now, order)
      ensures |old(cache)| < 256 || host in old(cache) ==> cache == old(cache)[host := entry]
    {
      if |cache| >= CACHE_MAX && host !in cache {
        var evicted := FindEvicted(cache, now, order);
        if evicted != "" {
          cache := cache - {evicted};
        }
      }
      cache := cache[host := entry];
    }
  }

  lemma OneFurther(order: seq<Host>, cache: Cache, now: nat, i: nat)
    requires i < |order| && order[i] in cache
    ensures Expired(order[..i + 1], cache, now) ==
            Expired(order[..i], cache, now) + if now > cache[order[i]].expires then [order[i]] else []
    ensures Named(order[..i + 1]) == Named(order[..i]) + if order[i] != "" then [order[i]] else []
  {
    assert order[..i + 1][..i] == order[..i];
  }

  lemma {:induction false} FrontStays(order: seq<Host>, cache: Cache, now: nat, i: nat)
    requires i <= |order|
    ensures Expired(order[..i], cache, now) <= Expired(order, cache, now)
  {
    if i < |order| {
      FrontStays(order[..|order| - 1], cache, now, i);
      assert order[..|order| - 1][..i] == order[..i];
    } else {
      assert order[..i] == order;
    }
  }

  lemma {:induction false} NamedHosts(order: seq<Host>)
    ensures forall h :: h in Named(order) <==> h in order && h != ""
  {
    if order != [] {
      NamedHosts(order[..|order| - 1]);
      assert order == order[..|order| - 1] + [order[|order| - 1]];
    }
  }

  lemma {:induction false} ExpiredHosts(order: seq<Host>, cache: Cache, now: nat)
    ensures forall h :: h in Expired(order, cache, now) <==> h in order && h in cache && now > cache[h].expires
  {
    if order != [] {
      ExpiredHosts(order[..|order| - 1], cache, now);
      assert order == order[..|order| - 1] + [order[|order| - 1]];
    }
  }

  lemma RemovingOne(cache: Cache, host: Host)
    requires host in cache
    ensures |cache - {host}| == |cache| - 1
  {
    assert (cache - {host}).Keys == cache.Keys - {host};
    assert |cache.Keys| == |cache| && |(cache - {host}).Keys| == |cache - {host}|;
  }

  lemma AddingOne(cache: Cache, host: Host, entry: Entry)
    ensures |cache[host := entry]| == |cache| + if host in cache then 0 else 1
  {
    assert cache[host := entry].Keys == cache.Keys + {host};
    assert |cache.Keys| == |cache| && |cache[host := entry].Keys| == |cache[host := entry]|;
  }

  lemma VictimIsCached(order: seq<Host>, cache: Cache, now: nat)
    requires IsOrder(order, cache)
    ensures Victim(order, cache, now).Some? ==> Victim(order, cache, now).value in cache
  {
    ExpiredHosts(order, cache, now);
    NamedHosts(order);
    var expired, named := Expired(order, cache, now), Named(order);
    assert expired != [] ==> expired[0] in expired;
    assert named != [] ==> named[0] in named;
  }

  /** A full cache holds some host with a name. */
  lemma FullCacheHasANamedHost(order: seq<Host>, cache: Cache)
    requires IsOrder(order, cache) && |cache| >= 2
    ensures Named(order) != []
  {
    NamedHosts(order);
    if Named(order) == [] {
      forall h | h in cache.Keys ensures h == "" {
        assert h in order && h !in Named(order);
      }
      assert |cache.Keys| == |cache|;
      SubsetSize(cache.Keys, {""});
    }
  }

  lemma SubsetSize<T>(a: set<T>, b: set<T>)
    requires a <= b
    ensures |a| <= |b|
  {
    assert b == a + (b - a);
  }

  predicate Outdated(cache: Cache, host: Host, now: nat)
  {
    host in cache && now > cache[host].expires
  }

  /** The i-th host met has expired and none before it has. */
  predicate FirstOutdated(order: seq<Host>, cache: Cache, now: nat, i: nat)
  {
    i < |order| && Outdated(cache, order[i], now) && forall j | 0 <= j < i :: !Outdated(cache, order[j], now)
  }

  /** Nothing has expired and the i-th host met is the first one with a name. */
  predicate FirstNamed(order: seq<Host>, cache: Cache, now: nat, i: nat)
  {
    && i < |order| && order[i] != "" && (forall j | 0 <= j < i :: order[j] == "")
    && forall j | 0 <= j < |order| :: !Outdated(cache, order[j], now)
  }

  lemma {:induction false} ExpiredFirst(order: seq<Host>, cache: Cache, now: nat) returns (i: nat)
    requires Expired(order, cache, now) != []
    ensures FirstOutdated(order, cache, now, i) && order[i] == Expired(order, cache, now)[0]
  {
    var before := order[..|order| - 1];
    if Expired(before, cache, now) != [] {
      i := ExpiredFirst(before, cache, now);
    } else {
      i := |order| - 1;
      forall j | 0 <= j < i ensures !Outdated(cache, order[j], now) {
        ExpiredHosts(before, cache, now);
        assert before[j] == order[j] && order[j] !in Expired(before, cache, now);
      }
    }
  }

  lemma {:induction false} NamedFirst(order: seq<Host>) returns (i: nat)
    requires Named(order) != []
    ensures i < |order| && order[i] == Named(order)[0] != "" && forall j | 0 <= j < i :: order[j] == ""
  {
    var before := order[..|order| - 1];
    if Named(before) != [] {
      i := NamedFirst(before);
    } else {
      i := |order| - 1;
      forall j | 0 <= j < i ensures order[j] == "" {
        NamedHosts(before);
        assert before[j] == order[j] && order[j] !in Named(before);
      }
    }
  }

  /** The host that makes room, read off the order of the walk. */
  predicate MakesRoom(order: seq<Host>, cache: Cache, now: nat, host: Host)
  {
    && host != ""
    && exists i: nat | i < |order| ::
         order[i] == host && (FirstOutdated(order, cache, now, i) || FirstNamed(order, cache, now, i))
  }

  lemma VictimMakesRoom(cache: Cache, now: nat, order: seq<Host>, host: Host)
    requires IsOrder(order, cache)
    ensures Victim(order, cache, now) == Some(host) <==> MakesRoom(order, cache, now, host)
  {
    ExpiredHosts(order, cache, now);
    NamedHosts(order);
    if Expired(order, cache, now) != [] {
      var i := ExpiredFirst(order, cache, now);
      forall k: nat | k < |order| && FirstOutdated(order, cache, now, k) ensures k == i {
      }
    } else {
      forall j | 0 <= j < |order| ensures !Outdated(cache, order[j], now) {
        assert order[j] !in Expired(order, cache, now);
      }
      if Named(order) != [] {
        var i := NamedFirst(order);
        assert FirstNamed(order, cache, now, i);
        forall k: nat | k < |order| && FirstNamed(order, cache, now, k) ensures k == i {
        }
      } else {
        forall k: nat | k < |order| ensures !FirstNamed(order, cache, now, k) {
          assert order[k] in order;
        }
      }
    }
  }

  /**
    Who is remembered afterwards: the new host with its entry, and every other one as before, except the one that makes
    room when a new host comes to a full cache.
  */
  lemma RemembersExactly(cache: Cache, host: Host, entry: Entry, now: nat, order: seq<Host>, other: Host)
    requires IsOrder(order, cache)
    ensures var after := Remember(cache, host, entry, now, order);
            && host in after && after[host] == entry
            && (other != host ==>
                  && (other in after <==>
                        other in cache && !(|cache| >= 256 && host !in cache && MakesRoom(order, cache, now, other)))
                  && (other in after ==> after[other] == cache[other]))
  {
    hide IsOrder, MakesRoom, Victim;
    VictimMakesRoom(cache, now, order, other);
  }

  /**
    Remembering grows the cache past its limit exactly when the host is new, the cache is full, and the first
    expired entry met is the one under the empty name.
  */
  lemma GrowsPastTheLimitExactly(cache: Cache, host: Host, entry: Entry, now: nat, order: seq<Host>)
    requires IsOrder(order, cache) && |cache| >= CACHE_MAX
    ensures |Remember(cache, host, entry, now, order)| > |cache| <==>
            && host !in cache
            && Expired(order, cache, now) != [] && Expired(order, cache, now)[0] == ""
  {
    FullCacheHasANamedHost(order, cache);
    VictimIsCached(order, cache, now);
    var victim := Victim(order, cache, now);
    AddingOne(cache, host, entry);
    if host !in cache && victim.Some? {
      RemovingOne(cache, victim.value);
      AddingOne(cache - {victim.value}, host, entry);
    }
  }

  /** Without an entry under the empty name the cache keeps its limit. */
  lemma NamedHostsStayBounded(cache: Cache, host: Host, entry: Entry, now: nat, order: seq<Host>)
    requires IsOrder(order, cache) && "" !in cache && |cache| <= CACHE_MAX && host != ""
    ensures |Remember(cache, host, entry, now, order)| <= CACHE_MAX && "" !in Remember(cache, host, entry, now, order)
  {
    AddingOne(cache, host, entry);
    if |cache| >= CACHE_MAX {
      GrowsPastTheLimitExactly(cache, host, entry, now, order);
      ExpiredHosts(order, cache, now);
      var expired := Expired(order, cache, now);
      assert expired != [] ==> expired[0] in expired;
    }
  }

  /** The host of `n` letters. */
  function Letters(n: nat): Host
  {
    seq(n, _ => 'a')
  }

  /** An expired entry under the empty name and `n` live ones. */
  function Full(n: nat): Cache
  {
    if n == 0 then map["" := Entry([], 0, true, 0)] else Full(n - 1)[Letters(n) := Entry([], 100, false, 0)]
  }

  lemma {:induction false} FullSize(n: nat)
    ensures |Full(n)| == n + 1
    ensures forall h | h in Full(n) :: |h| <= n && Full(n)[h].expires == if h == "" then 0 else 100
    ensures "" in Full(n)
  {
    if n > 0 {
      FullSize(n - 1);
      AddingOne(Full(n - 1), Letters(n), Entry([], 100, false, 0));
    } else {
      assert Full(0).Keys == {""};
    }
  }

  /** With 255 live hosts and one expired entry under the empty name, the next host is the 257th. */
  lemma EmptyNameOverflows(order: seq<Host>, entry: Entry)
    requires IsOrder(order, Full(255))
    ensures |Full(255)| == CACHE_MAX && |Remember(Full(255), Letters(256), entry, 100, order)| == 257
  {
    FullSize(255);
    ExpiredHosts(order, Full(255), 100);
    var expired := Expired(order, Full(255), 100);
    assert "" in expired && expired[0] in expired;
    assert Letters(256) !in Full(255);
    GrowsPastTheLimitExactly(Full(255), Letters(256), entry, 100, order);
    AddingOne(Full(255), Letters(256), entry);
  }
}
