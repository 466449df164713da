// Building pools and the routing table from the configuration. A null backend entry makes the build panic.
module Tables {
  import opened Options
  import opened Routing
  import opened Sequences
  import opened Config
  import opened Sums
  import opened Uint64
  import Admin
  import Pool
  import RoundRobin
  import SmoothWrr
  import WrrGuarantees

  // What a request handler captures: its route's configuration and pool.
  datatype Handler = Handler(config: RouteConfig, pool: Pool.BackendPool)

  datatype Configuration = Configuration(Listeners: seq<ListenerConfig>)

  // ----- Building pools -----

  function Addrs(backends: seq<Pool.Backend>): seq<string> {
    seq(|backends|, i requires 0 <= i < |backends| => backends[i].Addr)
  }

  // One backend per configured address that parses, with the weight the configuration gives it.
  ghost predicate PoolFor(backends: seq<Pool.Backend>, weights: map<string, int>, parses: string -> bool) {
    && Distinct(Addrs(backends))
    && (forall a :: a in Addrs(backends) <==> a in weights && parses(a))
    && forall i | 0 <= i < |backends| && backends[i].Addr in weights ::
         backends[i].Weight == weights[backends[i].Addr] >= 1
  }

  // No connection counted, no weight accumulated, no ticket drawn.
  ghost predicate Pristine(pool: Pool.BackendPool)
    reads pool, pool.backends
  {
    pool.current == 0 && Unused(pool.backends)
  }

  ghost predicate Unused(backends: seq<Pool.Backend>)
    reads backends
  {
    forall b | b in backends :: b.CurrentWeight == 0 && b.connections == 0
  }

  // A pool, newly allocated with its backends, that nothing has selected from yet.
  twostate predicate NewPool(new pool: Pool.BackendPool)
    reads pool, pool.backends
  {
    fresh(pool) && (forall b | b in pool.backends :: fresh(b)) && Pristine(pool)
  }

  // In plain terms.
  twostate lemma NewPlainly(new pool: Pool.BackendPool)
    requires NewPool(pool)
    ensures fresh(pool) && pool.current == 0
    ensures forall b | b in pool.backends :: fresh(b) && b.CurrentWeight == 0 && b.connections == 0
  {
  }

  // Two pools with no backend in common.
  predicate Unshared(p: Pool.BackendPool, q: Pool.BackendPool) {
    p != q && forall b | b in p.backends :: b !in q.backends
  }

  // Iterating over a map visits its keys in an unspecified order.
  method KeysInSomeOrder(m: map<string, BackendConfig>) returns (keys: seq<string>)
    ensures forall a :: a in keys <==> a in m
    ensures Distinct(keys)
  {
    keys := [];
    var left := m.Keys;
    while left != {}
      invariant forall a :: a in m <==> a in left || a in keys
      invariant forall a | a in left :: a !in keys
      invariant Distinct(keys)
      decreases |left|
    {
      var a :| a in left;
      left := left - {a};
      keys := keys + [a];
    }
  }

  // The later of two entries for an address replaces the earlier; a null entry panics.
  method ByAddress(configs: seq<BackendConfig?>) returns (panicked: bool, m: map<string, BackendConfig>)
    ensures panicked <==> null in configs
    ensures !panicked ==> Admin.NoNull(BackendValues(configs))
    ensures !panicked ==> m.Keys == Admin.PoolWeights(BackendValues(configs)).Keys
    ensures !panicked ==> forall a | a in m ::
      m[a].Addr == a && Admin.Normal(m[a].Weight) == Admin.PoolWeights(BackendValues(configs))[a]
  {
    panicked, m := false, map[];
    ghost var values := BackendValues(configs);
    var i := 0;
    while i < |configs|
      invariant 0 <= i <= |configs|
      invariant forall k | 0 <= k < i :: configs[k] != null
      invariant Admin.NoNull(values[..i])
      invariant m.Keys == Admin.PoolWeights(values[..i]).Keys
      invariant forall a | a in m ::
        m[a].Addr == a && Admin.Normal(m[a].Weight) == Admin.PoolWeights(values[..i])[a]
    {
      var bc := configs[i];
      if bc == null {
        panicked := true;
        return;
      }
      m := m[bc.Addr := bc];
      assert values[..i + 1][..i] == values[..i] && values[i] == BackendV(bc.Addr, bc.Weight);
      i := i + 1;
    }
    assert values[..i] == values;
  }

  // parses is url.Parse succeeding on "http://" + addr; L4 pools take every address.
  method NewBackend(bc: BackendConfig, parses: string -> bool) returns (be: Pool.Backend?)
    ensures be == null <==> !parses(bc.Addr)
    ensures be != null ==> fresh(be) && be.Addr == bc.Addr && be.Weight == if bc.Weight > 0 then bc.Weight else 1
    ensures be != null ==> be.CurrentWeight == 0 && be.connections == 0
  {
    var weight := 1;
    if bc.Weight > 0 {
      weight := bc.Weight;
    }
    if !parses(bc.Addr) {
      return null;
    }
    be := new Pool.Backend(bc.Addr, weight);
  }

  // backends holds one backend for each of the keys that parses.
  ghost predicate Built(backends: seq<Pool.Backend>, keys: seq<string>, weights: map<string, int>,
                        parses: string -> bool) {
    && Distinct(Addrs(backends))
    && (forall a :: a in Addrs(backends) <==> a in keys && parses(a))
    && forall i | 0 <= i < |backends| && backends[i].Addr in weights ::
         backends[i].Weight == weights[backends[i].Addr]
  }

  lemma BuiltNext(backends: seq<Pool.Backend>, be: Pool.Backend?, keys: seq<string>, i: nat,
                  weights: map<string, int>, parses: string -> bool)
    requires i < |keys| && Distinct(keys) && Built(backends, keys[..i], weights, parses)
    requires be == null <==> !parses(keys[i])
    requires be != null ==> be.Addr == keys[i] && (be.Addr in weights ==> be.Weight == weights[be.Addr])
    ensures Built(if be == null then backends else backends + [be], keys[..i + 1], weights, parses)
  {
    assert keys[..i + 1] == keys[..i] + [keys[i]];
    if be != null {
      assert Addrs(backends + [be]) == Addrs(backends) + [be.Addr];
    }
  }

  method BuildBackends(staticBackends: map<string, BackendConfig>, ghost weights: map<string, int>,
                       parses: string -> bool)
    returns (backends: seq<Pool.Backend>)
    requires staticBackends.Keys == weights.Keys
    requires forall a | a in staticBackends ::
      staticBackends[a].Addr == a && Admin.Normal(staticBackends[a].Weight) == weights[a]
    ensures PoolFor(backends, weights, parses)
    ensures Unused(backends) && forall b | b in backends :: fresh(b)
  {
    var keys := KeysInSomeOrder(staticBackends);
    backends := [];
    var i := 0;
    while i < |keys|
      invariant 0 <= i <= |keys|
      invariant forall b | b in backends :: fresh(b)
      invariant Unused(backends)
      invariant Built(backends, keys[..i], weights, parses)
    {
      assert keys[i] in staticBackends;
      var be := NewBackend(staticBackends[keys[i]], parses);
      BuiltNext(backends, be, keys, i, weights, parses);
      if be != null {
        backends := backends + [be];
      }
      i := i + 1;
    }
    assert keys[..i] == keys;
    forall a | a in weights ensures weights[a] >= 1 {
      assert staticBackends[a].Addr == a;
    }
  }

  method BuildPool(configs: seq<BackendConfig?>, strategy: string, parses: string -> bool)
    returns (pool: Pool.BackendPool?)
    ensures pool == null <==> null in configs
    ensures pool != null ==> NewPool(pool) && pool.Valid() && pool.strategy == strategy
    ensures pool != null ==>
      && Admin.NoNull(BackendValues(configs))
      && PoolFor(pool.backends, Admin.PoolWeights(BackendValues(configs)), parses)
  {
    var panicked, staticBackends := ByAddress(configs);
    if panicked {
      return null;
    }
    ghost var weights := Admin.PoolWeights(BackendValues(configs));
    var backends := BuildBackends(staticBackends, weights, parses);
    pool := new Pool.BackendPool(backends, strategy);
    ValidFromAddrs(pool, weights, parses);
  }

  // In plain terms: the pool has exactly the configured addresses that parse, each once and with the
  // weight of its last entry, which counts as one if it is not positive.
  lemma PoolPlainly(backends: seq<Pool.Backend>, entries: seq<BackendV>, parses: string -> bool)
    requires Admin.NoNull(entries) && PoolFor(backends, Admin.PoolWeights(entries), parses)
    ensures forall i, j | 0 <= i < j < |backends| :: backends[i].Addr != backends[j].Addr
    ensures forall e | e in entries :: e.BackendV? && (parses(e.Addr) ==> exists b | b in backends :: b.Addr == e.Addr)
    ensures forall b | b in backends ::
      && parses(b.Addr)
      && exists j | 0 <= j < |entries| ::
           && entries[j].BackendV? && entries[j].Addr == b.Addr
           && b.Weight == (if entries[j].Weight > 0 then entries[j].Weight else 1)
           && forall l | j < l < |entries| :: entries[l].BackendV? && entries[l].Addr != b.Addr
  {
    forall i, j | 0 <= i < j < |backends| ensures backends[i].Addr != backends[j].Addr {
      assert Addrs(backends)[i] != Addrs(backends)[j];
    }
    forall e | e in entries ensures e.BackendV? && (parses(e.Addr) ==> exists b | b in backends :: b.Addr == e.Addr) {
      assert e != Null;
      if parses(e.Addr) { var b := BackendOfEntry(backends, entries, parses, e); }
    }
    forall b | b in backends
      ensures parses(b.Addr)
      ensures exists j | 0 <= j < |entries| ::
        && entries[j].BackendV? && entries[j].Addr == b.Addr
        && b.Weight == (if entries[j].Weight > 0 then entries[j].Weight else 1)
        && forall l | j < l < |entries| :: entries[l].BackendV? && entries[l].Addr != b.Addr
    {
      var j := EntryOfBackend(backends, entries, parses, b);
    }
  }

  lemma BackendOfEntry(backends: seq<Pool.Backend>, entries: seq<BackendV>, parses: string -> bool, e: BackendV)
    returns (b: Pool.Backend)
    requires Admin.NoNull(entries) && PoolFor(backends, Admin.PoolWeights(entries), parses)
    requires e in entries && e != Null && parses(e.Addr)
    ensures b in backends && b.Addr == e.Addr
  {
    Admin.PoolWeightsDomain(entries);
    var k :| 0 <= k < |entries| && entries[k] == e;
    assert Admin.IsFor(entries[k], e.Addr);
    assert e.Addr in Addrs(backends);
    var i :| 0 <= i < |backends| && Addrs(backends)[i] == e.Addr;
    b := backends[i];
  }

  lemma EntryOfBackend(backends: seq<Pool.Backend>, entries: seq<BackendV>, parses: string -> bool, b: Pool.Backend)
    returns (j: nat)
    requires Admin.NoNull(entries) && PoolFor(backends, Admin.PoolWeights(entries), parses) && b in backends
    ensures parses(b.Addr) && j < |entries| && entries[j].BackendV? && entries[j].Addr == b.Addr
    ensures b.Weight == if entries[j].Weight > 0 then entries[j].Weight else 1
    ensures forall l | j < l < |entries| :: entries[l].BackendV? && entries[l].Addr != b.Addr
  {
    Admin.PoolWeightsDomain(entries);
    var i :| 0 <= i < |backends| && backends[i] == b;
    assert Addrs(backends)[i] == b.Addr;
    j := Admin.FindLast(entries, b.Addr);
    Admin.PoolTakesLast(entries, j);
    assert forall l | 0 <= l < |entries| :: entries[l] != Null;
  }

  lemma ValidFromAddrs(pool: Pool.BackendPool, weights: map<string, int>, parses: string -> bool)
    requires PoolFor(pool.backends, weights, parses)
    ensures pool.Valid()
  {
    forall i, j | 0 <= i < j < |pool.backends| ensures pool.backends[i] != pool.backends[j] {
      assert Addrs(pool.backends)[i] != Addrs(pool.backends)[j];
    }
    forall b | b in pool.backends ensures b.Weight >= 0 {
      var i :| 0 <= i < |pool.backends| && pool.backends[i] == b;
      assert Addrs(pool.backends)[i] == b.Addr;
    }
  }

  // ----- Building the tables -----

  // The routes of the http and https listeners among the first k, in configuration order.
  ghost function L7Configs(listeners: seq<ListenerConfig>, k: nat): seq<RouteConfig>
    requires k <= |listeners|
    reads listeners
  {
    if k == 0 then []
    else L7Configs(listeners, k - 1) + if IsL7(listeners[k - 1].Protocol) then listeners[k - 1].Routes else []
  }

  function ConfigsOf(routes: seq<Route<Handler>>): seq<RouteConfig> {
    seq(|routes|, i requires 0 <= i < |routes| => routes[i].id.config)
  }

  // rt is what a route configuration of value v is built into.
  ghost predicate HandlerFor(rt: Route<Handler>, v: RouteV, parses: string -> bool) {
    && rt.rule == rt.id.config.rule == v.rule
    && rt.id.pool.strategy == v.Strategy
    && rt.id.pool.Valid()
    && Admin.NoNull(v.Backends)
    && PoolFor(rt.id.pool.backends, Admin.PoolWeights(v.Backends), parses)
  }

  // A sorted permutation of the configured routes, each with a pool for its backends.
  ghost predicate TableFor(routes: seq<Route<Handler>>, configs: seq<RouteConfig>, values: seq<RouteV>,
                           parses: string -> bool)
    requires |configs| == |values|
  {
    && multiset(ConfigsOf(routes)) == multiset(configs)
    && Sorted(routes)
    && forall rt, i | rt in routes && 0 <= i < |configs| && configs[i] == rt.id.config ::
         HandlerFor(rt, values[i], parses)
  }

  // routes is the table of the http and https listeners as they are now.
  ghost predicate L7Table(listeners: seq<ListenerConfig>, routes: seq<Route<Handler>>, parses: string -> bool)
    reads listeners, L7Configs(listeners, |listeners|), BackendsOf(L7Configs(listeners, |listeners|))
  {
    var configs := L7Configs(listeners, |listeners|);
    TableFor(routes, configs, RouteValues(configs), parses)
  }

  ghost predicate NullFree(configs: seq<RouteConfig>)
    reads configs
  {
    forall c | c in configs :: null !in c.Backends
  }

  // No two routes share a pool or a backend.
  predicate PoolsApart(routes: seq<Route<Handler>>) {
    forall i, j | 0 <= i < |routes| && 0 <= j < |routes| && i != j :: Unshared(routes[i].id.pool, routes[j].id.pool)
  }

  // One route per configuration, each with a new pool.
  method RoutesFor(configs: seq<RouteConfig>, parses: string -> bool) returns (ok: bool, routes: seq<Route<Handler>>)
    ensures ok <==> NullFree(configs)
    ensures ok ==> ConfigsOf(routes) == configs && PoolsApart(routes)
    ensures ok ==> forall i | 0 <= i < |routes| :: HandlerFor(routes[i], RouteValues(configs)[i], parses)
    ensures ok ==> forall i | 0 <= i < |routes| :: NewPool(routes[i].id.pool)
  {
    ok, routes := true, [];
    ghost var values := RouteValues(configs);
    var i := 0;
    while i < |configs|
      invariant 0 <= i <= |configs|
      invariant forall j | 0 <= j < i :: null !in configs[j].Backends
      invariant ConfigsOf(routes) == configs[..i]
      invariant PoolsApart(routes)
      invariant forall j | 0 <= j < |routes| :: HandlerFor(routes[j], values[j], parses)
      invariant forall j | 0 <= j < |routes| :: NewPool(routes[j].id.pool)
    {
      var pool := BuildPool(configs[i].Backends, configs[i].Strategy, parses);
      if pool == null {
        ok := false;
        return;
      }
      assert RouteValue(configs[i]) == values[i];
      routes := routes + [Route(Handler(configs[i], pool), configs[i].rule)];
      i := i + 1;
    }
  }

  // The routes of one more listener behind those collected so far, which were built from these values.
  method CollectMore(routes: seq<Route<Handler>>, ghost values: seq<RouteV>, more: seq<RouteConfig>,
                     parses: string -> bool)
    returns (ok: bool, all: seq<Route<Handler>>)
    requires PoolsApart(routes) && BuiltFrom(routes, values, parses)
    ensures ok <==> NullFree(more)
    ensures ok ==> PoolsApart(all) && BuiltFrom(all, values + RouteValues(more), parses)
    ensures ok ==> ConfigsOf(all) == ConfigsOf(routes) + more
    ensures ok ==> forall rt | rt in all :: rt in routes || NewPool(rt.id.pool)
  {
    var added;
    ok, added := RoutesFor(more, parses);
    if !ok {
      return false, [];
    }
    JoinedApart(routes, added);
    all := routes + added;
  }

  ghost predicate BuiltFrom(routes: seq<Route<Handler>>, values: seq<RouteV>, parses: string -> bool) {
    |routes| == |values| && forall i | 0 <= i < |routes| :: HandlerFor(routes[i], values[i], parses)
  }

  lemma JoinedApart(a: seq<Route<Handler>>, b: seq<Route<Handler>>)
    requires PoolsApart(a) && PoolsApart(b)
    requires forall p, q | p in a && q in b :: Unshared(p.id.pool, q.id.pool) && Unshared(q.id.pool, p.id.pool)
    ensures PoolsApart(a + b)
  {
  }

  // routes is built from the http and https routes of the first k listeners, which hold no null entry,
  // each with a pool of its own.
  ghost predicate Collected(listeners: seq<ListenerConfig>, k: nat, routes: seq<Route<Handler>>, parses: string -> bool)
    requires k <= |listeners|
    reads listeners, L7Configs(listeners, k), BackendsOf(L7Configs(listeners, k))
  {
    var configs := L7Configs(listeners, k);
    && NullFree(configs) && PoolsApart(routes)
    && ConfigsOf(routes) == configs && BuiltFrom(routes, RouteValues(configs), parses)
  }

  // Listener k: its routes are collected if it is an http or https listener.
  method CollectNext(listeners: seq<ListenerConfig>, k: nat, routes: seq<Route<Handler>>, parses: string -> bool)
    returns (ok: bool, all: seq<Route<Handler>>)
    requires k < |listeners| && Collected(listeners, k, routes, parses)
    ensures if ok then Collected(listeners, k + 1, all, parses) else !NullFree(L7Configs(listeners, |listeners|))
    ensures ok ==> forall rt | rt in all :: rt in routes || NewPool(rt.id.pool)
  {
    ghost var configs := L7Configs(listeners, k);
    if !IsL7(listeners[k].Protocol) {
      assert L7Configs(listeners, k + 1) == configs;
      return true, routes;
    }
    ghost var values := RouteValues(configs);
    ok, all := CollectMore(routes, values, listeners[k].Routes, parses);
    L7ConfigsGrow(listeners, k + 1, |listeners|);
    assert RouteValues(configs) == values;
    assert L7Configs(listeners, k + 1) == configs + listeners[k].Routes;
    ValuesOfBoth(configs, listeners[k].Routes);
  }

  lemma ValuesOfBoth(a: seq<RouteConfig>, b: seq<RouteConfig>)
    ensures RouteValues(a + b) == RouteValues(a) + RouteValues(b)
  {
  }

  method CollectRoutes(listeners: seq<ListenerConfig>, parses: string -> bool)
    returns (ok: bool, routes: seq<Route<Handler>>)
    ensures ok <==> NullFree(L7Configs(listeners, |listeners|))
    ensures ok ==> Collected(listeners, |listeners|, routes, parses)
    ensures ok ==> forall rt | rt in routes :: NewPool(rt.id.pool)
  {
    ok, routes := true, [];
    var k := 0;
    while k < |listeners|
      invariant 0 <= k <= |listeners|
      invariant Collected(listeners, k, routes, parses)
      invariant forall rt | rt in routes :: NewPool(rt.id.pool)
    {
      ok, routes := CollectNext(listeners, k, routes, parses);
      if !ok {
        return;
      }
      k := k + 1;
    }
  }

  lemma {:induction false} L7ConfigsGrow(listeners: seq<ListenerConfig>, k: nat, n: nat)
    requires k <= n <= |listeners|
    ensures forall c | c in L7Configs(listeners, k) :: c in L7Configs(listeners, n)
    decreases n
  {
    if k < n { L7ConfigsGrow(listeners, k, n - 1); }
  }

  // sort.Slice with the comparator: callers know only that the result is a sorted permutation.
  method SortSlice(routes: seq<Route<Handler>>) returns (sorted: seq<Route<Handler>>)
    ensures SortedPermutation(sorted, routes)
  {
    InsertionSortSorts(routes);
    sorted := InsertionSort(routes);
  }

  lemma ConfigsOfRemoved(t: seq<Route<Handler>>, p: nat)
    requires p < |t|
    ensures multiset(ConfigsOf(t)) == multiset(ConfigsOf(t[..p] + t[p + 1..])) + multiset{t[p].id.config}
  {
    var a, b := ConfigsOf(t[..p]), ConfigsOf(t[p + 1..]);
    assert ConfigsOf(t) == a + [t[p].id.config] + b;
    assert ConfigsOf(t[..p] + t[p + 1..]) == a + b;
  }

  lemma TakenOut<T>(t: seq<T>, p: nat)
    requires p < |t|
    ensures multiset(t[..p] + t[p + 1..]) == multiset(t) - multiset{t[p]}
  {
    assert t == t[..p] + [t[p]] + t[p + 1..];
  }

  lemma {:induction false} ConfigsOfPermutation(s: seq<Route<Handler>>, t: seq<Route<Handler>>)
    requires multiset(s) == multiset(t)
    ensures multiset(ConfigsOf(s)) == multiset(ConfigsOf(t))
  {
    if s == [] {
      assert |multiset(t)| == 0;
    } else {
      assert s[0] in multiset(t);
      var p :| 0 <= p < |t| && t[p] == s[0];
      var s', t' := s[..0] + s[1..], t[..p] + t[p + 1..];
      assert multiset(s') == multiset(t') by {
        TakenOut(s, 0);
        TakenOut(t, p);
      }
      ConfigsOfPermutation(s', t');
      ConfigsOfRemoved(s, 0);
      ConfigsOfRemoved(t, p);
    }
  }

  lemma SortedTable(collected: seq<Route<Handler>>, sorted: seq<Route<Handler>>,
                    configs: seq<RouteConfig>, values: seq<RouteV>, parses: string -> bool)
    requires SortedPermutation(sorted, collected) && ConfigsOf(collected) == configs && |configs| == |values|
    requires forall i | 0 <= i < |collected| :: HandlerFor(collected[i], values[i], parses)
    requires forall i, j | 0 <= i < |configs| && 0 <= j < |configs| && configs[i] == configs[j] ::
      values[i] == values[j]
    ensures TableFor(sorted, configs, values, parses)
  {
    ConfigsOfPermutation(sorted, collected);
    SameElements(sorted, collected);
    forall rt, i | rt in sorted && 0 <= i < |configs| && configs[i] == rt.id.config
      ensures HandlerFor(rt, values[i], parses)
    {
      var j :| 0 <= j < |collected| && collected[j] == rt;
      assert configs[j] == ConfigsOf(collected)[j] == rt.id.config;
    }
  }

  // A permutation of routes that share no pool has no two of them sharing one either.
  lemma ApartInAnyOrder(s: seq<Route<Handler>>, t: seq<Route<Handler>>)
    requires PoolsApart(s) && multiset(s) == multiset(t)
    ensures PoolsApart(t)
  {
    forall i, j | 0 <= i < |t| && 0 <= j < |t| && i != j ensures Unshared(t[i].id.pool, t[j].id.pool) {
      var a, b := OtherPlaces(s, t, i, j);
    }
  }

  // Two places of t have two places of s with the same elements.
  lemma OtherPlaces<T>(s: seq<T>, t: seq<T>, i: nat, j: nat) returns (a: nat, b: nat)
    requires multiset(s) == multiset(t) && i < |t| && j < |t| && i != j
    ensures a < |s| && b < |s| && a != b && s[a] == t[i] && s[b] == t[j]
  {
    assert t[i] in multiset(s);
    a :| 0 <= a < |s| && s[a] == t[i];
    var rest := s[..a] + s[a + 1..];
    TakenOut(s, a);
    TakenOut(t, i);
    var left := t[..i] + t[i + 1..];
    assert left[if j < i then j else j - 1] == t[j];
    assert t[j] in multiset(left) && multiset(left) == multiset(rest);
    var c :| 0 <= c < |rest| && rest[c] == t[j];
    b := if c < a then c else c + 1;
  }

  method BuildL7Routes(listeners: seq<ListenerConfig>, parses: string -> bool)
    returns (ok: bool, routes: seq<Route<Handler>>)
    ensures ok <==> NullFree(L7Configs(listeners, |listeners|))
    ensures ok ==> L7Table(listeners, routes, parses) && PoolsApart(routes)
    ensures ok ==> forall rt | rt in routes :: NewPool(rt.id.pool)
  {
    var collected;
    ok, collected := CollectRoutes(listeners, parses);
    if !ok {
      return false, [];
    }
    routes := SortSlice(collected);
    ghost var configs := L7Configs(listeners, |listeners|);
    SortedTable(collected, routes, configs, RouteValues(configs), parses);
    ApartInAnyOrder(collected, routes);
    SameElements(routes, collected);
  }

  // The last tcp or udp listener of that name among the first k: later pools replace earlier ones.
  function L4Listener(listeners: seq<ListenerConfig>, k: nat, name: string): (found: Option<nat>)
    requires k <= |listeners|
    ensures found.Some? ==> found.value < k
  {
    if k == 0 then None
    else if IsL4(listeners[k - 1].Protocol) && listeners[k - 1].Name == name then Some(k - 1)
    else L4Listener(listeners, k - 1, name)
  }

  ghost function L4Backends(listeners: seq<ListenerConfig>): set<BackendConfig?> {
    set l, b | l in listeners && b in l.Backends :: b
  }

  ghost function L4Values(listeners: seq<ListenerConfig>): (values: seq<seq<BackendV>>)
    reads L4Backends(listeners)
    ensures |values| == |listeners|
  {
    seq(|listeners|, i requires 0 <= i < |listeners| reads L4Backends(listeners) =>
      assert forall b | b in listeners[i].Backends :: b in L4Backends(listeners);
      BackendValues(listeners[i].Backends))
  }

  // A pool for every tcp and udp listener name among the first k listeners.
  ghost predicate L4PoolsFor(pools: map<string, Pool.BackendPool>, listeners: seq<ListenerConfig>,
                             values: seq<seq<BackendV>>, k: nat)
    requires k <= |listeners| == |values|
  {
    forall name :: match L4Listener(listeners, k, name)
      case None => name !in pools
      case Some(i) =>
        && name in pools
        && pools[name].strategy == listeners[i].Strategy
        && pools[name].Valid()
        && Admin.NoNull(values[i])
        && PoolFor(pools[name].backends, Admin.PoolWeights(values[i]), _ => true)
  }

  ghost predicate L4Table(listeners: seq<ListenerConfig>, pools: map<string, Pool.BackendPool>)
    reads L4Backends(listeners)
  {
    L4PoolsFor(pools, listeners, L4Values(listeners), |listeners|)
  }

  predicate L4NullFree(listeners: seq<ListenerConfig>) {
    forall l | l in listeners && IsL4(l.Protocol) :: null !in l.Backends
  }

  predicate L4PoolsApart(pools: map<string, Pool.BackendPool>) {
    forall a, b | a in pools && b in pools && a != b :: Unshared(pools[a], pools[b])
  }

  method BuildL4Pools(listeners: seq<ListenerConfig>) returns (ok: bool, pools: map<string, Pool.BackendPool>)
    ensures ok <==> L4NullFree(listeners)
    ensures ok ==> L4Table(listeners, pools) && L4PoolsApart(pools)
    ensures ok ==> forall name | name in pools :: NewPool(pools[name])
  {
    ok, pools := true, map[];
    ghost var values := L4Values(listeners);
    var k := 0;
    while k < |listeners|
      invariant 0 <= k <= |listeners|
      invariant L4NullFree(listeners[..k])
      invariant L4PoolsFor(pools, listeners, values, k)
      invariant L4PoolsApart(pools)
      invariant forall name | name in pools :: NewPool(pools[name])
    {
      var l := listeners[k];
      if IsL4(l.Protocol) {
        var pool := BuildPool(l.Backends, l.Strategy, _ => true);
        if pool == null {
          return false, map[];
        }
        assert BackendValues(l.Backends) == values[k];
        L4Next(pools, listeners, values, k, pool);
        pools := pools[l.Name := pool];
      }
      k := k + 1;
    }
    assert listeners[..k] == listeners;
  }

  // The pool of listener k replaces that of an earlier listener of the same name.
  lemma L4Next(pools: map<string, Pool.BackendPool>, listeners: seq<ListenerConfig>, values: seq<seq<BackendV>>,
               k: nat, pool: Pool.BackendPool)
    requires k < |listeners| == |values| && IsL4(listeners[k].Protocol)
    requires L4PoolsFor(pools, listeners, values, k)
    requires pool.Valid() && pool.strategy == listeners[k].Strategy && Admin.NoNull(values[k])
    requires PoolFor(pool.backends, Admin.PoolWeights(values[k]), _ => true)
    ensures L4PoolsFor(pools[listeners[k].Name := pool], listeners, values, k + 1)
  {
    forall name | name != listeners[k].Name
      ensures L4Listener(listeners, k + 1, name) == L4Listener(listeners, k, name)
    {
    }
  }

  // In plain terms: a tcp or udp listener has the pool of its name, with its strategy and its addresses and
  // weights, unless a later one has that name; a name without such a listener has none.
  lemma L4Plainly(listeners: seq<ListenerConfig>, pools: map<string, Pool.BackendPool>)
    requires L4Table(listeners, pools)
    ensures forall i | 0 <= i < |listeners| && listeners[i].Protocol in {"tcp", "udp"}
      && (forall j | i < j < |listeners| && listeners[j].Name == listeners[i].Name ::
            listeners[j].Protocol !in {"tcp", "udp"}) ::
      var name, entries := listeners[i].Name, BackendValues(listeners[i].Backends);
      && name in pools && pools[name].strategy == listeners[i].Strategy && Null !in entries
      && (forall a :: a in Addrs(pools[name].backends) <==> a in Admin.PoolWeights(entries))
      && forall b | b in pools[name].backends && b.Addr in Admin.PoolWeights(entries) ::
           b.Weight == Admin.PoolWeights(entries)[b.Addr]
    ensures forall name | name in pools ::
      exists i | 0 <= i < |listeners| :: listeners[i].Name == name && listeners[i].Protocol in {"tcp", "udp"}
  {
    forall i | 0 <= i < |listeners| && listeners[i].Protocol in {"tcp", "udp"}
      && (forall j | i < j < |listeners| && listeners[j].Name == listeners[i].Name ::
            listeners[j].Protocol !in {"tcp", "udp"})
      ensures L4Listener(listeners, |listeners|, listeners[i].Name) == Some(i)
    {
      LastIsFound(listeners, |listeners|, i);
    }
    forall name | name in pools
      ensures exists i | 0 <= i < |listeners| :: listeners[i].Name == name && listeners[i].Protocol in {"tcp", "udp"}
    {
      var i := FoundIsL4(listeners, |listeners|, name);
    }
  }

  lemma {:induction false} LastIsFound(listeners: seq<ListenerConfig>, k: nat, i: nat)
    requires i < k <= |listeners| && listeners[i].Protocol in {"tcp", "udp"}
    requires forall j | i < j < k && listeners[j].Name == listeners[i].Name :: listeners[j].Protocol !in {"tcp", "udp"}
    ensures L4Listener(listeners, k, listeners[i].Name) == Some(i)
  {
    if i < k - 1 { LastIsFound(listeners, k - 1, i); }
  }

  lemma {:induction false} FoundIsL4(listeners: seq<ListenerConfig>, k: nat, name: string) returns (i: nat)
    requires k <= |listeners| && L4Listener(listeners, k, name).Some?
    ensures i < k && listeners[i].Name == name && listeners[i].Protocol in {"tcp", "udp"}
  {
    if IsL4(listeners[k - 1].Protocol) && listeners[k - 1].Name == name {
      i := k - 1;
    } else {
      i := FoundIsL4(listeners, k - 1, name);
    }
  }

  // The http and https routes, and no others.
  lemma {:induction false} L7Plainly(listeners: seq<ListenerConfig>, k: nat, rt: RouteConfig)
    requires k <= |listeners|
    ensures rt in L7Configs(listeners, k) <==>
      exists l :: l in listeners[..k] && l.Protocol in {"http", "https"} && rt in l.Routes
  {
    if k > 0 {
      L7Plainly(listeners, k - 1, rt);
      assert listeners[..k] == listeners[..k - 1] + [listeners[k - 1]];
    }
  }

  lemma DispatchInTable(routes: seq<Route<Handler>>, configs: seq<RouteConfig>, values: seq<RouteV>,
                        parses: string -> bool, r: Request)
    requires |configs| == |values| && TableFor(routes, configs, values, parses)
    ensures match FirstMatch(routes, r)
      case None => forall c | c in configs :: !Matches(c.rule, r)
      case Some(rt) =>
        && rt in routes && rt.id.config in configs
        && Matches(rt.id.config.rule, r)
        && forall c | c in configs && Matches(c.rule, r) :: !Before(c.rule, rt.id.config.rule)
  {
    FirstMatchOfSorted(routes, r);
    forall rt | rt in routes ensures rt.id.config in configs && rt.rule == rt.id.config.rule {
      var i :| 0 <= i < |routes| && routes[i] == rt;
      assert ConfigsOf(routes)[i] in multiset(configs);
      var j :| 0 <= j < |configs| && configs[j] == rt.id.config;
      assert HandlerFor(rt, values[j], parses);
    }
    forall c | c in configs ensures exists rt | rt in routes :: rt.id.config == c {
      assert c in multiset(ConfigsOf(routes));
      var i :| 0 <= i < |routes| && ConfigsOf(routes)[i] == c;
      assert routes[i].id.config == c;
    }
  }

  // In plain terms: a request gets a configured route of its host or of none, whose path begins the
  // request's and whose headers the request carries; one of its host if one fits, and of those one with the
  // longest path; nothing only if no configured route fits. Its pool is the one for that route's entries.
  lemma ServedConfig(routes: seq<Route<Handler>>, configs: seq<RouteConfig>, values: seq<RouteV>,
                     parses: string -> bool, r: Request)
    requires |configs| == |values| && TableFor(routes, configs, values, parses)
    ensures FirstMatch(routes, r).Some? ==>
      var rt := FirstMatch(routes, r).value;
      var c := rt.id.config;
      && rt in routes && c in configs
      && (c.rule.Host == "" || c.rule.Host == r.host) && c.rule.Path <= r.path
      && (forall key | key in c.rule.Headers :: r.header(CanonicalHeaderKey(key)) == c.rule.Headers[key])
      && forall i | 0 <= i < |configs| && configs[i] == c ::
           && rt.id.pool.strategy == values[i].Strategy && Null !in values[i].Backends
           && PoolFor(rt.id.pool.backends, Admin.PoolWeights(values[i].Backends), parses)
    ensures forall o | o in configs && (o.rule.Host == "" || o.rule.Host == r.host) && o.rule.Path <= r.path
      && (forall key | key in o.rule.Headers :: r.header(CanonicalHeaderKey(key)) == o.rule.Headers[key]) ::
      && FirstMatch(routes, r).Some?
      && var rule := FirstMatch(routes, r).value.id.config.rule;
      && (o.rule.Host != "" ==> rule.Host != "")
      && (o.rule.Host == rule.Host ==> |o.rule.Path| <= |rule.Path|)
  {
    DispatchInTable(routes, configs, values, parses, r);
    if FirstMatch(routes, r).Some? {
      var rt := FirstMatch(routes, r).value;
      forall i | 0 <= i < |configs| && configs[i] == rt.id.config ensures HandlerFor(rt, values[i], parses) {
      }
    }
  }

  // So a route without host and headers takes every request whose path goes on from its own, unless a
  // more specific route does.
  lemma PrefixServed(routes: seq<Route<Handler>>, configs: seq<RouteConfig>, values: seq<RouteV>,
                     parses: string -> bool, c: RouteConfig, host: string, rest: string, header: string -> string)
    requires |configs| == |values| && TableFor(routes, configs, values, parses)
    requires c in configs && c.rule.Host == "" && c.rule.Headers == map[]
    ensures FirstMatch(routes, Request(host, c.rule.Path + rest, header)).Some?
  {
    var r := Request(host, c.rule.Path + rest, header);
    ServedConfig(routes, configs, values, parses, r);
    assert c.rule.Path <= r.path;
  }

  // The configured routes, told apart by their places.
  function Numbered(configs: seq<RouteConfig>): seq<Route<nat>> {
    seq(|configs|, i requires 0 <= i < |configs| => Route(i, configs[i].rule))
  }

  function ConfigOf(served: Option<Route<Handler>>): Option<RouteConfig> {
    match served
    case None => None
    case Some(rt) => Some(rt.id.config)
  }

  // What a table serves is what some outcome of sorting the configured routes serves.
  lemma ServedFromNumbered(routes: seq<Route<Handler>>, configs: seq<RouteConfig>, values: seq<RouteV>,
                           parses: string -> bool, r: Request)
    returns (i: nat)
    requires |configs| == |values| && TableFor(routes, configs, values, parses) && FirstMatch(routes, r).Some?
    ensures i < |configs| && ConfigOf(FirstMatch(routes, r)) == Some(configs[i])
    ensures MayServe(Numbered(configs), r, Route(i, configs[i].rule))
  {
    DispatchInTable(routes, configs, values, parses, r);
    var c := FirstMatch(routes, r).value.id.config;
    i :| 0 <= i < |configs| && configs[i] == c;
    var all := Numbered(configs);
    assert all[i] == Route(i, c.rule);
    forall o | o in all && Matches(o.rule, r) ensures !Before(o.rule, c.rule) {
      assert o.rule == configs[o.id].rule;
    }
    ServedExactly(all, r, all[i]);
  }

  // Whatever the order of the configuration and of the sort, two tables of the same routes serve every
  // request by the same route if dispatch is deterministic.
  lemma TablesServeAlike(routes: seq<Route<Handler>>, configs: seq<RouteConfig>, values: seq<RouteV>,
                         parses: string -> bool,
                         routes': seq<Route<Handler>>, configs': seq<RouteConfig>, values': seq<RouteV>,
                         parses': string -> bool, r: Request)
    requires |configs| == |values| && TableFor(routes, configs, values, parses)
    requires |configs'| == |values'| && TableFor(routes', configs', values', parses')
    requires multiset(configs) == multiset(configs') && Deterministic(Numbered(configs))
    ensures ConfigOf(FirstMatch(routes, r)) == ConfigOf(FirstMatch(routes', r))
  {
    DispatchInTable(routes, configs, values, parses, r);
    DispatchInTable(routes', configs', values', parses', r);
    assert forall c :: c in configs <==> c in multiset(configs);
    assert forall c :: c in configs' <==> c in multiset(configs');
    if FirstMatch(routes, r).Some? {
      var i := ServedFromNumbered(routes, configs, values, parses, r);
      var c := FirstMatch(routes', r).value.id.config;
      var j: nat :| j < |configs| && configs[j] == c;
      var all := Numbered(configs);
      assert all[j] == Route(j, c.rule);
      forall o | o in all && Matches(o.rule, r) ensures !Before(o.rule, c.rule) {
        assert o.rule == configs[o.id].rule && configs[o.id] in configs;
      }
      ServedExactly(all, r, all[j]);
    }
  }

  // It is when no two configured routes share host and path, as adding routes keeps it.
  lemma UniqueKeysSuffice(configs: seq<RouteConfig>)
    requires Admin.UniqueKeys(RouteValues(configs))
    ensures Numbered(configs) == Admin.RulesOf(RouteValues(configs)) && Deterministic(Numbered(configs))
  {
    var all, values := Numbered(configs), RouteValues(configs);
    forall a, b ensures !Ambiguous(all, a, b) {
      if a in all && b in all && a != b {
        assert a == all[a.id] && b == all[b.id];
        assert values[a.id].rule == a.rule && values[b.id].rule == b.rule;
      }
    }
    DeterministicIff(all);
  }

  // ----- What a built pool is good for -----

  // A pool that nothing has selected from meets what the guarantees of both round-robins ask for.
  lemma ReadyToServe(pool: Pool.BackendPool, weights: map<string, int>, parses: string -> bool)
    requires PoolFor(pool.backends, weights, parses) && Pristine(pool)
    ensures pool.Valid() && SmoothWrr.Positive(pool.Weights())
    ensures pool.CurrentWeights() == WrrGuarantees.Zeros(|pool.backends|)
    ensures 0 < |pool.backends| < U64 ==> RoundRobin.CleanWindow(|pool.backends|, pool.current)
    ensures forall b | b in pool.backends :: b.Addr in weights && b.connections == 0
  {
    ValidFromAddrs(pool, weights, parses);
    forall i | 0 <= i < |pool.backends| ensures pool.backends[i].Weight > 0 && pool.backends[i].Addr in weights {
      assert Addrs(pool.backends)[i] == pool.backends[i].Addr;
    }
    assert Wrap(1) == 1;
  }

  // In the first period of a built pool every eligible address is served as often as its configured
  // weight says.
  method FirstPeriod(pool: Pool.BackendPool, ghost weights: map<string, int>, ghost parses: string -> bool,
                     seen: seq<bool>)
    returns (served: seq<Pool.Backend>, ghost picks: seq<nat>)
    requires PoolFor(pool.backends, weights, parses) && Pristine(pool)
    requires |seen| == |pool.backends| && AnyOn(seen)
    modifies (set b | b in pool.backends)`CurrentWeight
    ensures |served| == |picks| && forall k | 0 <= k < |picks| ::
      picks[k] < |pool.backends| && served[k] == pool.backends[picks[k]]
    ensures forall i: nat | i < |pool.backends| && pool.backends[i].Addr in weights ::
      Count(picks, i) == if seen[i] then weights[pool.backends[i].Addr] else 0
    ensures Pristine(pool)
  {
    ReadyToServe(pool, weights, parses);
    served, picks := pool.ServeOnePeriod(seen);
    forall b | b in pool.backends ensures b.CurrentWeight == 0 {
      var i :| 0 <= i < |pool.backends| && pool.backends[i] == b;
      assert pool.CurrentWeights()[i] == b.CurrentWeight;
    }
  }
}
