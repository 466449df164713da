// The load balancer object: loading, reloading, dispatch and the admin operations, all under the lock
// and so one at a time.
module LoadBalancing {
  import opened Options
  import opened Routing
  import opened Config
  import opened ConfigEdits
  import opened Tables
  import Admin
  import Pool
  import RateLimit

  datatype Response = TooManyRequests | NotFound | Served(route: Route<Handler>)

  // Neither a route of an http or https listener nor a tcp or udp listener holds a null entry.
  ghost predicate CanBuild(c: Configuration)
    reads c.Listeners, L7Configs(c.Listeners, |c.Listeners|)
  {
    NullFree(L7Configs(c.Listeners, |c.Listeners|)) && L4NullFree(c.Listeners)
  }

  // The configured routes, their values and those of the tcp and udp backends, and whether no route
  // holds a null entry.
  datatype Snapshot = Snapshot(
    configs: seq<RouteConfig>, values: seq<RouteV>, l4Values: seq<seq<BackendV>>, clean: bool)

  // What an operation answers: an accepted edit panics in the rebuild if the configuration cannot be built.
  predicate Answers(reply: Reply, outcome: Admin.Outcome, buildable: bool) {
    match outcome
    case Edited(_) => reply == if buildable then Done else Reply.Panicked
    case Refused => reply == Reply.Refused
    case Panicked => reply == Reply.Panicked
  }

  // A limiter of that limit that has counted nothing, or none.
  twostate predicate NewLimiter(new rl: RateLimit.RateLimiter?, limit: Option<int>, window: nat)
    reads if rl == null then {} else {rl}
  {
    match limit
    case None => rl == null
    case Some(l) => rl != null && fresh(rl) && rl.limit == l && rl.window == window && rl.store == map[]
  }

  class LoadBalancer {
    const parses: string -> bool
    const rl: RateLimit.RateLimiter?
    var cfg: Configuration
    var routes: seq<Route<Handler>>
    var l4Pools: map<string, Pool.BackendPool>

    // All configured http and https routes.
    ghost function L7(): seq<RouteConfig>
      reads this, cfg.Listeners
    {
      L7Configs(cfg.Listeners, |cfg.Listeners|)
    }

    // The tables are those of the configuration as it is now.
    ghost predicate Coherent()
      reads this, cfg.Listeners, L7(), BackendsOf(L7()), L4Backends(cfg.Listeners)
    {
      L7Table(cfg.Listeners, routes, parses) && L4Table(cfg.Listeners, l4Pools)
    }

    // No two pools of the tables share a backend.
    predicate NothingShared()
      reads this
    {
      && PoolsApart(routes) && L4PoolsApart(l4Pools)
      && forall rt, name | rt in routes && name in l4Pools :: Unshared(rt.id.pool, l4Pools[name])
    }

    // The tables are current whenever they can be built. The lists of tcp and udp backends never change.
    ghost predicate Settled()
      reads this, cfg.Listeners, L7(), BackendsOf(L7()), L4Backends(cfg.Listeners)
    {
      L4NullFree(cfg.Listeners) && NothingShared() && (NullFree(L7()) ==> Coherent())
    }

    constructor Empty(parses: string -> bool, rl: RateLimit.RateLimiter?)
      ensures this.parses == parses && this.rl == rl
    {
      this.parses, this.rl := parses, rl;
      cfg, routes, l4Pools := Configuration([]), [], map[];
    }

    // A null entry in the configuration makes the program panic at its start. The limiter is that of the
    // first http or https listener and stays the same from then on.
    static method New(c: Configuration, parses: string -> bool, window: nat, redis: bool, other: int)
      returns (lb: LoadBalancer?)
      ensures lb != null <==> CanBuild(c)
      ensures lb != null ==> fresh(lb) && lb.cfg == c && lb.parses == parses
      ensures lb != null ==> NewLimiter(lb.rl, RateLimit.LimitOf(GlobalRate(c.Listeners), redis, other), window)
      ensures lb != null ==> lb.Coherent() && lb.NothingShared()
      ensures lb != null ==> forall rt | rt in lb.routes :: NewPool(rt.id.pool)
      ensures lb != null ==> forall name | name in lb.l4Pools :: NewPool(lb.l4Pools[name])
    {
      var rl := RateLimit.RateLimiter.New(GlobalRate(c.Listeners), window, redis, other);
      var loading := new LoadBalancer.Empty(parses, rl);
      var ok := loading.ReloadConfig(c);
      if !ok {
        return null;
      }
      return loading;
    }

    // Old pools and backends are left to the handlers that hold them; the new ones start from zero. A
    // null entry makes the build panic before anything is assigned.
    method ReloadConfig(c: Configuration) returns (ok: bool)
      modifies this
      ensures ok <==> CanBuild(c)
      ensures !ok ==> unchanged(this)
      ensures ok ==> cfg == c && Coherent() && NothingShared()
      ensures ok ==> forall rt | rt in routes :: NewPool(rt.id.pool)
      ensures ok ==> forall name | name in l4Pools :: NewPool(l4Pools[name])
    {
      var newRoutes;
      ok, newRoutes := BuildL7Routes(c.Listeners, parses);
      if !ok {
        return;
      }
      ghost var configs := L7Configs(c.Listeners, |c.Listeners|);
      ghost var values := RouteValues(configs);
      assert TableFor(newRoutes, configs, values, parses);
      var newL4Pools;
      ok, newL4Pools := BuildL4Pools(c.Listeners);
      if !ok {
        return;
      }
      ghost var l4Values := L4Values(c.Listeners);
      assert L4PoolsFor(newL4Pools, c.Listeners, l4Values, |c.Listeners|);
      Install(c, newRoutes, newL4Pools);
      CoherentFor(configs, values, l4Values);
    }

    // The pointer swap at the end of a reload.
    method Install(c: Configuration, newRoutes: seq<Route<Handler>>, newL4Pools: map<string, Pool.BackendPool>)
      requires forall rt | rt in newRoutes :: Pristine(rt.id.pool)
      requires forall name | name in newL4Pools :: Pristine(newL4Pools[name])
      modifies this
      ensures cfg == c && routes == newRoutes && l4Pools == newL4Pools
      ensures L7() == old(L7Configs(c.Listeners, |c.Listeners|))
      ensures RouteValues(L7()) == old(RouteValues(L7Configs(c.Listeners, |c.Listeners|)))
      ensures L4Values(c.Listeners) == old(L4Values(c.Listeners))
      ensures forall rt | rt in routes :: Pristine(rt.id.pool)
      ensures forall name | name in l4Pools :: Pristine(l4Pools[name])
    {
      cfg, routes, l4Pools := c, newRoutes, newL4Pools;
    }

    // The tables are those of a configuration with these values.
    ghost predicate TablesFor(configs: seq<RouteConfig>, values: seq<RouteV>, l4Values: seq<seq<BackendV>>)
      reads this
    {
      && |configs| == |values| && |l4Values| == |cfg.Listeners|
      && TableFor(routes, configs, values, parses)
      && L4PoolsFor(l4Pools, cfg.Listeners, l4Values, |cfg.Listeners|)
    }

    lemma CoherentFor(configs: seq<RouteConfig>, values: seq<RouteV>, l4Values: seq<seq<BackendV>>)
      requires L7() == configs && RouteValues(configs) == values && L4Values(cfg.Listeners) == l4Values
      requires TablesFor(configs, values, l4Values)
      ensures Coherent()
    {
    }

    // What a refused or panicking operation leaves as it was.
    ghost function Take(): Snapshot
      reads this, cfg.Listeners, L7(), BackendsOf(L7()), L4Backends(cfg.Listeners)
    {
      Snapshot(L7(), RouteValues(L7()), L4Values(cfg.Listeners), NullFree(L7()))
    }

    ghost predicate SettledOn(s: Snapshot)
      reads this
    {
      L4NullFree(cfg.Listeners) && NothingShared() && (s.clean ==> TablesFor(s.configs, s.values, s.l4Values))
    }

    lemma StaysSettled(s: Snapshot)
      requires SettledOn(s) && Take() == s
      ensures Settled()
    {
      if s.clean { CoherentFor(s.configs, s.values, s.l4Values); }
    }

    // The tables are current exactly when no configured http or https route holds a null entry.
    lemma CurrentIff()
      requires Settled()
      ensures Coherent() <==> NullFree(L7())
    {
      if Coherent() {
        forall c | c in L7() ensures null !in c.Backends {
          assert c in multiset(ConfigsOf(routes));
          var i :| 0 <= i < |routes| && ConfigsOf(routes)[i] == c;
          var j :| 0 <= j < |L7()| && L7()[j] == c;
          assert HandlerFor(routes[i], RouteValues(L7())[j], parses);
          NullInValue(c.Backends);
        }
      }
    }

    // ----- Dispatch -----

    // What the configured http and https routes make of a request. The route that serves it is of the
    // request's host or of none, its path begins the request's and its headers are the request's. It is of
    // the request's host if one that fits is, and of those it has a longest path. Not-found means that none
    // fits.
    ghost predicate RightRoute(r: Request, served: Option<Route<Handler>>)
      reads this, cfg.Listeners
    {
      && (served.Some? ==>
            var rt := served.value;
            var c := rt.id.config;
            && rt in routes && c in L7()
            && (c.rule.Host == "" || c.rule.Host == r.host) && c.rule.Path <= r.path
            && forall key | key in c.rule.Headers :: r.header(CanonicalHeaderKey(key)) == c.rule.Headers[key])
      && forall o | o in L7() && (o.rule.Host == "" || o.rule.Host == r.host) && o.rule.Path <= r.path
           && (forall key | key in o.rule.Headers :: r.header(CanonicalHeaderKey(key)) == o.rule.Headers[key]) ::
           && served.Some?
           && (o.rule.Host != "" ==> served.value.id.config.rule.Host != "")
           && (o.rule.Host == served.value.id.config.rule.Host ==>
                 |o.rule.Path| <= |served.value.id.config.rule.Path|)
    }

    // The pool of a route has the strategy and the backends that its configuration says.
    ghost predicate RightPool(rt: Route<Handler>)
      reads rt.id.config, rt.id.config.Backends
    {
      var entries := BackendValues(rt.id.config.Backends);
      && rt.id.pool.strategy == rt.id.config.Strategy && Null !in entries
      && PoolFor(rt.id.pool.backends, Admin.PoolWeights(entries), parses)
    }

    // The limiter is asked first and counts every request; then the routes of the table are tried in
    // order, which serves the right route while the table is current.
    method ServeHTTP(r: Request, client: RateLimit.Arrival, redisFailed: bool) returns (response: Response)
      modifies if rl == null then {} else {rl}
      ensures rl != null && !redisFailed ==> rl.store == RateLimit.Hit(old(rl.store), rl.window, client)
      ensures response == TooManyRequests <==>
        rl != null && !redisFailed && RateLimit.Incr(old(rl.store), client) > rl.limit
      ensures response == NotFound ==> FirstMatch(routes, r) == None
      ensures response.Served? ==> FirstMatch(routes, r) == Some(response.route)
      ensures response != TooManyRequests && old(Coherent()) ==> RightRoute(r, FirstMatch(routes, r))
      ensures response.Served? && old(Coherent()) ==> RightPool(response.route)
    {
      if Coherent() { ServedBy(r); }
      var allowed := Admit(client, redisFailed);
      if !allowed {
        return TooManyRequests;
      }
      var found := Dispatch(routes, r);
      match found
      case None => return NotFound;
      case Some(rt) => return Served(rt);
    }

    method Admit(client: RateLimit.Arrival, redisFailed: bool) returns (allowed: bool)
      modifies if rl == null then {} else {rl}
      ensures rl != null && !redisFailed ==> rl.store == RateLimit.Hit(old(rl.store), rl.window, client)
      ensures allowed <==> rl == null || redisFailed || RateLimit.Incr(old(rl.store), client) <= rl.limit
      ensures L7() == old(L7())
    {
      allowed := true;
      if rl != null {
        allowed := rl.Allow(client, redisFailed);
      }
    }

    lemma ServedBy(r: Request)
      requires Coherent()
      ensures RightRoute(r, FirstMatch(routes, r))
      ensures FirstMatch(routes, r).Some? ==> RightPool(FirstMatch(routes, r).value)
    {
      ServedConfig(routes, L7(), RouteValues(L7()), parses, r);
      if FirstMatch(routes, r).Some? {
        var c := FirstMatch(routes, r).value.id.config;
        var i :| 0 <= i < |L7()| && L7()[i] == c;
        assert RouteValues(L7())[i] == RouteValue(c);
        NullInValue(c.Backends);
      }
    }

    // In plain terms: every tcp or udp listener has its pool, unless a later one has its name.
    lemma L4Current(i: nat)
      requires Coherent() && i < |cfg.Listeners| && cfg.Listeners[i].Protocol in {"tcp", "udp"}
      requires forall j | i < j < |cfg.Listeners| && cfg.Listeners[j].Name == cfg.Listeners[i].Name ::
        cfg.Listeners[j].Protocol !in {"tcp", "udp"}
      ensures var name, entries := cfg.Listeners[i].Name, BackendValues(cfg.Listeners[i].Backends);
        && name in l4Pools && l4Pools[name].strategy == cfg.Listeners[i].Strategy && Null !in entries
        && forall a :: a in Addrs(l4Pools[name].backends) <==> a in Admin.PoolWeights(entries)
    {
      L4Plainly(cfg.Listeners, l4Pools);
    }

    // In plain terms.
    lemma NothingSharedPlainly()
      requires NothingShared()
      ensures forall i, j, b | 0 <= i < j < |routes| && b in routes[i].id.pool.backends ::
        b !in routes[j].id.pool.backends
      ensures forall m, n, b | m in l4Pools && n in l4Pools && m != n && b in l4Pools[m].backends ::
        b !in l4Pools[n].backends
      ensures forall rt, n, b | rt in routes && n in l4Pools && b in rt.id.pool.backends :: b !in l4Pools[n].backends
    {
    }

    // ----- Admin operations on a listener -----

    // Reloading after an edit leaves the edited listener as it is.
    method Rebuild(listener: ListenerConfig) returns (ok: bool)
      modifies this
      ensures ok <==> CanBuild(cfg)
      ensures cfg == old(cfg)
      ensures !ok ==> unchanged(this)
      ensures ok ==> Coherent() && NothingShared()
      ensures ok ==> forall rt | rt in routes :: NewPool(rt.id.pool)
      ensures ok ==> forall name | name in l4Pools :: NewPool(l4Pools[name])
      ensures RouteValues(listener.Routes) == old(RouteValues(listener.Routes))
      ensures Separate(listener) == old(Separate(listener))
      ensures listener.Routes == old(listener.Routes) && BackendsOf(listener.Routes) == old(BackendsOf(listener.Routes))
    {
      ok := ReloadConfig(cfg);
    }

    method AddRoute(listener: ListenerConfig, newRoute: RouteConfig) returns (reply: Reply)
      modifies this, listener`Routes
      ensures var outcome := Admin.Apply(Admin.AddRoute(RouteValue(newRoute)), old(RouteValues(listener.Routes)));
        && Answers(reply, outcome, CanBuild(cfg))
        && (outcome.Edited? ==> RouteValues(listener.Routes) == outcome.routes)
        && (!outcome.Edited? ==> unchanged(listener))
      ensures cfg == old(cfg) && (reply == Done ==> Coherent() && NothingShared())
      ensures reply != Done ==> unchanged(this)
      ensures old(Settled()) ==> Settled()
      ensures reply == Done ==> forall rt | rt in routes :: NewPool(rt.id.pool)
      ensures reply == Done ==> forall name | name in l4Pools :: NewPool(l4Pools[name])
      ensures old(Separate(listener) && Apart(listener, newRoute)) ==> Separate(listener)
      ensures Grown(listener, {newRoute}, BackendsOf([newRoute]))
    {
      reply := TryAppend(listener, newRoute);
      if reply == Done {
        var ok := Rebuild(listener);
        reply := if ok then Done else Reply.Panicked;
      }
    }

    method TryAppend(listener: ListenerConfig, newRoute: RouteConfig) returns (reply: Reply)
      modifies listener`Routes
      ensures Agrees(reply, Admin.Apply(Admin.AddRoute(RouteValue(newRoute)), old(RouteValues(listener.Routes))),
                     RouteValues(listener.Routes))
      ensures reply != Done ==> unchanged(listener) && (old(Settled()) ==> Settled())
      ensures old(Separate(listener) && Apart(listener, newRoute)) ==> Separate(listener)
      ensures Grown(listener, {newRoute}, BackendsOf([newRoute]))
    {
      ghost var settled, before := Settled(), Take();
      assert settled ==> SettledOn(before);
      reply := AppendRoute(listener, newRoute);
      if reply != Done && settled {
        StaysSettled(before);
      }
    }

    method DeleteRoute(listener: ListenerConfig, index: int) returns (reply: Reply)
      modifies this, listener`Routes
      ensures var outcome := Admin.Apply(Admin.DeleteRoute(index), old(RouteValues(listener.Routes)));
        && Answers(reply, outcome, CanBuild(cfg))
        && (outcome.Edited? ==> RouteValues(listener.Routes) == outcome.routes)
        && (!outcome.Edited? ==> unchanged(listener))
      ensures cfg == old(cfg) && (reply == Done ==> Coherent() && NothingShared())
      ensures reply != Done ==> unchanged(this)
      ensures old(Settled()) ==> Settled()
      ensures reply == Done ==> forall rt | rt in routes :: NewPool(rt.id.pool)
      ensures reply == Done ==> forall name | name in l4Pools :: NewPool(l4Pools[name])
      ensures old(Separate(listener)) ==> Separate(listener)
      ensures Grown(listener, {}, {})
    {
      ghost var settled, before := Settled(), Take();
      assert settled ==> SettledOn(before);
      reply := RemoveRoute(listener, index);
      if reply == Done {
        var ok := Rebuild(listener);
        reply := if ok then Done else Reply.Panicked;
      } else if settled {
        StaysSettled(before);
      }
    }

    method AddBackendToRoute(listener: ListenerConfig, index: int, newBackend: BackendConfig) returns (reply: Reply)
      requires Separate(listener)
      requires forall rt | rt in listener.Routes :: newBackend !in rt.Backends
      modifies this, listener.Routes, newBackend
      ensures listener.Routes == old(listener.Routes)
      ensures var outcome := Admin.Apply(Admin.AddBackend(index, newBackend.Addr, old(newBackend.Weight)),
                                         old(RouteValues(listener.Routes)));
        && Answers(reply, outcome, CanBuild(cfg))
        && (outcome.Edited? ==> RouteValues(listener.Routes) == outcome.routes)
        && (!outcome.Edited? ==> unchanged(listener.Routes) && unchanged(newBackend))
      ensures cfg == old(cfg) && (reply == Done ==> Coherent() && NothingShared())
      ensures reply != Done ==> unchanged(this)
      ensures old(Settled()) ==> Settled()
      ensures reply == Done ==> forall rt | rt in routes :: NewPool(rt.id.pool)
      ensures reply == Done ==> forall name | name in l4Pools :: NewPool(l4Pools[name])
      ensures Separate(listener) && Grown(listener, {}, {newBackend})
    {
      ghost var settled, before := Settled(), Take();
      assert settled ==> SettledOn(before);
      reply := AppendBackend(listener, index, newBackend);
      if reply == Done {
        var ok := Rebuild(listener);
        reply := if ok then Done else Reply.Panicked;
      } else if settled {
        StaysSettled(before);
      }
    }

    method DeleteBackendFromRoute(listener: ListenerConfig, index: int, host: string) returns (reply: Reply)
      requires Separate(listener)
      modifies this, listener.Routes
      ensures listener.Routes == old(listener.Routes)
      ensures var outcome := Admin.Apply(Admin.DeleteBackend(index, host), old(RouteValues(listener.Routes)));
        && Answers(reply, outcome, CanBuild(cfg))
        && (outcome.Edited? ==> RouteValues(listener.Routes) == outcome.routes)
        && (!outcome.Edited? ==> unchanged(listener.Routes))
      ensures cfg == old(cfg) && (reply == Done ==> Coherent() && NothingShared())
      ensures reply != Done ==> unchanged(this)
      ensures old(Settled()) ==> Settled()
      ensures reply == Done ==> forall rt | rt in routes :: NewPool(rt.id.pool)
      ensures reply == Done ==> forall name | name in l4Pools :: NewPool(l4Pools[name])
      ensures Separate(listener) && Grown(listener, {}, {})
    {
      ghost var settled, before := Settled(), Take();
      assert settled ==> SettledOn(before);
      reply := RemoveBackend(listener, index, host);
      if reply == Done {
        var ok := Rebuild(listener);
        reply := if ok then Done else Reply.Panicked;
      } else if settled {
        StaysSettled(before);
      }
    }

    method UpdateBackendWeightInRoute(listener: ListenerConfig, index: int, host: string, weight: int)
      returns (reply: Reply)
      requires Separate(listener)
      modifies this, BackendsOf(listener.Routes)
      ensures listener.Routes == old(listener.Routes) && unchanged(listener.Routes)
      ensures var outcome := Admin.Apply(Admin.UpdateWeight(index, host, weight), old(RouteValues(listener.Routes)));
        && Answers(reply, outcome, CanBuild(cfg))
        && (outcome.Edited? ==> RouteValues(listener.Routes) == outcome.routes)
        && (!outcome.Edited? ==> unchanged(BackendsOf(listener.Routes) - {null}))
      ensures cfg == old(cfg) && (reply == Done ==> Coherent() && NothingShared())
      ensures reply != Done ==> unchanged(this)
      ensures old(Settled()) ==> Settled()
      ensures reply == Done ==> forall rt | rt in routes :: NewPool(rt.id.pool)
      ensures reply == Done ==> forall name | name in l4Pools :: NewPool(l4Pools[name])
      ensures Separate(listener) && Grown(listener, {}, {})
    {
      ghost var settled, before := Settled(), Take();
      assert settled ==> SettledOn(before);
      reply := ChangeWeight(listener, index, host, weight);
      if reply == Done {
        var ok := Rebuild(listener);
        reply := if ok then Done else Reply.Panicked;
      } else if settled {
        StaysSettled(before);
      }
    }
  }

  lemma NullInValue(bs: seq<BackendConfig?>)
    ensures Admin.NoNull(BackendValues(bs)) <==> null !in bs
  {
    if null in bs {
      var i :| 0 <= i < |bs| && bs[i] == null;
      assert BackendValues(bs)[i] == Null;
    }
  }
}
