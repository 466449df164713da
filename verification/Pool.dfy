// Backends, pools and the selection strategies.
//
// seen[j] is what IsHealthy and the circuit breaker answered at the j-th iteration of a selection loop,
// which is about backend j except in round-robin, where it is about the backend of the j-th ticket.
// Health checks and breakers run beside the selection, so seen is an arbitrary vector.
module Pool {
  import opened Options
  import opened Sums
  import opened Uint64
  import SmoothWrr
  import WrrChurn
  import WrrGuarantees
  import RoundRobin
  import LeastConns
  import Scores

  const MAX_UINT64: uint64 := U64 - 1

  class Backend {
    const Addr: string
    const Weight: int
    var CurrentWeight: int
    var connections: uint64

    constructor (addr: string, weight: int)
      ensures Addr == addr && Weight == weight && CurrentWeight == 0 && connections == 0
    {
      Addr, Weight := addr, weight;
      CurrentWeight, connections := 0, 0;
    }

    method IncrementConnections()
      modifies this`connections
      ensures connections == Wrap(old(connections) + 1)
    {
      connections := Wrap(connections + 1);
    }

    // Adds 2^64 - 1, which is minus one unless the counter is zero.
    method DecrementConnections()
      modifies this`connections
      ensures connections == if old(connections) == 0 then MAX_UINT64 else old(connections) - 1
    {
      assert connections > 0 ==> Wrap(connections + MAX_UINT64) == Wrap(connections - 1);
      connections := Wrap(connections + MAX_UINT64);
    }

    // A weight of zero counts as one. round is the rounding of 64-bit floating point.
    method Score(round: real -> real) returns (score: real)
      requires Scores.Rounding(round) && 0 <= Weight < U64
      ensures score == Scores.Score(round, connections, Divisor(Weight))
    {
      var conns := round(connections as real);
      var weight := round(Weight as real);
      Scores.Word(round, Weight);
      if weight == 0.0 {
        Scores.Word(round, 1);
        assert round(1.0) == 1.0;
        weight := 1.0;
      }
      score := round(conns / weight);
    }
  }

  class BackendPool {
    const backends: seq<Backend>
    const strategy: string
    var current: uint64

    ghost predicate Valid() {
      && (forall i, j | 0 <= i < j < |backends| :: backends[i] != backends[j])
      && forall b | b in backends :: b.Weight >= 0
    }

    constructor (backends: seq<Backend>, strategy: string)
      ensures this.backends == backends && this.strategy == strategy && current == 0
    {
      this.backends, this.strategy, current := backends, strategy, 0;
    }

    ghost function CurrentWeights(): (r: seq<int>)
      reads backends
      ensures |r| == |backends|
    {
      seq(|backends|, i requires 0 <= i < |backends| reads backends => backends[i].CurrentWeight)
    }

    ghost function Weights(): (r: seq<int>)
      ensures |r| == |backends|
    {
      seq(|backends|, i requires 0 <= i < |backends| => backends[i].Weight)
    }

    ghost function Connections(): (r: seq<nat>)
      reads backends
      ensures |r| == |backends|
    {
      seq<nat>(|backends|, i requires 0 <= i < |backends| reads backends => backends[i].connections)
    }

    // The weights a score is divided by: a weight of zero counts as one.
    ghost function Divisors(): (r: seq<nat>)
      requires Valid()
      ensures |r| == |backends| && LeastConns.Weights(r)
      ensures forall i | 0 <= i < |r| :: r[i] == if backends[i].Weight == 0 then 1 else backends[i].Weight
    {
      seq<nat>(|backends|, i requires 0 <= i < |backends| => Divisor(backends[i].Weight))
    }

    // The answer is the backend of that index, or none.
    ghost predicate Names(best: Backend?, pick: Option<nat>) {
      match pick
      case None => best == null
      case Some(i) => i < |backends| && best == backends[i]
    }

    // ----- ip-hash -----

    // hash is the FNV-1a hash of the address.
    method GetNextBackendByIP(hash: nat, seen: seq<bool>) returns (best: Backend?, ghost pick: nat)
      requires |seen| == |backends| && hash < 0x1_0000_0000
      ensures best == null <==> !AnyOn(seen)
      ensures best != null ==>
        && pick < |backends| && backends[pick] == best && seen[pick]
        && Size(seen, |seen|) > 0 && Size(seen, pick) == hash % Size(seen, |seen|)
    {
      var healthyBackends: seq<Backend> := [];
      ghost var from: seq<nat> := [];
      var i := 0;
      while i < |backends|
        invariant 0 <= i <= |backends|
        invariant |healthyBackends| == |from| == Size(seen, i)
        invariant forall k | 0 <= k < |from| ::
          from[k] < i && seen[from[k]] && Size(seen, from[k]) == k && healthyBackends[k] == backends[from[k]]
        invariant |from| == 0 ==> forall k | 0 <= k < i :: !seen[k]
      {
        if seen[i] {
          healthyBackends := healthyBackends + [backends[i]];
          from := from + [i];
        }
        i := i + 1;
      }
      if |healthyBackends| == 0 {
        return null, 0;
      }
      var index := hash % |healthyBackends|;
      assert seen[from[index]];
      return healthyBackends[index], from[index];
    }

    // The same hash over the same eligible backends answers the same backend.
    lemma SameClientSameBackend(hash: nat, seen: seq<bool>, p: nat, q: nat)
      requires |seen| == |backends| && p < |seen| && q < |seen| && seen[p] && seen[q]
      requires Size(seen, |seen|) > 0
      requires Size(seen, p) == hash % Size(seen, |seen|) && Size(seen, q) == hash % Size(seen, |seen|)
      ensures backends[p] == backends[q]
    {
      if p < q {
        SizeGrows(seen, p + 1, q);
      } else if q < p {
        SizeGrows(seen, q + 1, p);
      }
    }

    // ----- least-connections -----

    method GetNextBackendByLeastConns(seen: seq<bool>) returns (best: Backend?, ghost pick: nat)
      requires |seen| == |backends|
      ensures best == null <==> forall i | 0 <= i < |seen| && seen[i] :: Connections()[i] == MAX_UINT64
      ensures best != null ==>
        && pick < |backends| && backends[pick] == best && seen[pick]
        && LeastConns.LeastScore(Connections(), LeastConns.Ones(|backends|), seen, pick)
        && (forall j | 0 <= j < |seen| && seen[j] :: best.connections <= backends[j].connections)
        && forall j | 0 <= j < pick && seen[j] :: best.connections < backends[j].connections
    {
      best, pick := null, 0;
      var minConnections := MAX_UINT64;
      var i := 0;
      while i < |backends|
        invariant 0 <= i <= |backends|
        invariant best == null <==> minConnections == MAX_UINT64
        invariant forall j | 0 <= j < i && seen[j] :: minConnections <= backends[j].connections
        invariant best != null ==>
          && pick < i && seen[pick] && backends[pick] == best && best.connections == minConnections
          && forall j | 0 <= j < pick && seen[j] :: minConnections < backends[j].connections
      {
        if seen[i] {
          var conns := backends[i].connections;
          if conns < minConnections {
            minConnections := conns;
            best, pick := backends[i], i;
          }
        }
        i := i + 1;
      }
      if best == null {
        forall j | 0 <= j < |seen| && seen[j] ensures Connections()[j] == MAX_UINT64 {
          assert minConnections <= backends[j].connections;
        }
      } else {
        assert Connections()[pick] == minConnections;
      }
    }

    // ----- weighted-least-connections -----

    // round is the rounding of 64-bit floating point.
    method GetNextBackendByWeightedLeastConns(seen: seq<bool>, round: real -> real)
      returns (best: Backend?, ghost pick: nat)
      requires Valid() && |seen| == |backends|
      requires Scores.Rounding(round) && forall b | b in backends :: b.Weight < U64
      ensures best == null <==> !AnyOn(seen)
      ensures best != null ==>
        && pick < |backends| && backends[pick] == best
        && Scores.LeastRounded(round, Connections(), Divisors(), seen, pick)
    {
      best, pick := null, 0;
      ghost var conns, ws := Connections(), Divisors();
      ghost var scores := seq(|conns|, i requires 0 <= i < |conns| => Scores.Score(round, conns[i], ws[i]));
      var minScore := 0.0;  // meaningful once best is set; before that every score is lower
      var i := 0;
      while i < |backends|
        invariant 0 <= i <= |backends|
        invariant best == null ==> forall j | 0 <= j < i :: !seen[j]
        invariant best != null ==>
          && pick < i && seen[pick] && backends[pick] == best && minScore == scores[pick]
          && (forall j | 0 <= j < i && seen[j] :: minScore <= scores[j])
          && forall j | 0 <= j < pick && seen[j] :: minScore < scores[j]
      {
        if seen[i] {
          var score := backends[i].Score(round);
          assert score == scores[i];
          if best == null || score < minScore {
            minScore := score;
            best, pick := backends[i], i;
          }
        }
        i := i + 1;
      }
    }

    // What rounding can change: nothing while counters and weights are up to 2^25, and then hardly anything.
    lemma NearlyLeast(seen: seq<bool>, round: real -> real, pick: nat)
      requires Valid() && Scores.Rounding(round) && forall b | b in backends :: b.Weight < U64
      requires Scores.LeastRounded(round, Connections(), Divisors(), seen, pick)
      ensures forall j | 0 <= j < |seen| && seen[j] ::
        Connections()[pick] * Divisors()[j] * (Scores.K - 1) <= Connections()[j] * Divisors()[pick] * (Scores.K + 1)
      ensures (forall b | b in backends :: b.connections <= Scores.SMALL && b.Weight <= Scores.SMALL) ==>
        LeastConns.LeastScore(Connections(), Divisors(), seen, pick)
    {
      forall j | 0 <= j < |seen| ensures Scores.Words(Connections()[j], Divisors()[j]) {
        assert backends[j] in backends;
      }
      Scores.RoundedChoice(round, Connections(), Divisors(), seen, pick);
      if forall b | b in backends :: b.connections <= Scores.SMALL && b.Weight <= Scores.SMALL {
        forall j | 0 <= j < |seen| ensures Connections()[j] <= Scores.SMALL && Divisors()[j] <= Scores.SMALL {
          assert backends[j] in backends;
        }
      }
    }

    // ----- round-robin -----

    method GetNextBackendByRoundRobin(seen: seq<bool>)
      returns (best: Backend?, ghost tries: nat, ghost pick: Option<nat>)
      requires |seen| == |backends|
      modifies this`current
      ensures RoundRobin.Call(seen, old(current), tries, pick, current)
      ensures Names(best, pick)
    {
      var numBackends := |backends|;
      if numBackends == 0 {
        return null, 0, None;
      }
      var i := 0;
      while i < numBackends
        invariant 0 <= i <= numBackends
        invariant current == Wrap(old(current) + i)
        invariant forall j | 0 <= j < i :: !seen[j]
      {
        WrapAdd(old(current) + i, 1);
        current := Wrap(current + 1);
        var index := current % numBackends;
        if seen[i] {
          return backends[index], i + 1, Some(index);
        }
        i := i + 1;
      }
      return null, numBackends, None;
    }

    // ----- weighted-round-robin -----

    method GetNextBackendByWeightedRoundRobin(seen: seq<bool>)
      returns (best: Backend?, ghost pick: Option<nat>)
      requires Valid() && |seen| == |backends|
      modifies (set b | b in backends)`CurrentWeight
      ensures WrrChurn.Call(Weights(), seen, old(CurrentWeights()), pick, CurrentWeights())
      ensures Names(best, pick)
    {
      var totalWeight;
      best, totalWeight, pick := RaiseEligible(seen);
      if best == null {
        return;
      }
      ghost var raised := CurrentWeights();
      best.CurrentWeight := best.CurrentWeight - totalWeight;
      assert CurrentWeights() == raised[pick.value := raised[pick.value] - totalWeight];
    }

    // The loop: every eligible backend gains its weight, and the first with the most is the best.
    method RaiseEligible(seen: seq<bool>) returns (best: Backend?, totalWeight: int, ghost pick: Option<nat>)
      requires Valid() && |seen| == |backends|
      modifies (set b | b in backends)`CurrentWeight
      ensures CurrentWeights() == SmoothWrr.Raised(Weights(), seen, old(CurrentWeights()))
      ensures totalWeight == Sum(Weights(), seen, |backends|)
      ensures match pick
        case None => best == null && !AnyOn(seen) && CurrentWeights() == old(CurrentWeights())
        case Some(i) => i < |backends| && best == backends[i] && SmoothWrr.FirstMax(CurrentWeights(), seen, i)
    {
      best, totalWeight, pick := null, 0, None;
      ghost var ws, cw := Weights(), CurrentWeights();
      ghost var raised := SmoothWrr.Raised(ws, seen, cw);
      var i := 0;
      while i < |backends|
        invariant 0 <= i <= |backends|
        invariant totalWeight == Sum(ws, seen, i)
        invariant forall j | 0 <= j < i :: backends[j].CurrentWeight == raised[j]
        invariant forall j | i <= j < |backends| :: backends[j].CurrentWeight == cw[j]
        invariant pick.None? ==> best == null && forall j | 0 <= j < i :: !seen[j]
        invariant pick.Some? ==>
          pick.value < i && best == backends[pick.value] && SmoothWrr.FirstMaxBelow(raised, seen, i, pick.value)
      {
        SmoothWrr.FirstMaxNext(raised, seen, i, pick);
        if seen[i] {
          backends[i].CurrentWeight := backends[i].CurrentWeight + backends[i].Weight;
          totalWeight := totalWeight + backends[i].Weight;
          if best == null || backends[i].CurrentWeight > best.CurrentWeight {
            best, pick := backends[i], Some(i);
          }
        }
        i := i + 1;
      }
      assert CurrentWeights() == raised;
      assert best == null ==> raised == cw;
    }

    // ----- The dispatcher -----

    // splitHost is net.SplitHostPort where it succeeds, fnv the hash, round the rounding of float64.
    method GetNextBackend(clientIP: string, splitHost: string -> Option<string>, fnv: string -> nat,
                          round: real -> real, seen: seq<bool>)
      returns (best: Backend?, ghost pick: nat)
      requires Valid() && |seen| == |backends|
      requires Scores.Rounding(round) && forall b | b in backends :: b.Weight < U64
      requires forall s :: fnv(s) < 0x1_0000_0000
      modifies this`current, (set b | b in backends)`CurrentWeight
      ensures best != null ==> pick < |backends| && backends[pick] == best
      ensures strategy != "weighted-round-robin" ==> CurrentWeights() == old(CurrentWeights())
      ensures strategy in {"least-connections", "weighted-least-connections", "weighted-round-robin"} ==>
        current == old(current)
      ensures strategy == "ip-hash" && clientIP != "" ==>
        && current == old(current)
        && (best == null <==> !AnyOn(seen))
        && var ip := match splitHost(clientIP) case Some(h) => h case None => clientIP;
           (best != null ==> seen[pick] && Size(seen, |seen|) > 0 && Size(seen, pick) == fnv(ip) % Size(seen, |seen|))
      ensures strategy == "least-connections" ==>
        if best == null then forall i | 0 <= i < |seen| && seen[i] :: Connections()[i] == MAX_UINT64
        else LeastConns.LeastScore(Connections(), LeastConns.Ones(|backends|), seen, pick)
      ensures strategy == "weighted-least-connections" ==>
        if best == null then !AnyOn(seen) else Scores.LeastRounded(round, Connections(), Divisors(), seen, pick)
      ensures strategy == "weighted-round-robin" ==>
        WrrChurn.Call(Weights(), seen, old(CurrentWeights()),
          if best == null then None else Some(pick), CurrentWeights())
      ensures strategy !in {"ip-hash", "least-connections", "weighted-least-connections", "weighted-round-robin"} ==>
        RoundRobin.Answers(seen, old(current), if best == null then None else Some(pick), current)
      ensures strategy == "ip-hash" && clientIP == "" ==>
        RoundRobin.Answers(seen, old(current), if best == null then None else Some(pick), current)
      ensures strategy != "least-connections" ==> (best == null <==> !AnyOn(seen))
    {
      pick := 0;
      if strategy == "ip-hash" {
        if clientIP == "" {
          best, pick := FallBack(seen);
          return;
        }
        var ip := clientIP;
        var split := splitHost(clientIP);
        if split.Some? {
          ip := split.value;
        }
        best, pick := GetNextBackendByIP(fnv(ip), seen);
      } else if strategy == "least-connections" {
        best, pick := GetNextBackendByLeastConns(seen);
      } else if strategy == "weighted-least-connections" {
        best, pick := GetNextBackendByWeightedLeastConns(seen, round);
      } else if strategy == "weighted-round-robin" {
        ghost var p;
        best, p := GetNextBackendByWeightedRoundRobin(seen);
        pick := if p.Some? then p.value else 0;
      } else {
        best, pick := FallBack(seen);
      }
    }

    // round-robin itself, every other name, none at all, and ip-hash without an address.
    method FallBack(seen: seq<bool>) returns (best: Backend?, ghost pick: nat)
      requires |seen| == |backends|
      modifies this`current
      ensures best != null ==> pick < |backends| && backends[pick] == best
      ensures best == null <==> !AnyOn(seen)
      ensures RoundRobin.Answers(seen, old(current),
        if best == null then None else Some(pick), current)
    {
      ghost var tries, p;
      best, tries, p := GetNextBackendByRoundRobin(seen);
      pick := if p.Some? then p.value else 0;
    }

    // ----- Totals -----

    method GetTotalConnections() returns (total: uint64)
      ensures total == Wrap(Total(Connections(), |backends|))
    {
      total := 0;
      var i := 0;
      while i < |backends|
        invariant 0 <= i <= |backends|
        invariant total == Wrap(Total(Connections(), i))
      {
        WrapAdd(Total(Connections(), i), backends[i].connections);
        total := Wrap(total + backends[i].connections);
        i := i + 1;
      }
    }

    // Calls of weighted round-robin under unchanged eligibility make up a run of SmoothWrr.
    method ServeRun(seen: seq<bool>, calls: nat)
      returns (served: seq<Backend>, ghost states: seq<seq<int>>, ghost picks: seq<nat>)
      requires Valid() && |seen| == |backends| && AnyOn(seen)
      modifies (set b | b in backends)`CurrentWeight
      ensures |served| == |picks| == calls && SmoothWrr.Run(Weights(), seen, states, picks)
      ensures states[0] == old(CurrentWeights()) && states[calls] == CurrentWeights()
      ensures forall k | 0 <= k < calls :: picks[k] < |backends| && served[k] == backends[picks[k]]
    {
      served, picks, states := [], [], [CurrentWeights()];
      while |served| < calls
        invariant |served| == |picks| <= calls
        invariant forall k | 0 <= k < |picks| :: picks[k] < |backends| && served[k] == backends[picks[k]]
        invariant SmoothWrr.Run(Weights(), seen, states, picks)
        invariant states[0] == old(CurrentWeights()) && states[|picks|] == CurrentWeights()
      {
        var best, pick := GetNextBackendByWeightedRoundRobin(seen);
        SmoothWrr.RunNext(Weights(), seen, states, picks, pick.value, CurrentWeights());
        served, picks, states := served + [best], picks + [pick.value], states + [CurrentWeights()];
      }
    }

    // Calls of round-robin while the backends in on, and only they, are eligible make up a run of RoundRobin.
    method ServeRoundRobin(on: seq<bool>, calls: nat)
      returns (served: seq<Backend?>, ghost curs: seq<nat>, ghost tries: seq<nat>, ghost picks: seq<Option<nat>>)
      requires |on| == |backends|
      modifies this`current
      ensures |served| == |picks| == calls && RoundRobin.Run(on, curs, tries, picks)
      ensures curs[0] == old(current) && curs[calls] == current
      ensures forall k | 0 <= k < calls :: Names(served[k], picks[k])
    {
      served, curs, tries, picks := [], [current], [], [];
      while |served| < calls
        invariant |served| == |picks| <= calls && RoundRobin.Run(on, curs, tries, picks)
        invariant curs[0] == old(current) && curs[|picks|] == current
        invariant forall k | 0 <= k < |served| :: Names(served[k], picks[k])
      {
        ghost var before := current;
        var best, t, pick := GetNextBackendByRoundRobin(RoundRobin.Seen(on, current));
        RoundRobin.SteadyCallIsCall(on, before, t, pick, current);
        served, curs, tries, picks := served + [best], curs + [current], tries + [t], picks + [pick];
      }
    }

    // As many calls as there are eligible backends: each of them is served exactly once, and no call
    // comes back empty.
    method ServeOneCycle(on: seq<bool>) returns (served: seq<Backend?>, ghost picks: seq<Option<nat>>)
      requires |on| == |backends| > 0 && RoundRobin.CleanWindow(|backends|, current)
      modifies this`current
      ensures |served| == |picks| == Size(on, |on|)
      ensures forall k | 0 <= k < |served| ::
        picks[k].Some? && picks[k].value < |backends| && served[k] == backends[picks[k].value]
      ensures forall i: nat | i < |on| :: Count(RoundRobin.Backends(picks), i) == if on[i] then 1 else 0
    {
      var e := NumberOf(on);
      ghost var curs, tries;
      served, curs, tries, picks := ServeRoundRobin(on, e);
      RoundRobin.FullCycle(on, curs, tries, picks);
    }

    method NumberOf(on: seq<bool>) returns (e: nat)
      ensures e == Size(on, |on|)
    {
      e := 0;
      for i := 0 to |on|
        invariant e == Size(on, i)
      {
        if on[i] { e := e + 1; }
      }
    }

    // One period from CurrentWeights of zero: every eligible backend is served exactly Weight times.
    method ServeOnePeriod(seen: seq<bool>) returns (served: seq<Backend>, ghost picks: seq<nat>)
      requires Valid() && |seen| == |backends| && AnyOn(seen)
      requires SmoothWrr.Positive(Weights())
      requires CurrentWeights() == WrrGuarantees.Zeros(|backends|)
      modifies (set b | b in backends)`CurrentWeight
      ensures |served| == |picks| == Sum(Weights(), seen, |backends|)
      ensures forall k | 0 <= k < |picks| :: picks[k] < |backends| && served[k] == backends[picks[k]]
      ensures forall i: nat | i < |backends| ::
        Count(picks, i) == if seen[i] then backends[i].Weight else 0
      ensures CurrentWeights() == old(CurrentWeights())
    {
      var totalWeight := TotalWeight(seen);
      SmoothWrr.TotalPositive(Weights(), seen);
      ghost var states;
      served, states, picks := ServeRun(seen, totalWeight);
      WrrGuarantees.ExactPeriod(Weights(), seen, states, picks, totalWeight);
      assert picks[..totalWeight] == picks;
    }

    method TotalWeight(seen: seq<bool>) returns (total: int)
      requires |seen| == |backends|
      ensures total == Sum(Weights(), seen, |backends|)
    {
      total := 0;
      for i := 0 to |backends|
        invariant total == Sum(Weights(), seen, i)
      {
        if seen[i] { total := total + backends[i].Weight; }
      }
    }
  }

  function Divisor(weight: int): nat
    requires weight >= 0
  {
    if weight == 0 then 1 else weight
  }

  function Total(conns: seq<nat>, k: nat): nat
    requires k <= |conns|
  {
    if k == 0 then 0 else Total(conns, k - 1) + conns[k - 1]
  }
}
