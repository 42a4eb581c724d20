/** The station graph of the metro network as a value: an arena of stations keyed by
    id, each holding its ordered list of (neighbour id, travel time) entries, and the
    notions of route, route cost and reachability that the route queries are judged by. */
module Graph {

  /** One adjacency entry of a station: a neighbour id and the travel time in minutes. */
  datatype Neighbour = Neighbour(to: string, time: int)

  /** `Istasyon`: id, display name, line, and its neighbour list in insertion order. */
  datatype Station = Station(id: string, name: string, line: string, neighbours: seq<Neighbour>)

  /** The station registry, keyed by station id. */
  type Registry = map<string, Station>

  /** Every neighbour entry names a registered station and carries a positive time. */
  ghost predicate WellFormed(g: Registry)
  {
    forall u, k :: u in g && 0 <= k < |g[u].neighbours| ==>
      g[u].neighbours[k].to in g && g[u].neighbours[k].time > 0
  }

  /** Connections are symmetric: `u` lists `(v, w)` exactly as often as `v` lists `(u, w)`. */
  ghost predicate Symmetric(g: Registry)
  {
    forall u, v, w :: u in g && v in g ==>
      multiset(g[u].neighbours)[Neighbour(v, w)] == multiset(g[v].neighbours)[Neighbour(u, w)]
  }

  /** `u`'s station lists `v` among its neighbours. */
  ghost predicate Adjacent(g: Registry, u: string, v: string)
  {
    u in g && exists k :: 0 <= k < |g[u].neighbours| && g[u].neighbours[k].to == v
  }

  /** A non-empty sequence of registered stations, each adjacent to the next. */
  ghost predicate IsPath(g: Registry, p: seq<string>)
  {
    && |p| > 0
    && (forall i :: 0 <= i < |p| ==> p[i] in g)
    && (forall i :: 0 <= i < |p| - 1 ==> Adjacent(g, p[i], p[i + 1]))
  }

  ghost predicate IsRoute(g: Registry, p: seq<string>, s: string, t: string)
  {
    IsPath(g, p) && p[0] == s && p[|p| - 1] == t
  }

  ghost predicate Reachable(g: Registry, s: string, t: string)
  {
    exists p :: IsRoute(g, p, s, t)
  }

  /** No route from `s` to `t` visits fewer than `n` stations. */
  ghost predicate NoShorter(g: Registry, s: string, t: string, n: int)
  {
    forall p :: IsRoute(g, p, s, t) ==> n <= |p|
  }

  /** A path together with the travel time of the neighbour entry used for each step:
      `ws[i]` is the time of an entry `(p[i + 1], ws[i])` in `p[i]`'s list. */
  ghost predicate WeightedPath(g: Registry, p: seq<string>, ws: seq<int>)
  {
    && |p| > 0
    && |ws| == |p| - 1
    && (forall i :: 0 <= i < |p| ==> p[i] in g)
    && (forall i :: 0 <= i < |ws| ==> Neighbour(p[i + 1], ws[i]) in g[p[i]].neighbours)
  }

  ghost predicate WeightedRoute(g: Registry, p: seq<string>, ws: seq<int>, s: string, t: string)
  {
    WeightedPath(g, p, ws) && p[0] == s && p[|p| - 1] == t
  }

  /** Total travel time, accumulated from the first step on. */
  function Sum(ws: seq<int>): int
  {
    if ws == [] then 0 else Sum(ws[..|ws| - 1]) + ws[|ws| - 1]
  }

  /** Travelling along `p` can take exactly `t` minutes. */
  ghost predicate Costs(g: Registry, p: seq<string>, t: int)
  {
    exists ws :: WeightedPath(g, p, ws) && Sum(ws) == t
  }

  /** No route from `s` to `t` takes less than `c` minutes. */
  ghost predicate NoCheaper(g: Registry, s: string, t: string, c: int)
  {
    forall p, ws :: WeightedRoute(g, p, ws, s, t) ==> c <= Sum(ws)
  }

  /** The entries a new connection between `a` and `b` adds to station `x`'s list:
      `(b, t)` if `x` is `a`, then `(a, t)` if `x` is `b` (both when `a == b`). */
  function Added(a: string, b: string, t: int, x: string): seq<Neighbour>
  {
    (if x == a then [Neighbour(b, t)] else []) + (if x == b then [Neighbour(a, t)] else [])
  }

  /** The registry after a connection between `a` and `b` with travel time `t`. */
  function Connect(g: Registry, a: string, b: string, t: int): (r: Registry)
    ensures r.Keys == g.Keys
    ensures forall x :: x in g ==>
      && r[x].id == g[x].id && r[x].name == g[x].name && r[x].line == g[x].line
      && |g[x].neighbours| <= |r[x].neighbours|
      && r[x].neighbours[..|g[x].neighbours|] == g[x].neighbours
  {
    map x | x in g :: g[x].(neighbours := g[x].neighbours + Added(a, b, t, x))
  }

  /** `baglanti_ekle` appends `(b, t)` to `a`'s list and then `(a, t)` to `b`'s list; that
      is the same as `Connect`, including when `a == b`. */
  lemma ConnectByAppends(g: Registry, a: string, b: string, t: int)
    requires a in g && b in g
    ensures var g1 := g[a := g[a].(neighbours := g[a].neighbours + [Neighbour(b, t)])];
      Connect(g, a, b, t) == g1[b := g1[b].(neighbours := g1[b].neighbours + [Neighbour(a, t)])]
  {
    var g1 := g[a := g[a].(neighbours := g[a].neighbours + [Neighbour(b, t)])];
    var g2 := g1[b := g1[b].(neighbours := g1[b].neighbours + [Neighbour(a, t)])];
    var c := Connect(g, a, b, t);
    forall x | x in g ensures c[x] == g2[x] {
      if x == a && x == b {
        assert g2[x].neighbours == g[x].neighbours + [Neighbour(b, t)] + [Neighbour(a, t)];
      }
    }
    assert c.Keys == g2.Keys;
  }

  /** What a connection changes: `a`'s and `b`'s lists grow by one entry each (by two
      when `a == b`); every other station, and the set of ids, is unchanged. */
  lemma ConnectEffect(g: Registry, a: string, b: string, t: int)
    requires a in g && b in g
    ensures Connect(g, a, b, t).Keys == g.Keys
    ensures forall x :: x in g && x != a && x != b ==> Connect(g, a, b, t)[x] == g[x]
    ensures a != b ==>
      && Connect(g, a, b, t)[a] == g[a].(neighbours := g[a].neighbours + [Neighbour(b, t)])
      && Connect(g, a, b, t)[b] == g[b].(neighbours := g[b].neighbours + [Neighbour(a, t)])
    ensures a == b ==>
      Connect(g, a, b, t)[a] == g[a].(neighbours := g[a].neighbours + [Neighbour(a, t), Neighbour(a, t)])
  {
    var c := Connect(g, a, b, t);
    forall x | x in g && x != a && x != b ensures c[x] == g[x] {
      assert c[x].neighbours == g[x].neighbours + [];
    }
  }

  // ---------------------------------------------------------------------------
  // Symmetry and well-formedness of connections

  /** In a symmetric registry an edge seen from one end is seen, with the same travel
      time, from the other. */
  lemma SymmetricEdge(g: Registry, u: string, v: string, w: int)
    requires Symmetric(g) && u in g && v in g
    ensures Neighbour(v, w) in g[u].neighbours <==> Neighbour(u, w) in g[v].neighbours
  {
    assert multiset(g[u].neighbours)[Neighbour(v, w)] == multiset(g[v].neighbours)[Neighbour(u, w)];
  }

  lemma SymmetricAdjacent(g: Registry, u: string, v: string)
    requires Symmetric(g) && u in g && v in g
    ensures Adjacent(g, u, v) <==> Adjacent(g, v, u)
  {
    if Adjacent(g, u, v) {
      var k :| 0 <= k < |g[u].neighbours| && g[u].neighbours[k].to == v;
      var w := g[u].neighbours[k].time;
      assert Neighbour(v, w) in g[u].neighbours;
      SymmetricEdge(g, u, v, w);
      var j :| 0 <= j < |g[v].neighbours| && g[v].neighbours[j] == Neighbour(u, w);
    }
    if Adjacent(g, v, u) {
      var k :| 0 <= k < |g[v].neighbours| && g[v].neighbours[k].to == u;
      var w := g[v].neighbours[k].time;
      assert Neighbour(u, w) in g[v].neighbours;
      SymmetricEdge(g, u, v, w);
      var j :| 0 <= j < |g[u].neighbours| && g[u].neighbours[j] == Neighbour(v, w);
    }
  }

  /** Adding a connection keeps every neighbour registered and every time positive. */
  lemma ConnectWellFormed(g: Registry, a: string, b: string, t: int)
    requires WellFormed(g) && a in g && b in g && t > 0
    ensures WellFormed(Connect(g, a, b, t))
    ensures Connect(g, a, b, t).Keys == g.Keys
  {
    var g2 := Connect(g, a, b, t);
    forall u, k | u in g2 && 0 <= k < |g2[u].neighbours|
      ensures g2[u].neighbours[k].to in g2 && g2[u].neighbours[k].time > 0
    {
      var ns := g[u].neighbours;
      assert g2[u].neighbours == ns + Added(a, b, t, u);
      if k < |ns| {
        assert g2[u].neighbours[k] == ns[k];
      }
    }
  }

  /** Adding a connection keeps the registry symmetric. */
  lemma ConnectSymmetric(g: Registry, a: string, b: string, t: int)
    requires Symmetric(g)
    ensures Symmetric(Connect(g, a, b, t))
  {
    var g2 := Connect(g, a, b, t);
    forall u, v, w | u in g2 && v in g2
      ensures multiset(g2[u].neighbours)[Neighbour(v, w)] == multiset(g2[v].neighbours)[Neighbour(u, w)]
    {
      ConnectCount(g, a, b, t, u, Neighbour(v, w));
      ConnectCount(g, a, b, t, v, Neighbour(u, w));
      assert multiset(g[u].neighbours)[Neighbour(v, w)] == multiset(g[v].neighbours)[Neighbour(u, w)];
    }
  }

  /** How often an entry occurs in a station's list after a connection is added. */
  lemma ConnectCount(g: Registry, a: string, b: string, t: int, x: string, e: Neighbour)
    requires x in g
    ensures multiset(Connect(g, a, b, t)[x].neighbours)[e]
         == multiset(g[x].neighbours)[e]
            + (if x == a && e == Neighbour(b, t) then 1 else 0)
            + (if x == b && e == Neighbour(a, t) then 1 else 0)
  {
    assert Connect(g, a, b, t)[x].neighbours == g[x].neighbours + Added(a, b, t, x);
  }

  /** A station that nobody lists can join the registry with no neighbours and keep it
      symmetric and well formed. */
  lemma AddIsolated(g: Registry, id: string, st: Station)
    requires WellFormed(g) && Symmetric(g) && id !in g && st.neighbours == []
    ensures WellFormed(g[id := st]) && Symmetric(g[id := st])
  {
    var g2 := g[id := st];
    forall u, v, w | u in g2 && v in g2
      ensures multiset(g2[u].neighbours)[Neighbour(v, w)] == multiset(g2[v].neighbours)[Neighbour(u, w)]
    {
      if u == id && v != id {
        assert Neighbour(u, w) !in g[v].neighbours;
      } else if v == id && u != id {
        assert Neighbour(v, w) !in g[u].neighbours;
      }
    }
  }

  /** The position of an entry in a neighbour list. */
  lemma EntryAt(ns: seq<Neighbour>, e: Neighbour) returns (k: nat)
    requires e in ns
    ensures k < |ns| && ns[k] == e
  {
    k :| 0 <= k < |ns| && ns[k] == e;
  }

  lemma EntryValid(g: Registry, u: string, e: Neighbour)
    requires WellFormed(g) && u in g && e in g[u].neighbours
    ensures e.to in g && e.time > 0
  {
    var k := EntryAt(g[u].neighbours, e);
  }

  // ---------------------------------------------------------------------------
  // Routes

  lemma SingletonRoute(g: Registry, s: string)
    requires s in g
    ensures IsRoute(g, [s], s, s) && WeightedRoute(g, [s], [], s, s)
  {
  }

  /** A route with positive travel times has at least as many minutes as steps. */
  lemma {:induction false} SumAtLeast(ws: seq<int>, c: int)
    requires forall i :: 0 <= i < |ws| ==> ws[i] >= c
    ensures Sum(ws) >= c * |ws|
    decreases |ws|
  {
    if ws != [] {
      SumAtLeast(ws[..|ws| - 1], c);
    }
  }

  /** With non-negative times, a prefix of a route costs no more than the route. */
  lemma {:induction false} SumPrefix(ws: seq<int>, n: nat)
    requires n <= |ws|
    requires forall i :: 0 <= i < |ws| ==> ws[i] >= 0
    ensures Sum(ws[..n]) <= Sum(ws)
    decreases |ws|
  {
    if n < |ws| {
      assert ws[..|ws| - 1][..n] == ws[..n];
      SumPrefix(ws[..|ws| - 1], n);
    } else {
      assert ws[..n] == ws;
    }
  }

  lemma SumAppend(ws: seq<int>, c: int)
    ensures Sum(ws + [c]) == Sum(ws) + c
  {
    assert (ws + [c])[..|ws|] == ws;
  }

  lemma WeightedTimesPositive(g: Registry, p: seq<string>, ws: seq<int>)
    requires WellFormed(g) && WeightedPath(g, p, ws)
    ensures forall i :: 0 <= i < |ws| ==> ws[i] > 0
  {
    forall i | 0 <= i < |ws| ensures ws[i] > 0 {
      EntryValid(g, p[i], Neighbour(p[i + 1], ws[i]));
    }
  }

  /** A route that takes no time has no steps: it is the single source station. */
  lemma ZeroCostRoute(g: Registry, p: seq<string>, ws: seq<int>)
    requires WellFormed(g) && WeightedPath(g, p, ws) && Sum(ws) <= 0
    ensures ws == [] && |p| == 1
  {
    WeightedTimesPositive(g, p, ws);
    SumAtLeast(ws, 1);
  }

  /** Every path can be timed: pick, for each step, one neighbour entry it uses. */
  lemma {:induction false} PathHasTimes(g: Registry, p: seq<string>) returns (ws: seq<int>)
    requires IsPath(g, p)
    ensures WeightedPath(g, p, ws)
    decreases |p|
  {
    if |p| == 1 {
      ws := [];
    } else {
      var q := p[..|p| - 1];
      assert IsPath(g, q) by {
        forall i | 0 <= i < |q| - 1 ensures Adjacent(g, q[i], q[i + 1]) {
          assert q[i] == p[i] && q[i + 1] == p[i + 1];
        }
      }
      var vs := PathHasTimes(g, q);
      var u := p[|p| - 2];
      assert Adjacent(g, u, p[|p| - 1]);
      var k :| 0 <= k < |g[u].neighbours| && g[u].neighbours[k].to == p[|p| - 1];
      ws := vs + [g[u].neighbours[k].time];
      forall i | 0 <= i < |ws| ensures Neighbour(p[i + 1], ws[i]) in g[p[i]].neighbours {
        if i < |vs| {
          assert p[i] == q[i] && p[i + 1] == q[i + 1];
        }
      }
    }
  }

  /** Reachability does not depend on whether routes are timed. */
  lemma ReachableTimed(g: Registry, s: string, t: string)
    requires Reachable(g, s, t)
    ensures exists p, ws :: WeightedRoute(g, p, ws, s, t)
  {
    var p :| IsRoute(g, p, s, t);
    var ws := PathHasTimes(g, p);
    assert WeightedRoute(g, p, ws, s, t);
  }

  lemma PathPrefix(g: Registry, p: seq<string>, n: nat)
    requires IsPath(g, p) && 0 < n <= |p|
    ensures IsPath(g, p[..n])
  {
    var q := p[..n];
    forall i | 0 <= i < |q| - 1 ensures Adjacent(g, q[i], q[i + 1]) {
      assert q[i] == p[i] && q[i + 1] == p[i + 1];
    }
  }

  lemma WeightedPrefix(g: Registry, p: seq<string>, ws: seq<int>, n: nat)
    requires WeightedPath(g, p, ws) && 0 < n <= |p|
    ensures WeightedPath(g, p[..n], ws[..n - 1])
  {
  }

  lemma PathExtend(g: Registry, p: seq<string>, k: nat)
    requires IsPath(g, p) && WellFormed(g)
    requires k < |g[p[|p| - 1]].neighbours|
    ensures IsPath(g, p + [g[p[|p| - 1]].neighbours[k].to])
  {
    var w := g[p[|p| - 1]].neighbours[k].to;
    var q := p + [w];
    forall i | 0 <= i < |q| - 1 ensures Adjacent(g, q[i], q[i + 1]) {
      if i < |p| - 1 {
        assert q[i] == p[i] && q[i + 1] == p[i + 1];
      }
    }
  }

  lemma CostsExtend(g: Registry, p: seq<string>, t: int, k: nat)
    requires Costs(g, p, t) && WellFormed(g)
    requires |p| > 0 && k < |g[p[|p| - 1]].neighbours|
    ensures Costs(g, p + [g[p[|p| - 1]].neighbours[k].to], t + g[p[|p| - 1]].neighbours[k].time)
  {
    var e := g[p[|p| - 1]].neighbours[k];
    var ws :| WeightedPath(g, p, ws) && Sum(ws) == t;
    WeightedExtend(g, p, ws, k);
    SumAppend(ws, e.time);
    assert WeightedPath(g, p + [e.to], ws + [e.time]) && Sum(ws + [e.time]) == t + e.time;
  }

  /** Extending a timed path by an entry of its last station's list, with that entry's time. */
  lemma WeightedExtend(g: Registry, p: seq<string>, ws: seq<int>, k: nat)
    requires WeightedPath(g, p, ws) && WellFormed(g)
    requires k < |g[p[|p| - 1]].neighbours|
    ensures WeightedPath(g, p + [g[p[|p| - 1]].neighbours[k].to], ws + [g[p[|p| - 1]].neighbours[k].time])
  {
    var e := g[p[|p| - 1]].neighbours[k];
    var q, vs := p + [e.to], ws + [e.time];
    forall i | 0 <= i < |q| ensures q[i] in g {
      if i < |p| {
        assert q[i] == p[i];
      }
    }
    forall i | 0 <= i < |vs| ensures Neighbour(q[i + 1], vs[i]) in g[q[i]].neighbours {
      if i < |ws| {
        assert q[i] == p[i] && q[i + 1] == p[i + 1] && vs[i] == ws[i];
      } else {
        assert q[i] == p[|p| - 1] && q[i + 1] == e.to && vs[i] == e.time;
        assert g[q[i]].neighbours[k] == e;
      }
    }
  }

  /** On any sequence ending outside `V`, the first station outside `V` comes right
      after one inside it, unless it is the first station. */
  lemma FirstOutside(p: seq<string>, V: set<string>) returns (i: nat)
    requires |p| > 0 && p[|p| - 1] !in V
    ensures i < |p| && p[i] !in V
    ensures i > 0 ==> p[i - 1] in V
  {
    i := 0;
    while p[i] in V
      invariant i < |p|
      invariant i > 0 ==> p[i - 1] in V
      decreases |p| - i
    {
      i := i + 1;
    }
  }
}
