/** The fastest-route search (`en_hizli_rota_bul`): a min-heap of (time, station, route)
    entries, a station marked visited when it is popped, stale entries skipped, and the
    route returned the first time the target is popped. The heap is modelled as a
    sequence from which the least entry, in Python's tuple order, is extracted. */
module Dijkstra {
  import opened Order
  import opened Graph

  /** A heap entry `(toplam_sure, istasyon, yol)`. */
  datatype Timed = Timed(time: int, station: string, path: seq<string>)

  /** Python's `<` on heap entries: by time, then by station (`Istasyon.__lt__`, which
      compares ids; distinct stations have distinct ids), then by route as a list. */
  predicate Before(x: Timed, y: Timed): (r: bool)
    ensures x.time < y.time ==> r
    ensures r ==> x.time <= y.time
  {
    || x.time < y.time
    || (x.time == y.time && IdLess(x.station, y.station))
    || (x.time == y.time && x.station == y.station && PathLess(x.path, y.path))
  }

  /** The entry order is a strict total order. */
  lemma BeforeStrictTotal()
    ensures StrictTotal(Before)
  {
    IdLessStrictTotal();
    PathLessStrictTotal();
    forall x, y | x != y ensures Before(x, y) || Before(y, x) {
      if x.time == y.time && x.station == y.station {
        assert x.path != y.path;
      }
    }
  }

  /** Entry `m` is a least entry of the heap: no entry comes before it. */
  ghost predicate IsMin(pq: seq<Timed>, m: nat)
  {
    m < |pq| && forall k :: 0 <= k < |pq| ==> !Before(pq[k], pq[m])
  }

  /** The entry `heapq.heappop` returns: the position of a least entry. */
  method MinIndex(pq: seq<Timed>) returns (m: nat)
    requires |pq| > 0
    ensures IsMin(pq, m)
  {
    BeforeStrictTotal();
    m := 0;
    var j := 1;
    while j < |pq|
      invariant m < j <= |pq|
      invariant forall k :: 0 <= k < j ==> !Before(pq[k], pq[m])
    {
      if Before(pq[j], pq[m]) {
        m := j;
      }
      j := j + 1;
    }
  }

  /** The least entry is unique, so which entry is popped is determined by the heap's
      contents alone: equal-time entries come out in id order, then route order. */
  lemma MinUnique(pq: seq<Timed>, m1: nat, m2: nat)
    requires IsMin(pq, m1) && IsMin(pq, m2)
    ensures pq[m1] == pq[m2]
  {
    BeforeStrictTotal();
  }

  /** The least entry has the least time. */
  lemma MinTime(pq: seq<Timed>, m: nat)
    requires IsMin(pq, m)
    ensures forall k :: 0 <= k < |pq| ==> pq[m].time <= pq[k].time
  {
    forall k | 0 <= k < |pq| ensures pq[m].time <= pq[k].time {
      assert !Before(pq[k], pq[m]);
    }
  }

  /** The heap without its entry at `m`. */
  function RemoveAt(pq: seq<Timed>, m: nat): (r: seq<Timed>)
    requires m < |pq|
    ensures |r| == |pq| - 1
    ensures forall k :: 0 <= k < |pq| && k != m ==> r[if k < m then k else k - 1] == pq[k]
  {
    pq[..m] + pq[m + 1..]
  }

  /** The entries pushed when `e`'s station is expanded, one per neighbour entry, in list order. */
  function Pushes(ns: seq<Neighbour>, e: Timed): (r: seq<Timed>)
    ensures |r| == |ns|
    ensures forall k :: 0 <= k < |ns| ==> r[k] == Timed(e.time + ns[k].time, ns[k].to, e.path + [ns[k].to])
  {
    if ns == [] then []
    else
      var n := ns[|ns| - 1];
      Pushes(ns[..|ns| - 1], e) + [Timed(e.time + n.time, n.to, e.path + [n.to])]
  }

  /** `for komsu, sure in mevcut.komsular: heapq.heappush(pq, (toplam_sure + sure, komsu, yol + [komsu]))` */
  method PushNeighbours(pq: seq<Timed>, ns: seq<Neighbour>, e: Timed) returns (pq': seq<Timed>)
    ensures pq' == pq + Pushes(ns, e)
  {
    pq' := pq;
    var j := 0;
    while j < |ns|
      invariant j <= |ns|
      invariant pq' == pq + Pushes(ns[..j], e)
    {
      assert ns[..j + 1][..j] == ns[..j];
      pq' := pq' + [Timed(e.time + ns[j].time, ns[j].to, e.path + [ns[j].to])];
      j := j + 1;
    }
    assert ns[..j] == ns;
  }

  /** An entry's route leads from `s` to its station and takes exactly its time. */
  ghost predicate Leads(g: Registry, s: string, e: Timed)
  {
    IsRoute(g, e.path, s, e.station) && Costs(g, e.path, e.time)
  }

  ghost predicate Routes(g: Registry, s: string, pq: seq<Timed>)
  {
    forall k :: 0 <= k < |pq| ==> Leads(g, s, pq[k])
  }

  /** Station `x` is settled, or waits in the heap with a time of at most `c`. */
  ghost predicate Queued(pq: seq<Timed>, V: set<string>, x: string, c: int)
  {
    x in V || exists k :: 0 <= k < |pq| && pq[k].station == x && pq[k].time <= c
  }

  /** Each visited station `v` was expanded with a fastest route, taking `D[v]` minutes. */
  ghost predicate Settled(g: Registry, s: string, V: set<string>, D: map<string, int>)
  {
    V <= g.Keys && V <= D.Keys && forall v :: v in V ==> NoCheaper(g, s, v, D[v])
  }

  /** The source, and every neighbour of a visited station, is visited or waits with a
      time no worse than the time through that visited station. */
  ghost predicate Frontier(g: Registry, s: string, pq: seq<Timed>, V: set<string>, D: map<string, int>)
    requires V <= g.Keys && V <= D.Keys
  {
    && Queued(pq, V, s, 0)
    && forall v, j :: v in V && 0 <= j < |g[v].neighbours| ==>
         Queued(pq, V, g[v].neighbours[j].to, D[v] + g[v].neighbours[j].time)
  }

  /** The invariant of the search from `s` to `t`, with heap `pq`, visited set `V` and,
      for each visited station, the time `D[v]` it was expanded with. */
  ghost predicate Inv(g: Registry, s: string, t: string, pq: seq<Timed>, V: set<string>, D: map<string, int>)
  {
    && WellFormed(g)
    && t !in V
    && Routes(g, s, pq)
    && Settled(g, s, V, D)
    && Frontier(g, s, pq, V, D)
  }

  lemma Init(g: Registry, s: string, t: string)
    requires WellFormed(g) && s in g
    ensures Inv(g, s, t, [Timed(0, s, [s])], {}, map[])
  {
    SingletonRoute(g, s);
    assert Sum([]) == 0;
    assert [Timed(0, s, [s])][0].station == s;
  }

  /** Every route to an unvisited station is matched by a heap entry whose time is no
      greater: the route's first unvisited station waits in the heap no worse than the
      route's prefix up to it. */
  lemma Cover(g: Registry, s: string, t: string, pq: seq<Timed>, V: set<string>, D: map<string, int>,
              p: seq<string>, ws: seq<int>, x: string)
    requires Inv(g, s, t, pq, V, D)
    requires WeightedRoute(g, p, ws, s, x) && x !in V
    ensures exists k :: 0 <= k < |pq| && pq[k].time <= Sum(ws)
  {
    WeightedTimesPositive(g, p, ws);
    var i := FirstOutside(p, V);
    if i == 0 {
      SumAtLeast(ws, 0);
    } else {
      var v := p[i - 1];
      var j := EntryAt(g[v].neighbours, Neighbour(p[i], ws[i - 1]));
      assert Queued(pq, V, p[i], D[v] + ws[i - 1]);
      WeightedPrefix(g, p, ws, i);
      assert WeightedRoute(g, p[..i], ws[..i - 1], s, v);
      assert ws[..i][..i - 1] == ws[..i - 1];
      SumPrefix(ws, i);
    }
  }

  /** A least entry whose station is unvisited carries a fastest time to that station. */
  lemma MinFastest(g: Registry, s: string, t: string, pq: seq<Timed>, V: set<string>, D: map<string, int>,
                   m: nat)
    requires Inv(g, s, t, pq, V, D) && IsMin(pq, m) && pq[m].station !in V
    ensures NoCheaper(g, s, pq[m].station, pq[m].time)
  {
    MinTime(pq, m);
    forall p, ws | WeightedRoute(g, p, ws, s, pq[m].station) ensures pq[m].time <= Sum(ws) {
      Cover(g, s, t, pq, V, D, p, ws, pq[m].station);
    }
  }

  /** Popping the target yields a fastest route and its time; from the source to
      itself that is the source alone, in no time. */
  lemma Found(g: Registry, s: string, t: string, pq: seq<Timed>, V: set<string>, D: map<string, int>, m: nat)
    requires Inv(g, s, t, pq, V, D) && IsMin(pq, m) && pq[m].station == t
    ensures IsRoute(g, pq[m].path, s, t) && Costs(g, pq[m].path, pq[m].time)
    ensures NoCheaper(g, s, t, pq[m].time)
    ensures s == t ==> pq[m].path == [s] && pq[m].time == 0
  {
    assert Leads(g, s, pq[m]);
    MinFastest(g, s, t, pq, V, D, m);
    if s == t {
      SingletonRoute(g, s);
      assert pq[m].time <= Sum([]);
      var ws :| WeightedPath(g, pq[m].path, ws) && Sum(ws) == pq[m].time;
      ZeroCostRoute(g, pq[m].path, ws);
    }
  }

  /** An entry other than the popped one still waits after the pop and after `extra` is
      pushed, as long as the popped station is, or becomes, visited. */
  lemma KeepQueued(pq: seq<Timed>, m: nat, V: set<string>, V': set<string>, x: string, c: int, extra: seq<Timed>)
    requires m < |pq| && Queued(pq, V, x, c)
    requires V <= V' && pq[m].station in V'
    ensures Queued(RemoveAt(pq, m) + extra, V', x, c)
  {
    if x !in V' {
      var k :| 0 <= k < |pq| && pq[k].station == x && pq[k].time <= c;
      var r := RemoveAt(pq, m);
      assert (r + extra)[if k < m then k else k - 1] == pq[k];
    }
  }

  /** The neighbours of the popped station wait with its time plus the travel time. */
  lemma PushedQueued(rest: seq<Timed>, e: Timed, V': set<string>, ns: seq<Neighbour>, j: nat)
    requires j < |ns|
    ensures Queued(rest + Pushes(ns, e), V', ns[j].to, e.time + ns[j].time)
  {
    var pushed := Pushes(ns, e);
    assert pushed[j].station == ns[j].to && pushed[j].time == e.time + ns[j].time;
    QueuedAt(rest + pushed, V', |rest| + j);
  }

  /** An entry at index `k` makes its station queued with its own time. */
  lemma QueuedAt(pq: seq<Timed>, V: set<string>, k: nat)
    requires k < |pq|
    ensures Queued(pq, V, pq[k].station, pq[k].time)
  {
  }

  /** Taking an already visited station from the heap only drops that entry. */
  lemma Skip(g: Registry, s: string, t: string, pq: seq<Timed>, V: set<string>, D: map<string, int>, m: nat)
    requires Inv(g, s, t, pq, V, D) && m < |pq| && pq[m].station in V
    ensures Inv(g, s, t, RemoveAt(pq, m), V, D)
  {
    ExpandRoutes(g, s, pq, m, []);
    ExpandFrontier(g, s, pq, m, V, D, []);
  }

  /** Expanding an unvisited, non-target station: mark it visited with its time and push
      one entry per neighbour entry. */
  lemma Expand(g: Registry, s: string, t: string, pq: seq<Timed>, V: set<string>, D: map<string, int>, m: nat)
    requires Inv(g, s, t, pq, V, D) && IsMin(pq, m)
    requires pq[m].station !in V && pq[m].station != t
    ensures pq[m].station in g
    ensures Inv(g, s, t, RemoveAt(pq, m) + Pushes(g[pq[m].station].neighbours, pq[m]),
                V + {pq[m].station}, D[pq[m].station := pq[m].time])
  {
    var u := pq[m].station;
    assert Leads(g, s, pq[m]);
    var ns := g[u].neighbours;
    ExpandRoutes(g, s, pq, m, ns);
    MinFastest(g, s, t, pq, V, D, m);
    var V', D' := V + {u}, D[u := pq[m].time];
    forall v | v in V' ensures NoCheaper(g, s, v, D'[v]) {
      if v != u {
        assert D'[v] == D[v];
      }
    }
    ExpandFrontier(g, s, pq, m, V, D, ns);
  }

  lemma ExpandRoutes(g: Registry, s: string, pq: seq<Timed>, m: nat, ns: seq<Neighbour>)
    requires WellFormed(g) && m < |pq| && Routes(g, s, pq)
    requires ns == [] || (pq[m].station in g && ns == g[pq[m].station].neighbours)
    ensures Routes(g, s, RemoveAt(pq, m) + Pushes(ns, pq[m]))
  {
    var e := pq[m];
    var pushed := Pushes(ns, e);
    var r := RemoveAt(pq, m);
    var pq' := r + pushed;
    assert Leads(g, s, e);
    forall k | 0 <= k < |pq'| ensures Leads(g, s, pq'[k]) {
      if k < |r| {
        assert pq'[k] == r[k] == pq[if k < m then k else k + 1];
      } else {
        var j := k - |r|;
        assert pq'[k] == pushed[j];
        PathExtend(g, e.path, j);
        CostsExtend(g, e.path, e.time, j);
      }
    }
  }

  /** After the pop and the pushes for `ns`, everything that waited still does, and, if
      `ns` is the popped station's list, its neighbours wait too. */
  lemma ExpandFrontier(g: Registry, s: string, pq: seq<Timed>, m: nat, V: set<string>, D: map<string, int>,
                       ns: seq<Neighbour>)
    requires m < |pq| && V <= g.Keys && V <= D.Keys && Frontier(g, s, pq, V, D)
    requires pq[m].station in g
    requires pq[m].station !in V ==> ns == g[pq[m].station].neighbours
    ensures var u := pq[m].station;
      var V', D' := V + {u}, if u in V then D else D[u := pq[m].time];
      V' <= g.Keys && V' <= D'.Keys && Frontier(g, s, RemoveAt(pq, m) + Pushes(ns, pq[m]), V', D')
  {
    var u := pq[m].station;
    var V', D' := V + {u}, if u in V then D else D[u := pq[m].time];
    var pq' := RemoveAt(pq, m) + Pushes(ns, pq[m]);
    forall v, j | v in V' && 0 <= j < |g[v].neighbours|
      ensures Queued(pq', V', g[v].neighbours[j].to, D'[v] + g[v].neighbours[j].time)
    {
      if v == u && u !in V {
        PushedQueued(RemoveAt(pq, m), pq[m], V', ns, j);
      } else {
        assert D'[v] == D[v];
        KeepQueued(pq, m, V, V', g[v].neighbours[j].to, D[v] + g[v].neighbours[j].time, Pushes(ns, pq[m]));
      }
    }
    KeepQueued(pq, m, V, V', s, 0, Pushes(ns, pq[m]));
  }

  /** An exhausted heap means the target cannot be reached. */
  lemma Exhausted(g: Registry, s: string, t: string, V: set<string>, D: map<string, int>)
    requires Inv(g, s, t, [], V, D)
    ensures !Reachable(g, s, t)
  {
    if Reachable(g, s, t) {
      ReachableTimed(g, s, t);
      var p, ws :| WeightedRoute(g, p, ws, s, t);
      Cover(g, s, t, [], V, D, p, ws, t);
    }
  }
}
