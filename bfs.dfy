/** The fewest-stops search (`en_az_aktarma_bul`): a FIFO queue of (station, route so
    far) entries, a station marked visited when it is taken from the queue, and the
    route returned the first time the target is taken. This module holds the loop
    invariant of that search and the lemmas that carry it across each kind of step. */
module Bfs {
  import opened Graph

  /** A queue entry: the station reached and the route that reached it. */
  datatype Visit = Visit(station: string, path: seq<string>)

  /** The entries appended when `path`'s last station is expanded, one per neighbour
      entry, in list order. */
  function Pushes(ns: seq<Neighbour>, path: seq<string>): (r: seq<Visit>)
    ensures |r| == |ns|
    ensures forall k :: 0 <= k < |ns| ==> r[k] == Visit(ns[k].to, path + [ns[k].to])
  {
    if ns == [] then []
    else Pushes(ns[..|ns| - 1], path) + [Visit(ns[|ns| - 1].to, path + [ns[|ns| - 1].to])]
  }

  /** `for komsu, _ in mevcut.komsular: kuyruk.append((komsu, yol + [komsu]))` */
  method EnqueueNeighbours(q: seq<Visit>, ns: seq<Neighbour>, path: seq<string>) returns (q': seq<Visit>)
    ensures q' == q + Pushes(ns, path)
  {
    q' := q;
    var j := 0;
    while j < |ns|
      invariant j <= |ns|
      invariant q' == q + Pushes(ns[..j], path)
    {
      assert ns[..j + 1][..j] == ns[..j];
      q' := q' + [Visit(ns[j].to, path + [ns[j].to])];
      j := j + 1;
    }
    assert ns[..j] == ns;
  }

  /** Station `x` is settled, or waits in the queue with a route of at most `n` stations. */
  ghost predicate Queued(q: seq<Visit>, V: set<string>, x: string, n: int)
  {
    x in V || exists k :: 0 <= k < |q| && q[k].station == x && |q[k].path| <= n
  }

  /** Every queued entry's route leads from `s` to the entry's station. */
  ghost predicate Routes(g: Registry, s: string, q: seq<Visit>)
  {
    forall k :: 0 <= k < |q| ==> IsRoute(g, q[k].path, s, q[k].station)
  }

  /** Each visited station `v` was expanded with a shortest route, of `D[v]` stations. */
  ghost predicate Settled(g: Registry, s: string, V: set<string>, D: map<string, int>)
  {
    V <= g.Keys && V <= D.Keys && forall v :: v in V ==> NoShorter(g, s, v, D[v])
  }

  /** The source, and every neighbour of a visited station, is visited or queued with a
      route no longer than the one through that neighbour. */
  ghost predicate Frontier(g: Registry, s: string, q: seq<Visit>, V: set<string>, D: map<string, int>)
    requires V <= g.Keys && V <= D.Keys
  {
    && Queued(q, V, s, 1)
    && forall v, j :: v in V && 0 <= j < |g[v].neighbours| ==>
         Queued(q, V, g[v].neighbours[j].to, D[v] + 1)
  }

  /** FIFO order: route lengths never decrease along the queue and differ by at most one. */
  ghost predicate Fifo(q: seq<Visit>)
  {
    && (forall i, j :: 0 <= i <= j < |q| ==> |q[i].path| <= |q[j].path|)
    && (forall j :: 0 <= j < |q| ==> |q[j].path| <= |q[0].path| + 1)
  }

  /** The invariant of the search from `s` to `t`, with queue `q`, visited set `V` and,
      for each visited station, the number of stations `D[v]` on the route it was
      expanded with. */
  ghost predicate Inv(g: Registry, s: string, t: string, q: seq<Visit>, V: set<string>, D: map<string, int>)
  {
    && WellFormed(g)
    && t !in V
    && Routes(g, s, q)
    && Settled(g, s, V, D)
    && Frontier(g, s, q, V, D)
    && Fifo(q)
  }

  lemma Init(g: Registry, s: string, t: string)
    requires WellFormed(g) && s in g
    ensures Inv(g, s, t, [Visit(s, [s])], {}, map[])
  {
    assert [Visit(s, [s])][0].station == s;
  }

  /** Every route to an unvisited station is matched by a queued entry whose route is no
      longer: the route's first unvisited station is queued, or a visited neighbour put it
      there. */
  lemma Cover(g: Registry, s: string, t: string, q: seq<Visit>, V: set<string>, D: map<string, int>,
              p: seq<string>, x: string)
    requires Inv(g, s, t, q, V, D)
    requires IsRoute(g, p, s, x) && x !in V
    ensures exists k :: 0 <= k < |q| && |q[k].path| <= |p|
  {
    var i := FirstOutside(p, V);
    if i > 0 {
      var v := p[i - 1];
      assert Adjacent(g, v, p[i]);
      var j :| 0 <= j < |g[v].neighbours| && g[v].neighbours[j].to == p[i];
      assert Queued(q, V, p[i], D[v] + 1);
      PathPrefix(g, p, i);
      assert IsRoute(g, p[..i], s, v);
    }
  }

  /** The front of the queue has a route as short as any entry's. */
  lemma FrontShortest(g: Registry, s: string, t: string, q: seq<Visit>, V: set<string>, D: map<string, int>,
                      p: seq<string>, x: string)
    requires Inv(g, s, t, q, V, D) && |q| > 0
    requires IsRoute(g, p, s, x) && x !in V
    ensures |q[0].path| <= |p|
  {
    Cover(g, s, t, q, V, D, p, x);
    var k :| 0 <= k < |q| && |q[k].path| <= |p|;
  }

  /** Taking the target from the front of the queue yields a shortest route. */
  lemma Found(g: Registry, s: string, t: string, q: seq<Visit>, V: set<string>, D: map<string, int>)
    requires Inv(g, s, t, q, V, D) && |q| > 0 && q[0].station == t
    ensures IsRoute(g, q[0].path, s, t) && NoShorter(g, s, t, |q[0].path|)
    ensures s == t ==> q[0].path == [s]
  {
    forall p | IsRoute(g, p, s, t) ensures |q[0].path| <= |p| {
      FrontShortest(g, s, t, q, V, D, p, t);
    }
    if s == t {
      SingletonRoute(g, s);
      assert |q[0].path| <= 1;
    }
  }

  /** Taking an already visited station from the queue only drops that entry. */
  lemma Skip(g: Registry, s: string, t: string, q: seq<Visit>, V: set<string>, D: map<string, int>)
    requires Inv(g, s, t, q, V, D) && |q| > 0 && q[0].station in V
    ensures Inv(g, s, t, q[1..], V, D)
  {
    forall k | 0 <= k < |q| - 1 ensures IsRoute(g, q[1..][k].path, s, q[1..][k].station) {
      assert q[1..][k] == q[k + 1];
    }
    ExpandFrontier(g, s, q, V, D, []);
    ExpandOrder(q, []);
  }

  /** Expanding an unvisited, non-target station: mark it visited with the length of its
      route and append one entry per neighbour entry. */
  lemma Expand(g: Registry, s: string, t: string, q: seq<Visit>, V: set<string>, D: map<string, int>)
    requires Inv(g, s, t, q, V, D) && |q| > 0
    requires q[0].station !in V && q[0].station != t
    ensures q[0].station in g
    ensures Inv(g, s, t, q[1..] + Pushes(g[q[0].station].neighbours, q[0].path),
                V + {q[0].station}, D[q[0].station := |q[0].path|])
  {
    var u, path := q[0].station, q[0].path;
    assert IsRoute(g, path, s, u);
    var ns := g[u].neighbours;
    ExpandRoutes(g, s, q, ns);
    ExpandOrder(q, ns);
    ExpandSettled(g, s, t, q, V, D);
    ExpandFrontier(g, s, q, V, D, ns);
  }

  lemma ExpandRoutes(g: Registry, s: string, q: seq<Visit>, ns: seq<Neighbour>)
    requires WellFormed(g) && |q| > 0 && Routes(g, s, q)
    requires q[0].station in g && ns == g[q[0].station].neighbours
    ensures Routes(g, s, q[1..] + Pushes(ns, q[0].path))
  {
    var path := q[0].path;
    var pushed := Pushes(ns, path);
    var q' := q[1..] + pushed;
    assert IsRoute(g, path, s, q[0].station);
    forall k | 0 <= k < |q'| ensures IsRoute(g, q'[k].path, s, q'[k].station) {
      if k < |q| - 1 {
        assert q'[k] == q[k + 1];
      } else {
        var j := k - (|q| - 1);
        assert q'[k] == pushed[j];
        PathExtend(g, path, j);
      }
    }
  }

  /** The expanded station's route is a shortest one. */
  lemma ExpandSettled(g: Registry, s: string, t: string, q: seq<Visit>, V: set<string>, D: map<string, int>)
    requires Inv(g, s, t, q, V, D) && |q| > 0 && q[0].station !in V
    ensures Settled(g, s, V + {q[0].station}, D[q[0].station := |q[0].path|])
  {
    var u, path := q[0].station, q[0].path;
    var V', D' := V + {u}, D[u := |path|];
    assert IsRoute(g, path, s, u);
    forall p | IsRoute(g, p, s, u) ensures |path| <= |p| {
      FrontShortest(g, s, t, q, V, D, p, u);
    }
    forall v | v in V' ensures NoShorter(g, s, v, D'[v]) {
      if v != u {
        assert D'[v] == D[v];
      }
    }
  }

  /** After the front is taken and the entries for `ns` appended, everything that was
      queued still is, and, if `ns` is the front station's list, its neighbours are too. */
  lemma ExpandFrontier(g: Registry, s: string, q: seq<Visit>, V: set<string>, D: map<string, int>,
                       ns: seq<Neighbour>)
    requires |q| > 0 && V <= g.Keys && V <= D.Keys && Frontier(g, s, q, V, D)
    requires q[0].station in g
    requires q[0].station !in V ==> ns == g[q[0].station].neighbours
    ensures var u := q[0].station;
      var V', D' := V + {u}, if u in V then D else D[u := |q[0].path|];
      V' <= g.Keys && V' <= D'.Keys && Frontier(g, s, q[1..] + Pushes(ns, q[0].path), V', D')
  {
    var u, path := q[0].station, q[0].path;
    var V', D' := V + {u}, if u in V then D else D[u := |path|];
    var q' := q[1..] + Pushes(ns, path);
    forall v, j | v in V' && 0 <= j < |g[v].neighbours|
      ensures Queued(q', V', g[v].neighbours[j].to, D'[v] + 1)
    {
      if v == u && u !in V {
        PushedQueued(q[1..], q[0].path, V', ns, j);
      } else {
        assert D'[v] == D[v];
        KeepQueued(q, V, V', g[v].neighbours[j].to, D[v] + 1, Pushes(ns, path));
      }
    }
    KeepQueued(q, V, V', s, 1, Pushes(ns, path));
  }

  /** An entry other than the front one is still queued after the front is taken and
      `extra` is appended, as long as the front's station is, or becomes, visited. */
  lemma KeepQueued(q: seq<Visit>, V: set<string>, V': set<string>, x: string, n: int, extra: seq<Visit>)
    requires |q| > 0 && Queued(q, V, x, n)
    requires V <= V' && q[0].station in V'
    ensures Queued(q[1..] + extra, V', x, n)
  {
    if x !in V' {
      var k :| 0 <= k < |q| && q[k].station == x && |q[k].path| <= n;
      assert (q[1..] + extra)[k - 1] == q[k];
    }
  }

  /** The neighbours of the taken station are queued with one station more than its route. */
  lemma PushedQueued(rest: seq<Visit>, path: seq<string>, V': set<string>, ns: seq<Neighbour>, j: nat)
    requires j < |ns|
    ensures Queued(rest + Pushes(ns, path), V', ns[j].to, |path| + 1)
  {
    var pushed := Pushes(ns, path);
    var k := |rest| + j;
    assert (rest + pushed)[k] == pushed[j] == Visit(ns[j].to, path + [ns[j].to]);
  }

  /** FIFO order is kept: the appended routes are one station longer than the front's. */
  lemma ExpandOrder(q: seq<Visit>, ns: seq<Neighbour>)
    requires |q| > 0 && Fifo(q)
    ensures Fifo(q[1..] + Pushes(ns, q[0].path))
  {
    var pushed := Pushes(ns, q[0].path);
    var q' := q[1..] + pushed;
    forall i, j | 0 <= i <= j < |q'| ensures |q'[i].path| <= |q'[j].path| {
      if j < |q| - 1 {
        assert q'[i] == q[i + 1] && q'[j] == q[j + 1];
      } else if i < |q| - 1 {
        assert q'[i] == q[i + 1] && q'[j] == pushed[j - (|q| - 1)];
      } else {
        assert q'[i] == pushed[i - (|q| - 1)] && q'[j] == pushed[j - (|q| - 1)];
      }
    }
    forall j | 0 <= j < |q'| ensures |q'[j].path| <= |q'[0].path| + 1 {
      if |q| > 1 {
        assert q'[0] == q[1];
        if j < |q| - 1 {
          assert q'[j] == q[j + 1];
        } else {
          assert q'[j] == pushed[j - (|q| - 1)];
        }
      } else {
        assert q'[0] == pushed[0] && q'[j] == pushed[j];
      }
    }
  }

  /** An exhausted queue means the target cannot be reached. */
  lemma Exhausted(g: Registry, s: string, t: string, V: set<string>, D: map<string, int>)
    requires Inv(g, s, t, [], V, D)
    ensures !Reachable(g, s, t)
  {
    if Reachable(g, s, t) {
      var p :| IsRoute(g, p, s, t);
      Cover(g, s, t, [], V, D, p, t);
    }
  }
}
