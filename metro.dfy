/** `MetroAgi`: the metro network. It owns the station registry (in insertion order) and
    the per-line station lists, validates and applies station and connection additions,
    and answers the fewest-stops and fastest route queries without changing anything. */
module Metro {
  import opened Wrappers
  import opened Graph
  import Bfs
  import Dijkstra

  /** The `ValueError`s the construction operations raise. */
  datatype Error =
    | MissingField     // an id, name or line is empty
    | DuplicateId      // the id is already registered
    | UnknownStation   // a connection names an unregistered station
    | NonPositiveTime  // a connection's travel time is not positive

  /** Reading `hatlar[h]` from the `defaultdict`: an absent line has no stations. */
  function LineMembers(lines: map<string, seq<string>>, h: string): seq<string>
  {
    if h in lines then lines[h] else []
  }

  /** The network invariant: ids key their own stations, the insertion order lists each
      registered id once, line lists hold registered stations of that line and every
      station is on its line's list, and the graph is well formed and symmetric. */
  ghost predicate Consistent(g: Registry, order: seq<string>, lines: map<string, seq<string>>)
  {
    && (forall id :: id in g ==> g[id].id == id)
    && (forall id :: id in g <==> id in order)
    && (forall i, j :: 0 <= i < j < |order| ==> order[i] != order[j])
    && (forall h, k :: h in lines && 0 <= k < |lines[h]| ==>
          lines[h][k] in g && g[lines[h][k]].line == h)
    && (forall id :: id in g ==> id in LineMembers(lines, g[id].line))
    && WellFormed(g)
    && Symmetric(g)
  }

  lemma AddStationConsistent(g: Registry, order: seq<string>, lines: map<string, seq<string>>,
                             id: string, name: string, line: string)
    requires Consistent(g, order, lines) && id !in g
    ensures Consistent(g[id := Station(id, name, line, [])], order + [id],
                       lines[line := LineMembers(lines, line) + [id]])
  {
    AddIsolated(g, id, Station(id, name, line, []));
    var g', order' := g[id := Station(id, name, line, [])], order + [id];
    var lines' := lines[line := LineMembers(lines, line) + [id]];
    forall h, k | h in lines' && 0 <= k < |lines'[h]|
      ensures lines'[h][k] in g' && g'[lines'[h][k]].line == h
    {
      if h == line && k < |LineMembers(lines, line)| {
        assert lines'[h][k] == lines[h][k];
      }
    }
    forall i, j | 0 <= i < j < |order'| ensures order'[i] != order'[j] {
      if j == |order| {
        assert order[i] in g;
      }
    }
    forall x | x in g' ensures x in LineMembers(lines', g'[x].line) {
      if x != id {
        assert x in LineMembers(lines, g[x].line);
      }
    }
  }

  lemma ConnectConsistent(g: Registry, order: seq<string>, lines: map<string, seq<string>>,
                          a: string, b: string, t: int)
    requires Consistent(g, order, lines) && a in g && b in g && t > 0
    ensures Consistent(Connect(g, a, b, t), order, lines)
  {
    ConnectWellFormed(g, a, b, t);
    ConnectSymmetric(g, a, b, t);
    var g' := Connect(g, a, b, t);
    forall h, k | h in lines && 0 <= k < |lines[h]|
      ensures lines[h][k] in g' && g'[lines[h][k]].line == h
    {
      assert lines[h][k] in g;
    }
  }

  class Network {
    /** `istasyonlar`, keyed by id. */
    var stations: Registry
    /** The ids of `istasyonlar` in insertion order (the order a Python dict iterates in). */
    var order: seq<string>
    /** `hatlar`: each line's station ids, in the order the stations were added. */
    var lines: map<string, seq<string>>

    ghost predicate Valid()
      reads this
    {
      Consistent(stations, order, lines)
    }

    /** An empty network (the speech engine the source also sets up is left out). */
    constructor ()
      ensures Valid()
      ensures stations == map[] && order == [] && lines == map[]
    {
      stations := map[];
      order := [];
      lines := map[];
    }

    /** `istasyon_ekle`: register a new station with no neighbours and append it to its line. */
    method AddStation(id: string, name: string, line: string) returns (r: Outcome<Error>)
      requires Valid()
      modifies this
      ensures Valid()
      ensures r == if id == "" || name == "" || line == "" then Fail(MissingField)
                   else if id in old(stations) then Fail(DuplicateId)
                   else Pass
      ensures r.Fail? ==> stations == old(stations) && order == old(order) && lines == old(lines)
      ensures r.Pass? ==>
        && stations == old(stations)[id := Station(id, name, line, [])]
        && order == old(order) + [id]
        && lines == old(lines)[line := LineMembers(old(lines), line) + [id]]
    {
      if id == "" || name == "" || line == "" {
        return Fail(MissingField);
      }
      if id in stations {
        return Fail(DuplicateId);
      }
      AddStationConsistent(stations, order, lines, id, name, line);
      stations := stations[id := Station(id, name, line, [])];
      order := order + [id];
      lines := lines[line := LineMembers(lines, line) + [id]];
      r := Pass;
    }

    /** `Istasyon.komsu_ekle`: append `(to, time)` to the station `owner`'s neighbour list. */
    method AppendNeighbour(owner: string, to: string, time: int)
      requires owner in stations
      modifies this
      ensures stations == old(stations)[owner :=
        old(stations[owner]).(neighbours := old(stations[owner].neighbours) + [Neighbour(to, time)])]
      ensures order == old(order) && lines == old(lines)
    {
      var st := stations[owner];
      stations := stations[owner := st.(neighbours := st.neighbours + [Neighbour(to, time)])];
    }

    /** `baglanti_ekle`: connect `a` and `b` both ways with the same travel time. */
    method AddConnection(a: string, b: string, time: int) returns (r: Outcome<Error>)
      requires Valid()
      modifies this
      ensures Valid()
      ensures r == if a !in old(stations) || b !in old(stations) then Fail(UnknownStation)
                   else if time <= 0 then Fail(NonPositiveTime)
                   else Pass
      ensures order == old(order) && lines == old(lines)
      ensures r.Fail? ==> stations == old(stations)
      ensures r.Pass? ==> stations == Connect(old(stations), a, b, time)
      ensures r.Pass? ==> stations.Keys == old(stations).Keys
      ensures r.Pass? ==> forall x :: x in stations && x != a && x != b ==> stations[x] == old(stations[x])
      ensures r.Pass? && a != b ==>
        && stations[a] == old(stations[a]).(neighbours := old(stations[a].neighbours) + [Neighbour(b, time)])
        && stations[b] == old(stations[b]).(neighbours := old(stations[b].neighbours) + [Neighbour(a, time)])
      ensures r.Pass? && a == b ==>
        stations[a] == old(stations[a]).(neighbours := old(stations[a].neighbours) + [Neighbour(a, time), Neighbour(a, time)])
    {
      if a !in stations || b !in stations {
        return Fail(UnknownStation);
      }
      if time <= 0 {
        return Fail(NonPositiveTime);
      }
      ghost var g := stations;
      ConnectConsistent(g, order, lines, a, b, time);
      ConnectByAppends(g, a, b, time);
      ConnectEffect(g, a, b, time);
      AppendNeighbour(a, b, time);
      AppendNeighbour(b, a, time);
      assert stations == Connect(g, a, b, time);
      r := Pass;
    }

    /** `en_az_aktarma_bul`: a route with the fewest stations, by breadth-first search. */
    method FewestStops(src: string, dst: string) returns (r: Option<seq<string>>)
      requires Valid()
      ensures r.Some? ==> IsRoute(stations, r.value, src, dst) && NoShorter(stations, src, dst, |r.value|)
      ensures r.None? <==> !Reachable(stations, src, dst)
      ensures src !in stations || dst !in stations ==> r == None
      ensures src == dst && src in stations ==> r == Some([src])
    {
      if src !in stations || dst !in stations {
        return None;
      }
      var g := stations;
      var queue := [Bfs.Visit(src, [src])];
      var visited: set<string> := {};
      ghost var hops: map<string, int> := map[];
      Bfs.Init(g, src, dst);
      while |queue| > 0
        invariant Bfs.Inv(g, src, dst, queue, visited, hops)
        decreases g.Keys - visited, |queue|
      {
        ghost var before := queue;
        var e := queue[0];
        queue := queue[1..];
        if e.station == dst {
          Bfs.Found(g, src, dst, before, visited, hops);
          return Some(e.path);
        }
        if e.station in visited {
          Bfs.Skip(g, src, dst, before, visited, hops);
        } else {
          Bfs.Expand(g, src, dst, before, visited, hops);
          visited := visited + {e.station};
          hops := hops[e.station := |e.path|];
          queue := Bfs.EnqueueNeighbours(queue, g[e.station].neighbours, e.path);
        }
      }
      Bfs.Exhausted(g, src, dst, visited, hops);
      return None;
    }

    /** `en_hizli_rota_bul`: a route with the least total travel time, and that time. */
    method Fastest(src: string, dst: string) returns (r: Option<(seq<string>, int)>)
      requires Valid()
      ensures r.Some? ==>
        && IsRoute(stations, r.value.0, src, dst)
        && Costs(stations, r.value.0, r.value.1)
        && NoCheaper(stations, src, dst, r.value.1)
      ensures r.None? <==> !Reachable(stations, src, dst)
      ensures src !in stations || dst !in stations ==> r == None
      ensures src == dst && src in stations ==> r == Some(([src], 0))
    {
      if src !in stations || dst !in stations {
        return None;
      }
      var g := stations;
      var pq := [Dijkstra.Timed(0, src, [src])];
      var visited: set<string> := {};
      ghost var best: map<string, int> := map[];
      Dijkstra.Init(g, src, dst);
      while |pq| > 0
        invariant Dijkstra.Inv(g, src, dst, pq, visited, best)
        decreases g.Keys - visited, |pq|
      {
        ghost var before := pq;
        var m := Dijkstra.MinIndex(pq);
        var e := pq[m];
        pq := Dijkstra.RemoveAt(pq, m);
        if e.station == dst {
          Dijkstra.Found(g, src, dst, before, visited, best, m);
          return Some((e.path, e.time));
        }
        if e.station in visited {
          Dijkstra.Skip(g, src, dst, before, visited, best, m);
        } else {
          Dijkstra.Expand(g, src, dst, before, visited, best, m);
          visited := visited + {e.station};
          best := best[e.station := e.time];
          pq := Dijkstra.PushNeighbours(pq, g[e.station].neighbours, e);
        }
      }
      Dijkstra.Exhausted(g, src, dst, visited, best);
      return None;
    }
  }

  /** Whether station `id`'s name matches `name` once both are lower-cased by `lower`. */
  predicate NameMatches(g: Registry, id: string, name: string, lower: string -> string)
    requires id in g
  {
    lower(g[id].name) == lower(name)
  }

  /** The name lookup of the menu: the first id, in registry order, whose station name
      matches `name` case-insensitively. Lower-casing is the parameter `lower`. */
  function FindByName(g: Registry, order: seq<string>, name: string, lower: string -> string): (r: Option<string>)
    requires forall k :: 0 <= k < |order| ==> order[k] in g
    ensures r.Some? ==> r.value in g && NameMatches(g, r.value, name, lower)
    ensures r.Some? ==>
      exists k :: 0 <= k < |order| && order[k] == r.value &&
        forall j :: 0 <= j < k ==> !NameMatches(g, order[j], name, lower)
    ensures r.None? ==> forall k :: 0 <= k < |order| ==> !NameMatches(g, order[k], name, lower)
  {
    if order == [] then None
    else if NameMatches(g, order[0], name, lower) then Some(order[0])
    else
      var r := FindByName(g, order[1..], name, lower);
      assert forall k :: 0 < k < |order| ==> order[k] == order[1..][k - 1];
      r
  }
}
