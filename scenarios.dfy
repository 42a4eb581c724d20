/** Worked examples of the model on small networks: the results below follow from the
    operations' contracts alone. */
module Scenarios {
  import opened Wrappers
  import opened Graph
  import opened Metro

  /** Stations A and B on line X and C on line Y, with connections A-B 5, B-C 10 and
      A-C 20 added in that order. */
  function Abc(): Registry
  {
    map[
      "A" := Station("A", "A", "X", [Neighbour("B", 5), Neighbour("C", 20)]),
      "B" := Station("B", "B", "X", [Neighbour("A", 5), Neighbour("C", 10)]),
      "C" := Station("C", "C", "Y", [Neighbour("B", 10), Neighbour("A", 20)])
    ]
  }

  /** The same network after `k` of its three connections, `k < 3`. */
  function AbcAfter(k: nat): Registry
    requires k < 3
  {
    match k
    case 0 => map["A" := Station("A", "A", "X", []),
                  "B" := Station("B", "B", "X", []),
                  "C" := Station("C", "C", "Y", [])]
    case 1 => map["A" := Station("A", "A", "X", [Neighbour("B", 5)]),
                  "B" := Station("B", "B", "X", [Neighbour("A", 5)]),
                  "C" := Station("C", "C", "Y", [])]
    case 2 => map["A" := Station("A", "A", "X", [Neighbour("B", 5)]),
                  "B" := Station("B", "B", "X", [Neighbour("A", 5), Neighbour("C", 10)]),
                  "C" := Station("C", "C", "Y", [Neighbour("B", 10)])]
  }

  /** The A/B/C network, built through the network's own operations. */
  method BuildAbc() returns (n: Network)
    ensures fresh(n) && n.Valid() && n.stations == Abc()
  {
    n := AbcStations();
    var r := n.AddConnection("A", "B", 5);
    assert r == Pass;
    ConnectAB();
    r := n.AddConnection("B", "C", 10);
    assert r == Pass;
    ConnectBC();
    r := n.AddConnection("A", "C", 20);
    assert r == Pass;
    ConnectAC();
  }

  /** The three stations, before any connection. */
  method AbcStations() returns (n: Network)
    ensures fresh(n) && n.Valid() && n.stations == AbcAfter(0)
  {
    n := new Network();
    var r := n.AddStation("A", "A", "X");
    r := n.AddStation("B", "B", "X");
    r := n.AddStation("C", "C", "Y");
  }

  /** A registry with exactly the keys A, B and C is the map literal of its three entries. */
  lemma ThreeStations(m: Registry, a: Station, b: Station, c: Station)
    requires m.Keys == {"A", "B", "C"} && m["A"] == a && m["B"] == b && m["C"] == c
    ensures m == map["A" := a, "B" := b, "C" := c]
  {
  }

  /** Connecting A and B with 5 minutes gives the network after one connection. */
  lemma ConnectAB()
    ensures Connect(AbcAfter(0), "A", "B", 5) == AbcAfter(1)
  {
    var g := AbcAfter(0);
    var c := Connect(g, "A", "B", 5);
    assert c.Keys == {"A", "B", "C"};
    assert c["A"] == Station("A", "A", "X", [Neighbour("B", 5)]) by {
      assert Added("A", "B", 5, "A") == [Neighbour("B", 5)];
    }
    assert c["B"] == Station("B", "B", "X", [Neighbour("A", 5)]) by {
      assert Added("A", "B", 5, "B") == [Neighbour("A", 5)];
    }
    assert c["C"] == g["C"] by {
      assert Added("A", "B", 5, "C") == [];
    }
    ThreeStations(c, c["A"], c["B"], c["C"]);
  }

  /** Connecting B and C with 10 minutes gives the network after two connections. */
  lemma ConnectBC()
    ensures Connect(AbcAfter(1), "B", "C", 10) == AbcAfter(2)
  {
    var g := AbcAfter(1);
    var c := Connect(g, "B", "C", 10);
    assert c.Keys == {"A", "B", "C"};
    assert c["A"] == g["A"] by {
      assert Added("B", "C", 10, "A") == [];
    }
    assert c["B"] == Station("B", "B", "X", [Neighbour("A", 5), Neighbour("C", 10)]) by {
      assert Added("B", "C", 10, "B") == [Neighbour("C", 10)];
      assert g["B"].neighbours + [Neighbour("C", 10)] == [Neighbour("A", 5), Neighbour("C", 10)];
    }
    assert c["C"] == Station("C", "C", "Y", [Neighbour("B", 10)]) by {
      assert Added("B", "C", 10, "C") == [Neighbour("B", 10)];
    }
    ThreeStations(c, c["A"], c["B"], c["C"]);
  }

  /** Connecting A and C with 20 minutes completes the A/B/C network. */
  lemma ConnectAC()
    ensures Connect(AbcAfter(2), "A", "C", 20) == Abc()
  {
    var g := AbcAfter(2);
    var c := Connect(g, "A", "C", 20);
    assert c.Keys == {"A", "B", "C"};
    assert c["A"] == Station("A", "A", "X", [Neighbour("B", 5), Neighbour("C", 20)]) by {
      assert Added("A", "C", 20, "A") == [Neighbour("C", 20)];
      assert g["A"].neighbours + [Neighbour("C", 20)] == [Neighbour("B", 5), Neighbour("C", 20)];
    }
    assert c["B"] == g["B"] by {
      assert Added("A", "C", 20, "B") == [];
    }
    assert c["C"] == Station("C", "C", "Y", [Neighbour("B", 10), Neighbour("A", 20)]) by {
      assert Added("A", "C", 20, "C") == [Neighbour("A", 20)];
      assert g["C"].neighbours + [Neighbour("A", 20)] == [Neighbour("B", 10), Neighbour("A", 20)];
    }
    ThreeStations(c, c["A"], c["B"], c["C"]);
  }

  /** In the A/B/C network the only route from A to C with the fewest stations is the
      direct one. */
  lemma AbcFewest(p: seq<string>)
    requires IsRoute(Abc(), p, "A", "C") && NoShorter(Abc(), "A", "C", |p|)
    ensures p == ["A", "C"]
  {
    var g := Abc();
    assert g["A"].neighbours[1].to == "C";
    assert IsRoute(g, ["A", "C"], "A", "C");
    assert |p| == 2;
  }

  /** In the A/B/C network every route from A to C takes at least 15 minutes, and the
      only one taking 15 goes through B. */
  lemma AbcFastest(p: seq<string>, ws: seq<int>)
    requires WeightedRoute(Abc(), p, ws, "A", "C") && Sum(ws) <= 15
    ensures p == ["A", "B", "C"] && ws == [5, 10]
  {
    var g := Abc();
    var n := |ws|;
    assert n > 0;
    forall i | 0 <= i < n ensures ws[i] >= 5 {
      assert Neighbour(p[i + 1], ws[i]) in g[p[i]].neighbours;
    }
    assert Neighbour("C", ws[n - 1]) in g[p[n - 1]].neighbours;
    assert ws[n - 1] >= 10;
    SumAtLeast(ws[..n - 1], 5);
    assert Sum(ws) == Sum(ws[..n - 1]) + ws[n - 1];
    assert n <= 2;
    assert Neighbour(p[1], ws[0]) in g["A"].neighbours;
    assert ws[0] == 5 && p[1] == "B";
    assert Neighbour("C", ws[1]) in g["B"].neighbours;
    assert Sum(ws) == ws[0] + ws[1];
  }

  /** Building the A/B/C network and asking for the fewest stops from A to C gives the
      direct connection. */
  method AbcFewestStops() returns (fewest: Option<seq<string>>)
    ensures fewest == Some(["A", "C"])
  {
    var n := BuildAbc();
    AbcConnected();
    fewest := n.FewestStops("A", "C");
    AbcFewest(fewest.value);
  }

  /** Building the A/B/C network and asking for the fastest route from A to C gives
      A, B, C in 15 minutes, not the 20-minute direct connection. */
  method AbcFastestRoute() returns (fastest: Option<(seq<string>, int)>)
    ensures fastest == Some((["A", "B", "C"], 15))
  {
    var n := BuildAbc();
    AbcConnected();
    fastest := n.Fastest("A", "C");
    AbcFastestIs(fastest.value.0, fastest.value.1);
  }

  /** The A/B/C network has a route from A to C. */
  lemma AbcConnected()
    ensures Reachable(Abc(), "A", "C")
  {
    assert IsRoute(Abc(), ["A", "C"], "A", "C") by {
      assert Abc()["A"].neighbours[1].to == "C";
    }
  }

  /** A route from A to C that no route beats is A, B, C, taking 15 minutes. */
  lemma AbcFastestIs(p: seq<string>, t: int)
    requires Costs(Abc(), p, t) && NoCheaper(Abc(), "A", "C", t)
    requires IsRoute(Abc(), p, "A", "C")
    ensures p == ["A", "B", "C"] && t == 15
  {
    var g := Abc();
    assert WeightedRoute(g, ["A", "B", "C"], [5, 10], "A", "C") by {
      assert g["A"].neighbours[0] == Neighbour("B", 5);
      assert g["B"].neighbours[1] == Neighbour("C", 10);
    }
    assert Sum([5, 10]) == 15;
    var ws :| WeightedPath(g, p, ws) && Sum(ws) == t;
    AbcFastest(p, ws);
  }

  /** A connection with travel time 0 or -3 is refused and leaves both neighbour lists
      as they were. */
  method NonPositiveTimes() returns (zero: Outcome<Error>, negative: Outcome<Error>,
                                     fromA: seq<Neighbour>, fromB: seq<Neighbour>)
    ensures zero == Fail(NonPositiveTime) && negative == Fail(NonPositiveTime)
    ensures fromA == [] && fromB == []
  {
    var n := new Network();
    var r := n.AddStation("A", "A", "X");
    r := n.AddStation("B", "B", "X");
    zero := n.AddConnection("A", "B", 0);
    negative := n.AddConnection("A", "B", -3);
    fromA := n.stations["A"].neighbours;
    fromB := n.stations["B"].neighbours;
  }

  /** Registering a station without a name, or under an id already taken, is refused; the
      line list keeps only the first station. */
  method RefusedStations() returns (unnamed: Outcome<Error>, again: Outcome<Error>, onX: seq<string>)
    ensures unnamed == Fail(MissingField) && again == Fail(DuplicateId)
    ensures onX == ["A"]
  {
    var n := new Network();
    var r := n.AddStation("A", "A", "X");
    unnamed := n.AddStation("B", "", "X");
    again := n.AddStation("A", "Other", "X");
    onX := LineMembers(n.lines, "X");
  }

  /** A station with no neighbours starts no route but the one-station route. */
  lemma Isolated(g: Registry, s: string)
    requires s in g && g[s].neighbours == []
    ensures forall p :: IsPath(g, p) && p[0] == s ==> |p| == 1
  {
    forall p | IsPath(g, p) && p[0] == s ensures |p| == 1 {
      assert |p| > 1 ==> Adjacent(g, p[0], p[1]);
    }
  }

  /** Two stations with no connection between them: neither query finds a route. */
  method Disconnected() returns (fewest: Option<seq<string>>, fastest: Option<(seq<string>, int)>)
    ensures fewest == None && fastest == None
  {
    var n := new Network();
    var r := n.AddStation("D", "D", "X");
    r := n.AddStation("E", "E", "Y");
    Isolated(n.stations, "D");
    fewest := n.FewestStops("D", "E");
    fastest := n.Fastest("D", "E");
  }

  /** Looking up an unregistered id, or a station by itself, needs no search. */
  method UnknownAndSelf() returns (unknown: Option<seq<string>>, self: Option<(seq<string>, int)>)
    ensures unknown == None && self == Some((["A"], 0))
  {
    var n := new Network();
    var r := n.AddStation("A", "A", "X");
    unknown := n.FewestStops("A", "Z");
    self := n.Fastest("A", "A");
  }
}
