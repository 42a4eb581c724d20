# Metro route planner: a verified model of its routing core

This project models the routing core of `NazliAgbulut_MetroSimulation.py`. The core is a
small metro network built from stations (id, name, line) and undirected connections with
a travel time in minutes, plus two route queries over that network:

- `en_az_aktarma_bul` finds a route with the fewest stations, by breadth-first search
  over a FIFO queue of (station, route so far) entries.
- `en_hizli_rota_bul` finds a route with the least total travel time, by a Dijkstra-style
  search over a min-heap of (time, station, route) entries.

Both searches mark a station visited when they take it out of the queue or heap, skip
entries whose station is already visited, and return as soon as they take out the target.
The model also covers the menu's name lookup: the first station, in registry order,
whose name matches the input case-insensitively.

Stations live in an arena: a map from id to a `Station` value whose neighbour list holds
(neighbour id, time) pairs, in the order the connections were added. `Metro.Network` is
a class whose fields are:

- `stations`: the registry `istasyonlar`;
- `order`: the dictionary's insertion order, which the name lookup iterates in;
- `lines`: `hatlar`, each line's station ids in the order the stations were added.

Adding a station or a connection updates these fields in place. The two queries are
methods that modify nothing. Their loops are proved against the invariants in the
modules `Bfs` and `Dijkstra`:

- FewestStops returns a route that is as short as any route.
- Fastest returns a route whose time is the sum of its steps and is as small as any
  route's.
- Either query returns no route exactly when the target cannot be reached.

Modules:

- `Wrappers`: `Option` and `Outcome` (success, or failure with an error).
- `Order`: the orders Python compares strings, stations (`__lt__`) and lists with.
- `Graph`: stations, registry, routes, route costs, the effect of a connection, and the
  well-formedness and symmetry invariants.
- `Bfs`: the fewest-stops search's queue steps, its invariant and the lemmas for each
  kind of step.
- `Dijkstra`: the heap order, extract-min, the fastest search's invariant and its step
  lemmas.
- `Metro`: the `Network` class (construction and both queries) and the name lookup.
- `Scenarios`: the three-station network A-B 5, B-C 10, A-C 20 built through the class,
  with both queries' results on it, and the refusals and edge cases.

`baglanti_ekle` (NazliAgbulut_MetroSimulation.py:42-50) does not reject `a == b`, so
connecting a station to itself appends two entries to its own list. The model does the
same and claims no invariant that rules out self-loops.

## Model

| member | source | states |
|---|---|---|
| Metro.Network.constructor | NazliAgbulut_MetroSimulation.py:26-28 | A new network has no stations, an empty insertion order and no line lists, and satisfies the network invariant. |
| Metro.Network.AddStation | NazliAgbulut_MetroSimulation.py:33-40 | An empty id, name or line fails with MissingField. Otherwise an id already registered fails with DuplicateId. A failure changes nothing. On success the registry gains exactly the id, mapped to a new station with no neighbours; the id goes at the end of the insertion order and of its line's list; nothing else changes and the invariant still holds. |
| Metro.Network.AppendNeighbour | NazliAgbulut_MetroSimulation.py:18-19 | `komsu_ekle`: the owner's neighbour list grows by exactly the entry (to, time) at its end; every other station, the order and the lines are unchanged. |
| Metro.Network.AddConnection | NazliAgbulut_MetroSimulation.py:42-50 | An unregistered endpoint fails with UnknownStation; otherwise a time <= 0 fails with NonPositiveTime; a failure leaves every neighbour list unchanged. On success the registry is `Connect` of the old one: `a`'s list gains (b, t) and `b`'s gains (a, t); for `a == b` the one list gains both entries. Every other station, the id set, the order and the lines are unchanged, and the registry stays well formed and symmetric. |
| Metro.Network.FewestStops | NazliAgbulut_MetroSimulation.py:52-69 | A returned route starts at the source, ends at the target, has registered, adjacent consecutive stations, and no route between the two has fewer stations. No route is returned exactly when the target is unreachable. Either endpoint unregistered gives none; source equal to target gives `[source]`. The method modifies nothing. The loop terminates by the pair (unvisited stations, queue length): an expansion, guarded by the visited set, shrinks the first, and a skipped entry shrinks the second. |
| Metro.Network.Fastest | NazliAgbulut_MetroSimulation.py:71-88 | A returned (route, time) is a route from source to target whose time is the sum of the travel times of the entries its steps use, and no route between the two takes less time. No result is returned exactly when the target is unreachable. Either endpoint unregistered gives none; source equal to target gives `([source], 0)`. It modifies nothing. The loop terminates by the pair (unvisited stations, heap size): an expansion, guarded by the visited set, shrinks the first, and a skipped entry shrinks the second. |
| Metro.FindByName | NazliAgbulut_MetroSimulation.py:310-312 | A found id is registered and its name matches the input after lower-casing both. Every id before it in insertion order does not match. No result means no registered station's name matches. |
| Metro.LineMembers | NazliAgbulut_MetroSimulation.py:28-40 | Reading `hatlar[h]` from the `defaultdict`: a line never added holds no stations. |
| Metro.AddStationConsistent | NazliAgbulut_MetroSimulation.py:36-40 | Adding an unregistered id with an empty neighbour list, at the end of the order and of its line, keeps the network invariant: ids key their own stations, the order lists each id once, line lists hold stations of that line, and the graph is well formed and symmetric. |
| Metro.ConnectConsistent | NazliAgbulut_MetroSimulation.py:43-50 | A connection between registered stations with a positive time keeps the network invariant. |
| Order.IdLess | NazliAgbulut_MetroSimulation.py:21-22 | `Istasyon.__lt__`: ids compared as Python strings, character code by character code, a proper prefix first. It never orders two equal ids, and never orders two ids both ways. |
| Order.PathLess | NazliAgbulut_MetroSimulation.py:79 | Python's `<` on the route lists the heap compares when time and station tie: element by element by id, a proper prefix first. It never orders two equal routes, and never orders two routes both ways. |
| Order.LexAsymmetric | NazliAgbulut_MetroSimulation.py:21-22 | Under a strict total element order, lexicographic order never relates a sequence to itself and never relates two sequences both ways. |
| Order.IdLessStrictTotal | NazliAgbulut_MetroSimulation.py:21-22 | `__lt__` compares ids as Python strings; that order is irreflexive and transitive, and it orders any two distinct ids one way or the other. |
| Order.PathLessStrictTotal | NazliAgbulut_MetroSimulation.py:79 | Python's comparison of two routes as lists of stations is a strict total order. |
| Order.LexStrictTotal | NazliAgbulut_MetroSimulation.py:21-22 | Lexicographic order, with a proper prefix first, is a strict total order whenever the element order is. |
| Order.LexTransitive | NazliAgbulut_MetroSimulation.py:21-22 | Lexicographic order is transitive when the element order is. |
| Order.LexTotal | NazliAgbulut_MetroSimulation.py:21-22 | Lexicographic order relates any two distinct sequences when the element order relates any two distinct elements. |
| Order.LexIrreflexive | NazliAgbulut_MetroSimulation.py:21-22 | No sequence comes before itself lexicographically when the element order is irreflexive. |
| Dijkstra.Before | NazliAgbulut_MetroSimulation.py:79-86 | The heap's tuple `<` on `(toplam_sure, istasyon, yol)`: time first (a smaller time always comes first, an entry never comes before one with a smaller time), then station id by `__lt__`, then route. |
| Dijkstra.BeforeStrictTotal | NazliAgbulut_MetroSimulation.py:79 | The tuple order of heap entries (time, then station id, then route) is a strict total order. |
| Dijkstra.MinIndex | NazliAgbulut_MetroSimulation.py:79 | `heappop` on a non-empty heap: the position returned holds an entry that no other entry comes before. |
| Dijkstra.MinUnique | NazliAgbulut_MetroSimulation.py:79 | Any two least entries are equal, so which entry is popped depends only on the heap's contents. Equal-time entries come out in id order, then route order, and the query is deterministic. |
| Dijkstra.MinTime | NazliAgbulut_MetroSimulation.py:79 | The popped entry has the smallest time in the heap. |
| Dijkstra.RemoveAt | NazliAgbulut_MetroSimulation.py:79 | Removing the popped entry keeps every other entry, in order, and shortens the heap by one. |
| Dijkstra.Pushes | NazliAgbulut_MetroSimulation.py:85-86 | One entry per neighbour entry, in list order: time plus that travel time, the neighbour, and the route extended by it. |
| Dijkstra.PushNeighbours | NazliAgbulut_MetroSimulation.py:85-86 | The loop of pushes leaves the heap as the old heap followed by those entries. |
| Dijkstra.Init | NazliAgbulut_MetroSimulation.py:75-76 | The initial heap `[(0, source, [source])]` with nothing visited satisfies the search invariant. |
| Dijkstra.Cover | NazliAgbulut_MetroSimulation.py:78-86 | For any timed route to an unvisited station, some heap entry has a time no greater than that route's. |
| Dijkstra.MinFastest | NazliAgbulut_MetroSimulation.py:79-84 | A popped entry whose station is unvisited has a time no route to that station beats. |
| Dijkstra.Found | NazliAgbulut_MetroSimulation.py:79-81 | Popping the target yields a route from source to target that costs the entry's time, and no route is cheaper; for source equal to target it is `([source], 0)`. |
| Dijkstra.Skip | NazliAgbulut_MetroSimulation.py:79-83 | Dropping a popped entry whose station is already visited keeps the invariant. |
| Dijkstra.Expand | NazliAgbulut_MetroSimulation.py:83-86 | Expanding an unvisited, non-target station and pushing its neighbours keeps the invariant, with the station recorded at its popped time. |
| Dijkstra.ExpandRoutes | NazliAgbulut_MetroSimulation.py:85-86 | Every entry left or pushed is a route from the source to its station costing exactly its time. |
| Dijkstra.ExpandFrontier | NazliAgbulut_MetroSimulation.py:83-86 | After an expansion, the source and every neighbour of a visited station are visited or waiting in the heap no later than through that station. |
| Dijkstra.KeepQueued | NazliAgbulut_MetroSimulation.py:79-86 | A station waiting in the heap is still waiting, or visited, after the pop and the pushes. |
| Dijkstra.PushedQueued | NazliAgbulut_MetroSimulation.py:85-86 | Each neighbour of the expanded station waits in the heap with the expanded time plus the travel time. |
| Dijkstra.Exhausted | NazliAgbulut_MetroSimulation.py:78-88 | An empty heap under the invariant means the target cannot be reached. |
| Bfs.Pushes | NazliAgbulut_MetroSimulation.py:66-67 | One queue entry per neighbour entry, in list order, with the route extended by that neighbour. |
| Bfs.EnqueueNeighbours | NazliAgbulut_MetroSimulation.py:66-67 | The loop of appends leaves the queue as the old queue followed by those entries. |
| Bfs.Init | NazliAgbulut_MetroSimulation.py:56-57 | The initial queue `[(source, [source])]` with nothing visited satisfies the search invariant. |
| Bfs.Cover | NazliAgbulut_MetroSimulation.py:59-67 | For any route to an unvisited station, some queued entry's route is no longer. |
| Bfs.FrontShortest | NazliAgbulut_MetroSimulation.py:60 | The front of the queue has a route no longer than any route to an unvisited station. |
| Bfs.Found | NazliAgbulut_MetroSimulation.py:60-62 | Taking the target from the front yields a route from source to target that no route beats in stations; for source equal to target it is `[source]`. |
| Bfs.Skip | NazliAgbulut_MetroSimulation.py:59-65 | Dropping a front entry whose station is already visited keeps the invariant. |
| Bfs.Expand | NazliAgbulut_MetroSimulation.py:64-67 | Expanding an unvisited, non-target station and appending its neighbours keeps the invariant, with the station recorded at its route length. |
| Bfs.ExpandRoutes | NazliAgbulut_MetroSimulation.py:66-67 | Every entry left or appended is a route from the source to its station. |
| Bfs.ExpandSettled | NazliAgbulut_MetroSimulation.py:64-65 | The station being visited was reached by a shortest route. |
| Bfs.ExpandFrontier | NazliAgbulut_MetroSimulation.py:64-67 | After an expansion, the source and every neighbour of a visited station are visited or queued with a route at most one station longer. |
| Bfs.ExpandOrder | NazliAgbulut_MetroSimulation.py:59-67 | FIFO order is kept: route lengths never decrease along the queue and differ by at most one. |
| Bfs.KeepQueued | NazliAgbulut_MetroSimulation.py:60-67 | A queued station is still queued, or visited, after the front is taken and entries appended. |
| Bfs.PushedQueued | NazliAgbulut_MetroSimulation.py:66-67 | Each neighbour of the expanded station is queued with a route one station longer. |
| Bfs.Exhausted | NazliAgbulut_MetroSimulation.py:59-69 | An empty queue under the invariant means the target cannot be reached. |
| Graph.Connect | NazliAgbulut_MetroSimulation.py:47-50 | The registry after `baglanti_ekle`: the same ids, every station keeping its id, name, line and existing neighbour entries as a prefix of its new list, with (b, t) added for `a` and (a, t) for `b`. |
| Graph.ConnectByAppends | NazliAgbulut_MetroSimulation.py:47-50 | Appending (b, t) to `a` and then (a, t) to `b`, the two `komsu_ekle` calls, gives the registry `Connect` describes, also when `a == b`. |
| Graph.ConnectEffect | NazliAgbulut_MetroSimulation.py:47-50 | A connection keeps the id set and every station other than `a` and `b`. It appends (b, t) to `a`'s list and (a, t) to `b`'s, or both entries to the one list when `a == b`. |
| Graph.ConnectWellFormed | NazliAgbulut_MetroSimulation.py:43-46 | A connection between registered stations with a positive time keeps every neighbour registered and every time positive. |
| Graph.ConnectSymmetric | NazliAgbulut_MetroSimulation.py:49-50 | A connection keeps every pair of stations listing each other equally often with each travel time. |
| Graph.ConnectCount | NazliAgbulut_MetroSimulation.py:49-50 | After a connection, a station lists an entry as often as before, plus once for each of the two appended entries it received. |
| Graph.AddIsolated | NazliAgbulut_MetroSimulation.py:38-39 | A new station with no neighbours keeps the registry well formed and symmetric. |
| Graph.SymmetricEdge | NazliAgbulut_MetroSimulation.py:49-50 | In a symmetric registry, `u` lists (v, w) if and only if `v` lists (u, w). |
| Graph.SymmetricAdjacent | NazliAgbulut_MetroSimulation.py:49-50 | In a symmetric registry, `u` is adjacent to `v` if and only if `v` is adjacent to `u`. |
| Graph.PathHasTimes | NazliAgbulut_MetroSimulation.py:85-86 | Every path can be timed by choosing, for each step, a neighbour entry it uses. |
| Graph.ReachableTimed | NazliAgbulut_MetroSimulation.py:78-88 | A reachable target has a timed route. |
| Graph.ZeroCostRoute | NazliAgbulut_MetroSimulation.py:45-46 | With positive times, a route taking no time is the one-station route. |
| Graph.WeightedTimesPositive | NazliAgbulut_MetroSimulation.py:45-46 | Every step of a timed route in a well-formed registry takes positive time. |
| Graph.SumAtLeast | NazliAgbulut_MetroSimulation.py:86 | Steps of at least `c` minutes each add up to at least `c` times their number. |
| Graph.SumPrefix | NazliAgbulut_MetroSimulation.py:86 | With non-negative steps, a prefix of a route takes no longer than the route. |
| Graph.CostsExtend | NazliAgbulut_MetroSimulation.py:85-86 | Extending a route costing `t` by a neighbour entry gives a route costing `t` plus that entry's time. |
| Graph.WeightedExtend | NazliAgbulut_MetroSimulation.py:85-86 | Extending a timed path by an entry of its last station's list, with that entry's time, gives a timed path. |
| Graph.PathExtend | NazliAgbulut_MetroSimulation.py:66-67 | Extending a path by a neighbour of its last station gives a path. |
| Scenarios.BuildAbc | NazliAgbulut_MetroSimulation.py:33-50 | Adding stations A, B (line X) and C (line Y) and connections A-B 5, B-C 10, A-C 20 gives exactly the registry in which A lists (B,5),(C,20), B lists (A,5),(C,10) and C lists (B,10),(A,20). |
| Scenarios.AbcFewestStops | NazliAgbulut_MetroSimulation.py:52-69 | On that network the fewest-stops route from A to C is A, C. |
| Scenarios.AbcFastestRoute | NazliAgbulut_MetroSimulation.py:71-88 | On that network the fastest route from A to C is A, B, C in 15 minutes, not the 20-minute direct connection. |
| Scenarios.AbcFastest | NazliAgbulut_MetroSimulation.py:71-88 | On that network every timed route from A to C of at most 15 minutes is A, B, C with steps 5 and 10. |
| Scenarios.AbcFewest | NazliAgbulut_MetroSimulation.py:52-69 | On that network the only route from A to C that no route beats in stations is A, C. |
| Scenarios.AbcFastestIs | NazliAgbulut_MetroSimulation.py:71-88 | On that network a route from A to C that costs `t` and that no route beats is A, B, C with `t` = 15. |
| Scenarios.Isolated | NazliAgbulut_MetroSimulation.py:66-67 | A station with an empty neighbour list starts no path other than the one-station path. |
| Scenarios.NonPositiveTimes | NazliAgbulut_MetroSimulation.py:45-46 | Connecting with time 0 or -3 fails with NonPositiveTime and leaves both neighbour lists empty. |
| Scenarios.RefusedStations | NazliAgbulut_MetroSimulation.py:34-37 | A station with an empty name fails with MissingField, a second station under a taken id fails with DuplicateId, and the line list keeps only the first station. |
| Scenarios.Disconnected | NazliAgbulut_MetroSimulation.py:59-69 | Two stations with no connection: both queries return no route. |
| Scenarios.UnknownAndSelf | NazliAgbulut_MetroSimulation.py:52-81 | An unregistered target gives no route; a station to itself gives `([A], 0)`. |

## Left out

- The `pyttsx3` speech engine (lines 29-31) and all narration (162-167, 211-212): foreign I/O.
- `metro_agini_ciz` and `animasyonlu_rota_goster` (90-212): drawing and animation through networkx and matplotlib.
- The interactive menu loop (272-358), apart from the name lookup at 310-312: console input and output.
- `FindByName`: lower-casing is the function parameter `lower`, not a concrete case table, because Unicode case mapping (and Turkish letters in particular) depends on the locale.
- The static station and connection data (219-265): it is data, not logic. The three-station network in `Scenarios` stands in for it.
- `AddConnection`: takes the time as a mathematical integer. Python's `isinstance(sure, int)` also accepts `True`, `False` and arbitrary-precision integers, and rejects other types; neither the bool quirk nor the type check is modelled.
- Object identity: stations are values in an arena keyed by id, neighbour lists and `hatlar` hold ids, and the queries return routes as lists of ids rather than lists of `Istasyon` objects. Two distinct objects with the same id cannot arise because `istasyon_ekle` rejects duplicate ids.
- `Dijkstra.MinIndex`: the heap is a sequence scanned for its least entry, not `heapq`'s binary-heap layout. It pops the same entry because the least entry is unique (`Dijkstra.MinUnique`), but the order of the remaining entries inside the list is not modelled.
