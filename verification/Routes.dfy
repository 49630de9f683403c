// Flight databases, routes through them, and what a backtracking search keeps true.

module Routes {
  datatype Flight = Flight(from: string, to: string, distance: int, skip: bool)

  // The same flights, whatever their skip marks
  ghost predicate SameFlights(a: seq<Flight>, b: seq<Flight>) {
    && |a| == |b|
    && forall i :: 0 <= i < |a| ==> b[i] == a[i].(skip := b[i].skip)
  }

  // The flight leaves `from` and has not been used.
  predicate Leaves(f: Flight, from: string) {
    f.from == from && !f.skip
  }

  // Marking flight i as used
  function Mark(fl: seq<Flight>, i: nat): seq<Flight>
    requires i < |fl|
  {
    fl[i := fl[i].(skip := true)]
  }

  // The indices of the flights not marked
  function Unmarked(fl: seq<Flight>): set<nat> {
    set i | 0 <= i < |fl| && !fl[i].skip
  }

  function CountUnmarked(fl: seq<Flight>): nat {
    if fl == [] then 0
    else CountUnmarked(fl[..|fl| - 1]) + if fl[|fl| - 1].skip then 0 else 1
  }

  lemma {:induction false} MarkingCounts(fl: seq<Flight>, i: nat)
    requires i < |fl| && !fl[i].skip
    ensures CountUnmarked(fl[i := fl[i].(skip := true)]) == CountUnmarked(fl) - 1
  {
    var marked := fl[i := fl[i].(skip := true)];
    var n := |fl| - 1;
    if i < n {
      assert marked[..n] == fl[..n][i := fl[i].(skip := true)];
      MarkingCounts(fl[..n], i);
    } else {
      assert marked[..n] == fl[..n];
    }
  }

  // ---- routes

  // The flights p fly on from each other.
  ghost predicate Chain(fl: seq<Flight>, p: seq<nat>) {
    && (forall k :: 0 <= k < |p| ==> p[k] < |fl|)
    && (forall k, m :: 0 <= k && m == k + 1 && m < |p| ==> fl[p[k]].to == fl[p[m]].from)
  }

  // A route of at least one flight: flights of `avail`, the connecting ones also of `conn`
  ghost predicate IsRoute(fl: seq<Flight>, avail: set<nat>, conn: set<nat>, p: seq<nat>, from: string, to: string) {
    && |p| >= 1
    && Chain(fl, p)
    && (forall k :: 0 <= k < |p| ==> p[k] in avail)
    && (forall k :: 0 <= k < |p| - 1 ==> p[k] in conn)
    && fl[p[0]].from == from
    && fl[p[|p| - 1]].to == to
  }

  ghost predicate Reachable(fl: seq<Flight>, avail: set<nat>, conn: set<nat>, from: string, to: string) {
    exists p :: IsRoute(fl, avail, conn, p, from, to)
  }

  ghost predicate Distinct(p: seq<nat>) {
    forall i, j :: 0 <= i < j < |p| ==> p[i] != p[j]
  }

  // What the search keeps of a route: for each flight its origin and distance, and the
  // final destination in place of the flight's own
  function Entries(fl: seq<Flight>, p: seq<nat>, to: string): (stack: seq<Flight>)
    requires forall k :: 0 <= k < |p| ==> p[k] < |fl|
    ensures |stack| == |p|
  {
    seq(|p|, k requires 0 <= k < |p| => Flight(fl[p[k]].from, to, fl[p[k]].distance, false))
  }

  function Length(fl: seq<Flight>, p: seq<nat>): int
    requires forall k :: 0 <= k < |p| ==> p[k] < |fl|
  {
    if p == [] then 0 else Length(fl, p[..|p| - 1]) + fl[p[|p| - 1]].distance
  }

  // ---- the state of a search

  // A search from `origin` to `dest`, begun with the flights `start`: `avail` are those it
  // may use, `conn` those it may connect through.
  datatype Hunt = Hunt(start: seq<Flight>, avail: set<nat>, conn: set<nat>, origin: string, dest: string)

  // Everything out of the city has been tried: no flight from it that could still be taken
  // is unmarked.
  ghost predicate Exhausted(h: Hunt, fl: seq<Flight>, city: string)
    requires |fl| == |h.start|
  {
    forall i :: 0 <= i < |fl| && i in h.avail && fl[i].from == city ==>
      fl[i].skip || (i !in h.conn && fl[i].to != h.dest)
  }

  // The city is where the search is, or one it will come back to.
  ghost predicate OnPath(stack: seq<Flight>, current: string, city: string) {
    city == current || exists k :: 0 <= k < |stack| && stack[k].from == city
  }

  // Cities the search has come to are on the path or exhausted.
  ghost predicate Visited(h: Hunt, fl: seq<Flight>, stack: seq<Flight>, current: string, city: string)
    requires |fl| == |h.start|
  {
    OnPath(stack, current, city) || Exhausted(h, fl, city)
  }

  ghost predicate ValidHunt(h: Hunt) {
    && h.conn <= h.avail
    && forall i :: i in h.avail ==> i < |h.start| && !h.start[i].skip
  }

  // The path so far leads from the origin to the current city, along marked flights of the
  // hunt, and the stack describes it.
  ghost predicate PathOk(h: Hunt, fl: seq<Flight>, stack: seq<Flight>, path: seq<nat>, current: string) {
    && SameFlights(h.start, fl)
    && Chain(h.start, path) && Distinct(path)
    && (forall k :: 0 <= k < |path| ==> path[k] in h.conn && fl[path[k]].skip)
    && stack == Entries(h.start, path, h.dest)
    && if path == [] then current == h.origin
       else h.start[path[0]].from == h.origin && h.start[path[|path| - 1]].to == current
  }

  // Marks are only added to flights of the hunt; what they lead to has been visited, and is
  // not the destination.
  ghost predicate MarksOk(h: Hunt, fl: seq<Flight>, stack: seq<Flight>, current: string)
    requires |fl| == |h.start|
  {
    && (forall i :: 0 <= i < |fl| && i !in h.avail ==> fl[i] == h.start[i])
    && (forall i :: 0 <= i < |fl| && i in h.avail && fl[i].skip ==>
         fl[i].to != h.dest && Visited(h, fl, stack, current, fl[i].to))
    && Visited(h, fl, stack, current, h.origin)
  }

  ghost predicate Searching(h: Hunt, fl: seq<Flight>, stack: seq<Flight>, path: seq<nat>, current: string) {
    && ValidHunt(h)
    && PathOk(h, fl, stack, path, current)
    && MarksOk(h, fl, stack, current)
  }

  // How a search ends: with a route, or with none to be found.
  ghost predicate Found(h: Hunt, fl: seq<Flight>, stack: seq<Flight>, route: seq<nat>) {
    && SameFlights(h.start, fl)
    && (forall i :: 0 <= i < |fl| && i !in h.avail ==> fl[i] == h.start[i])
    && if stack == [] then !Reachable(h.start, h.avail, h.conn, h.origin, h.dest)
       else
         && IsRoute(h.start, h.avail, h.conn, route, h.origin, h.dest) && Distinct(route)
         && (forall k :: 0 <= k < |route| ==> fl[route[k]].skip)
         && stack == Entries(h.start, route, h.dest)
         && forall k :: 0 <= k < |route| - 1 ==> h.start[route[k]].to != h.dest
  }

  lemma SearchStarts(h: Hunt, fl: seq<Flight>)
    requires ValidHunt(h) && fl == h.start
    ensures Searching(h, fl, [], [], h.origin)
  {
  }

  lemma DistinctExtends(path: seq<nat>, i: nat)
    requires Distinct(path) && i !in path
    ensures Distinct(path + [i])
  {
  }

  lemma ChainExtends(fl: seq<Flight>, path: seq<nat>, i: nat)
    requires Chain(fl, path) && i < |fl|
    requires path != [] ==> fl[path[|path| - 1]].to == fl[i].from
    ensures Chain(fl, path + [i])
  {
  }

  lemma EntriesExtend(fl: seq<Flight>, path: seq<nat>, to: string, i: nat)
    requires Chain(fl, path) && i < |fl|
    ensures Chain(fl, path) && forall k :: 0 <= k < |path + [i]| ==> (path + [i])[k] < |fl|
    ensures Entries(fl, path + [i], to) == Entries(fl, path, to) + [Flight(fl[i].from, to, fl[i].distance, false)]
  {
  }

  // A last flight to the destination completes the path.
  lemma SearchFinds(h: Hunt, fl: seq<Flight>, stack: seq<Flight>, path: seq<nat>, current: string, i: nat)
    requires Searching(h, fl, stack, path, current)
    requires i < |fl| && i in h.avail && !fl[i].skip && fl[i].from == current && fl[i].to == h.dest
    ensures Found(h, fl[i := fl[i].(skip := true)],
                  stack + [Flight(current, h.dest, fl[i].distance, false)], path + [i])
  {
    hide Distinct, Chain, Entries, Reachable, Visited;
    var fl', route := fl[i := fl[i].(skip := true)], path + [i];
    DistinctExtends(path, i);
    ChainExtends(h.start, path, i);
    EntriesExtend(h.start, path, h.dest, i);
    forall k | 0 <= k < |route| - 1 ensures h.start[route[k]].to != h.dest {
      assert route[k] == path[k] && path[k] in h.avail;
      assert fl[path[k]].skip;
    }
  }

  // A connecting flight extends the path.
  lemma SearchAdvances(h: Hunt, fl: seq<Flight>, stack: seq<Flight>, path: seq<nat>, current: string, i: nat)
    requires Searching(h, fl, stack, path, current)
    requires i < |fl| && i in h.conn && !fl[i].skip && fl[i].from == current && fl[i].to != h.dest
    ensures Searching(h, fl[i := fl[i].(skip := true)],
                      stack + [Flight(current, h.dest, fl[i].distance, false)], path + [i], fl[i].to)
  {
    hide Distinct, Chain, Entries, MarksOk;
    DistinctExtends(path, i);
    ChainExtends(h.start, path, i);
    EntriesExtend(h.start, path, h.dest, i);
    MarksAdvance(h, fl, stack, current, i);
  }

  lemma MarksAdvance(h: Hunt, fl: seq<Flight>, stack: seq<Flight>, current: string, i: nat)
    requires |fl| == |h.start| && MarksOk(h, fl, stack, current)
    requires i < |fl| && i in h.avail && !fl[i].skip && fl[i].to != h.dest
    ensures MarksOk(h, fl[i := fl[i].(skip := true)],
                    stack + [Flight(current, h.dest, fl[i].distance, false)], fl[i].to)
  {
    var fl', next := fl[i := fl[i].(skip := true)], fl[i].to;
    var stack' := stack + [Flight(current, h.dest, fl[i].distance, false)];
    forall city | Visited(h, fl, stack, current, city) ensures Visited(h, fl', stack', next, city) {
      if city == current { assert stack'[|stack|].from == city; }
      else if OnPath(stack, current, city) {
        var k :| 0 <= k < |stack| && stack[k].from == city;
        assert stack'[k].from == city;
      }
    }
  }

  // A city with nothing left is left for the one before it.
  lemma SearchBacktracks(h: Hunt, fl: seq<Flight>, stack: seq<Flight>, path: seq<nat>, current: string)
    requires Searching(h, fl, stack, path, current)
    requires Exhausted(h, fl, current) && path != []
    ensures |stack| == |path|
    ensures var n := |stack| - 1;
      stack[n].to == h.dest && Searching(h, fl, stack[..n], path[..n], stack[n].from)
  {
    var n := |stack| - 1;
    assert stack[n].from == h.start[path[n]].from;
    hide Exhausted, Reachable;
    hide MarksOk, Visited;
    MarksBacktrack(h, fl, stack, current);
    PathBacktracks(h, fl, stack, path, current);
  }

  lemma PathBacktracks(h: Hunt, fl: seq<Flight>, stack: seq<Flight>, path: seq<nat>, current: string)
    requires PathOk(h, fl, stack, path, current) && path != [] && |fl| == |h.start|
    ensures |stack| == |path|
    ensures var n := |stack| - 1;
      stack[n].to == h.dest && PathOk(h, fl, stack[..n], path[..n], stack[n].from)
  {
  }

  lemma MarksBacktrack(h: Hunt, fl: seq<Flight>, stack: seq<Flight>, current: string)
    requires |fl| == |h.start| && MarksOk(h, fl, stack, current)
    requires Exhausted(h, fl, current) && stack != []
    ensures MarksOk(h, fl, stack[..|stack| - 1], stack[|stack| - 1].from)
  {
    var n := |stack| - 1;
    var stack' := stack[..n];
    var back := stack[n].from;
    forall city | Visited(h, fl, stack, current, city) ensures Visited(h, fl, stack', back, city) {
      if OnPath(stack, current, city) && city != current {
        var k :| 0 <= k < |stack| && stack[k].from == city;
        if k < n { assert stack'[k].from == city; }
      }
    }
  }

  // With nothing left at the origin, no route exists.
  lemma SearchFails(h: Hunt, fl: seq<Flight>, current: string)
    requires Searching(h, fl, [], [], current)
    requires Exhausted(h, fl, current)
    ensures Found(h, fl, [], [])
  {
    if Reachable(h.start, h.avail, h.conn, h.origin, h.dest) {
      var p :| IsRoute(h.start, h.avail, h.conn, p, h.origin, h.dest);
      RouteStaysExhausted(h, fl, current, p, |p| - 1);
    }
  }

  // The exhausted cities are closed under connecting flights, and no flight leads from them
  // to the destination.
  lemma {:induction false} RouteStaysExhausted(h: Hunt, fl: seq<Flight>, current: string, p: seq<nat>, k: nat)
    requires Searching(h, fl, [], [], current)
    requires Exhausted(h, fl, current)
    requires IsRoute(h.start, h.avail, h.conn, p, h.origin, h.dest) && k < |p|
    ensures Exhausted(h, fl, h.start[p[k]].from)
    ensures h.start[p[k]].to != h.dest
  {
    if k > 0 {
      RouteStaysExhausted(h, fl, current, p, k - 1);
      assert fl[p[k - 1]].skip;
    }
    assert p[k] in h.avail;
  }

  // ---- what a search gives up

  // A flight that was taken and is not on the path did not lead to the destination, and has
  // led to a city where everything has been tried.
  ghost predicate DeadEnds(h: Hunt, fl: seq<Flight>, path: seq<nat>)
    requires |fl| == |h.start|
  {
    forall i :: 0 <= i < |fl| && i in h.avail && fl[i].skip && i !in path ==>
      fl[i].to != h.dest && Exhausted(h, fl, fl[i].to)
  }

  lemma NoDeadEndsYet(h: Hunt)
    requires ValidHunt(h)
    ensures DeadEnds(h, h.start, [])
  {
  }

  // A flight put on the path gives up nothing.
  lemma DeadEndsTake(h: Hunt, fl: seq<Flight>, path: seq<nat>, i: nat)
    requires |fl| == |h.start| && DeadEnds(h, fl, path) && i < |fl|
    ensures DeadEnds(h, Mark(fl, i), path + [i])
  {
    var fl' := Mark(fl, i);
    forall j | 0 <= j < |fl| && j in h.avail && fl'[j].skip && j !in path + [i]
      ensures fl'[j].to != h.dest && Exhausted(h, fl', fl'[j].to)
    {
      assert j != i && j !in path;
    }
  }

  // Leaving an exhausted city gives up the flight that led there.
  lemma DeadEndsLeave(h: Hunt, fl: seq<Flight>, stack: seq<Flight>, path: seq<nat>, current: string)
    requires Searching(h, fl, stack, path, current) && DeadEnds(h, fl, path)
    requires Exhausted(h, fl, current) && path != []
    ensures DeadEnds(h, fl, path[..|path| - 1])
  {
    hide Exhausted, Visited, Distinct, Entries;
    var n := |path| - 1;
    forall j | 0 <= j < |fl| && j in h.avail && fl[j].skip && j !in path[..n]
      ensures fl[j].to != h.dest && Exhausted(h, fl, fl[j].to)
    {
      if j in path { assert path == path[..n] + [path[n]]; }
    }
  }

  // ---- which route a search finds

  // Which of two connections out of a city is tried first: the one before in the list, or
  // the nearer one, the first of equals.
  datatype Order = Listed | Nearest

  predicate Before(o: Order, fl: seq<Flight>, i: nat, j: nat)
    requires i < |fl| && j < |fl|
  {
    match o
    case Listed => i < j
    case Nearest => fl[i].distance < fl[j].distance || (fl[i].distance == fl[j].distance && i < j)
  }

  // No flight of the hunt goes from the city to the destination.
  ghost predicate NoDirect(h: Hunt, city: string) {
    forall i :: 0 <= i < |h.start| && i in h.avail && h.start[i].from == city ==> h.start[i].to != h.dest
  }

  // From each city of the path there was no direct flight, and the connections tried before
  // the one taken had been used up by then.
  ghost predicate TakenInOrder(o: Order, h: Hunt, fl: seq<Flight>, path: seq<nat>)
    requires |fl| == |h.start|
  {
    forall k :: 0 <= k < |path| ==> path[k] < |fl| && TakenAt(o, h, fl, path, k)
  }

  ghost predicate TakenAt(o: Order, h: Hunt, fl: seq<Flight>, path: seq<nat>, k: nat)
    requires |fl| == |h.start| && k < |path| && path[k] < |fl|
  {
    NoDirect(h, h.start[path[k]].from) && exists past :: TakenThen(o, h, fl, path, k, past)
  }

  // What was marked when flight k of the path was taken: all that comes before it out of the
  // same city, and nothing of the path from there on. What was not on the path by then had
  // led to cities where everything had been tried.
  ghost predicate TakenThen(o: Order, h: Hunt, fl: seq<Flight>, path: seq<nat>, k: nat, past: seq<Flight>)
    requires |fl| == |h.start| && k < |path| && path[k] < |fl|
  {
    && SameFlights(h.start, past) && DeadEnds(h, past, path[..k])
    && (forall i :: 0 <= i < |fl| && past[i].skip ==> fl[i].skip && i !in path[k..])
    && forall i :: 0 <= i < |fl| && i in h.conn && h.start[i].from == h.start[path[k]].from ==>
         Before(o, h.start, i, path[k]) ==> past[i].skip
  }

  // The route goes by the first connection left at each city, up to the first city with a
  // direct flight, and then by the first of those.
  ghost predicate FirstTried(o: Order, h: Hunt, fl: seq<Flight>, route: seq<nat>)
    requires |fl| == |h.start|
  {
    && route != [] && (forall k :: 0 <= k < |route| ==> route[k] < |fl|)
    && TakenInOrder(o, h, fl, route[..|route| - 1])
    && var last := route[|route| - 1];
       forall i :: 0 <= i < |fl| && i in h.avail && h.start[i].from == h.start[last].from && h.start[i].to == h.dest ==>
         last <= i
  }

  // In distances and positions: a connection out of a city on the way, other than the last,
  // that comes before the one taken is marked, and no later part of the route.
  lemma ListedFirst(h: Hunt, fl: seq<Flight>, route: seq<nat>, k: nat, i: nat)
    requires |fl| == |h.start| && FirstTried(Listed, h, fl, route) && k < |route| - 1
    requires i < |fl| && i in h.conn && h.start[i].from == h.start[route[k]].from && i < route[k]
    ensures fl[i].skip && forall m :: k <= m < |route| - 1 ==> route[m] != i
  {
    TakenBefore(Listed, h, fl, route, k, i);
  }

  lemma NearestFirst(h: Hunt, fl: seq<Flight>, route: seq<nat>, k: nat, i: nat)
    requires |fl| == |h.start| && FirstTried(Nearest, h, fl, route) && k < |route| - 1
    requires i < |fl| && i in h.conn && h.start[i].from == h.start[route[k]].from
    requires h.start[i].distance < h.start[route[k]].distance
      || (h.start[i].distance == h.start[route[k]].distance && i < route[k])
    ensures fl[i].skip && forall m :: k <= m < |route| - 1 ==> route[m] != i
  {
    TakenBefore(Nearest, h, fl, route, k, i);
  }

  lemma TakenBefore(o: Order, h: Hunt, fl: seq<Flight>, route: seq<nat>, k: nat, i: nat)
    requires |fl| == |h.start| && FirstTried(o, h, fl, route) && k < |route| - 1
    requires i < |fl| && i in h.conn && h.start[i].from == h.start[route[k]].from && Before(o, h.start, i, route[k])
    ensures fl[i].skip && forall m :: k <= m < |route| - 1 ==> route[m] != i
  {
    hide Before, NoDirect;
    var path := route[..|route| - 1];
    assert TakenAt(o, h, fl, path, k);
    forall m | k <= m < |path| ensures path[m] != i { assert path[k..][m - k] == path[m]; }
  }

  // While a search is on, a city without an unmarked direct flight has none.
  lemma NoneDirect(h: Hunt, fl: seq<Flight>, stack: seq<Flight>, path: seq<nat>, current: string)
    requires Searching(h, fl, stack, path, current)
    requires forall i :: 0 <= i < |fl| ==> !(Leaves(fl[i], current) && fl[i].to == h.dest)
    ensures NoDirect(h, current)
  {
    hide Visited, Distinct, Chain, Entries;
  }

  lemma OrderAdvances(o: Order, h: Hunt, fl: seq<Flight>, stack: seq<Flight>, path: seq<nat>, current: string, i: nat)
    requires Searching(h, fl, stack, path, current) && TakenInOrder(o, h, fl, path) && DeadEnds(h, fl, path)
    requires i < |fl| && i in h.conn && !fl[i].skip && fl[i].from == current && NoDirect(h, current)
    requires forall j :: 0 <= j < |fl| && j in h.conn && Leaves(fl[j], current) ==> j == i || !Before(o, fl, j, i)
    ensures TakenInOrder(o, h, Mark(fl, i), path + [i])
  {
    hide MarksOk, Visited, Distinct, Chain, Entries, TakenAt, NoDirect, Before, DeadEnds;
    var more, fl' := path + [i], Mark(fl, i);
    forall k | 0 <= k < |more| ensures more[k] < |fl| && TakenAt(o, h, fl', more, k) {
      if k < |path| {
        assert TakenAt(o, h, fl, path, k);
        StillTaken(o, h, fl, path, i, k);
      } else {
        LastTaken(o, h, fl, path, i);
      }
    }
  }

  lemma StillTaken(o: Order, h: Hunt, fl: seq<Flight>, path: seq<nat>, i: nat, k: nat)
    requires |fl| == |h.start| && k < |path| && path[k] < |fl| && TakenAt(o, h, fl, path, k)
    requires i < |fl| && !fl[i].skip
    ensures TakenAt(o, h, Mark(fl, i), path + [i], k)
  {
    hide NoDirect, Before, DeadEnds;
    var past: seq<Flight> :| TakenThen(o, h, fl, path, k, past);
    assert (path + [i])[k..] == path[k..] + [i] && (path + [i])[..k] == path[..k];
    assert TakenThen(o, h, Mark(fl, i), path + [i], k, past);
  }

  lemma LastTaken(o: Order, h: Hunt, fl: seq<Flight>, path: seq<nat>, i: nat)
    requires SameFlights(h.start, fl) && DeadEnds(h, fl, path) && i < |fl| && !fl[i].skip && NoDirect(h, fl[i].from)
    requires forall j :: 0 <= j < |fl| && j in h.conn && Leaves(fl[j], fl[i].from) ==> j == i || !Before(o, fl, j, i)
    ensures TakenAt(o, h, Mark(fl, i), path + [i], |path|)
  {
    hide NoDirect, DeadEnds;
    assert (path + [i])[|path|..] == [i] && (path + [i])[..|path|] == path;
    assert TakenThen(o, h, Mark(fl, i), path + [i], |path|, fl);
  }

  lemma OrderLeaves(o: Order, h: Hunt, fl: seq<Flight>, path: seq<nat>, n: nat)
    requires |fl| == |h.start| && TakenInOrder(o, h, fl, path) && n <= |path|
    ensures TakenInOrder(o, h, fl, path[..n])
  {
    hide TakenAt;
    forall k | 0 <= k < n ensures path[..n][k] < |fl| && TakenAt(o, h, fl, path[..n], k) {
      assert TakenAt(o, h, fl, path, k);
      TakenOnPart(o, h, fl, path, n, k);
    }
  }

  lemma TakenOnPart(o: Order, h: Hunt, fl: seq<Flight>, path: seq<nat>, n: nat, k: nat)
    requires |fl| == |h.start| && k < n <= |path| && path[k] < |fl| && TakenAt(o, h, fl, path, k)
    ensures TakenAt(o, h, fl, path[..n], k)
  {
    hide NoDirect, Before, DeadEnds;
    var past: seq<Flight> :| TakenThen(o, h, fl, path, k, past);
    assert path[k..] == path[..n][k..] + path[n..] && path[..n][..k] == path[..k];
    assert TakenThen(o, h, fl, path[..n], k, past);
  }

  lemma OrderFinds(o: Order, h: Hunt, fl: seq<Flight>, stack: seq<Flight>, path: seq<nat>, current: string, i: nat)
    requires Searching(h, fl, stack, path, current) && TakenInOrder(o, h, fl, path)
    requires i < |fl| && i in h.avail && !fl[i].skip && fl[i].from == current && fl[i].to == h.dest
    requires forall j :: 0 <= j < i ==> !(Leaves(fl[j], current) && fl[j].to == h.dest)
    ensures FirstTried(o, h, Mark(fl, i), path + [i])
  {
    hide Visited, Distinct, Chain, Entries, TakenAt;
    var route, fl' := path + [i], Mark(fl, i);
    assert route[..|route| - 1] == path;
    forall k | 0 <= k < |path| ensures path[k] < |fl| && TakenAt(o, h, fl', path, k) {
      assert TakenAt(o, h, fl, path, k);
      StillTaken(o, h, fl, path, i, k);
      TakenOnPart(o, h, fl', route, |path|, k);
    }
  }

  // What settles the route
  ghost predicate Settles(o: Order, h: Hunt, fl: seq<Flight>, route: seq<nat>) {
    && |fl| == |h.start| && h.conn <= h.avail
    && IsRoute(h.start, h.avail, h.conn, route, h.origin, h.dest) && Distinct(route)
    && FirstTried(o, h, fl, route)
  }

  lemma FoundSettles(o: Order, h: Hunt, fl: seq<Flight>, stack: seq<Flight>, route: seq<nat>)
    requires Found(h, fl, stack, route) && stack != [] && FirstTried(o, h, fl, route) && h.conn <= h.avail
    ensures Settles(o, h, fl, route)
  {
    hide FirstTried, IsRoute, Distinct;
  }

  // Once the search has come as far as flight k of a route, none of the rest of it can have
  // been given up.
  lemma {:induction false} NotGivenUp(h: Hunt, past: seq<Flight>, route: seq<nat>, k: nat, m: nat)
    requires SameFlights(h.start, past) && k <= m < |route| && h.conn <= h.avail && DeadEnds(h, past, route[..k])
    requires IsRoute(h.start, h.avail, h.conn, route, h.origin, h.dest) && Distinct(route)
    ensures !past[route[m]].skip
    decreases |route| - m
  {
    var i := route[m];
    assert i in h.avail && i < |past| && past[i].to == h.start[i].to;
    assert i !in route[..k];
    if m + 1 < |route| {
      NotGivenUp(h, past, route, k, m + 1);
      assert h.start[route[m]].to == h.start[route[m + 1]].from;
      assert route[m + 1] in h.avail && past[route[m + 1]].from == h.start[route[m + 1]].from;
      assert m + 1 == |route| - 1 ==> past[route[m + 1]].to == h.dest;
      assert !Exhausted(h, past, past[i].to);
    }
  }

  // Where two routes part, neither goes by a flight that the other's search tried before.
  lemma NotBefore(o: Order, h: Hunt, fl: seq<Flight>, route: seq<nat>, fl': seq<Flight>, route': seq<nat>, k: nat)
    requires Settles(o, h, fl, route) && Settles(o, h, fl', route')
    requires k < |route| - 1 && k < |route'| - 1 && route[..k] == route'[..k]
    requires h.start[route[k]].from == h.start[route'[k]].from
    ensures !Before(o, h.start, route[k], route'[k])
  {
    hide Before, DeadEnds, Distinct, NoDirect;
    var path := route'[..|route'| - 1];
    assert TakenAt(o, h, fl', path, k);
    var past: seq<Flight> :| TakenThen(o, h, fl', path, k, past);
    assert path[..k] == route[..k];
    NotGivenUp(h, past, route, k, k);
    assert route[k] in h.conn;
  }

  lemma SameCity(h: Hunt, route: seq<nat>, route': seq<nat>, k: nat)
    requires IsRoute(h.start, h.avail, h.conn, route, h.origin, h.dest)
    requires IsRoute(h.start, h.avail, h.conn, route', h.origin, h.dest)
    requires k < |route| && k < |route'| && route[..k] == route'[..k]
    ensures h.start[route[k]].from == h.start[route'[k]].from
  {
    if k > 0 { assert route[k - 1] == route[..k][k - 1] == route'[k - 1]; }
  }

  // The search ends at the first city with a direct flight.
  lemma EndsTogether(o: Order, h: Hunt, fl: seq<Flight>, route: seq<nat>, fl': seq<Flight>, route': seq<nat>, k: nat)
    requires Settles(o, h, fl, route) && Settles(o, h, fl', route')
    requires k == |route| - 1 && k < |route'| && h.start[route[k]].from == h.start[route'[k]].from
    ensures k == |route'| - 1 && route[k] <= route'[k]
  {
    hide Before, DeadEnds, Distinct;
    assert route[k] in h.avail && h.start[route[k]].to == h.dest;
    var path := route'[..|route'| - 1];
    assert forall m :: 0 <= m < |path| ==> path[m] == route'[m] && TakenAt(o, h, fl', path, m);
    assert route'[k] in h.avail;
  }

  // No other route is found in the same database.
  lemma RouteIsSettled(o: Order, h: Hunt, fl: seq<Flight>, route: seq<nat>, fl': seq<Flight>, route': seq<nat>)
    requires Settles(o, h, fl, route) && Settles(o, h, fl', route')
    ensures route == route'
  {
    hide FirstTried, Before, Distinct;
    var n := if |route| <= |route'| then |route| else |route'|;
    SettledUpTo(o, h, fl, route, fl', route', n);
    SameCity(h, route, route', n - 1);
    if |route| <= |route'| {
      EndsTogether(o, h, fl, route, fl', route', n - 1);
    } else {
      EndsTogether(o, h, fl', route', fl, route, n - 1);
    }
    assert route == route[..n] && route' == route'[..n];
  }

  lemma {:induction false} SettledUpTo(o: Order, h: Hunt, fl: seq<Flight>, route: seq<nat>,
                                       fl': seq<Flight>, route': seq<nat>, n: nat)
    requires Settles(o, h, fl, route) && Settles(o, h, fl', route') && n <= |route| && n <= |route'|
    ensures route[..n] == route'[..n]
  {
    hide FirstTried, Distinct;
    if n > 0 {
      var k := n - 1;
      SettledUpTo(o, h, fl, route, fl', route', k);
      SameCity(h, route, route', k);
      if k == |route| - 1 {
        EndsTogether(o, h, fl, route, fl', route', k);
        EndsTogether(o, h, fl', route', fl, route, k);
      } else if k == |route'| - 1 {
        EndsTogether(o, h, fl', route', fl, route, k);
      } else {
        NotBefore(o, h, fl, route, fl', route', k);
        NotBefore(o, h, fl', route', fl, route, k);
      }
      assert route[..n] == route[..k] + [route[k]] && route'[..n] == route'[..k] + [route'[k]];
    }
  }

  // ---- what a route is reported as

  // The cities of a stack in travel order, and the final destination
  function Cities(stack: seq<Flight>): (cities: seq<string>)
    ensures |cities| == |stack| + 1
  {
    seq(|stack|, k requires 0 <= k < |stack| => stack[k].from) + [if stack == [] then "" else stack[|stack| - 1].to]
  }

  function Distance(stack: seq<Flight>): int {
    if stack == [] then 0 else Distance(stack[..|stack| - 1]) + stack[|stack| - 1].distance
  }

  lemma {:induction false} DistanceOfRoute(fl: seq<Flight>, p: seq<nat>, to: string)
    requires forall k :: 0 <= k < |p| ==> p[k] < |fl|
    ensures Distance(Entries(fl, p, to)) == Length(fl, p)
  {
    if p != [] {
      var n := |p| - 1;
      assert Entries(fl, p, to)[..n] == Entries(fl, p[..n], to);
      DistanceOfRoute(fl, p[..n], to);
    }
  }

  // The stack left by a search reads as the route's cities, from the origin through each
  // stop to the destination, and as its length.
  lemma ReportOfRoute(fl: seq<Flight>, avail: set<nat>, conn: set<nat>, p: seq<nat>, from: string, to: string)
    requires IsRoute(fl, avail, conn, p, from, to)
    ensures var cities := Cities(Entries(fl, p, to));
      && cities[0] == from && cities[|p|] == to
      && (forall k :: 0 <= k < |p| ==> cities[k] == fl[p[k]].from && cities[k + 1] == fl[p[k]].to)
    ensures Distance(Entries(fl, p, to)) == Length(fl, p)
  {
    DistanceOfRoute(fl, p, to);
  }

  // Distances add up in either direction.
  lemma {:induction false} DistanceFromFront(stack: seq<Flight>)
    requires stack != []
    ensures Distance(stack) == stack[0].distance + Distance(stack[1..])
  {
    var n := |stack| - 1;
    if n > 0 {
      DistanceFromFront(stack[..n]);
      assert stack[..n][1..] == stack[1..][..n - 1];
    }
  }

  function Reverse(stack: seq<Flight>): (r: seq<Flight>)
    ensures |r| == |stack|
  {
    if stack == [] then [] else Reverse(stack[1..]) + [stack[0]]
  }

  lemma ReverseNothing()
    ensures Reverse([]) == [] && Distance([]) == 0
  {
  }

  lemma DistanceMore(stack: seq<Flight>, f: Flight)
    ensures Distance(stack + [f]) == Distance(stack) + f.distance
  {
    assert (stack + [f])[..|stack|] == stack;
  }

  lemma {:induction false} ReverseTwice(stack: seq<Flight>)
    ensures Reverse(Reverse(stack)) == stack
  {
    if stack != [] {
      var r := Reverse(stack[1..]);
      ReverseTwice(stack[1..]);
      ReverseOnePop(r + [stack[0]]);
      assert (r + [stack[0]])[..|r|] == r;
    }
  }

  // Popping one stack and pushing on another reverses it.
  lemma {:induction false} ReverseOnePop(stack: seq<Flight>)
    requires stack != []
    ensures Reverse(stack) == [stack[|stack| - 1]] + Reverse(stack[..|stack| - 1])
  {
    if |stack| > 1 {
      ReverseOnePop(stack[1..]);
      assert stack[1..][..|stack| - 2] == stack[..|stack| - 1][1..];
    }
  }
}
