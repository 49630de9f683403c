// Least-cost search: connections are tried nearest first, flights once used stay used, and
// the shortest of the routes found is kept.

module LeastCost {
  import opened Routes

  const MAXDIST := 100000

  // The unmarked flights short enough to connect through
  function Short(fl: seq<Flight>): set<nat> {
    set i | 0 <= i < |fl| && !fl[i].skip && fl[i].distance < MAXDIST
  }

  ghost function ShortHunt(fl: seq<Flight>, origin: string, dest: string): Hunt {
    Hunt(fl, Unmarked(fl), Short(fl), origin, dest)
  }

  class Optimal {
    var flights: seq<Flight>
    var btStack: seq<Flight>  // top at the end
    var optimal: seq<Flight>  // top at the end
    var minDist: int

    constructor ()
      ensures flights == [] && btStack == [] && optimal == [] && minDist == MAXDIST == 100000
    {
      flights, btStack, optimal, minDist := [], [], [], MAXDIST;
    }

    method AddFlight(from: string, to: string, dist: int)
      modifies this`flights
      ensures flights == old(flights) + [Flight(from, to, dist, false)]
    {
      flights := flights + [Flight(from, to, dist, false)];
    }

    method RouteFound() returns (found: bool)
      ensures found <==> btStack != []
    {
      found := btStack != [];
    }

    // Takes the first unused flight between the two cities.
    method Match(from: string, to: string) returns (found: bool, dist: int, ghost at: nat)
      modifies this`flights
      ensures found ==>
        && at < |old(flights)| && Leaves(old(flights)[at], from) && old(flights)[at].to == to
        && (forall k :: 0 <= k < at ==> !(Leaves(old(flights)[k], from) && old(flights)[k].to == to))
        && flights == Mark(old(flights), at) && dist == old(flights)[at].distance
      ensures !found ==>
        && (forall k :: 0 <= k < |flights| ==> !(Leaves(flights[k], from) && flights[k].to == to))
        && flights == old(flights)
    {
      for i := 0 to |flights|
        invariant flights == old(flights)
        invariant forall k :: 0 <= k < i ==> !(Leaves(flights[k], from) && flights[k].to == to)
      {
        if flights[i].from == from && flights[i].to == to && !flights[i].skip {
          dist := flights[i].distance;
          flights := flights[i := flights[i].(skip := true)];
          return true, dist, i;
        }
      }
      return false, 0, 0;
    }

    // Takes the nearest unused connection out of the city, the first of equals; flights of
    // MAXDIST and more are never taken.
    method Find(from: string) returns (found: bool, f: Flight, ghost at: nat)
      modifies this`flights
      ensures found ==>
        && at < |old(flights)| && Leaves(old(flights)[at], from) && old(flights)[at].distance < MAXDIST
        && (forall k :: 0 <= k < |old(flights)| && Leaves(old(flights)[k], from) ==>
             old(flights)[k].distance > old(flights)[at].distance
             || (old(flights)[k].distance == old(flights)[at].distance && k >= at))
        && flights == Mark(old(flights), at) && f == old(flights)[at]
      ensures !found ==>
        && (forall k :: 0 <= k < |flights| && Leaves(flights[k], from) ==> flights[k].distance >= MAXDIST)
        && flights == old(flights)
    {
      var pos := -1;
      var dist := MAXDIST;
      for i := 0 to |flights|
        invariant -1 <= pos < i && dist <= MAXDIST
        invariant pos == -1 ==> dist == MAXDIST
        invariant pos != -1 ==> Leaves(flights[pos], from) && flights[pos].distance == dist < MAXDIST
        invariant forall k :: 0 <= k < i && Leaves(flights[k], from) ==>
          flights[k].distance > dist || (flights[k].distance == dist && k >= pos)
      {
        if flights[i].from == from && !flights[i].skip {
          if flights[i].distance < dist {
            pos := i;
            dist := flights[i].distance;
          }
        }
      }
      if pos != -1 {
        f := flights[pos];
        flights := flights[pos := flights[pos].(skip := true)];
        return true, f, pos;
      }
      return false, Flight("", "", 0, false), 0;
    }

    // Leaves a route on the stack exactly when the destination can be reached by at least
    // one flight, along unused flights that are short except perhaps for the last: the route
    // by the nearest connection left at each city.
    method FindRoute(from: string, to: string) returns (ghost route: seq<nat>)
      requires btStack == []
      modifies this`flights, this`btStack
      ensures Found(ShortHunt(old(flights), from, to), flights, btStack, route)
      ensures |flights| == |old(flights)|
      ensures btStack != [] ==> FirstTried(Nearest, ShortHunt(old(flights), from, to), flights, route)
      ensures DeadEnds(ShortHunt(old(flights), from, to), flights, if btStack == [] then [] else route)
      ensures CountUnmarked(flights) + (if btStack == [] then 0 else 1) <= CountUnmarked(old(flights))
    {
      ghost var h := ShortHunt(flights, from, to);
      SearchStarts(h, flights);
      NoDeadEndsYet(h);
      route := FindRouteFrom(from, to, h, []);
    }

    // The search in progress: `path` leads from the hunt's origin to the city `from`.
    method FindRouteFrom(from: string, to: string, ghost h: Hunt, ghost path: seq<nat>) returns (ghost route: seq<nat>)
      requires h == ShortHunt(h.start, h.origin, to)
      requires Searching(h, flights, btStack, path, from)
      requires TakenInOrder(Nearest, h, flights, path) && DeadEnds(h, flights, path)
      modifies this`flights, this`btStack
      ensures Found(h, flights, btStack, route)
      ensures |flights| == |h.start|
      ensures btStack != [] ==> FirstTried(Nearest, h, flights, route)
      ensures DeadEnds(h, flights, if btStack == [] then [] else route)
      ensures CountUnmarked(flights) + (if btStack == [] then 0 else 1) <= CountUnmarked(old(flights))
      decreases CountUnmarked(flights), |btStack|
    {
      hide SameFlights, Found, MarksOk, Visited, OnPath, Chain, Entries, Distinct;
      hide DeadEnds, TakenInOrder, FirstTried, NoDirect;
      ghost var at;
      ghost var before := flights;
      StillOpen(h, flights, btStack, path, from);
      var matched, dist;
      matched, dist, at := Match(from, to);
      if matched {
        SearchFinds(h, before, btStack, path, from, at);
        OrderFinds(Nearest, h, before, btStack, path, from, at);
        DeadEndsTake(h, before, path, at);
        MarkingCounts(before, at);
        btStack := btStack + [Flight(from, to, dist, false)];
        return path + [at];
      }
      NoneDirect(h, flights, btStack, path, from);
      var found, f;
      found, f, at := Find(from);
      if found {
        SearchAdvances(h, before, btStack, path, from, at);
        OrderAdvances(Nearest, h, before, btStack, path, from, at);
        DeadEndsTake(h, before, path, at);
        MarkingCounts(before, at);
        btStack := btStack + [Flight(from, to, f.distance, false)];
        route := FindRouteFrom(f.to, to, h, path + [at]);
      } else if btStack != [] {
        SearchBacktracks(h, before, btStack, path, from);
        OrderLeaves(Nearest, h, before, path, |path| - 1);
        DeadEndsLeave(h, before, btStack, path, from);
        f := btStack[|btStack| - 1];
        btStack := btStack[..|btStack| - 1];
        route := FindRouteFrom(f.from, f.to, h, path[..|path| - 1]);
      } else {
        SearchFails(h, flights, from);
        route := [];
      }
    }

    // Empties the stack, keeping the route when it is shorter than the best so far.
    method Route()
      modifies this`btStack, this`optimal, this`minDist
      ensures btStack == []
      ensures var d := Distance(old(btStack));
        if old(minDist) > d then optimal == Reverse(old(btStack)) && minDist == d
        else optimal == old(optimal) && minDist == old(minDist)
    {
      ghost var stack := btStack;
      var optTemp: seq<Flight> := [];
      var dist := 0;
      while btStack != []
        invariant optTemp + Reverse(btStack) == Reverse(stack)
        invariant dist + Distance(btStack) == Distance(stack)
        invariant optimal == old(optimal) && minDist == old(minDist)
        decreases |btStack|
      {
        ReverseOnePop(btStack);
        var f := btStack[|btStack| - 1];
        optTemp := optTemp + [f];
        btStack := btStack[..|btStack| - 1];
        dist := dist + f.distance;
      }
      if minDist > dist {
        optimal := optTemp;
        minDist := dist;
      }
    }

    // Reports the kept route, emptying its stack.
    method ShowOpt() returns (cities: seq<string>, dist: int)
      modifies this`optimal
      ensures optimal == []
      ensures cities == Cities(Reverse(old(optimal))) && dist == Distance(Reverse(old(optimal)))
    {
      hide Reverse, Distance;
      var f := Flight("", "", 0, false);
      dist := 0;
      cities := [];
      ReverseNothing();
      ghost var done: seq<Flight> := [];
      while optimal != []
        invariant done + Reverse(optimal) == Reverse(old(optimal))
        invariant |cities| == |done| && forall k :: 0 <= k < |done| ==> cities[k] == done[k].from
        invariant dist == Distance(done)
        invariant f.to == if done == [] then "" else done[|done| - 1].to
        decreases |optimal|
      {
        ReverseOnePop(optimal);
        f := optimal[|optimal| - 1];
        optimal := optimal[..|optimal| - 1];
        cities := cities + [f.from];
        DistanceMore(done, f);
        done := done + [f];
        dist := dist + f.distance;
      }
      assert done == Reverse(old(optimal));
      cities := cities + [f.to];
    }
  }

  // While a hunt is on, a flight is unmarked only if it was so at the start.
  lemma StillOpen(h: Hunt, fl: seq<Flight>, stack: seq<Flight>, path: seq<nat>, from: string)
    requires h == ShortHunt(h.start, h.origin, h.dest)
    requires Searching(h, fl, stack, path, from)
    ensures |fl| == |h.start| && |stack| == |path|
    ensures forall i :: 0 <= i < |fl| && !fl[i].skip ==> i in h.avail && (fl[i].distance < MAXDIST <==> i in h.conn)
  {
  }

  // ---- the driver

  // The routes are real, lead from the origin to the destination, and share no flight.
  ghost predicate DisjointRoutes(fl: seq<Flight>, routes: seq<seq<nat>>, origin: string, dest: string) {
    && (forall r :: 0 <= r < |routes| ==>
         IsRoute(fl, Unmarked(fl), Short(fl), routes[r], origin, dest) && Distinct(routes[r]))
    && (forall r, q :: 0 <= r < q < |routes| ==> forall i :: i in routes[r] ==> i !in routes[q])
  }

  // The kept distance is the least of MAXDIST and the routes' lengths, and the kept route is
  // the first of that length, in travel order from the top of its stack.
  ghost predicate KeepsShortest(fl: seq<Flight>, routes: seq<seq<nat>>, dest: string,
                                optimal: seq<Flight>, minDist: int)
    requires forall r :: 0 <= r < |routes| ==> forall k :: 0 <= k < |routes[r]| ==> routes[r][k] < |fl|
  {
    && minDist <= MAXDIST
    && (forall r :: 0 <= r < |routes| ==> minDist <= Length(fl, routes[r]))
    && if minDist == MAXDIST then optimal == [] else exists r :: FirstShortest(fl, routes, dest, optimal, minDist, r)
  }

  ghost predicate FirstShortest(fl: seq<Flight>, routes: seq<seq<nat>>, dest: string,
                                optimal: seq<Flight>, minDist: int, r: nat)
    requires forall q :: 0 <= q < |routes| ==> forall k :: 0 <= k < |routes[q]| ==> routes[q][k] < |fl|
  {
    && r < |routes|
    && Length(fl, routes[r]) == minDist
    && optimal == Reverse(Entries(fl, routes[r], dest))
    && forall q :: 0 <= q < r ==> Length(fl, routes[q]) > minDist
  }

  // Marks cover every route so far and nothing but the original flights.
  ghost predicate MarksCover(fl: seq<Flight>, now: seq<Flight>, routes: seq<seq<nat>>) {
    && SameFlights(fl, now)
    && (forall i :: 0 <= i < |fl| && fl[i].skip ==> now[i].skip)
    && (forall r :: 0 <= r < |routes| ==> forall i :: i in routes[r] ==> i < |now| && now[i].skip)
  }

  ghost predicate OnRoutes(routes: seq<seq<nat>>, i: nat) {
    exists r :: 0 <= r < |routes| && i in routes[r]
  }

  // Nothing is left to try out of the city: its flights are marked, or too long to connect
  // through and not to the destination.
  ghost predicate Deserted(fl: seq<Flight>, now: seq<Flight>, dest: string, city: string)
    requires |now| == |fl|
  {
    forall i :: 0 <= i < |fl| && fl[i].from == city ==> now[i].skip || (i !in Short(fl) && fl[i].to != dest)
  }

  // The flights used up by the searches and on no route found are not to the destination,
  // and lead to deserted cities.
  ghost predicate GivenUp(fl: seq<Flight>, now: seq<Flight>, routes: seq<seq<nat>>, dest: string)
    requires |now| == |fl|
  {
    forall i :: 0 <= i < |fl| && !fl[i].skip && now[i].skip && !OnRoutes(routes, i) ==>
      fl[i].to != dest && Deserted(fl, now, dest, fl[i].to)
  }

  ghost predicate Shares(p: seq<nat>, routes: seq<seq<nat>>) {
    exists k :: 0 <= k < |p| && OnRoutes(routes, p[k])
  }

  // No route can be added: each route there was shares a flight with one of these.
  ghost predicate Maximal(fl: seq<Flight>, routes: seq<seq<nat>>, origin: string, dest: string) {
    forall p :: IsRoute(fl, Unmarked(fl), Short(fl), p, origin, dest) ==> Shares(p, routes)
  }

  // One search: what it finds, and what it leaves marked
  ghost predicate SearchTakes(before: seq<Flight>, now: seq<Flight>, route: seq<nat>, from: string, to: string) {
    exists stack :: SearchVia(before, now, route, from, to, stack)
  }

  ghost predicate SearchVia(before: seq<Flight>, now: seq<Flight>, route: seq<nat>, from: string, to: string,
                            stack: seq<Flight>) {
    && stack != [] && |now| == |before|
    && Found(ShortHunt(before, from, to), now, stack, route)
    && FirstTried(Nearest, ShortHunt(before, from, to), now, route)
    && DeadEnds(ShortHunt(before, from, to), now, route)
  }

  // Searches, one after the other
  ghost predicate Searches(states: seq<seq<Flight>>, routes: seq<seq<nat>>, from: string, to: string) {
    && |states| == |routes| + 1
    && forall k :: 0 <= k < |routes| ==> SearchTakes(states[k], states[k + 1], routes[k], from, to)
  }

  // The main loop: finds routes that share no flight, each by the nearest connections left,
  // as many as can be added to each other, and keeps the first shortest.
  method FindOptimal(db: Optimal, from: string, to: string)
    returns (ghost routes: seq<seq<nat>>, ghost states: seq<seq<Flight>>)
    requires db.btStack == [] && db.optimal == [] && db.minDist == MAXDIST
    modifies db
    ensures SameFlights(old(db.flights), db.flights)
    ensures DisjointRoutes(old(db.flights), routes, from, to)
    ensures Maximal(old(db.flights), routes, from, to)
    ensures Searches(states, routes, from, to) && states[0] == old(db.flights)
    ensures RoutesInside(old(db.flights), routes)
    ensures KeepsShortest(old(db.flights), routes, to, db.optimal, db.minDist)
  {
    hide Found, Reachable, IsRoute, Length, Entries, DisjointRoutes, KeepsShortest, MarksCover, DeadEnds, GivenUp;
    hide Maximal, FirstTried, SearchTakes;
    ghost var fl := db.flights;
    routes, states := [], [fl];
    NoRoutesYet(fl, from, to);
    while true
      invariant db.btStack == [] && |db.flights| == |fl|
      invariant MarksCover(fl, db.flights, routes) && DisjointRoutes(fl, routes, from, to)
      invariant GivenUp(fl, db.flights, routes, to)
      invariant Searches(states, routes, from, to) && states[0] == fl && states[|routes|] == db.flights
      invariant RoutesInside(fl, routes) && KeepsShortest(fl, routes, to, db.optimal, db.minDist)
      decreases CountUnmarked(db.flights)
    {
      ghost var now := db.flights;
      ghost var route := db.FindRoute(from, to);
      var found := db.RouteFound();
      if !found {
        NoneLeft(fl, now, db.flights, routes, route, from, to);
        break;
      }
      MoreGivenUp(fl, now, db.flights, db.btStack, routes, route, from, to);
      OneMoreRoute(fl, now, db.flights, db.btStack, routes, route, from, to);
      ghost var stack, best, min := db.btStack, db.optimal, db.minDist;
      SearchTaken(now, db.flights, route, from, to, stack);
      db.Route();
      ShortestSoFar(fl, routes, route, from, to, stack, best, min, db.optimal, db.minDist);
      routes, states := routes + [route], states + [db.flights];
    }
  }

  lemma SearchTaken(before: seq<Flight>, now: seq<Flight>, route: seq<nat>, from: string, to: string,
                    stack: seq<Flight>)
    requires SearchVia(before, now, route, from, to, stack)
    ensures SearchTakes(before, now, route, from, to)
  {
  }

  // The route of a search is settled by the database it starts with.
  lemma SearchIsSettled(before: seq<Flight>, from: string, to: string,
                        now: seq<Flight>, route: seq<nat>, now': seq<Flight>, route': seq<nat>)
    requires SearchTakes(before, now, route, from, to) && SearchTakes(before, now', route', from, to)
    ensures route == route'
  {
    hide Found, FirstTried, DeadEnds;
    var h := ShortHunt(before, from, to);
    var stack: seq<Flight> :| SearchVia(before, now, route, from, to, stack);
    var stack': seq<Flight> :| SearchVia(before, now', route', from, to, stack');
    FoundSettles(Nearest, h, now, stack, route);
    FoundSettles(Nearest, h, now', stack', route');
    RouteIsSettled(Nearest, h, now, route, now', route');
  }

  // The whole program: the cities of the first shortest route found, in travel order, and
  // its length.
  method Solve(db: Optimal, from: string, to: string)
    returns (cities: seq<string>, dist: int, ghost routes: seq<seq<nat>>, ghost states: seq<seq<Flight>>)
    requires db.btStack == [] && db.optimal == [] && db.minDist == MAXDIST
    modifies db
    ensures DisjointRoutes(old(db.flights), routes, from, to) && Maximal(old(db.flights), routes, from, to)
    ensures Searches(states, routes, from, to) && states[0] == old(db.flights)
    ensures RoutesInside(old(db.flights), routes)
    ensures
      || (cities == [""] && dist == 0 && forall r :: 0 <= r < |routes| ==> Length(old(db.flights), routes[r]) >= 100000)
      || exists r :: 0 <= r < |routes| && IsShown(old(db.flights), routes, to, cities, dist, r)
  {
    hide Found, Reachable, IsRoute, Length, Entries, DisjointRoutes, Reverse, Maximal, Searches, Cities, Distance;
    ghost var fl := db.flights;
    routes, states := FindOptimal(db, from, to);
    ghost var kept, min := db.optimal, db.minDist;
    cities, dist := db.ShowOpt();
    ReverseNothing();
    if min != MAXDIST {
      ghost var r: nat :| FirstShortest(fl, routes, to, kept, min, r);
      ReverseTwice(Entries(fl, routes[r], to));
      DistanceOfRoute(fl, routes[r], to);
      assert IsShown(fl, routes, to, cities, dist, r);
    } else {
      NoCities();
    }
  }

  // Route r is the first of the shortest, and this is its report.
  ghost predicate IsShown(fl: seq<Flight>, routes: seq<seq<nat>>, dest: string, cities: seq<string>, dist: int, r: nat)
    requires RoutesInside(fl, routes)
  {
    && r < |routes|
    && cities == Cities(Entries(fl, routes[r], dest)) && dist == Length(fl, routes[r]) < 100000
    && forall q :: 0 <= q < |routes| ==> dist <= Length(fl, routes[q]) && (q < r ==> dist < Length(fl, routes[q]))
  }

  lemma NoCities()
    ensures Cities([]) == [""]
  {
  }

  ghost predicate RoutesInside(fl: seq<Flight>, routes: seq<seq<nat>>) {
    forall r :: 0 <= r < |routes| ==> forall k :: 0 <= k < |routes[r]| ==> routes[r][k] < |fl|
  }

  lemma NoRoutesYet(fl: seq<Flight>, origin: string, dest: string)
    ensures MarksCover(fl, fl, []) && DisjointRoutes(fl, [], origin, dest)
    ensures RoutesInside(fl, []) && KeepsShortest(fl, [], dest, [], MAXDIST) && GivenUp(fl, fl, [], dest)
  {
  }

  lemma OneMoreRoute(fl: seq<Flight>, now: seq<Flight>, after: seq<Flight>, stack: seq<Flight>,
                     routes: seq<seq<nat>>, route: seq<nat>, origin: string, dest: string)
    requires MarksCover(fl, now, routes) && DisjointRoutes(fl, routes, origin, dest)
    requires Found(ShortHunt(now, origin, dest), after, stack, route) && stack != []
    ensures MarksCover(fl, after, routes + [route]) && DisjointRoutes(fl, routes + [route], origin, dest)
    ensures RoutesInside(fl, routes + [route])
    ensures stack == Entries(fl, route, dest)
  {
    hide Reachable, Entries, Distinct;
    assert forall k :: 0 <= k < |route| ==> route[k] in Unmarked(now);
    assert IsRoute(fl, Unmarked(fl), Short(fl), route, origin, dest);
    EntriesOfSame(fl, now, route, dest);
  }

  lemma EntriesOfSame(fl: seq<Flight>, now: seq<Flight>, p: seq<nat>, dest: string)
    requires SameFlights(fl, now) && forall k :: 0 <= k < |p| ==> p[k] < |fl|
    ensures Entries(fl, p, dest) == Entries(now, p, dest)
  {
  }

  lemma ShortestSoFar(fl: seq<Flight>, routes: seq<seq<nat>>, route: seq<nat>, origin: string, dest: string,
                      stack: seq<Flight>, best: seq<Flight>, min: int, optimal: seq<Flight>, minDist: int)
    requires RoutesInside(fl, routes) && RoutesInside(fl, routes + [route])
    requires KeepsShortest(fl, routes, dest, best, min)
    requires route == (routes + [route])[|routes|] && stack == Entries(fl, route, dest)
    requires if min > Distance(stack) then optimal == Reverse(stack) && minDist == Distance(stack)
             else optimal == best && minDist == min
    ensures KeepsShortest(fl, routes + [route], dest, optimal, minDist)
  {
    hide Length, Entries, Reverse, Distance;
    var more := routes + [route];
    DistanceOfRoute(fl, route, dest);
    if min > Distance(stack) {
      assert FirstShortest(fl, more, dest, optimal, minDist, |routes|);
    } else if min != MAXDIST {
      var r :| FirstShortest(fl, routes, dest, best, min, r);
      assert FirstShortest(fl, more, dest, optimal, minDist, r);
    }
  }

  // What a search gives up stays given up, and what was before it too.
  lemma MoreGivenUp(fl: seq<Flight>, now: seq<Flight>, after: seq<Flight>, stack: seq<Flight>,
                    routes: seq<seq<nat>>, route: seq<nat>, origin: string, dest: string)
    requires MarksCover(fl, now, routes) && |now| == |fl| && GivenUp(fl, now, routes, dest)
    requires Found(ShortHunt(now, origin, dest), after, stack, route) && stack != [] && |after| == |now|
    requires DeadEnds(ShortHunt(now, origin, dest), after, route)
    ensures |after| == |fl| && GivenUp(fl, after, routes + [route], dest)
  {
    hide Reachable, IsRoute, Entries, Distinct;
    var h := ShortHunt(now, origin, dest);
    var more := routes + [route];
    assert MarksGrow(now, after);
    assert more[|routes|] == route && forall r :: 0 <= r < |routes| ==> more[r] == routes[r];
    forall i | 0 <= i < |fl| && !fl[i].skip && after[i].skip && !OnRoutes(more, i)
      ensures fl[i].to != dest && Deserted(fl, after, dest, fl[i].to)
    {
      assert i !in route && !OnRoutes(routes, i);
      if now[i].skip {
        StaysDeserted(fl, now, after, dest, fl[i].to);
      } else {
        assert i in h.avail;
        ExhaustedIsDeserted(fl, now, after, origin, dest, fl[i].to);
      }
    }
  }

  ghost predicate MarksGrow(now: seq<Flight>, after: seq<Flight>) {
    |after| == |now| && forall i :: 0 <= i < |now| && now[i].skip ==> after[i].skip
  }

  lemma StaysDeserted(fl: seq<Flight>, now: seq<Flight>, after: seq<Flight>, dest: string, city: string)
    requires |now| == |fl| && MarksGrow(now, after) && Deserted(fl, now, dest, city)
    ensures Deserted(fl, after, dest, city)
  {
  }

  lemma ExhaustedIsDeserted(fl: seq<Flight>, now: seq<Flight>, after: seq<Flight>, origin: string, dest: string,
                            city: string)
    requires SameFlights(fl, now) && SameFlights(now, after) && MarksGrow(now, after)
    requires Exhausted(ShortHunt(now, origin, dest), after, city)
    ensures Deserted(fl, after, dest, city)
  {
  }

  // The search has failed: some flight of every route is marked. If none is on a route found,
  // then all after it are marked and given up, but no flight to the destination is.
  lemma NoneLeft(fl: seq<Flight>, now: seq<Flight>, after: seq<Flight>, routes: seq<seq<nat>>, route: seq<nat>,
                 origin: string, dest: string)
    requires MarksCover(fl, now, routes) && |now| == |fl| && GivenUp(fl, now, routes, dest)
    requires Found(ShortHunt(now, origin, dest), after, [], route)
    ensures SameFlights(fl, after)
    ensures Maximal(fl, routes, origin, dest)
  {
    hide Reachable, IsRoute, GivenUp, OnRoutes;
    forall p | IsRoute(fl, Unmarked(fl), Short(fl), p, origin, dest) ensures Shares(p, routes) {
      var k := SomeMarked(fl, now, routes, p, origin, dest);
      MarkedOnRoute(fl, now, routes, p, origin, dest, k);
    }
  }

  // Not all of its flights are still unmarked.
  lemma SomeMarked(fl: seq<Flight>, now: seq<Flight>, routes: seq<seq<nat>>, p: seq<nat>, origin: string, dest: string)
    returns (k: nat)
    requires MarksCover(fl, now, routes) && IsRoute(fl, Unmarked(fl), Short(fl), p, origin, dest)
    requires !Reachable(now, Unmarked(now), Short(now), origin, dest)
    ensures k < |p| && p[k] < |now| && now[p[k]].skip
  {
    if forall m :: 0 <= m < |p| ==> !now[p[m]].skip {
      assert IsRoute(now, Unmarked(now), Short(now), p, origin, dest);
    }
    k :| k < |p| && now[p[k]].skip;
  }

  lemma {:induction false} MarkedOnRoute(fl: seq<Flight>, now: seq<Flight>, routes: seq<seq<nat>>, p: seq<nat>,
                                         origin: string, dest: string, k: nat)
    requires MarksCover(fl, now, routes) && |now| == |fl| && GivenUp(fl, now, routes, dest)
    requires IsRoute(fl, Unmarked(fl), Short(fl), p, origin, dest)
    requires k < |p| && p[k] < |now| && now[p[k]].skip
    ensures Shares(p, routes)
    decreases |p| - k
  {
    if !OnRoutes(routes, p[k]) {
      assert p[k] in Unmarked(fl);
      assert fl[p[k]].to != dest && Deserted(fl, now, dest, fl[p[k]].to);
      assert fl[p[k + 1]].from == fl[p[k]].to;
      MarkedOnRoute(fl, now, routes, p, origin, dest, k + 1);
    }
  }

  // Such routes need not include a shortest one: here every route takes the one flight out
  // of the origin, and the longer of the two that do is a maximal family alone.
  lemma ShortestCanBeMissed()
    ensures var fl := [Flight("A", "B", 1, false), Flight("B", "D", 10, false),
                       Flight("B", "C", 1, false), Flight("C", "D", 1, false)];
      && DisjointRoutes(fl, [[0, 1]], "A", "D") && Maximal(fl, [[0, 1]], "A", "D")
      && IsRoute(fl, Unmarked(fl), Short(fl), [0, 2, 3], "A", "D")
      && Length(fl, [0, 1]) == 11 && Length(fl, [0, 2, 3]) == 3
  {
    hide Length, Maximal, DisjointRoutes;
    var fl := [Flight("A", "B", 1, false), Flight("B", "D", 10, false),
               Flight("B", "C", 1, false), Flight("C", "D", 1, false)];
    assert IsRoute(fl, Unmarked(fl), Short(fl), [0, 1], "A", "D");
    OneRouteDisjoint(fl, [0, 1], "A", "D");
    OnlyFlightOut(fl, [0, 1], "A", "D");
    TwoAndThree(fl);
  }

  lemma OneRouteDisjoint(fl: seq<Flight>, p: seq<nat>, origin: string, dest: string)
    requires IsRoute(fl, Unmarked(fl), Short(fl), p, origin, dest) && Distinct(p)
    ensures DisjointRoutes(fl, [p], origin, dest)
  {
    hide IsRoute, Distinct;
  }

  // If one flight alone leaves the origin, any one route is a maximal family.
  lemma OnlyFlightOut(fl: seq<Flight>, p: seq<nat>, origin: string, dest: string)
    requires p != [] && forall i :: 0 <= i < |fl| && fl[i].from == origin ==> i == p[0]
    ensures Maximal(fl, [p], origin, dest)
  {
    forall q | IsRoute(fl, Unmarked(fl), Short(fl), q, origin, dest) ensures Shares(q, [p]) {
      assert q[0] == p[0] && p[0] in [p][0];
      assert OnRoutes([p], q[0]);
    }
  }

  lemma TwoAndThree(fl: seq<Flight>)
    requires |fl| == 4
    ensures Length(fl, [0, 1]) == fl[0].distance + fl[1].distance
    ensures Length(fl, [0, 2, 3]) == fl[0].distance + fl[2].distance + fl[3].distance
  {
    assert [0, 1][..1] == [0] && [0][..0] == [];
    assert [0, 2, 3][..2] == [0, 2] && [0, 2][..1] == [0];
    assert Length(fl, [0]) == fl[0].distance;
    assert Length(fl, [0, 2]) == fl[0].distance + fl[2].distance;
  }
}
