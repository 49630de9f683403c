// Depth-first search for a route, with backtracking over an explicit stack.

module DeepFirst {
  import opened Routes

  // A removed flight keeps its place but leaves from nowhere.
  function Without(f: Flight, from: string, to: string): Flight {
    if f.from == from && f.to == to then f.(from := "") else f
  }

  // The search described by a database alone: every unmarked flight may be used.
  ghost function OpenHunt(fl: seq<Flight>, origin: string, dest: string): Hunt {
    Hunt(fl, Unmarked(fl), Unmarked(fl), origin, dest)
  }

  class Search {
    var flights: seq<Flight>
    var btStack: seq<Flight>  // top at the end

    constructor ()
      ensures flights == [] && btStack == []
    {
      flights, btStack := [], [];
    }

    method AddFlight(from: string, to: string, dist: int)
      modifies this`flights
      ensures flights == old(flights) + [Flight(from, to, dist, false)]
    {
      flights := flights + [Flight(from, to, dist, false)];
    }

    method RouteFound() returns (found: bool)
      ensures found <==> btStack != []
    {
      found := btStack != [];
    }

    // Takes the first unused flight between the two cities.
    method Match(from: string, to: string) returns (found: bool, dist: int, ghost at: nat)
      modifies this`flights
      ensures found ==>
        && at < |old(flights)| && Leaves(old(flights)[at], from) && old(flights)[at].to == to
        && (forall k :: 0 <= k < at ==> !(Leaves(old(flights)[k], from) && old(flights)[k].to == to))
        && flights == Mark(old(flights), at) && dist == old(flights)[at].distance
      ensures !found ==>
        && (forall k :: 0 <= k < |flights| ==> !(Leaves(flights[k], from) && flights[k].to == to))
        && flights == old(flights)
    {
      for i := 0 to |flights|
        invariant flights == old(flights)
        invariant forall k :: 0 <= k < i ==> !(Leaves(flights[k], from) && flights[k].to == to)
      {
        if flights[i].from == from && flights[i].to == to && !flights[i].skip {
          dist := flights[i].distance;
          flights := flights[i := flights[i].(skip := true)];
          return true, dist, i;
        }
      }
      return false, 0, 0;
    }

    // Takes the first unused flight out of the city.
    method Find(from: string) returns (found: bool, f: Flight, ghost at: nat)
      modifies this`flights
      ensures found ==>
        && at < |old(flights)| && Leaves(old(flights)[at], from)
        && (forall k :: 0 <= k < at ==> !Leaves(old(flights)[k], from))
        && flights == Mark(old(flights), at) && f == old(flights)[at]
      ensures !found ==>
        && (forall k :: 0 <= k < |flights| ==> !Leaves(flights[k], from))
        && flights == old(flights)
    {
      for i := 0 to |flights|
        invariant flights == old(flights)
        invariant forall k :: 0 <= k < i ==> !Leaves(flights[k], from)
      {
        if flights[i].from == from && !flights[i].skip {
          f := flights[i];
          flights := flights[i := flights[i].(skip := true)];
          return true, f, i;
        }
      }
      return false, Flight("", "", 0, false), 0;
    }

    // Leaves a route on the stack exactly when the destination can be reached by at least
    // one flight, along unused flights: the route by the first connection left at each city.
    // The flights it looked at are used up.
    method FindRoute(from: string, to: string) returns (ghost route: seq<nat>)
      requires btStack == []
      modifies this
      ensures Found(OpenHunt(old(flights), from, to), flights, btStack, route)
      ensures |flights| == |old(flights)|
      ensures btStack != [] ==> FirstTried(Listed, OpenHunt(old(flights), from, to), flights, route)
      ensures DeadEnds(OpenHunt(old(flights), from, to), flights, if btStack == [] then [] else route)
      ensures CountUnmarked(flights) <= CountUnmarked(old(flights))
    {
      ghost var h := OpenHunt(flights, from, to);
      SearchStarts(h, flights);
      NoDeadEndsYet(h);
      route := FindRouteFrom(from, to, h, []);
    }

    // The search in progress: `path` leads from the hunt's origin to the city `from`.
    method FindRouteFrom(from: string, to: string, ghost h: Hunt, ghost path: seq<nat>) returns (ghost route: seq<nat>)
      requires h == OpenHunt(h.start, h.origin, to)
      requires Searching(h, flights, btStack, path, from)
      requires TakenInOrder(Listed, h, flights, path) && DeadEnds(h, flights, path)
      modifies this
      ensures Found(h, flights, btStack, route)
      ensures |flights| == |h.start|
      ensures btStack != [] ==> FirstTried(Listed, h, flights, route)
      ensures DeadEnds(h, flights, if btStack == [] then [] else route)
      ensures CountUnmarked(flights) <= CountUnmarked(old(flights))
      decreases CountUnmarked(flights), |btStack|
    {
      hide SameFlights, Found, MarksOk, Visited, OnPath, Chain, Entries, Distinct;
      hide DeadEnds, TakenInOrder, FirstTried, NoDirect;
      ghost var at;
      ghost var before := flights;
      ghost var depth := |btStack|;
      StillOpen(h, flights, btStack, path, from);
      var matched, dist;
      matched, dist, at := Match(from, to);
      if matched {
        SearchFinds(h, before, btStack, path, from, at);
        OrderFinds(Listed, h, before, btStack, path, from, at);
        DeadEndsTake(h, before, path, at);
        MarkingCounts(before, at);
        btStack := btStack + [Flight(from, to, dist, false)];
        return path + [at];
      }
      NoneDirect(h, flights, btStack, path, from);
      var found, f;
      found, f, at := Find(from);
      if found {
        SearchAdvances(h, before, btStack, path, from, at);
        OrderAdvances(Listed, h, before, btStack, path, from, at);
        DeadEndsTake(h, before, path, at);
        MarkingCounts(before, at);
        btStack := btStack + [Flight(from, to, f.distance, false)];
        route := FindRouteFrom(f.to, to, h, path + [at]);
      } else if btStack != [] {
        SearchBacktracks(h, before, btStack, path, from);
        OrderLeaves(Listed, h, before, path, |path| - 1);
        DeadEndsLeave(h, before, btStack, path, from);
        f := btStack[|btStack| - 1];
        btStack := btStack[..|btStack| - 1];
        route := FindRouteFrom(f.from, f.to, h, path[..|path| - 1]);
      } else {
        SearchFails(h, flights, from);
        route := [];
      }
    }

    // The flight on top of the stack
    method GetTOS() returns (f: Flight)
      requires btStack != []
      ensures f == btStack[|btStack| - 1]
    {
      f := btStack[|btStack| - 1];
    }

    method ResetAllSkip()
      modifies this`flights
      ensures |flights| == |old(flights)|
      ensures forall k :: 0 <= k < |flights| ==> flights[k] == old(flights)[k].(skip := false)
    {
      for i := 0 to |flights|
        invariant |flights| == |old(flights)|
        invariant forall k :: 0 <= k < |flights| ==>
          flights[k] == if k < i then old(flights)[k].(skip := false) else old(flights)[k]
      {
        flights := flights[i := flights[i].(skip := false)];
      }
    }

    // Takes every flight between the two cities out of the database.
    method Remove(f: Flight)
      modifies this`flights
      ensures |flights| == |old(flights)|
      ensures forall k :: 0 <= k < |flights| ==> flights[k] == Without(old(flights)[k], f.from, f.to)
    {
      for i := 0 to |flights|
        invariant |flights| == |old(flights)|
        invariant forall k :: 0 <= k < |flights| ==>
          flights[k] == if k < i then Without(old(flights)[k], f.from, f.to) else old(flights)[k]
      {
        if flights[i].from == f.from && flights[i].to == f.to {
          flights := flights[i := flights[i].(from := "")];
        }
      }
    }

    // Reports the route's cities and total distance, emptying the stack.
    method Route() returns (cities: seq<string>, dist: int)
      modifies this`btStack
      ensures btStack == []
      ensures cities == Cities(old(btStack)) && dist == Distance(old(btStack))
    {
      ghost var stack := btStack;
      var rev: seq<Flight> := [];
      dist := 0;
      cities := [];
      var f := Flight("", "", 0, false);
      while btStack != []
        invariant |btStack| + |rev| == |stack|
        invariant btStack == stack[..|btStack|]
        invariant forall k :: 0 <= k < |rev| ==> rev[k] == stack[|stack| - 1 - k]
        decreases |btStack|
      {
        f := btStack[|btStack| - 1];
        rev := rev + [f];
        btStack := btStack[..|btStack| - 1];
      }
      f := Flight("", "", 0, false);
      while rev != []
        invariant |rev| <= |stack| && |cities| == |stack| - |rev|
        invariant forall k :: 0 <= k < |rev| ==> rev[k] == stack[|stack| - 1 - k]
        invariant forall k :: 0 <= k < |cities| ==> cities[k] == stack[k].from
        invariant dist == Distance(stack[..|cities|])
        invariant f.to == if cities == [] then "" else stack[|cities| - 1].to
        decreases |rev|
      {
        f := rev[|rev| - 1];
        rev := rev[..|rev| - 1];
        assert stack[..|cities| + 1][..|cities|] == stack[..|cities|];
        cities := cities + [f.from];
        dist := dist + f.distance;
      }
      assert stack[..|stack|] == stack;
      cities := cities + [f.to];
    }
  }

  // A search ends with a route on the stack exactly when there is one.
  lemma FoundIffReachable(h: Hunt, fl: seq<Flight>, stack: seq<Flight>, route: seq<nat>)
    requires Found(h, fl, stack, route)
    ensures stack != [] <==> Reachable(h.start, h.avail, h.conn, h.origin, h.dest)
  {
  }

  // While a hunt is on, a flight is unmarked only if it was so at the start.
  lemma StillOpen(h: Hunt, fl: seq<Flight>, stack: seq<Flight>, path: seq<nat>, from: string)
    requires h == OpenHunt(h.start, h.origin, h.dest)
    requires Searching(h, fl, stack, path, from)
    ensures |fl| == |h.start| && |stack| == |path|
    ensures forall i :: 0 <= i < |fl| && !fl[i].skip ==> i in h.avail
  {
  }
}
