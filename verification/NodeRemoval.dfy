// Several routes by node removal: after each route, the flights that made its last hop are
// taken out of the database.

module NodeRemoval {
  import opened Routes
  import opened DeepFirst

  predicate Fresh(fl: seq<Flight>) {
    forall i :: 0 <= i < |fl| ==> !fl[i].skip
  }

  // The database after the last hops from the cities in `gone` have been removed
  function Removed(fl: seq<Flight>, gone: set<string>, dest: string): (r: seq<Flight>)
    ensures |r| == |fl|
  {
    seq(|fl|, i requires 0 <= i < |fl| => if fl[i].to == dest && fl[i].from in gone then fl[i].(from := "") else fl[i])
  }

  // The flights that do not go to the destination
  function Avoiding(fl: seq<Flight>, dest: string): set<nat> {
    set i | 0 <= i < |fl| && fl[i].to != dest
  }

  // The city is the origin, or can be reached from it without a flight into the destination.
  ghost predicate ReachedAvoiding(fl: seq<Flight>, origin: string, city: string, dest: string) {
    city == origin || Reachable(fl, Avoiding(fl, dest), Avoiding(fl, dest), origin, city)
  }

  // The city flies to the destination.
  predicate FliesTo(fl: seq<Flight>, city: string, dest: string) {
    exists i :: 0 <= i < |fl| && fl[i].from == city && fl[i].to == dest
  }

  // The cities a route may reach the destination from
  ghost predicate LastStop(fl: seq<Flight>, origin: string, city: string, dest: string) {
    FliesTo(fl, city, dest) && ReachedAvoiding(fl, origin, city, dest)
  }

  // The report describes a route of real flights whose last hop leaves from the city.
  ghost predicate ReportsRouteVia(fl: seq<Flight>, report: seq<string>, origin: string, city: string, dest: string) {
    exists p ::
      && IsRoute(fl, Unmarked(fl), Unmarked(fl), p, origin, dest)
      && Distinct(p)
      && report == Cities(Entries(fl, p, dest))
      && fl[p[|p| - 1]].from == city
  }

  // How many flights still make a last hop
  function LastHops(fl: seq<Flight>, dest: string): nat {
    if fl == [] then 0
    else
      var f := fl[|fl| - 1];
      LastHops(fl[..|fl| - 1], dest) + if f.to == dest && f.from != "" then 1 else 0
  }

  // One report for each of the cities `lasts`, all different last stops
  ghost predicate Reported(fl: seq<Flight>, reports: seq<seq<string>>, lasts: seq<string>, from: string, to: string) {
    && |lasts| == |reports|
    && (forall i, j :: 0 <= i < j < |lasts| ==> lasts[i] != lasts[j])
    && (forall k :: 0 <= k < |lasts| ==>
         ReportsRouteVia(fl, reports[k], from, lasts[k], to) && LastStop(fl, from, lasts[k], to))
  }

  // A city without a name is reached, and so is the destination: through it the last hop
  // cannot be removed.
  ghost predicate NeverEnds(fl: seq<Flight>, origin: string, dest: string) {
    ReachedAvoiding(fl, origin, "", dest) && Reachable(fl, Unmarked(fl), Unmarked(fl), origin, dest)
  }

  // What a turn that finds a route does: the search finds one, its cities are reported, the
  // marks are cleared and the flights of its last hop lose their origin.
  ghost predicate TurnTakes(before: seq<Flight>, now: seq<Flight>, report: seq<string>, from: string, to: string) {
    exists after, stack, route :: TurnVia(before, now, report, from, to, after, stack, route)
  }

  ghost predicate TurnVia(before: seq<Flight>, now: seq<Flight>, report: seq<string>, from: string, to: string,
                          after: seq<Flight>, stack: seq<Flight>, route: seq<nat>) {
    && stack != [] && Found(OpenHunt(before, from, to), after, stack, route)
    && |now| == |before| == |after| && FirstTried(Listed, OpenHunt(before, from, to), after, route)
    && report == Cities(stack)
    && forall i :: 0 <= i < |now| ==>
         now[i] == Without(after[i].(skip := false), stack[|stack| - 1].from, stack[|stack| - 1].to)
  }

  // Turns of the loop, one after the other
  ghost predicate Turns(states: seq<seq<Flight>>, reports: seq<seq<string>>, from: string, to: string) {
    && |states| == |reports| + 1
    && forall k :: 0 <= k < |reports| ==> TurnTakes(states[k], states[k + 1], reports[k], from, to)
  }

  // One turn of the main loop: it ends here, or takes the last hops from one more city out
  // of the database.
  method Turn(db: Search, from: string, to: string, ghost fl: seq<Flight>, ghost gone: set<string>)
    returns (found: bool, report: seq<string>, last: string)
    requires db.btStack == [] && Fresh(fl) && db.flights == Removed(fl, gone, to)
    modifies db
    ensures var now := Removed(fl, gone, to); found <==> Reachable(now, Unmarked(now), Unmarked(now), from, to)
    ensures found ==> db.btStack == [] && db.flights == Removed(fl, gone + {last}, to)
    ensures found ==> TurnTakes(old(db.flights), db.flights, report, from, to)
    ensures found && !ReachedAvoiding(fl, from, "", to) ==>
      && last !in gone && last != "" && LastStop(fl, from, last, to) && ReportsRouteVia(fl, report, from, last, to)
  {
    hide Found, Reachable, IsRoute, Cities, LastStop, Removed, Unmarked, ReportsRouteVia, Fresh, ReachedAvoiding;
    hide FirstTried, DeadEnds, TurnTakes;
    report, last := [], "";
    ghost var now := db.flights;
    ghost var route := db.FindRoute(from, to);
    FoundIffReachable(OpenHunt(now, from, to), db.flights, db.btStack, route);
    found := db.RouteFound();
    if found {
      ghost var after, stack := db.flights, db.btStack;
      var f := db.GetTOS();
      if !ReachedAvoiding(fl, from, "", to) { RouteViaNewCity(fl, gone, from, to, db.flights, db.btStack, route); }
      LastHopRemoved(fl, gone, from, to, db.flights, db.btStack, route);
      var dist;
      report, dist := db.Route();
      db.ResetAllSkip();
      db.Remove(f);
      last := f.from;
      assert db.flights == Removed(fl, gone + {last}, to);
      TurnTaken(now, db.flights, report, from, to, after, stack, route);
    }
  }

  lemma TurnTaken(before: seq<Flight>, now: seq<Flight>, report: seq<string>, from: string, to: string,
                  after: seq<Flight>, stack: seq<Flight>, route: seq<nat>)
    requires stack != [] && Found(OpenHunt(before, from, to), after, stack, route)
    requires |now| == |before| == |after| && FirstTried(Listed, OpenHunt(before, from, to), after, route)
    requires report == Cities(stack)
    requires forall i :: 0 <= i < |now| ==>
      now[i] == Without(after[i].(skip := false), stack[|stack| - 1].from, stack[|stack| - 1].to)
    ensures TurnTakes(before, now, report, from, to)
  {
    hide Found, FirstTried, Cities;
    assert TurnVia(before, now, report, from, to, after, stack, route);
  }

  // The main loop. It ends exactly for the databases that are not as above, and then has
  // reported one route for each city that flies to the destination and is the origin or can
  // be reached from it without a flight into the destination.
  method ReportRoutes(db: Search, from: string, to: string)
    returns (reports: seq<seq<string>>, lasts: seq<string>, ghost states: seq<seq<Flight>>)
    requires db.btStack == [] && Fresh(db.flights) && !NeverEnds(db.flights, from, to)
    modifies db
    ensures Reported(old(db.flights), reports, lasts, from, to)
    ensures forall city :: city in lasts <==> LastStop(old(db.flights), from, city, to)
    ensures Turns(states, reports, from, to) && states[0] == old(db.flights)
    ensures !Reachable(states[|reports|], Unmarked(states[|reports|]), Unmarked(states[|reports|]), from, to)
  {
    hide Reachable, LastHops, Reported, LastStop, Removed, Unmarked, ReportsRouteVia, Fresh, ReachedAvoiding, TurnTakes;
    ghost var fl := db.flights;
    reports, lasts, states := [], [], [fl];
    ghost var gone: set<string> := {};
    NothingReported(fl, from, to);
    while true
      invariant db.btStack == []
      invariant (forall c :: c in gone <==> c in lasts) && db.flights == Removed(fl, gone, to)
      invariant gone == {} || !ReachedAvoiding(fl, from, "", to)
      invariant Reported(fl, reports, lasts, from, to)
      invariant Turns(states, reports, from, to) && states[0] == fl && states[|reports|] == db.flights
      decreases LastHops(db.flights, to)
    {
      var found, report, last := Turn(db, from, to, fl, gone);
      if !found { break; }
      FewerLeft(fl, gone, from, last, to);
      OneMoreReported(fl, reports, lasts, from, to, report, last);
      reports, lasts, gone := reports + [report], lasts + [last], gone + {last};
      states := states + [db.flights];
    }
    EveryLastStopGone(fl, gone, from, to, reports, lasts);
  }

  // The other databases: the loop has not ended after any number of turns.
  method RunTurns(db: Search, from: string, to: string, n: nat)
    returns (reports: seq<seq<string>>, ghost states: seq<seq<Flight>>)
    requires db.btStack == [] && Fresh(db.flights) && NeverEnds(db.flights, from, to)
    modifies db
    ensures |reports| == n && Turns(states, reports, from, to)
    ensures states[0] == old(db.flights) && states[n] == db.flights && db.btStack == []
    ensures Reachable(db.flights, Unmarked(db.flights), Unmarked(db.flights), from, to)
  {
    hide Reachable, Removed, Unmarked, Fresh, ReachedAvoiding, LastStop, ReportsRouteVia, Reported, TurnTakes;
    ghost var fl := db.flights;
    ghost var gone: set<string> := {};
    reports, states := [], [fl];
    NothingReported(fl, from, to);
    while |reports| < n
      invariant |reports| <= n && Turns(states, reports, from, to)
      invariant states[0] == fl && states[|reports|] == db.flights
      invariant db.btStack == [] && db.flights == Removed(fl, gone, to)
    {
      AlwaysARoute(fl, gone, from, to);
      var found, report, last := Turn(db, from, to, fl, gone);
      if !found { break; }
      states := states + [db.flights];
      reports, gone := reports + [report], gone + {last};
    }
    AlwaysARoute(fl, gone, from, to);
  }

  // A turn is settled by the database: what it reports and what it leaves.
  lemma TurnIsSettled(before: seq<Flight>, from: string, to: string,
                      now: seq<Flight>, report: seq<string>, now': seq<Flight>, report': seq<string>)
    requires TurnTakes(before, now, report, from, to) && TurnTakes(before, now', report', from, to)
    ensures now == now' && report == report'
  {
    hide FirstTried, IsRoute, Distinct, Reachable, Cities;
    var h := OpenHunt(before, from, to);
    var after: seq<Flight>, stack: seq<Flight>, route :| TurnVia(before, now, report, from, to, after, stack, route);
    var after': seq<Flight>, stack': seq<Flight>, route'
      :| TurnVia(before, now', report', from, to, after', stack', route');
    FoundSettles(Listed, h, after, stack, route);
    FoundSettles(Listed, h, after', stack', route');
    RouteIsSettled(Listed, h, after, route, after', route');
    forall i | 0 <= i < |before| ensures now[i] == now'[i] {
      assert after[i].(skip := false) == before[i].(skip := false) == after'[i].(skip := false);
    }
  }

  // So are all that follow.
  lemma {:induction false} TurnsAreSettled(from: string, to: string,
                                           states: seq<seq<Flight>>, reports: seq<seq<string>>,
                                           states': seq<seq<Flight>>, reports': seq<seq<string>>)
    requires Turns(states, reports, from, to) && Turns(states', reports', from, to)
    requires states[0] == states'[0] && |reports| == |reports'|
    ensures states == states' && reports == reports'
  {
    hide TurnTakes;
    if reports != [] {
      var n := |reports| - 1;
      TurnsAreSettled(from, to, states[..n + 1], reports[..n], states'[..n + 1], reports'[..n]);
      assert states[n] == states[..n + 1][n] == states'[n];
      TurnIsSettled(states[n], from, to, states[n + 1], reports[n], states'[n + 1], reports'[n]);
      assert states == states[..n + 1] + [states[n + 1]] && states' == states'[..n + 1] + [states'[n + 1]];
      assert reports == reports[..n] + [reports[n]] && reports' == reports'[..n] + [reports'[n]];
    }
  }

  // Whatever turns the loop has taken, only last hops have been removed.
  lemma {:induction false} TurnsRemove(states: seq<seq<Flight>>, reports: seq<seq<string>>, from: string, to: string)
    returns (gone: set<string>)
    requires Turns(states, reports, from, to) && Fresh(states[0])
    ensures states[|reports|] == Removed(states[0], gone, to)
  {
    hide TurnTakes, Fresh, Removed;
    var n := |reports| - 1;
    if reports == [] {
      gone := {};
      NothingReported(states[0], from, to);
    } else {
      gone := TurnsRemove(states[..n + 1], reports[..n], from, to);
      gone := TurnRemoves(states[0], gone, states[n], states[n + 1], reports[n], from, to);
    }
  }

  lemma TurnRemoves(fl: seq<Flight>, gone: set<string>, before: seq<Flight>, now: seq<Flight>, report: seq<string>,
                    from: string, to: string) returns (gone': set<string>)
    requires Fresh(fl) && before == Removed(fl, gone, to) && TurnTakes(before, now, report, from, to)
    ensures now == Removed(fl, gone', to)
  {
    hide Found, Fresh, Removed;
    var after: seq<Flight>, stack: seq<Flight>, route :| TurnVia(before, now, report, from, to, after, stack, route);
    gone' := gone + {stack[|stack| - 1].from};
    LastHopRemoved(fl, gone, from, to, after, stack, route);
    assert now == Removed(fl, gone', to);
  }

  // So in those databases no turn is the last: after any number of them there is a route.
  lemma NeverStops(states: seq<seq<Flight>>, reports: seq<seq<string>>, from: string, to: string)
    requires Turns(states, reports, from, to) && Fresh(states[0]) && NeverEnds(states[0], from, to)
    ensures var now := states[|reports|]; Reachable(now, Unmarked(now), Unmarked(now), from, to)
  {
    hide TurnTakes, Reachable, Removed;
    var gone := TurnsRemove(states, reports, from, to);
    AlwaysARoute(states[0], gone, from, to);
  }

  // In all others every turn takes at least one more last hop: there are no more turns than
  // last hops.
  lemma {:induction false} TurnsEnd(states: seq<seq<Flight>>, reports: seq<seq<string>>, from: string, to: string)
    returns (gone: set<string>)
    requires Turns(states, reports, from, to) && Fresh(states[0]) && !NeverEnds(states[0], from, to)
    ensures states[|reports|] == Removed(states[0], gone, to)
    ensures gone == {} || !ReachedAvoiding(states[0], from, "", to)
    ensures |reports| + LastHops(states[|reports|], to) <= LastHops(states[0], to)
  {
    hide TurnTakes, Fresh, Removed, LastHops, NeverEnds, ReachedAvoiding;
    var n := |reports| - 1;
    if reports == [] {
      gone := {};
      NothingReported(states[0], from, to);
    } else {
      gone := TurnsEnd(states[..n + 1], reports[..n], from, to);
      gone := TurnTakesHop(states[0], gone, states[n], states[n + 1], reports[n], from, to);
    }
  }

  lemma TurnTakesHop(fl: seq<Flight>, gone: set<string>, before: seq<Flight>, now: seq<Flight>, report: seq<string>,
                     from: string, to: string) returns (gone': set<string>)
    requires Fresh(fl) && !NeverEnds(fl, from, to)
    requires gone == {} || !ReachedAvoiding(fl, from, "", to)
    requires before == Removed(fl, gone, to) && TurnTakes(before, now, report, from, to)
    ensures !ReachedAvoiding(fl, from, "", to)
    ensures now == Removed(fl, gone', to) && LastHops(now, to) < LastHops(before, to)
  {
    hide Found, Fresh, Removed, LastHops, ReachedAvoiding, Reachable, LastStop, ReportsRouteVia;
    var after: seq<Flight>, stack: seq<Flight>, route :| TurnVia(before, now, report, from, to, after, stack, route);
    var city := stack[|stack| - 1].from;
    gone' := gone + {city};
    LastHopRemoved(fl, gone, from, to, after, stack, route);
    assert now == Removed(fl, gone', to);
    FoundIffReachable(OpenHunt(before, from, to), after, stack, route);
    NothingReported(fl, from, to);
    RouteViaNewCity(fl, gone, from, to, after, stack, route);
    FewerLeft(fl, gone, from, city, to);
  }

  lemma OneMoreReported(fl: seq<Flight>, reports: seq<seq<string>>, lasts: seq<string>, from: string, to: string,
                        report: seq<string>, city: string)
    requires Reported(fl, reports, lasts, from, to) && city !in lasts
    requires ReportsRouteVia(fl, report, from, city, to) && LastStop(fl, from, city, to)
    ensures Reported(fl, reports + [report], lasts + [city], from, to)
  {
    hide ReportsRouteVia, LastStop;
  }

  lemma NothingReported(fl: seq<Flight>, from: string, to: string)
    ensures Removed(fl, {}, to) == fl
    ensures Reported(fl, [], [], from, to)
  {
  }

  // Unless a city without a name is reached, a route of the thinned database is one of the
  // original database, and its last stop is a new one.
  lemma RouteViaNewCity(fl: seq<Flight>, gone: set<string>, origin: string, dest: string,
                        after: seq<Flight>, stack: seq<Flight>, route: seq<nat>)
    requires Fresh(fl) && !ReachedAvoiding(fl, origin, "", dest) && stack != []
    requires Found(OpenHunt(Removed(fl, gone, dest), origin, dest), after, stack, route)
    ensures var city := stack[|stack| - 1].from;
      && city !in gone && city != ""
      && LastStop(fl, origin, city, dest)
      && ReportsRouteVia(fl, Cities(stack), origin, city, dest)
  {
    var now := Removed(fl, gone, dest);
    var n := |route| - 1;
    var city := now[route[n]].from;
    assert ReachedAvoiding(fl, origin, city, dest) by {
      if n > 0 {
        assert IsRoute(fl, Avoiding(fl, dest), Avoiding(fl, dest), route[..n], origin, city);
      }
    }
    assert city != "" && now[route[n]] == fl[route[n]];
    forall k | 0 <= k <= n ensures now[route[k]] == fl[route[k]] { if k < n { assert now[route[k]].to != dest; } }
    assert stack == Entries(fl, route, dest);
    assert IsRoute(fl, Unmarked(fl), Unmarked(fl), route, origin, dest);
  }

  // Whatever city the last hop leaves from, its hops are the ones removed.
  lemma LastHopRemoved(fl: seq<Flight>, gone: set<string>, origin: string, dest: string,
                       after: seq<Flight>, stack: seq<Flight>, route: seq<nat>)
    requires Fresh(fl) && stack != []
    requires Found(OpenHunt(Removed(fl, gone, dest), origin, dest), after, stack, route)
    ensures stack[|stack| - 1].to == dest && |after| == |fl| == |Removed(fl, gone, dest)|
    ensures forall i :: 0 <= i < |fl| ==>
      Without(after[i].(skip := false), stack[|stack| - 1].from, dest)
        == Removed(fl, gone + {stack[|stack| - 1].from}, dest)[i]
  {
    hide IsRoute, Reachable, Distinct, Unmarked;
    var now := Removed(fl, gone, dest);
    forall i | 0 <= i < |fl| ensures after[i].(skip := false) == now[i] { assert now[i].skip == fl[i].skip; }
  }

  // One removal more, and at least one last hop fewer
  lemma FewerLeft(fl: seq<Flight>, gone: set<string>, origin: string, city: string, dest: string)
    requires LastStop(fl, origin, city, dest) && city !in gone && city != ""
    ensures LastHops(Removed(fl, gone + {city}, dest), dest) < LastHops(Removed(fl, gone, dest), dest)
  {
    var i :| 0 <= i < |fl| && fl[i].from == city && fl[i].to == dest;
    FewerLastHops(Removed(fl, gone, dest), Removed(fl, gone + {city}, dest), dest, i);
  }

  lemma {:induction false} FewerLastHops(a: seq<Flight>, b: seq<Flight>, dest: string, i: nat)
    requires |a| == |b|
    requires forall k :: 0 <= k < |a| ==> b[k] == a[k] || (a[k].to == dest && b[k] == a[k].(from := ""))
    ensures LastHops(b, dest) <= LastHops(a, dest)
    ensures i < |a| && a[i].to == dest && a[i].from != "" && b[i].from == "" ==> LastHops(b, dest) < LastHops(a, dest)
  {
    if a != [] {
      var n := |a| - 1;
      FewerLastHops(a[..n], b[..n], dest, i);
    }
  }

  // When no route is left, the reported cities are all the last stops there were.
  lemma EveryLastStopGone(fl: seq<Flight>, gone: set<string>, origin: string, dest: string,
                          reports: seq<seq<string>>, lasts: seq<string>)
    requires Fresh(fl)
    requires var now := Removed(fl, gone, dest); !Reachable(now, Unmarked(now), Unmarked(now), origin, dest)
    requires Reported(fl, reports, lasts, origin, dest) && forall c :: c in gone <==> c in lasts
    ensures forall city :: city in lasts <==> LastStop(fl, origin, city, dest)
  {
    hide Reachable, LastStop;
    forall city ensures city in lasts <==> LastStop(fl, origin, city, dest) {
      if LastStop(fl, origin, city, dest) && city !in gone { LastStopIsReachable(fl, gone, origin, city, dest); }
    }
  }

  lemma LastStopIsReachable(fl: seq<Flight>, gone: set<string>, origin: string, city: string, dest: string)
    requires Fresh(fl) && LastStop(fl, origin, city, dest) && city !in gone
    ensures var now := Removed(fl, gone, dest);
      Reachable(now, Unmarked(now), Unmarked(now), origin, dest)
  {
    var i :| 0 <= i < |fl| && fl[i].from == city && fl[i].to == dest;
    HopMakesRoute(fl, gone, origin, city, dest, i);
  }

  // A last hop of the thinned database from a city that is reached makes a route.
  lemma HopMakesRoute(fl: seq<Flight>, gone: set<string>, origin: string, city: string, dest: string, i: nat)
    requires Fresh(fl) && ReachedAvoiding(fl, origin, city, dest)
    requires i < |fl| && Removed(fl, gone, dest)[i].from == city && fl[i].to == dest
    ensures var now := Removed(fl, gone, dest);
      Reachable(now, Unmarked(now), Unmarked(now), origin, dest)
  {
    var now := Removed(fl, gone, dest);
    if city == origin {
      assert IsRoute(now, Unmarked(now), Unmarked(now), [i], origin, dest);
    } else {
      var p: seq<nat> :| IsRoute(fl, Avoiding(fl, dest), Avoiding(fl, dest), p, origin, city);
      forall k | 0 <= k < |p| ensures now[p[k]] == fl[p[k]] { assert p[k] in Avoiding(fl, dest); }
      var q := p + [i];
      forall k, m | 0 <= k && m == k + 1 && m < |q| ensures now[q[k]].to == now[q[m]].from {
        if m < |p| { assert fl[p[k]].to == fl[p[m]].from; }
      }
      assert IsRoute(now, Unmarked(now), Unmarked(now), q, origin, dest);
    }
  }

  // A route first comes to the destination from some last stop.
  lemma {:induction false} SomeLastStop(fl: seq<Flight>, origin: string, dest: string, p: seq<nat>, k: nat)
    returns (i: nat)
    requires IsRoute(fl, Unmarked(fl), Unmarked(fl), p, origin, dest) && k < |p|
    requires forall m :: 0 <= m < k ==> fl[p[m]].to != dest
    ensures i < |fl| && fl[i].to == dest && LastStop(fl, origin, fl[i].from, dest)
    decreases |p| - k
  {
    if fl[p[k]].to == dest {
      i := p[k];
      if k > 0 {
        assert IsRoute(fl, Avoiding(fl, dest), Avoiding(fl, dest), p[..k], origin, fl[i].from);
      }
    } else {
      i := SomeLastStop(fl, origin, dest, p, k + 1);
    }
  }

  // With a city without a name on the way there is a route whatever has been removed: over
  // a last hop that is left, or over a removed one from the city without a name.
  lemma AlwaysARoute(fl: seq<Flight>, gone: set<string>, origin: string, dest: string)
    requires Fresh(fl) && NeverEnds(fl, origin, dest)
    ensures var now := Removed(fl, gone, dest);
      Reachable(now, Unmarked(now), Unmarked(now), origin, dest)
  {
    hide IsRoute, Unmarked, Avoiding;
    var p :| IsRoute(fl, Unmarked(fl), Unmarked(fl), p, origin, dest);
    assert |p| > 0 by { RouteIsNotEmpty(fl, p, origin, dest); }
    var i := SomeLastStop(fl, origin, dest, p, 0);
    HopMakesRoute(fl, gone, origin, if fl[i].from in gone then "" else fl[i].from, dest, i);
  }

  lemma RouteIsNotEmpty(fl: seq<Flight>, p: seq<nat>, origin: string, dest: string)
    requires IsRoute(fl, Unmarked(fl), Unmarked(fl), p, origin, dest)
    ensures |p| > 0
  {
  }

  // A route to a city without a name, and on from it
  lemma UnnamedCityNeverEnds()
    ensures var fl := [Flight("A", "", 1, false), Flight("", "B", 1, false)];
      Fresh(fl) && NeverEnds(fl, "A", "B")
  {
    var fl := [Flight("A", "", 1, false), Flight("", "B", 1, false)];
    assert IsRoute(fl, Avoiding(fl, "B"), Avoiding(fl, "B"), [0], "A", "");
    assert IsRoute(fl, Unmarked(fl), Unmarked(fl), [0, 1], "A", "B");
  }

  // No database with names throughout is like that.
  lemma NamedCitiesEnd(fl: seq<Flight>, origin: string, dest: string)
    requires origin != "" && forall i :: 0 <= i < |fl| ==> fl[i].to != ""
    ensures !NeverEnds(fl, origin, dest)
  {
  }
}
