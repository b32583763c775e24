/** `calculItinerairePlusProche`: the nearest professional of a chosen
    profession by driving time. Candidates are ranked by straight-line
    distance, the ten closest are routed, and the fastest route wins. */
module Nearest {
  import opened JsValues
  import opened FieldResolver
  import opened Features
  import opened Sequences

  /** How many of the straight-line closest candidates are routed. */
  const MAX_ROUTED := 10

  /** The display record built for a candidate (`top10`'s map step), with
      `d` its straight-line distance key from the origin. */
  datatype Dest = Dest(
    nom: string, civilite: string, adresse: string, commune: string,
    profession: string, tel: string, coordinates: Coord, d: int)

  /** The first route the routing service returns for one request. */
  datatype Route = Route(duration: int, distance: int)

  /** `{ routeData, dest }` */
  datatype Routed = Routed(dest: Dest, route: Route)

  /** Nothing computed (no candidate or no origin), the routing join
      rejected, or the winning candidate with its route. */
  datatype Outcome = NoCandidate | RoutingFailed | Found(best: Routed)

  function Min(a: int, b: int): int {
    if a <= b then a else b
  }

  function HasProfession(prof: string): Feature -> bool {
    f => FieldOf(f, PROFESSION) == prof
  }

  /** `getCandidatesByProfession`: exact match on the resolved profession. */
  function Candidates(features: seq<Feature>, prof: string): seq<Feature> {
    Filter(features, HasProfession(prof))
  }

  /** The square of `euclideanDistance`. Over exact arithmetic it orders
      candidates as the distance does, the square root being increasing;
      in double precision two near-equal squares may round to the same
      distance and tie, which this model separates. */
  function SquaredDistance(a: Coord, b: Coord): nat {
    (b.lon - a.lon) * (b.lon - a.lon) + (b.lat - a.lat) * (b.lat - a.lat)
  }

  function ToDest(f: Feature, origin: Coord): Dest {
    var tel := FieldOf(f, TEL);
    Dest(FieldOf(f, NOM), FieldOf(f, CIVILITE), FieldOf(f, ADRESSE), FieldOf(f, COMMUNE),
         FieldOf(f, PROFESSION), if tel == "" then "Non disponible" else tel,
         f.location, SquaredDistance(origin, f.location))
  }

  function Dests(cands: seq<Feature>, origin: Coord): seq<Dest> {
    seq(|cands|, i requires 0 <= i < |cands| => ToDest(cands[i], origin))
  }

  /** The sort key of `top10`: straight-line distance. */
  const ByDistance: Dest -> int := (x: Dest) => x.d
  /** The sort key of the best-route pick: route duration. */
  const ByDuration: Routed -> int := (x: Routed) => x.route.duration

  /** `.sort((a, b) => a.d - b.d).slice(0, 10)` */
  function Top10(cands: seq<Feature>, origin: Coord): seq<Dest> {
    SortBy(Dests(cands, origin), ByDistance)[..Min(MAX_ROUTED, |cands|)]
  }

  /** `Promise.all` over one routing request per destination: every
      request must yield a route, or the whole join rejects. */
  function RouteAll(origin: Coord, top: seq<Dest>, router: (Coord, Coord) -> Option<Route>): (r: Option<seq<Routed>>)
    ensures r.Some? ==> |r.value| == |top|
    ensures r.Some? ==> forall i :: 0 <= i < |top| ==>
      router(origin, top[i].coordinates) == Some(r.value[i].route) && r.value[i].dest == top[i]
    ensures r.None? <==> exists i :: 0 <= i < |top| && router(origin, top[i].coordinates).None?
  {
    if top == [] then Some([])
    else
      var first := router(origin, top[0].coordinates);
      var rest := RouteAll(origin, top[1..], router);
      assert forall i :: 0 < i < |top| ==> top[i] == top[1..][i - 1];
      if first.None? || rest.None? then None
      else Some([Routed(top[0], first.value)] + rest.value)
  }

  /** The whole search. `router` stands for the routing service: the first
      route it returns for a request from the origin to a destination, or
      `None` when the request fails or the response holds no route. */
  function NearestSearch(features: seq<Feature>, prof: string, origin: Option<Coord>,
                         router: (Coord, Coord) -> Option<Route>): Outcome
  {
    var cands := Candidates(features, prof);
    if |cands| == 0 || origin.None? then NoCandidate
    else
      var top := Top10(cands, origin.value);
      var routes := RouteAll(origin.value, top, router);
      if routes.None? then RoutingFailed
      else Found(SortBy(routes.value, ByDuration)[0])
  }

  /** The candidates are exactly the features whose resolved profession is
      the chosen one, in dataset order. */
  lemma CandidatesSpec(features: seq<Feature>, prof: string)
    ensures IsSubsequence(Candidates(features, prof), features)
    ensures forall f :: f in Candidates(features, prof) ==> FieldOf(f, PROFESSION) == prof
    ensures forall f :: f in features && FieldOf(f, PROFESSION) == prof ==>
      multiset(Candidates(features, prof))[f] == multiset(features)[f]
  {
    FilterIsSubsequence(features, HasProfession(prof));
    forall f | f in features && FieldOf(f, PROFESSION) == prof
      ensures multiset(Candidates(features, prof))[f] == multiset(features)[f]
    {
      FilterKeepsMatches(features, HasProfession(prof), f);
    }
  }

  /** The routed list holds the ten (or all, if fewer) straight-line closest
      candidates, nearest first; none left out is closer than one kept. */
  lemma Top10Spec(cands: seq<Feature>, origin: Coord)
    ensures var top := Top10(cands, origin);
      var all := Dests(cands, origin);
      && |top| == Min(MAX_ROUTED, |cands|)
      && SortedBy(top, ByDistance)
      && multiset(top) <= multiset(all)
      && forall x, y :: x in multiset(top) && y in multiset(all) - multiset(top) ==> x.d <= y.d
  {
    var all := Dests(cands, origin);
    var sorted := SortBy(all, ByDistance);
    var m := Min(MAX_ROUTED, |cands|);
    SortBySorted(all, ByDistance);
    SortedCut(sorted, ByDistance, m);
    assert sorted == sorted[..m] + sorted[m..];
    assert multiset(sorted) == multiset(all);
  }

  /** Ties in distance keep dataset order: the routed candidates at any
      given distance are the first ones at that distance among all
      candidates. */
  lemma Top10Stable(cands: seq<Feature>, origin: Coord, v: int)
    ensures Filter(Top10(cands, origin), KeyIs(ByDistance, v)) <= Filter(Dests(cands, origin), KeyIs(ByDistance, v))
  {
    var all := Dests(cands, origin);
    FilterPrefix(SortBy(all, ByDistance), Min(MAX_ROUTED, |cands|), KeyIs(ByDistance, v));
    SortByStable(all, ByDistance, v);
  }

  /** Nothing is computed exactly when no feature has the profession or no
      origin has been placed. */
  lemma NearestSearchNoCandidate(features: seq<Feature>, prof: string, origin: Option<Coord>,
                                 router: (Coord, Coord) -> Option<Route>)
    ensures NearestSearch(features, prof, origin, router) == NoCandidate <==>
      Candidates(features, prof) == [] || origin.None?
  {
  }

  /** The search fails exactly when a candidate exists, an origin is placed,
      and some routing request for the ten closest fails. */
  lemma NearestSearchFailed(features: seq<Feature>, prof: string, origin: Option<Coord>,
                            router: (Coord, Coord) -> Option<Route>)
    ensures NearestSearch(features, prof, origin, router) == RoutingFailed <==>
      Candidates(features, prof) != [] && origin.Some?
      && exists x :: x in Top10(Candidates(features, prof), origin.value) && router(origin.value, x.coordinates).None?
  {
  }

  /** The head of the routes sorted by duration is one of the routed
      destinations, paired with the route the service gave for it. */
  lemma BestRouteOwn(o: Coord, top: seq<Dest>, router: (Coord, Coord) -> Option<Route>)
    requires top != [] && RouteAll(o, top, router).Some?
    ensures var best := SortBy(RouteAll(o, top, router).value, ByDuration)[0];
      best.dest in top && router(o, best.dest.coordinates) == Some(best.route)
  {
    var routes := RouteAll(o, top, router).value;
    var best := SortBy(routes, ByDuration)[0];
    SortByHead(routes, ByDuration);
    assert best in multiset(routes);
    var k :| 0 <= k < |routes| && routes[k] == best;
    assert best.dest == top[k];
  }

  /** No routed destination has a shorter route than the head. */
  lemma BestRouteFastest(o: Coord, top: seq<Dest>, router: (Coord, Coord) -> Option<Route>)
    requires top != [] && RouteAll(o, top, router).Some?
    ensures var best := SortBy(RouteAll(o, top, router).value, ByDuration)[0];
      forall x :: x in top ==>
        router(o, x.coordinates).Some? && best.route.duration <= router(o, x.coordinates).value.duration
  {
    var routes := RouteAll(o, top, router).value;
    SortByHead(routes, ByDuration);
    forall x | x in top
      ensures router(o, x.coordinates).Some?
      ensures SortBy(routes, ByDuration)[0].route.duration <= router(o, x.coordinates).value.duration
    {
      var i :| 0 <= i < |top| && top[i] == x;
      assert ByDuration(routes[i]) == routes[i].route.duration;
    }
  }

  /** Among destinations whose route is as fast as the head's, the head's
      destination comes first. */
  lemma BestRouteFirst(o: Coord, top: seq<Dest>, router: (Coord, Coord) -> Option<Route>)
    requires top != [] && RouteAll(o, top, router).Some?
    ensures var best := SortBy(RouteAll(o, top, router).value, ByDuration)[0];
      forall i :: 0 <= i < |top| && router(o, top[i].coordinates).value.duration == best.route.duration
        ==> best.dest in top[..i + 1]
  {
    var routes := RouteAll(o, top, router).value;
    var best := SortBy(routes, ByDuration)[0];
    SortByHead(routes, ByDuration);
    forall i | 0 <= i < |top| && router(o, top[i].coordinates).value.duration == best.route.duration
      ensures best.dest in top[..i + 1]
    {
      assert KeyIs(ByDuration, ByDuration(best))(routes[i]);
      FirstOfTies(routes, KeyIs(ByDuration, ByDuration(best)), i);
      var j :| 0 <= j <= i && routes[j] == best;
      assert top[..i + 1][j] == best.dest;
    }
  }

  /** Display records built from candidates of one profession all carry
      that profession. */
  lemma DestsProfession(cands: seq<Feature>, o: Coord, prof: string)
    requires forall f :: f in cands ==> FieldOf(f, PROFESSION) == prof
    ensures forall x :: x in Dests(cands, o) ==> x.profession == prof
  {
    forall x | x in Dests(cands, o) ensures x.profession == prof {
      var c :| 0 <= c < |cands| && Dests(cands, o)[c] == x;
      assert cands[c] in cands;
    }
  }

  /** Every routed destination has the chosen profession. */
  lemma Top10Profession(features: seq<Feature>, prof: string, o: Coord)
    ensures forall x :: x in Top10(Candidates(features, prof), o) ==> x.profession == prof
  {
    var cands := Candidates(features, prof);
    CandidatesSpec(features, prof);
    DestsProfession(cands, o, prof);
    Top10Spec(cands, o);
    forall x | x in Top10(cands, o) ensures x in Dests(cands, o) {
      assert x in multiset(Top10(cands, o));
    }
  }

  /** The winner is one of the ten straight-line closest candidates, has the
      chosen profession, and its route is the one the service gave for it;
      no routed candidate is faster, and among equally fast ones it is the
      first in distance order. */
  lemma NearestSearchFound(features: seq<Feature>, prof: string, origin: Option<Coord>,
                           router: (Coord, Coord) -> Option<Route>)
    requires NearestSearch(features, prof, origin, router).Found?
    ensures origin.Some?
    ensures var best := NearestSearch(features, prof, origin, router).best;
      var top := Top10(Candidates(features, prof), origin.value);
      && best.dest in top
      && best.dest.profession == prof
      && router(origin.value, best.dest.coordinates) == Some(best.route)
      && (forall x :: x in top ==>
            (router(origin.value, x.coordinates).Some?
             && best.route.duration <= router(origin.value, x.coordinates).value.duration))
      && (forall i :: 0 <= i < |top| && router(origin.value, top[i].coordinates).value.duration == best.route.duration
            ==> best.dest in top[..i + 1])
  {
    var cands := Candidates(features, prof);
    Top10Spec(cands, origin.value);
    var top := Top10(cands, origin.value);
    BestRouteOwn(origin.value, top, router);
    BestRouteFastest(origin.value, top, router);
    BestRouteFirst(origin.value, top, router);
    Top10Profession(features, prof, origin.value);
  }
}
