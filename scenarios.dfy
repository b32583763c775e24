/** Two scenarios: the facet filter on a dentist and a doctor, and the
    nearest search when the closer destination has the slower route. */
module Scenarios {
  import opened JsValues
  import opened FieldResolver
  import opened Features
  import opened Sequences
  import opened FacetFilter
  import opened Nearest

  /** Filtering a dentist and a doctor on profession "Médecin" alone keeps
      only the doctor, whatever their communes. */
  lemma FacetScenario(dentist: Feature, doctor: Feature)
    requires FieldOf(dentist, PROFESSION) == "Dentiste" && FieldOf(doctor, PROFESSION) == "Médecin"
    ensures ApplyFacets([dentist, doctor], "Médecin", "") == [doctor]
  {
    var sel := Selects("Médecin", "");
    assert !sel(dentist) && sel(doctor);
    assert [dentist, doctor][1..] == [doctor] && [doctor][1..] == [];
    assert Filter([doctor], sel) == [doctor] + Filter([], sel);
  }

  /** The winner is the fastest route, not the straight-line closest: when
      the closer of two routed destinations has the slower route, the
      farther one wins. */
  lemma FastestNotClosest(o: Coord, near: Dest, far: Dest, router: (Coord, Coord) -> Option<Route>, slow: Route, fast: Route)
    requires near.d < far.d && fast.duration < slow.duration
    requires router(o, near.coordinates) == Some(slow) && router(o, far.coordinates) == Some(fast)
    ensures SortBy([near, far], ByDistance) == [near, far]
    ensures RouteAll(o, [near, far], router).Some?
    ensures SortBy(RouteAll(o, [near, far], router).value, ByDuration)[0] == Routed(far, fast)
  {
    assert [near, far][1..] == [far];
    assert SortBy([far], ByDistance) == [far];
    var rn, rf := Routed(near, slow), Routed(far, fast);
    assert [far][1..] == [];
    assert RouteAll(o, [], router) == Some([]);
    assert [rf] + [] == [rf];
    assert RouteAll(o, [far], router) == Some([rf]);
    assert [near, far][1..] == [far];
    assert [rn] + [rf] == [rn, rf];
    assert RouteAll(o, [near, far], router) == Some([rn, rf]);
    assert [rn, rf][1..] == [rf];
    assert SortBy([rf], ByDuration) == [rf];
  }
}
