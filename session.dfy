/** The page's session state and the handlers that change it: the origin
    placed on the map (`clickedCoordinates`), the profession chosen for the
    route search (`choixProfession`), the arming toggle (`isOn`), and the
    two navigation selectors that drive the facet filter. */
module Session {
  import opened JsValues
  import opened Features
  import opened FacetFilter
  import opened Nearest

  class SessionState {
    var origin: Option<Coord>
    var profession: string
    var armed: bool
    var profFilter: string
    var comFilter: string

    /** The state when the page loads. */
    constructor ()
      ensures origin == None && profession == "" && !armed
      ensures profFilter == "" && comFilter == ""
    {
      origin := None;
      profession := "";
      armed := false;
      profFilter := "";
      comFilter := "";
    }

    /** `checkParams`: the execute button is enabled when this holds. */
    predicate ExecuteEnabled()
      reads this
    {
      origin.Some? && profession != "" && !armed
    }

    /** The toggle button: flips the arming, touches nothing else. Arming
        disables execution; disarming enables it exactly when an origin is
        placed and a profession chosen. */
    method Toggle()
      modifies this
      ensures armed == !old(armed)
      ensures origin == old(origin) && profession == old(profession)
      ensures profFilter == old(profFilter) && comFilter == old(comFilter)
      ensures armed ==> !ExecuteEnabled()
      ensures !armed ==> (ExecuteEnabled() <==> origin.Some? && profession != "")
    {
      armed := !armed;
    }

    /** A click on the map. The click listener is registered only while
        armed; then the click (re)places the origin. Execution stays
        disabled while armed. */
    method MapClick(c: Coord)
      modifies this
      ensures origin == if old(armed) then Some(c) else old(origin)
      ensures armed == old(armed) && profession == old(profession)
      ensures profFilter == old(profFilter) && comFilter == old(comFilter)
      ensures armed ==> !ExecuteEnabled()
    {
      if armed {
        origin := Some(c);
      }
    }

    /** The route-search profession selector. */
    method ChooseProfession(v: string)
      modifies this
      ensures profession == v
      ensures origin == old(origin) && armed == old(armed)
      ensures profFilter == old(profFilter) && comFilter == old(comFilter)
      ensures v == "" ==> !ExecuteEnabled()
    {
      profession := v;
    }

    /** The features shown on the map for the current facet selection. */
    function Shown(features: seq<Feature>): seq<Feature>
      reads this
    {
      ApplyFacets(features, profFilter, comFilter)
    }

    /** The navigation profession selector. */
    method SelectProfessionFilter(v: string)
      modifies this
      ensures profFilter == v && comFilter == old(comFilter)
      ensures origin == old(origin) && profession == old(profession) && armed == old(armed)
    {
      profFilter := v;
    }

    /** The navigation commune selector. */
    method SelectCommuneFilter(v: string)
      modifies this
      ensures comFilter == v && profFilter == old(profFilter)
      ensures origin == old(origin) && profession == old(profession) && armed == old(armed)
    {
      comFilter := v;
    }

    /** The reset button: clears both facets, so the whole dataset shows. */
    method ResetFilters()
      modifies this
      ensures profFilter == "" && comFilter == ""
      ensures origin == old(origin) && profession == old(profession) && armed == old(armed)
      ensures forall features :: Shown(features) == features
    {
      profFilter := "";
      comFilter := "";
      forall features ensures Shown(features) == features {
        ApplyFacetsNoSelection(features);
      }
    }

    /** The execute button: runs the search on the session's origin and
        profession. When the button is enabled, nothing is computed only if
        no feature has the chosen profession. */
    method Execute(features: seq<Feature>, router: (Coord, Coord) -> Option<Route>) returns (r: Outcome)
      ensures r == NearestSearch(features, profession, origin, router)
      ensures ExecuteEnabled() ==> (r.NoCandidate? <==> Candidates(features, profession) == [])
    {
      r := NearestSearch(features, profession, origin, router);
      NearestSearchNoCandidate(features, profession, origin, router);
    }
  }
}
