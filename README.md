# Annuaire santé: selection and filtering rules, in Dafny

This project models the logic of the interactive health-professionals map
(`script.js`) that does not depend on the map engine, the DOM or the
network:

- `getProp`, the field resolver: the canonical attribute name first, then a
  fixed, ordered table of alternate spellings; the first value that is not
  `null`/`undefined` and not blank after `trim()` wins, otherwise `""`
  (module `FieldResolver`, with `trim` in `JsValues`).
- The facet filter of `applyMedecinsFilterToSource`: profession and commune,
  `""` meaning "no constraint" (module `FacetFilter`).
- The option lists of `populateDropdowns`: distinct, non-empty resolved
  values, sorted with the default string order (modules `Dropdowns`,
  `StringOrder`).
- The session globals and their handlers: the origin placed on the map, the
  chosen profession, the arming toggle, the execute-button gate of
  `checkParams`, and the navigation selectors with their reset (module
  `Session`, class `SessionState`).
- The nearest-professional search of `calculItinerairePlusProche`:
  candidates by exact profession, a stable sort by straight-line distance,
  the ten closest routed, and the head of the routes sorted by duration
  (module `Nearest`).

`Array.prototype.filter` and the stable `Array.prototype.sort` with a
numeric comparator are modelled once, generically, in `Sequences`; the
facet filter, the candidate selection, the top-ten cut and the best-route
pick are instances of them. The routing service is a function parameter
`router` giving, for an origin and a destination, the first route of the
response, or `None` when the request fails or the response holds no route
(an empty `routes` array makes the source throw at the sort of line 589 or
when reading the route at line 604); one such `None` makes the whole search
fail (`RoutingFailed`), as a rejected `Promise.all` join does.
Straight-line distance is kept as the squared Euclidean distance over
integer coordinates, which over exact arithmetic orders candidates the same
way as `Math.sqrt` of it does; in double precision two near-equal squares
can round to the same distance and then tie (falling back to dataset
order), where this model still separates them.

A routing failure aborts the whole search, and the search computes nothing
when no origin has been placed or no candidate exists. On a routing failure
the code never calls `hideLoader`; the loader is not part of this model.

## Model

| member | source | states |
|---|---|---|
| JsValues.IsJsWhitespace | script.js:55 | definition: the characters `String.prototype.trim` removes (WhiteSpace and LineTerminator code points) |
| JsValues.Trim | script.js:55 | definition: `trim()`, whitespace removed at both ends |
| JsValues.TrimStart | script.js:55 | the result is a suffix of the input that does not start with whitespace, and all that was cut off is whitespace |
| JsValues.TrimEnd | script.js:55 | the result is a prefix of the input that does not end with whitespace, and all that was cut off is whitespace |
| JsValues.BlankIffAllWhitespace | script.js:55 | `trim()` yields `""` exactly when every character is JavaScript whitespace |
| FieldResolver.Alternates | script.js:57-65 | definition: the table of alternate spellings, in order, and none for other names |
| FieldResolver.Usable | script.js:55 | definition: present, not `null`, and not blank after `trim()` |
| FieldResolver.FirstUsable | script.js:66-69 | definition: the value of the first usable key of a list, else `""` |
| FieldResolver.Resolve | script.js:53-70 | definition: `getProp`, the canonical key then its alternates, `""` for absent properties |
| FieldResolver.FirstUsableFrom | script.js:66-69 | the result is `""` or the value of some key in the list that is non-null and not blank |
| FieldResolver.GetProp | script.js:53-70 | the loop with early returns computes the resolver: absent properties give `""`, then the canonical key, then the alternates in table order |
| FieldResolver.UsableNonEmpty | script.js:55 | a non-null, non-blank value is never the empty string, so `""` cannot be mistaken for a found value |
| FieldResolver.FirstUsableAt | script.js:66-68 | the first key holding a usable value determines the result, whatever later keys hold |
| FieldResolver.FirstUsableEmpty | script.js:66-69 | the lookup gives `""` exactly when no key in the list is usable |
| FieldResolver.ResolveCanonicalFirst | script.js:55 | a usable canonical value is returned as stored (untrimmed), whatever the alternates hold |
| FieldResolver.AfterUnusable | script.js:55-68 | past an unusable canonical key, the first usable key of the tried list decides the result |
| FieldResolver.EmptyAfterKey | script.js:55-69 | no key is usable exactly when neither the canonical key nor any tried key is |
| FieldResolver.ResolveFirstAlternate | script.js:57-68 | when the canonical key is unusable, the first usable alternate in table order is returned |
| FieldResolver.ResolveEmptyIff | script.js:53-70 | `""` comes back exactly when the properties are absent or neither the canonical key nor any alternate is usable |
| FieldResolver.ResolveFromRecord | script.js:53-70 | the result is `""` or a usable value stored under the canonical key or one of its alternates |
| FieldResolver.ResolveUnlistedField | script.js:65 | a field name outside the table has no alternates: only its own key is read |
| Sequences.Filter | script.js:503-510 | `filter` keeps at most the input's elements, and each kept element satisfies the predicate |
| Sequences.FilterIsSubsequence | script.js:503 | what `filter` keeps is an order-preserving subsequence of its input |
| Sequences.FilterKeepsMatches | script.js:503-510 | no element satisfying the predicate is dropped, nor any copy of it |
| Sequences.FilterFromInput | script.js:503 | everything kept comes from the input, with no more copies than it had |
| Sequences.FilterIdempotent | script.js:503-510 | filtering twice with the same predicate equals filtering once |
| Sequences.FilterAllPass | script.js:507-508 | a predicate every element satisfies removes nothing |
| Sequences.FilterPrefix | script.js:579 | filtering a prefix yields a prefix of the filtered whole |
| Sequences.InsertBy | script.js:578 | insertion adds exactly one element and keeps all others |
| Sequences.SortBy | script.js:578 | the sort is a permutation of its input |
| Sequences.InsertBySorted | script.js:578 | inserting into a key-sorted sequence keeps it sorted |
| Sequences.SortBySorted | script.js:578 | the sort's output is in ascending key order |
| Sequences.InsertByTies | script.js:578 | the inserted element precedes every element it ties with |
| Sequences.SortByStable | script.js:578 | the sort is stable: elements with equal keys keep their input order |
| Sequences.SortByHead | script.js:589 | `sort(...)[0]` has the least key of the input and is the first element carrying that key |
| Sequences.FirstOfTies | script.js:589 | the first element kept by `filter` is no later than any element satisfying the predicate |
| Sequences.SortedCut | script.js:578-579 | after cutting a sorted sequence, nothing outside the cut has a smaller key than anything inside |
| StringOrder.Less | script.js:166-167 | definition: the default `sort()` order, lexicographic by character |
| StringOrder.LessIrreflexive | script.js:166-167 | no string sorts before itself |
| StringOrder.LessTransitive | script.js:166-167 | the default string order is transitive |
| StringOrder.LessTotal | script.js:166-167 | of two different strings one sorts before the other |
| StringOrder.Insert | script.js:166-167 | insertion adds exactly one string and keeps all others |
| StringOrder.Sort | script.js:166-167 | the default sort is a permutation of its input |
| StringOrder.InsertAscending | script.js:166-167 | inserting into a non-decreasing list keeps it non-decreasing |
| StringOrder.SortAscending | script.js:166-167 | the default sort's output is non-decreasing |
| StringOrder.DistinctIffSingleCounts | script.js:155-156 | a list has no repetition exactly when each element occurs at most once in its multiset |
| StringOrder.SortDistinctStrict | script.js:166-167 | sorting the contents of a set gives a strictly ascending list |
| Features.PropsOf | script.js:504-505 | definition: `f.properties \|\| {}` |
| Features.FieldOf | script.js:504-506 | definition: `getProp` on a feature's properties |
| FacetFilter.Matches | script.js:506-509 | definition: the feature matches each facet in use |
| FacetFilter.ApplyFacets | script.js:503-510 | definition: the features the facet filter shows |
| FacetFilter.ApplyFacetsSpec | script.js:503-510 | the shown features are a subsequence of the dataset, each matches every facet in use, and no matching feature is dropped |
| FacetFilter.ApplyFacetsIdempotent | script.js:503-510 | applying the same selection to what is shown changes nothing |
| FacetFilter.ApplyFacetsNoSelection | script.js:507-508 | with both selectors empty the whole dataset is shown, in order |
| Dropdowns.SetAdd | script.js:162-163 | `Set.add` keeps the set free of repetitions and adds exactly the given value |
| Dropdowns.CollectStep | script.js:158-164 | one `forEach` step keeps the set equal to the non-empty values seen so far, without repetition |
| Dropdowns.SortedValues | script.js:166-167 | the sorted set is strictly ascending, holds no `""`, and holds exactly the column's non-empty values |
| Dropdowns.PopulateDropdowns | script.js:155-167 | both option lists are strictly ascending (so without duplicates), hold no `""`, and hold exactly the non-empty values some feature resolves to |
| Session.SessionState.constructor | script.js:40-42 | at load no origin is placed, no profession is chosen, nothing is armed, and no facet is selected |
| Session.SessionState.ExecuteEnabled | script.js:543-546 | definition: `checkParams`, the execute button is enabled |
| Session.SessionState.Shown | script.js:501-511 | definition: the features shown for the session's facet selection |
| Session.SessionState.Toggle | script.js:691-692 | the toggle flips the arming and changes nothing else; armed means execute disabled, disarmed means enabled iff an origin is placed and a profession chosen |
| Session.SessionState.MapClick | script.js:537-541 | a map click places the origin only while armed, and execution stays disabled while armed |
| Session.SessionState.ChooseProfession | script.js:686-689 | the chosen profession becomes the selected value; an empty choice disables execution |
| Session.SessionState.SelectProfessionFilter | script.js:669-672 | the profession facet takes the selected value; the commune facet and route state are untouched |
| Session.SessionState.SelectCommuneFilter | script.js:673-676 | the commune facet takes the selected value; the profession facet and route state are untouched |
| Session.SessionState.ResetFilters | script.js:678-684 | reset clears both facets, after which every dataset is shown whole |
| Session.SessionState.Execute | script.js:706-708 | the search runs on the session's origin and profession; when the button is enabled, nothing is computed only if no feature has that profession |
| Nearest.Candidates | script.js:548-553 | definition: `getCandidatesByProfession` |
| Nearest.SquaredDistance | script.js:575 | definition: the square of the straight-line distance |
| Nearest.ToDest | script.js:565-576 | definition: the display record built for one candidate, with `"Non disponible"` for a missing phone number |
| Nearest.Dests | script.js:564-577 | definition: the display records of all candidates, in order |
| Nearest.Top10 | script.js:564-579 | definition: the records sorted by distance, cut to ten |
| Nearest.NearestSearch | script.js:555-589 | definition: `calculItinerairePlusProche` up to the pick of the best route |
| Nearest.RouteAll | script.js:581-587 | the join succeeds exactly when every request yields a route, and then pairs each destination, in order, with its route |
| Nearest.CandidatesSpec | script.js:548-553 | the candidates are exactly the features whose resolved profession equals the chosen one, in dataset order |
| Nearest.Top10Spec | script.js:564-579 | the routed list has min(10, n) entries, ascending by distance, drawn from the candidates, none left out closer than one kept |
| Nearest.Top10Stable | script.js:578-579 | ties in distance keep dataset order: at each distance the routed entries are the first ones at that distance |
| Nearest.NearestSearchNoCandidate | script.js:558-562 | nothing is computed exactly when no feature has the profession or no origin is placed |
| Nearest.NearestSearchFailed | script.js:581-587 | the search fails exactly when there is a candidate and an origin and some request for the ten closest fails |
| Nearest.BestRouteOwn | script.js:581-589 | the pick is one of the routed destinations, carrying the route the service gave for it |
| Nearest.BestRouteFastest | script.js:589 | no routed destination has a shorter route than the pick |
| Nearest.BestRouteFirst | script.js:589 | among routed destinations as fast as the pick, the pick comes first in distance order |
| Nearest.DestsProfession | script.js:564-575 | display records built from candidates of one profession all carry that profession |
| Nearest.Top10Profession | script.js:564-579 | every routed destination has the chosen profession |
| Nearest.NearestSearchFound | script.js:555-589 | the winner is among the ten straight-line closest, has the chosen profession, carries its own route, and is no slower than any routed candidate (first among equals) |
| Scenarios.FacetScenario | script.js:503-510 | a dentist and a doctor filtered on profession "Médecin" alone leave only the doctor, whatever their communes |
| Scenarios.FastestNotClosest | script.js:578-589 | when the closer of two routed destinations has the slower route, the farther one wins |

## Left out

- Map, layers, clusters, popups and cursors (`addEPCILayers`, `addEPCIAggLayers`, `addCommunesLayer`, `ensureMedecinsSourceAndLayers`, `addStartPoint`): calls into the map engine.
- Filling the `<select>` elements, showing and hiding panels, the result HTML, and the button's `disabled` attribute itself: DOM work. The gate is the predicate `SessionState.ExecuteEnabled`, which every handler that changes the origin, the chosen profession or the arming (script.js:540, 688, 703) re-evaluates through `checkParams`; the other handlers leave its inputs unchanged. The button's state before the first of those handlers runs, and the initial (empty) values of the two navigation selectors that the constructor assumes, are set by the page's HTML, which is not part of this model.
- `loadAllDataOnce` and the routing requests: network I/O. The datasets are given as sequences of features (a missing `features` array is the empty sequence), and routing is the `router` parameter.
- The per-region aggregation `buildEPCIAgg`, `fitToGeoJSON` and every `turf.bbox`/recentering step: thin wrappers over the geometry library, whose code is not part of this model.
- Floating point: coordinates are integers (fixed-point degrees), the straight-line distance is kept squared, and the kilometre rounding of the displayed distance is not modelled.
- Property values other than strings and `null` (numbers, booleans, objects): `String(v)` and JavaScript truthiness of such values are not modelled.
- Keys inherited from `Object.prototype` (such as `constructor`) in the property map or the alternates table: the source only resolves the six field names.
- StringOrder.Less: orders strings by code point; the default sort compares UTF-16 code units, which differ only between characters above U+FFFF and those in U+E000–U+FFFF.
- The busy indicator (`showLoader`/`hideLoader`).
- Features without a Point geometry: the search throws at script.js:574 when `geometry` is `null` and computes NaN distances for other geometry types; every modelled feature has a location.
