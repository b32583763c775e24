/** `populateDropdowns`: the option lists of the profession and commune
    selectors, built from the values the dataset actually holds. */
module Dropdowns {
  import opened JsValues
  import opened FieldResolver
  import opened Features
  import opened StringOrder

  /** `set.add(v)` on an insertion-ordered set. */
  function SetAdd(s: seq<string>, v: string): (r: seq<string>)
    ensures Distinct(s) ==> Distinct(r)
    ensures forall x :: x in r <==> x in s || x == v
  {
    if v in s then s else s + [v]
  }

  /** The resolved values of field `k`, feature by feature. */
  function Column(features: seq<Feature>, k: string): seq<string> {
    seq(|features|, j requires 0 <= j < |features| => FieldOf(features[j], k))
  }

  /** `s` holds, once each, the non-empty values among `col[..n]`. */
  ghost predicate HoldsValuesOf(s: seq<string>, col: seq<string>, n: nat)
    requires n <= |col|
  {
    Distinct(s) && forall x :: x in s <==> x != "" && exists j :: 0 <= j < n && col[j] == x
  }

  lemma CollectStep(s: seq<string>, col: seq<string>, n: nat)
    requires n < |col| && HoldsValuesOf(s, col, n)
    ensures HoldsValuesOf(if col[n] != "" then SetAdd(s, col[n]) else s, col, n + 1)
  {
  }

  /** Sorting the collected values of a column gives a strictly ascending
      list of exactly the column's non-empty values. */
  lemma SortedValues(s: seq<string>, col: seq<string>)
    requires HoldsValuesOf(s, col, |col|)
    ensures StrictlyAscending(Sort(s)) && "" !in Sort(s)
    ensures forall x :: x in Sort(s) <==> x != "" && x in col
  {
    SortDistinctStrict(s);
    assert forall x :: x in Sort(s) <==> x in multiset(s);
    assert "" !in s;
    forall x | x in s ensures x in col {
      var j :| 0 <= j < |col| && col[j] == x;
    }
    forall x | x != "" && x in col ensures x in s {
      var j :| 0 <= j < |col| && col[j] == x;
    }
  }

  /** Collects the non-empty resolved professions and communes into two
      insertion-ordered sets, then sorts each (`[...set].sort()`). Each
      list is strictly ascending, so free of repetitions, holds no empty
      string, and holds exactly the values some feature resolves to. */
  method PopulateDropdowns(features: seq<Feature>) returns (profs: seq<string>, comms: seq<string>)
    ensures StrictlyAscending(profs) && StrictlyAscending(comms)
    ensures "" !in profs && "" !in comms
    ensures forall x :: x in profs <==> x != "" && x in Column(features, PROFESSION)
    ensures forall x :: x in comms <==> x != "" && x in Column(features, COMMUNE)
  {
    var profSet: seq<string> := [];
    var comSet: seq<string> := [];
    ghost var profCol, comCol := Column(features, PROFESSION), Column(features, COMMUNE);
    for i := 0 to |features|
      invariant HoldsValuesOf(profSet, profCol, i)
      invariant HoldsValuesOf(comSet, comCol, i)
    {
      var p := Some(PropsOf(features[i]));
      var prof := GetProp(p, PROFESSION);
      var com := GetProp(p, COMMUNE);
      CollectStep(profSet, profCol, i);
      CollectStep(comSet, comCol, i);
      if prof != "" {
        profSet := SetAdd(profSet, prof);
      }
      if com != "" {
        comSet := SetAdd(comSet, com);
      }
    }
    profs := Sort(profSet);
    comms := Sort(comSet);
    SortedValues(profSet, profCol);
    SortedValues(comSet, comCol);
  }
}
