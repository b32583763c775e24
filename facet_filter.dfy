/** The filter `applyMedecinsFilterToSource` applies to the displayed
    professionals: a profession facet and a commune facet, `""` meaning
    that the facet is not used. */
module FacetFilter {
  import opened FieldResolver
  import opened Features
  import opened Sequences

  /** `(profSel ? prof === profSel : true) && (comSel ? com === comSel : true)` */
  predicate Matches(f: Feature, profSel: string, comSel: string) {
    (profSel == "" || FieldOf(f, PROFESSION) == profSel)
    && (comSel == "" || FieldOf(f, COMMUNE) == comSel)
  }

  function Selects(profSel: string, comSel: string): Feature -> bool {
    f => Matches(f, profSel, comSel)
  }

  /** The features shown on the map for the given selection. */
  function ApplyFacets(features: seq<Feature>, profSel: string, comSel: string): seq<Feature> {
    Filter(features, Selects(profSel, comSel))
  }

  /** The shown features are a subsequence of the dataset; each matches
      every facet in use; and no matching feature (nor any copy of one) is
      dropped. */
  lemma ApplyFacetsSpec(features: seq<Feature>, profSel: string, comSel: string)
    ensures IsSubsequence(ApplyFacets(features, profSel, comSel), features)
    ensures forall f :: f in ApplyFacets(features, profSel, comSel) ==>
      (profSel == "" || FieldOf(f, PROFESSION) == profSel) && (comSel == "" || FieldOf(f, COMMUNE) == comSel)
    ensures forall f :: f in features && Matches(f, profSel, comSel) ==>
      multiset(ApplyFacets(features, profSel, comSel))[f] == multiset(features)[f]
  {
    FilterIsSubsequence(features, Selects(profSel, comSel));
    forall f | f in features && Matches(f, profSel, comSel)
      ensures multiset(ApplyFacets(features, profSel, comSel))[f] == multiset(features)[f]
    {
      FilterKeepsMatches(features, Selects(profSel, comSel), f);
    }
  }

  /** Re-applying the same selection to what is shown changes nothing. */
  lemma ApplyFacetsIdempotent(features: seq<Feature>, profSel: string, comSel: string)
    ensures ApplyFacets(ApplyFacets(features, profSel, comSel), profSel, comSel)
         == ApplyFacets(features, profSel, comSel)
  {
    FilterIdempotent(features, Selects(profSel, comSel));
  }

  /** With no facet in use (also what the reset button restores) the whole
      dataset is shown, in its order. */
  lemma ApplyFacetsNoSelection(features: seq<Feature>)
    ensures ApplyFacets(features, "", "") == features
  {
    FilterAllPass(features, Selects("", ""));
  }
}
