/** `getProp`: reads a logical field of a professional's record, tolerating
    the several spellings the data sources use for the same attribute. */
module FieldResolver {
  import opened JsValues

  /** A feature's `properties` object. */
  type Props = map<string, JsonValue>

  // Canonical attribute names of the professionals' dataset.
  const CIVILITE := "Civilité"
  const TEL := "Numéro de téléphone"
  const NOM := "Nom du professionnel"
  const ADRESSE := "Adresse"
  const PROFESSION := "Profession"
  const COMMUNE := "Commune"

  /** The fixed table of alternate spellings, in the order they are tried.
      A name outside the table has none. */
  function Alternates(k: string): seq<string> {
    if k == CIVILITE then ["Civilite", "civilite"]
    else if k == TEL then ["Numero_de_telephone", "Numero.de.telephone", "telephone"]
    else if k == NOM then ["Nom_du_professionnel", "Nom.du.professionnel", "nom"]
    else if k == ADRESSE then ["adresse", "Adresse_postale"]
    else if k == PROFESSION then ["profession", "libelle_profession"]
    else if k == COMMUNE then ["commune"]
    else []
  }

  /** `p[k] != null && String(p[k]).trim() !== ""` */
  predicate Usable(p: Props, k: string) {
    k in p && p[k].Str? && !IsBlank(p[k].s)
  }

  /** The value under the first key of `keys` that holds a usable value, or
      `""` when none does. */
  function FirstUsable(p: Props, keys: seq<string>): string {
    if keys == [] then ""
    else if Usable(p, keys[0]) then p[keys[0]].s
    else FirstUsable(p, keys[1..])
  }

  /** `getProp(p, k)`: the canonical key first, then its alternates; `""`
      when the properties are absent or nothing is usable. */
  function Resolve(p: Option<Props>, k: string): string {
    if p.None? then "" else FirstUsable(p.value, [k] + Alternates(k))
  }

  /** The same lookup as the source writes it: an early return for the
      canonical key, then a loop over the alternates. */
  method GetProp(p: Option<Props>, k: string) returns (r: string)
    ensures r == Resolve(p, k)
  {
    if p.None? {
      return "";
    }
    var m := p.value;
    assert ([k] + Alternates(k))[1..] == Alternates(k);
    if Usable(m, k) {
      return m[k].s;
    }
    var tries := Alternates(k);
    for i := 0 to |tries|
      invariant FirstUsable(m, tries) == FirstUsable(m, tries[i..])
    {
      if Usable(m, tries[i]) {
        return m[tries[i]].s;
      }
      assert tries[i..][1..] == tries[i + 1..];
    }
    return "";
  }

  /** A usable value is never the empty string. */
  lemma UsableNonEmpty(p: Props, k: string)
    requires Usable(p, k)
    ensures p[k].s != ""
  {
    BlankIffAllWhitespace("");
  }

  /** The lookup returns the value of the first usable key, whatever the
      later keys hold. */
  lemma {:induction false} FirstUsableAt(p: Props, keys: seq<string>, i: nat)
    requires i < |keys| && Usable(p, keys[i])
    requires forall j :: 0 <= j < i ==> !Usable(p, keys[j])
    ensures FirstUsable(p, keys) == p[keys[i]].s
  {
    if i > 0 {
      FirstUsableAt(p, keys[1..], i - 1);
    }
  }

  /** The lookup yields `""` exactly when no key is usable. */
  lemma {:induction false} FirstUsableEmpty(p: Props, keys: seq<string>)
    ensures FirstUsable(p, keys) == "" <==> forall j :: 0 <= j < |keys| ==> !Usable(p, keys[j])
  {
    if keys != [] {
      if Usable(p, keys[0]) {
        UsableNonEmpty(p, keys[0]);
      } else {
        var rest := keys[1..];
        FirstUsableEmpty(p, rest);
        assert FirstUsable(p, keys) == FirstUsable(p, rest);
        assert forall j :: 0 < j < |keys| ==> keys[j] == rest[j - 1];
      }
    }
  }

  /** Whatever the lookup returns is `""` or the value of some usable key
      of the list. */
  lemma {:induction false} FirstUsableFrom(p: Props, keys: seq<string>)
    ensures var r := FirstUsable(p, keys);
      r == "" || exists i :: 0 <= i < |keys| && Usable(p, keys[i]) && r == p[keys[i]].s
  {
    if keys != [] && !Usable(p, keys[0]) {
      var rest := keys[1..];
      FirstUsableFrom(p, rest);
      if FirstUsable(p, rest) != "" {
        var i :| 0 <= i < |rest| && Usable(p, rest[i]) && FirstUsable(p, rest) == p[rest[i]].s;
        assert rest[i] == keys[i + 1];
      }
    }
  }

  /** The canonical key wins whenever it holds a usable value; the value is
      returned as stored, untrimmed. */
  lemma ResolveCanonicalFirst(p: Props, k: string)
    requires Usable(p, k)
    ensures Resolve(Some(p), k) == p[k].s
  {
    FirstUsableAt(p, [k] + Alternates(k), 0);
  }

  /** Past an unusable first key, the lookup continues with the rest of
      the list. */
  lemma AfterUnusable(p: Props, k: string, alts: seq<string>, i: nat)
    requires !Usable(p, k)
    requires i < |alts| && Usable(p, alts[i])
    requires forall j :: 0 <= j < i ==> !Usable(p, alts[j])
    ensures FirstUsable(p, [k] + alts) == p[alts[i]].s
  {
    assert ([k] + alts)[1..] == alts;
    FirstUsableAt(p, alts, i);
  }

  /** Otherwise the first usable alternate, in table order, is returned. */
  lemma ResolveFirstAlternate(p: Props, k: string, i: nat)
    requires !Usable(p, k)
    requires i < |Alternates(k)| && Usable(p, Alternates(k)[i])
    requires forall j :: 0 <= j < i ==> !Usable(p, Alternates(k)[j])
    ensures Resolve(Some(p), k) == p[Alternates(k)[i]].s
  {
    AfterUnusable(p, k, Alternates(k), i);
  }

  /** No key of `[k] + alts` is usable exactly when neither `k` nor any key
      of `alts` is. */
  lemma EmptyAfterKey(p: Props, k: string, alts: seq<string>)
    ensures (forall j :: 0 <= j < |[k] + alts| ==> !Usable(p, ([k] + alts)[j])) <==>
      (!Usable(p, k) && forall j :: 0 <= j < |alts| ==> !Usable(p, alts[j]))
  {
    var keys := [k] + alts;
    assert keys[0] == k;
    assert forall j :: 0 <= j < |alts| ==> keys[j + 1] == alts[j];
    assert forall j :: 0 < j < |keys| ==> keys[j] == alts[j - 1];
  }

  /** `""` comes back exactly when the properties are absent, or neither the
      canonical key nor any alternate holds a usable value. */
  lemma ResolveEmptyIff(p: Option<Props>, k: string)
    ensures Resolve(p, k) == "" <==>
      p.None? || (!Usable(p.value, k) && forall j :: 0 <= j < |Alternates(k)| ==> !Usable(p.value, Alternates(k)[j]))
  {
    if p.Some? {
      FirstUsableEmpty(p.value, [k] + Alternates(k));
      EmptyAfterKey(p.value, k, Alternates(k));
    }
  }

  /** Whatever comes back is either `""` or a usable value stored under the
      canonical key or one of its alternates. */
  lemma ResolveFromRecord(p: Option<Props>, k: string)
    ensures var r := Resolve(p, k);
      r == "" || (p.Some? && exists key :: key in [k] + Alternates(k) && Usable(p.value, key) && r == p.value[key].s)
  {
    if p.Some? {
      var keys := [k] + Alternates(k);
      FirstUsableFrom(p.value, keys);
      if Resolve(p, k) != "" {
        var i :| 0 <= i < |keys| && Usable(p.value, keys[i]) && Resolve(p, k) == p.value[keys[i]].s;
        assert keys[i] in keys;
      }
    }
  }

  /** A field outside the table has no alternates: only its own key is read. */
  lemma ResolveUnlistedField(p: Props, k: string)
    requires k !in [CIVILITE, TEL, NOM, ADRESSE, PROFESSION, COMMUNE]
    ensures Resolve(Some(p), k) == (if Usable(p, k) then p[k].s else "")
  {
    assert Alternates(k) == [];
    assert [k] + Alternates(k) == [k] && [k][1..] == [];
    assert FirstUsable(p, [k][1..]) == "";
  }
}
