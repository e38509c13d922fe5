/** The two identities of each first-aid kit: the host's original template
    id and the mod's custom id, the map from one to the other, and the
    operating mode that decides which identity is live. */
module MedkitTpl {
  import opened Wrappers

  /** `replaceBaseItems == true` is Replace: the kits keep their original ids.
      Otherwise Additive: the kits are new items under their custom ids. */
  datatype Mode = Replace | Additive

  const CustomCarAfak := "CustomCarAFAK"
  const CustomSalewa := "CustomSalewa"
  const CustomIfak := "CustomIFAK"
  const CustomAfak := "CustomAFAK"
  const CustomGrizzly := "CustomGrizzly"

  const OriginalCarAfak := "590c661e86f7741e566b646a"
  const OriginalSalewa := "544fb45d4bdc2dee738b4568"
  const OriginalIfak := "590c678286f77426c9660122"
  const OriginalAfak := "60098ad7c2240c0fe85c570a"
  const OriginalGrizzly := "590c657e86f77412b013051d"

  /** The values of the custom id enumeration, in declaration order. */
  const CustomMedkitTpls: seq<string> := [CustomCarAfak, CustomSalewa, CustomIfak, CustomAfak, CustomGrizzly]

  /** The values of the original id enumeration, in declaration order. */
  const OriginalMedkitTpls: seq<string> := [OriginalCarAfak, OriginalSalewa, OriginalIfak, OriginalAfak, OriginalGrizzly]

  /** Custom id to original id of the same kit. */
  const CustomToOriginal: map<string, string> := map[
    CustomCarAfak := OriginalCarAfak,
    CustomSalewa := OriginalSalewa,
    CustomIfak := OriginalIfak,
    CustomAfak := OriginalAfak,
    CustomGrizzly := OriginalGrizzly]

  /** `s` is one of the custom ids; these are exactly the keys of the map. */
  function IsCustomMedkitItemTpl(s: string): (b: bool)
    ensures b <==> s in CustomToOriginal
  {
    s in CustomMedkitTpls
  }

  /** `s` is one of the original ids; these are exactly the map's values. */
  function IsOriginalMedkitItemTpl(s: string): (b: bool)
    ensures b <==> exists c :: c in CustomToOriginal && CustomToOriginal[c] == s
  {
    MapRange(s);
    s in OriginalMedkitTpls
  }

  /** The map's values are exactly the original ids. */
  lemma MapRange(s: string)
    ensures s in OriginalMedkitTpls <==> exists c :: c in CustomToOriginal && CustomToOriginal[c] == s
  {
    if s in OriginalMedkitTpls {
      var i :| 0 <= i < 5 && OriginalMedkitTpls[i] == s;
      assert CustomToOriginal[CustomMedkitTpls[i]] == s;
    }
  }

  /** The ids that trigger content injection in `mode`. */
  function IsManaged(mode: Mode, tpl: string): (b: bool)
    ensures mode.Replace? ==> (b <==> tpl in OriginalMedkitTpls)
    ensures mode.Additive? ==> (b <==> tpl in CustomMedkitTpls)
  {
    if mode.Replace? then IsOriginalMedkitItemTpl(tpl) else IsCustomMedkitItemTpl(tpl)
  }

  /** Reverse lookup for additive mode: the original id of a custom id. */
  function OriginalOf(custom: string): (r: Option<string>)
    ensures r.Some? <==> IsCustomMedkitItemTpl(custom)
    ensures r.Some? ==> IsOriginalMedkitItemTpl(r.value)
  {
    if custom in CustomToOriginal then Some(CustomToOriginal[custom]) else None
  }

  /** Position of `x` in `s`, if it occurs. */
  function IndexIn(s: seq<string>, x: string): (r: Option<nat>)
    ensures r.Some? ==> r.value < |s| && s[r.value] == x
    ensures r.None? <==> x !in s
  {
    if |s| == 0 then None
    else if s[0] == x then Some(0)
    else match IndexIn(s[1..], x)
      case None => None
      case Some(i) => Some(i + 1)
  }

  /** Forward lookup, written independently of the map: the custom id
      declared at the same position as `original`. */
  function CustomOf(original: string): (r: Option<string>)
    ensures r.Some? <==> IsOriginalMedkitItemTpl(original)
    ensures r.Some? ==> IsCustomMedkitItemTpl(r.value)
  {
    match IndexIn(OriginalMedkitTpls, original)
    case None => None
    case Some(i) => Some(CustomMedkitTpls[i])
  }

  /** Each enumeration has five pairwise distinct values. */
  lemma EnumsHaveFiveDistinctValues()
    ensures |CustomMedkitTpls| == 5 && |OriginalMedkitTpls| == 5
    ensures forall i, j :: 0 <= i < j < 5 ==> CustomMedkitTpls[i] != CustomMedkitTpls[j]
    ensures forall i, j :: 0 <= i < j < 5 ==> OriginalMedkitTpls[i] != OriginalMedkitTpls[j]
  {
  }

  /** No id is both a custom and an original id, so in either mode an id can
      trigger only through one enumeration. */
  lemma EnumsDisjoint(tpl: string)
    ensures !(IsCustomMedkitItemTpl(tpl) && IsOriginalMedkitItemTpl(tpl))
    ensures !(IsManaged(Replace, tpl) && IsManaged(Additive, tpl))
  {
  }

  /** The map is defined on every custom id, injective, and onto the
      original ids: a bijection, so the reverse lookup is well defined. */
  lemma CustomToOriginalIsBijection()
    ensures forall c :: c in CustomMedkitTpls ==> c in CustomToOriginal
    ensures forall c1, c2 :: c1 in CustomToOriginal && c2 in CustomToOriginal && c1 != c2 ==>
      CustomToOriginal[c1] != CustomToOriginal[c2]
    ensures forall o :: o in OriginalMedkitTpls <==> exists c :: c in CustomToOriginal && CustomToOriginal[c] == o
  {
    forall o ensures o in OriginalMedkitTpls <==> exists c :: c in CustomToOriginal && CustomToOriginal[c] == o {
      MapRange(o);
    }
  }

  /** The map and the positional pairing agree in both directions. */
  lemma IdentityRoundTrips(custom: string, original: string)
    ensures IsCustomMedkitItemTpl(custom) ==> CustomOf(OriginalOf(custom).value) == Some(custom)
    ensures IsOriginalMedkitItemTpl(original) ==> OriginalOf(CustomOf(original).value) == Some(original)
  {
  }
}
