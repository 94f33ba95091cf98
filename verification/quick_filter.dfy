/** The quick filter of the ticket listing: `field` and `filter` request
    parameters restrict every block to tickets whose stored custom-field value
    equals the filter value. */
module QuickFilter {
  import opened Results
  import Php

  /** `(int)` of an optional request parameter, 0 when it is absent. */
  function ParamInt(p: Option<string>): int {
    if p.Some? then Php.IntCast(p.value) else 0
  }

  /** Whether the listing filters, and on which field and value. */
  datatype FilterPlan = NoFilter | Filtering(field: int, value: int)

  /** Filtering is switched on exactly when both cast parameters are positive. */
  function PlanFilter(field: Option<string>, filter: Option<string>): (p: FilterPlan)
    ensures p.Filtering? <==> ParamInt(field) > 0 && ParamInt(filter) > 0
    ensures p.Filtering? ==> p.field == ParamInt(field) && p.value == ParamInt(filter)
  {
    var f := ParamInt(field);
    var v := ParamInt(filter);
    if f > 0 && v > 0 then Filtering(f, v) else NoFilter
  }

  /** The fragment appended to every page link so the filter stays on. */
  function Fragment(p: FilterPlan): (s: string)
    ensures s == "" <==> p.NoFilter?
  {
    match p
    case NoFilter => ""
    case Filtering(f, v) => ";field=" + Php.IntText(f) + ";filter=" + Php.IntText(v)
  }

  /** Whether a ticket, given its stored custom-field values by field id,
      passes the filter: the filtered field must be active and the ticket's
      stored text must equal the text of the filter value. */
  predicate Admits(p: FilterPlan, activeFields: set<int>, values: map<int, string>) {
    p.NoFilter? || (p.field in activeFields && p.field in values && values[p.field] == Php.IntText(p.value))
  }

  /** The two parameter texts a filter fragment carries. */
  datatype FragmentParams = FragmentParams(field: string, filter: string)

  /** Read the parameters back from a fragment of the form
      `;field=<text>;filter=<text>`, the field text running to the next `;`. */
  function ReadFragment(s: string): Option<FragmentParams> {
    if |s| < 7 || s[..7] != ";field=" then None
    else
      var rest := s[7..];
      if ';' !in rest then None
      else
        var i := Php.IndexOf(rest, ';');
        var tail := rest[i..];
        if |tail| < 8 || tail[..8] != ";filter=" then None
        else Some(FragmentParams(rest[..i], tail[8..]))
  }

  /** A fragment whose field text holds no `;` reads back as its two texts. */
  lemma ReadFragmentOf(a: string, b: string)
    requires ';' !in a
    ensures ReadFragment(";field=" + a + ";filter=" + b) == Some(FragmentParams(a, b))
  {
    var s := ";field=" + a + ";filter=" + b;
    var rest := a + ";filter=" + b;
    assert s[..7] == ";field=" && s[7..] == rest;
    assert rest[|a|] == ';' && rest[..|a|] == a;
    assert Php.IndexOf(rest, ';') == |a|;
    assert rest[|a|..][..8] == ";filter=" && rest[|a|..][8..] == b;
  }

  /** The fragment of a filtered page link reads back as the texts of the
      plan's field and value, and those parameters give the same plan. */
  lemma FragmentParametersRoundTrip(f: int, v: int)
    requires f > 0 && v > 0
    ensures ReadFragment(Fragment(Filtering(f, v))) == Some(FragmentParams(Php.IntText(f), Php.IntText(v)))
    ensures PlanFilter(Some(ReadFragment(Fragment(Filtering(f, v))).value.field),
                       Some(ReadFragment(Fragment(Filtering(f, v))).value.filter)) == Filtering(f, v)
  {
    var a := Php.IntText(f);
    assert forall i :: 0 <= i < |a| ==> a[i] != ';';
    ReadFragmentOf(a, Php.IntText(v));
    Php.IntCastOfIntText(f);
    Php.IntCastOfIntText(v);
  }

  /** A subject-prefix filter link names a field and the ticket's stored
      value. When that value is the text of a positive option key, following
      the link admits exactly the tickets storing the same value in that
      (active) field. */
  lemma PrefixLinkSelectsItsValue(fieldId: int, stored: string, key: int, activeFields: set<int>, values: map<int, string>)
    requires fieldId > 0 && key > 0 && Php.CanonicalKey(stored) == Some(key)
    ensures PlanFilter(Some(Php.IntText(fieldId)), Some(stored)) == Filtering(fieldId, key)
    ensures Admits(Filtering(fieldId, key), activeFields, values)
            <==> fieldId in activeFields && fieldId in values && values[fieldId] == stored
  {
    Php.IntCastOfIntText(fieldId);
    Php.CanonicalKeyIff(stored, key);
    Php.IntCastOfIntText(key);
  }
}
