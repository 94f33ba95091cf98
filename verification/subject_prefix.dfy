/** Subject prefixes of the ticket listing. Custom fields placed as a subject
    prefix put a ticket's values in front of its subject: filterable fields as
    bracketed links that switch on the quick filter, the others as one
    bracketed, link-free group after them. Rendering (the filter link markup,
    the removal of anchors from the plain group) is a parameter. */
module SubjectPrefix {
  import opened Results
  import Php
  import opened FieldTypes

  /** The two prefix placements: plain text, or a link that filters by it. */
  datatype PrefixPlacement = PlainPrefix | FilterPrefix

  /** A prefix field the viewer may see, with its option labels (the
      `inactive` entry already removed). */
  datatype PrefixField = PrefixField(id: int, placement: PrefixPlacement, fieldType: FieldType, options: map<int, string>)

  /** The rendering the composition relies on: the markup of a filter link
      for a field, stored value and caption; the removal of anchors from the
      plain group; the word for a ticked checkbox. */
  datatype Renderer = Renderer(filterLink: (int, string, string) -> string, stripAnchors: string -> string, yes: string)

  /** The caption of the option a stored value names: the value must be the
      text of an integer key of the option map. */
  function OptionLabel(options: map<int, string>, value: string): (r: Option<string>)
    ensures r.Some? ==> exists k :: k in options && value == Php.IntText(k) && r.value == options[k]
  {
    var key := Php.CanonicalKey(value);
    if key.Some? && key.value in options then Some(options[key.value]) else None
  }

  /** Every key's own text finds that key's caption. */
  lemma OptionLabelOfKey(options: map<int, string>, k: int)
    requires k in options
    ensures OptionLabel(options, Php.IntText(k)) == Some(options[k])
  {
    Php.CanonicalKeyIff(Php.IntText(k), k);
  }

  /** An option caption looked up without checking, as the plain group does:
      a missing option contributes an empty caption. */
  function LabelOrBlank(options: map<int, string>, value: string): string {
    var l := OptionLabel(options, value);
    if l.Some? then l.value else ""
  }

  /** The stored value of a field for the ticket, empty when there is none. */
  function ValueOf(f: PrefixField, values: map<int, string>): string {
    if f.id in values then values[f.id] else ""
  }

  /** Whether a field puts anything in front of the subject: it needs a
      non-empty stored value, and a filterable field needs one that names an
      option. */
  predicate Contributes(f: PrefixField, values: map<int, string>) {
    !Php.Empty(ValueOf(f, values))
    && (f.placement == FilterPrefix ==> OptionLabel(f.options, ValueOf(f, values)).Some?)
  }

  /** Labels of the keys of a multi-select value, each followed by a space. */
  function MultiLabels(options: map<int, string>, keys: seq<string>): (s: string)
    ensures |keys| > 0 ==> |s| > 0 && s[|s| - 1] == ' '
  {
    if |keys| == 0 then ""
    else LabelOrBlank(options, keys[0]) + " " + MultiLabels(options, keys[1..])
  }

  /** The contribution of a plain prefix field with a non-empty value. A
      checkbox always reads as ticked here, since an unticked one stores an
      empty value and is skipped. */
  function PlainPart(f: PrefixField, value: string, rnd: Renderer): (s: string)
    ensures |s| > 0 && s[|s| - 1] == ' '
  {
    match f.fieldType
    case Checkbox => rnd.yes + " "
    case Select => LabelOrBlank(f.options, value) + " "
    case Radio => LabelOrBlank(f.options, value) + " "
    case Multi => MultiLabels(f.options, Php.Explode(value, ','))
    case _ => value + " "
  }

  /** One bracketed filter link. */
  function FilterEntry(f: PrefixField, value: string, caption: string, rnd: Renderer): (s: string)
    ensures |s| > 0 && s[0] == '['
  {
    "[" + rnd.filterLink(f.id, value, caption) + "] "
  }

  /** The filter links of the prefix fields, in field order; empty exactly
      when no filterable field contributes. */
  function FilterPart(fields: seq<PrefixField>, values: map<int, string>, rnd: Renderer): (s: string)
    ensures s == "" <==> forall f :: f in fields && f.placement == FilterPrefix ==> !Contributes(f, values)
    ensures s != "" ==> s[0] == '['
  {
    if |fields| == 0 then ""
    else
      var f := fields[0];
      var v := ValueOf(f, values);
      var rest := FilterPart(fields[1..], values, rnd);
      assert forall g :: g in fields <==> g == f || g in fields[1..];
      if f.placement == FilterPrefix && !Php.Empty(v) && OptionLabel(f.options, v).Some? then
        FilterEntry(f, v, OptionLabel(f.options, v).value, rnd) + rest
      else rest
  }

  /** The plain group of the prefix fields before bracketing, in field
      order; empty exactly when no plain field contributes. */
  function PlainGroup(fields: seq<PrefixField>, values: map<int, string>, rnd: Renderer): (s: string)
    ensures s == "" <==> forall f :: f in fields && f.placement == PlainPrefix ==> !Contributes(f, values)
    ensures s != "" ==> s[|s| - 1] == ' '
  {
    if |fields| == 0 then ""
    else
      var f := fields[0];
      var v := ValueOf(f, values);
      var rest := PlainGroup(fields[1..], values, rnd);
      assert forall g :: g in fields <==> g == f || g in fields[1..];
      if f.placement == PlainPrefix && !Php.Empty(v) then PlainPart(f, v, rnd) + rest
      else rest
  }

  /** No field contributes exactly when both parts are empty. */
  lemma NothingContributes(fields: seq<PrefixField>, values: map<int, string>, rnd: Renderer)
    ensures (forall f :: f in fields ==> !Contributes(f, values))
            <==> FilterPart(fields, values, rnd) == "" && PlainGroup(fields, values, rnd) == ""
  {
    assert forall f :: f in fields ==> f.placement == FilterPrefix || f.placement == PlainPrefix;
  }

  /** The plain group trimmed and bracketed, or nothing when it is empty. */
  function Bracketed(group: string, rnd: Renderer): (b: string)
    ensures group == "" ==> b == ""
    ensures group != "" ==> |b| >= 3 && b[0] == '[' && b[|b| - 2..] == "] "
  {
    if group == "" then "" else "[" + Php.Trim(rnd.stripAnchors(group)) + "] "
  }

  /** What joining the filter links and the bracketed group keeps of each. */
  lemma JoinedParts(filters: string, plain: string)
    requires filters != "" ==> filters[0] == '['
    requires plain != "" ==> |plain| >= 3 && plain[0] == '[' && plain[|plain| - 2..] == "] "
    ensures filters + plain == "" <==> filters == "" && plain == ""
    ensures filters + plain != "" ==> (filters + plain)[0] == '['
    ensures filters <= filters + plain
    ensures plain != "" ==> |filters + plain| >= 3 && (filters + plain)[|filters + plain| - 2..] == "] "
  {
    var p := filters + plain;
    if filters != "" {
      assert p[0] == filters[0];
    }
    if plain != "" {
      assert p[|p| - 2..] == plain[|plain| - 2..];
    }
  }

  /** The text put in front of a ticket's subject and link: the filter links,
      then the plain group with anchors removed, trimmed and bracketed. */
  function PrefixFor(fields: seq<PrefixField>, values: map<int, string>, rnd: Renderer): (p: string)
    ensures p == "" <==> forall f :: f in fields ==> !Contributes(f, values)
    ensures p != "" ==> p[0] == '['
    ensures FilterPart(fields, values, rnd) <= p
    ensures PlainGroup(fields, values, rnd) != "" ==> |p| >= 3 && p[|p| - 2..] == "] "
  {
    var filters := FilterPart(fields, values, rnd);
    var plain := Bracketed(PlainGroup(fields, values, rnd), rnd);
    NothingContributes(fields, values, rnd);
    JoinedParts(filters, plain);
    filters + plain
  }

  /** The subject and link of a listed ticket. */
  datatype ListedTicket = ListedTicket(subject: string, link: string)

  /** Put the prefix in front of a ticket's subject and of its link. */
  function Compose(t: ListedTicket, fields: seq<PrefixField>, values: map<int, string>, rnd: Renderer): (r: ListedTicket)
    ensures r.subject == PrefixFor(fields, values, rnd) + t.subject
    ensures r.link == PrefixFor(fields, values, rnd) + t.link
  {
    var p := PrefixFor(fields, values, rnd);
    if Php.Empty(p) then t
    else ListedTicket(p + t.subject, p + t.link)
  }

  /** When no prefix field has a value to show, subject and link are left
      alone; otherwise both get the same non-empty prefix and keep the
      original text as their tail. */
  lemma ComposeChangesOnlyWithValues(t: ListedTicket, fields: seq<PrefixField>, values: map<int, string>, rnd: Renderer)
    ensures (forall f :: f in fields ==> !Contributes(f, values)) ==> Compose(t, fields, values, rnd) == t
    ensures (exists f :: f in fields && Contributes(f, values)) ==>
              var r := Compose(t, fields, values, rnd);
              var k := |r.subject| - |t.subject|;
              k > 0 && k == |r.link| - |t.link| && r.subject[..k] == r.link[..k]
              && r.subject[k..] == t.subject && r.link[k..] == t.link
  {
    var r := Compose(t, fields, values, rnd);
    var p := PrefixFor(fields, values, rnd);
    assert r.subject[..|p|] == p && r.link[..|p|] == p;
    assert r.subject[|p|..] == t.subject && r.link[|p|..] == t.link;
  }

  /** A filter link of the prefix: the field, its stored value and the caption
      of the option that value names. */
  datatype Hit = Hit(field: PrefixField, value: string, caption: string)

  /** The filterable fields that produce a link, in field order. */
  function FilterHits(fields: seq<PrefixField>, values: map<int, string>): (hits: seq<Hit>)
    ensures forall h :: h in hits ==>
              h.field in fields && h.field.placement == FilterPrefix && h.value == ValueOf(h.field, values)
              && !Php.Empty(h.value) && OptionLabel(h.field.options, h.value) == Some(h.caption)
    ensures forall f :: f in fields && f.placement == FilterPrefix && Contributes(f, values) ==>
              exists h :: h in hits && h.field == f
  {
    if |fields| == 0 then []
    else
      var f := fields[0];
      var rest := FilterHits(fields[1..], values);
      var v := ValueOf(f, values);
      var caption := OptionLabel(f.options, v);
      if f.placement == FilterPrefix && !Php.Empty(v) && caption.Some? then
        [Hit(f, v, caption.value)] + rest
      else rest
  }

  /** The bracketed links of a list of hits, in order. */
  function Entries(hits: seq<Hit>, rnd: Renderer): string {
    if |hits| == 0 then ""
    else FilterEntry(hits[0].field, hits[0].value, hits[0].caption, rnd) + Entries(hits[1..], rnd)
  }

  /** The filter part of the prefix is exactly one link per filterable field
      whose stored value names one of its options, in field order; a value
      naming no option produces no link. */
  lemma {:induction false} FilterPartIsHits(fields: seq<PrefixField>, values: map<int, string>, rnd: Renderer)
    ensures FilterPart(fields, values, rnd) == Entries(FilterHits(fields, values), rnd)
  {
    if |fields| > 0 {
      FilterPartIsHits(fields[1..], values, rnd);
      var f := fields[0];
      var v := ValueOf(f, values);
      if f.placement == FilterPrefix && !Php.Empty(v) && OptionLabel(f.options, v).Some? {
        var hits := FilterHits(fields, values);
        assert hits[0] == Hit(f, v, OptionLabel(f.options, v).value);
        assert hits[1..] == FilterHits(fields[1..], values);
      }
    }
  }
}
