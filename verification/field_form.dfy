/** Normalisation of the custom-field edit form before a save: numeric
    clamps, legal placements, the icon-name pattern, visibility flags and
    per-department requirements. Request fields are given already split into
    presence (`isset`) and non-emptiness where the form only tests those. */
module FieldForm {
  import opened Results
  import Php
  import opened FieldTypes
  import opened OptionMaps

  /** Where a field is shown. */
  datatype Placement = Details | Info | Prefix | PrefixFilter

  /** A posted placement: one of the four, or anything else. */
  datatype PlacementCode = Placed(p: Placement) | OtherPlacement

  /** `(int)` of an optional request value, 0 when it is absent. */
  function ParamInt(p: Option<string>): int {
    if p.Some? then Php.IntCast(p.value) else 0
  }

  /** `v` limited to `[lo, hi]`. */
  function Clamp(v: int, lo: int, hi: int): (r: int)
    requires lo <= hi
    ensures lo <= r <= hi
    ensures lo <= v <= hi ==> r == v
    ensures v < lo ==> r == lo
    ensures v > hi ==> r == hi
  {
    if v < lo then lo else if v > hi then hi else v
  }

  /** The stored field length: the posted length cast to an integer and
      limited to 0..32000, 0 when absent. */
  function FieldLength(posted: Option<string>): (n: int)
    ensures 0 <= n <= 32000
    ensures posted.Some? && 0 <= Php.IntCast(posted.value) <= 32000 ==> n == Php.IntCast(posted.value)
    ensures posted.None? ==> n == 0
  {
    Clamp(ParamInt(posted), 0, 32000)
  }

  /** The stored placement: an unknown or missing one becomes details, and a
      prefix filter on a type without single-choice options becomes a plain
      prefix. */
  function NormalisePlacement(posted: Option<PlacementCode>, t: TypeCode): (p: Placement)
    ensures p == PrefixFilter ==> t == Known(Select) || t == Known(Radio)
    ensures posted == Some(Placed(PrefixFilter)) && (t == Known(Select) || t == Known(Radio)) ==> p == PrefixFilter
    ensures posted == Some(Placed(PrefixFilter)) && !(t == Known(Select) || t == Known(Radio)) ==> p == Prefix
    ensures posted.Some? && posted.value.Placed? && posted.value.p != PrefixFilter ==> p == posted.value.p
    ensures posted.None? || posted.value.OtherPlacement? ==> p == Details
  {
    var p := if posted.Some? && posted.value.Placed? then posted.value.p else Details;
    if p == PrefixFilter && !(t == Known(Select) || t == Known(Radio)) then Prefix else p
  }

  /** Normalising an already stored placement again changes nothing. */
  lemma PlacementStable(posted: Option<PlacementCode>, t: TypeCode)
    ensures NormalisePlacement(Some(Placed(NormalisePlacement(posted, t))), t) == NormalisePlacement(posted, t)
  {
  }

  /** Bulletin-board code is enabled only when asked for and only for the
      two text types. */
  function BbcFlag(requested: bool, t: TypeCode): (b: bool)
    ensures b <==> requested && (t == Known(Text) || t == Known(LargeText))
  {
    requested && (t == Known(Text) || t == Known(LargeText))
  }

  /** A character of the icon-name pattern: letter, digit, dot, dash or
      underscore. */
  predicate IconChar(c: char) {
    ('A' <= c <= 'Z') || ('a' <= c <= 'z') || ('0' <= c <= '9') || c == '.' || c == '-' || c == '_'
  }

  predicate AllIconChars(s: string) {
    forall i :: 0 <= i < |s| ==> IconChar(s[i])
  }

  /** The icon test as the pattern behaves: one or more pattern characters
      anchored at the start, and an end anchor that also matches just before
      a final newline. */
  predicate IconMatchesAsWritten(s: string) {
    (|s| > 0 && AllIconChars(s))
    || (|s| > 1 && s[|s| - 1] == '\n' && AllIconChars(s[..|s| - 1]))
  }

  /** The icon test as intended: the whole name is pattern characters. */
  predicate IconMatches(s: string) {
    |s| > 0 && AllIconChars(s)
  }

  /** The stored icon as written: a posted name that passes the pattern, or
      the empty name. */
  function IconAsWritten(posted: Option<string>): (icon: string)
    ensures icon != "" ==> posted.Some? && icon == posted.value && IconMatchesAsWritten(icon)
    ensures posted.Some? && IconMatchesAsWritten(posted.value) ==> icon == posted.value
  {
    if posted.Some? && IconMatchesAsWritten(posted.value) then posted.value else ""
  }

  /** The stored icon as intended: only a name made entirely of pattern
      characters is kept. */
  function Icon(posted: Option<string>): (icon: string)
    ensures icon == "" || AllIconChars(icon)
    ensures icon != "" ==> posted.Some? && icon == posted.value
    ensures posted.Some? && IconMatches(posted.value) ==> icon == posted.value
  {
    if posted.Some? && IconMatches(posted.value) then posted.value else ""
  }

  /** The two tests agree except on names ending in a newline, which the
      pattern as written lets through: "cf.png\n" is stored with its newline. */
  lemma IconTrailingNewline()
    ensures IconAsWritten(Some("cf.png\n")) == "cf.png\n"
    ensures Icon(Some("cf.png\n")) == ""
  {
    assert "cf.png\n"[..6] == "cf.png";
    assert !IconChar("cf.png\n"[6]);
  }

  /** Where the newline is not last, both tests agree. */
  lemma IconTestsAgree(s: string)
    requires |s| == 0 || s[|s| - 1] != '\n'
    ensures IconMatchesAsWritten(s) <==> IconMatches(s)
  {
  }

  /** The stored icon differs from the one the pattern as written keeps only
      for a posted name ending in a newline: the pattern keeps it, the
      corrected test drops it. */
  lemma IconAgainstAsWritten(posted: Option<string>)
    ensures Icon(posted) != IconAsWritten(posted) ==>
              posted.Some? && |posted.value| > 1 && posted.value[|posted.value| - 1] == '\n'
              && IconAsWritten(posted) == posted.value && Icon(posted) == ""
  {
    if posted.Some? {
      var s := posted.value;
      if |s| == 0 || s[|s| - 1] != '\n' {
        IconTestsAgree(s);
      }
    }
  }

  /** Who may see and edit a field, as flags. */
  datatype Visibility = Visibility(userSee: bool, userEdit: bool, staffSee: bool, staffEdit: bool)

  /** The posted visibility: editing is granted only with seeing, for users
      and staff alike. */
  function FormVisibility(seeUsers: bool, editUsers: bool, seeStaff: bool, editStaff: bool): (v: Visibility)
    ensures v.userEdit ==> v.userSee
    ensures v.staffEdit ==> v.staffSee
    ensures v.userSee == seeUsers && v.staffSee == seeStaff
    ensures v.userEdit <==> seeUsers && editUsers
    ensures v.staffEdit <==> seeStaff && editStaff
  {
    Visibility(seeUsers, seeUsers && editUsers, seeStaff, seeStaff && editStaff)
  }

  function Flag(b: bool): string {
    if b then "1" else "0"
  }

  /** The stored `can_see` text: user flag, comma, staff flag. */
  function CanSeeText(v: Visibility): string {
    Flag(v.userSee) + "," + Flag(v.staffSee)
  }

  /** The stored `can_edit` text. */
  function CanEditText(v: Visibility): string {
    Flag(v.userEdit) + "," + Flag(v.staffEdit)
  }

  /** Whether the listing shows a field with the given `can_see` text: always
      to administrators, to staff when the second flag is "1", and to others
      when the first is. A text without a comma has no staff flag. The flags
      are compared as exact text; PHP's loose comparison would also accept
      numeric spellings such as "01", which the form never stores. */
  function SeenBy(canSee: string, isAdmin: bool, isStaff: bool): (seen: bool)
  {
    var parts := Php.Explode(canSee, ',');
    var userSee := parts[0];
    var staffSee := if |parts| > 1 then parts[1] else "";
    isAdmin || (isStaff && staffSee == "1") || (!isStaff && userSee == "1")
  }

  /** The listing reads back exactly the visibility the form stored. */
  lemma VisibilityRoundTrip(v: Visibility, isAdmin: bool, isStaff: bool)
    ensures SeenBy(CanSeeText(v), isAdmin, isStaff) <==> isAdmin || (isStaff && v.staffSee) || (!isStaff && v.userSee)
  {
    var text := CanSeeText(v);
    assert text == Flag(v.userSee) + [','] + Flag(v.staffSee);
    Php.ExplodeOneSeparator(Flag(v.userSee), Flag(v.staffSee), ',');
  }

  /** One department's part of the form: whether its presence box was
      posted non-empty, the posted multi-select requirement, and whether the
      plain requirement box was posted at all. */
  datatype DeptInput = DeptInput(dept: int, present: bool, requiredMulti: Option<string>, requiredTicked: bool)

  /** The requirement stored for a department: for a multi-select, how many
      selections are required, cast and limited to 0..100 and then to the
      number of submitted options; for any other type 0 or 1. */
  function Requirement(d: DeptInput, t: TypeCode, optionCount: nat): (r: int)
    ensures t == Known(Multi) ==> 0 <= r <= 100 && r <= optionCount
    ensures t == Known(Multi) && 0 <= ParamInt(d.requiredMulti) <= optionCount && ParamInt(d.requiredMulti) <= 100
            ==> r == ParamInt(d.requiredMulti)
    ensures t != Known(Multi) ==> (r == 1 <==> d.requiredTicked) && (r == 0 <==> !d.requiredTicked)
  {
    if t == Known(Multi) then
      var required := Clamp(ParamInt(d.requiredMulti), 0, 100);
      if required > optionCount then optionCount else required
    else if d.requiredTicked then 1 else 0
  }

  /** Entry `i` is marked present and no later entry marked present names
      the same department: it is the entry whose row is stored. */
  predicate LastPresent(depts: seq<DeptInput>, i: int)
    requires 0 <= i < |depts|
  {
    depts[i].present && forall j :: i < j < |depts| && depts[j].present ==> depts[j].dept != depts[i].dept
  }

  /** Some entry marked present names department `k`. */
  predicate NamesDept(depts: seq<DeptInput>, k: int) {
    exists i :: 0 <= i < |depts| && depts[i].present && depts[i].dept == k
  }

  /** A department is named by the entries exactly when the entries before
      the last name it or the last entry is present for it. */
  lemma NamesDeptLast(depts: seq<DeptInput>, k: int)
    requires |depts| > 0
    ensures NamesDept(depts, k) <==>
              NamesDept(depts[..|depts| - 1], k) || (depts[|depts| - 1].present && depts[|depts| - 1].dept == k)
  {
    if NamesDept(depts, k) {
      var i :| 0 <= i < |depts| && depts[i].present && depts[i].dept == k;
      if i < |depts| - 1 {
        assert depts[..|depts| - 1][i] == depts[i];
      }
    }
    if NamesDept(depts[..|depts| - 1], k) {
      var i :| 0 <= i < |depts| - 1 && depts[..|depts| - 1][i].present && depts[..|depts| - 1][i].dept == k;
      assert depts[i] == depts[..|depts| - 1][i];
    }
  }

  /** The requirement rows of a save: one per department marked present, a
      later entry for the same department winning. */
  function Requirements(depts: seq<DeptInput>, t: TypeCode, optionCount: nat): (r: map<int, int>)
    ensures forall k :: k in r <==> NamesDept(depts, k)
    ensures forall i :: 0 <= i < |depts| && LastPresent(depts, i) ==>
              depts[i].dept in r && r[depts[i].dept] == Requirement(depts[i], t, optionCount)
    ensures forall k :: k in r ==> (t == Known(Multi) ==> 0 <= r[k] <= optionCount && r[k] <= 100)
                                   && (t != Known(Multi) ==> r[k] == 0 || r[k] == 1)
  {
    if |depts| == 0 then map[]
    else
      var init := Requirements(depts[..|depts| - 1], t, optionCount);
      var last := depts[|depts| - 1];
      assert forall k :: NamesDept(depts, k) <==> NamesDept(depts[..|depts| - 1], k) || (last.present && last.dept == k) by {
        forall k { NamesDeptLast(depts, k); }
      }
      assert forall i :: 0 <= i < |depts| - 1 ==> depts[..|depts| - 1][i] == depts[i];
      assert forall i :: 0 <= i < |depts| - 1 && LastPresent(depts, i) ==> LastPresent(depts[..|depts| - 1], i);
      if last.present then init[last.dept := Requirement(last, t, optionCount)] else init
  }

  /** The default value a save stores. A checkbox stores "1" when its
      default box is ticked; a large text stores its rows and columns; a
      select or radio stores the chosen default key when it is one of the
      kept options; a multi-select stores its ticked defaults comma-joined;
      anything else stores nothing. */
  function DefaultValue(t: TypeCode, defaultTicked: bool, textRows: Option<string>, textCols: Option<string>,
                        rows: seq<SubmittedOption>, defaultSelect: Option<int>): (v: string)
    ensures t == Known(Checkbox) ==> (v == "1" <==> defaultTicked) && (v == "" <==> !defaultTicked)
    ensures t == Known(LargeText) ==> v == Php.IntText(ParamInt(textRows)) + "," + Php.IntText(ParamInt(textCols))
    ensures t == Known(Multi) ==> v == JoinKeys(if |rows| > 0 then MultiDefaults(rows) else [])
    ensures (t == Known(Select) || t == Known(Radio)) && v != "" ==>
              defaultSelect.Some? && v == Php.IntText(defaultSelect.value) && SubmitsKey(rows, defaultSelect.value)
    ensures (t == Known(Select) || t == Known(Radio)) && defaultSelect.Some? && SubmitsKey(rows, defaultSelect.value)
            ==> v == Php.IntText(defaultSelect.value)
    ensures t.Unrecognised? || t.t in {Text, IntNumber, FloatNumber} ==> v == ""
  {
    match t
    case Known(Checkbox) => if defaultTicked then "1" else ""
    case Known(LargeText) => Php.IntText(ParamInt(textRows)) + "," + Php.IntText(ParamInt(textCols))
    case Known(Multi) => JoinKeys(if |rows| > 0 then MultiDefaults(rows) else [])
    case Known(Select) => ChosenDefault(rows, defaultSelect)
    case Known(Radio) => ChosenDefault(rows, defaultSelect)
    case _ => ""
  }

  /** The chosen default of a single-choice field, when a kept row has it. */
  function ChosenDefault(rows: seq<SubmittedOption>, defaultSelect: Option<int>): (v: string)
    ensures v != "" ==> defaultSelect.Some? && v == Php.IntText(defaultSelect.value) && SubmitsKey(rows, defaultSelect.value)
    ensures defaultSelect.Some? && SubmitsKey(rows, defaultSelect.value) ==> v == Php.IntText(defaultSelect.value)
  {
    if defaultSelect.Some? && SubmitsKey(rows, defaultSelect.value) then Php.IntText(defaultSelect.value) else ""
  }

  /** Integer keys joined with commas; nothing for no keys. */
  function JoinKeys(keys: seq<int>): string {
    if |keys| == 0 then "" else Php.Implode(KeyTexts(keys), ',')
  }

  function KeyTexts(keys: seq<int>): (texts: seq<string>)
    ensures |texts| == |keys|
    ensures forall i :: 0 <= i < |keys| ==> texts[i] == Php.IntText(keys[i])
  {
    if |keys| == 0 then [] else [Php.IntText(keys[0])] + KeyTexts(keys[1..])
  }

  /** A stored multi-select default explodes back into its keys: there is one
      piece per key, and each piece is the canonical text of its key. */
  lemma MultiDefaultRoundTrip(keys: seq<int>)
    requires |keys| > 0
    ensures |Php.Explode(JoinKeys(keys), ',')| == |keys|
    ensures forall i :: 0 <= i < |keys| ==> Php.CanonicalKey(Php.Explode(JoinKeys(keys), ',')[i]) == Some(keys[i])
  {
    var texts := KeyTexts(keys);
    forall i | 0 <= i < |texts|
      ensures ',' !in texts[i]
    {
      assert texts[i] == Php.IntText(keys[i]);
    }
    Php.ExplodeImplode(texts, ',');
    forall i | 0 <= i < |keys|
      ensures Php.CanonicalKey(texts[i]) == Some(keys[i])
    {
      Php.CanonicalKeyIff(texts[i], keys[i]);
    }
  }
}
