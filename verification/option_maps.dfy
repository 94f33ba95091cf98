/** Option maps of select, radio and multi-select fields. Saving a field
    never forgets an option key that values may still refer to: options left
    out of the submission are kept but listed as inactive. */
module OptionMaps {
  import opened Results
  import Php
  import opened FieldTypes

  /** A stored option map: captions by integer key, and the keys no longer
      offered, in ascending order. */
  datatype OptionSet = OptionSet(captions: map<int, string>, inactive: seq<int>)

  /** One submitted option row: its key when the key is an integer (None for
      a non-numeric key), its caption, and whether it is ticked as a default
      of a multi-select. */
  datatype SubmittedOption = SubmittedOption(key: Option<int>, caption: string, multiDefault: bool)

  /** A submitted row that is kept: an integer key and a caption that is not
      blank. */
  predicate KeptRow(o: SubmittedOption) {
    o.key.Some? && !Php.Blank(o.caption)
  }

  /** Some kept row of the submission has key `k`. */
  predicate SubmitsKey(rows: seq<SubmittedOption>, k: int) {
    exists i :: 0 <= i < |rows| && KeptRow(rows[i]) && rows[i].key.value == k
  }

  /** Some kept row of the submission gives key `k` the caption `c`. */
  predicate SubmitsCaption(rows: seq<SubmittedOption>, k: int, c: string) {
    exists i :: 0 <= i < |rows| && KeptRow(rows[i]) && rows[i].key.value == k && rows[i].caption == c
  }

  /** A key the rows name is named by the rows before the last or by the
      last row. */
  lemma SubmitsKeyInit(rows: seq<SubmittedOption>, k: int)
    requires |rows| > 0 && SubmitsKey(rows, k)
    ensures SubmitsKey(rows[..|rows| - 1], k) || (KeptRow(rows[|rows| - 1]) && rows[|rows| - 1].key.value == k)
  {
    var i :| 0 <= i < |rows| && KeptRow(rows[i]) && rows[i].key.value == k;
    if i < |rows| - 1 {
      assert rows[..|rows| - 1][i] == rows[i];
    }
  }

  /** A key is named by the rows exactly when the rows before the last name
      it or the last row is kept with that key. */
  lemma SubmitsKeyLast(rows: seq<SubmittedOption>, k: int)
    requires |rows| > 0
    ensures SubmitsKey(rows, k) <==>
              SubmitsKey(rows[..|rows| - 1], k) || (KeptRow(rows[|rows| - 1]) && rows[|rows| - 1].key.value == k)
  {
    if SubmitsKey(rows, k) {
      SubmitsKeyInit(rows, k);
    }
    if SubmitsKey(rows[..|rows| - 1], k) {
      var i :| 0 <= i < |rows| - 1 && KeptRow(rows[..|rows| - 1][i]) && rows[..|rows| - 1][i].key.value == k;
      assert rows[i] == rows[..|rows| - 1][i];
    }
  }

  /** A caption the rows before the last give a key is still given. */
  lemma SubmitsCaptionLast(rows: seq<SubmittedOption>, k: int, c: string)
    requires |rows| > 0
    ensures SubmitsCaption(rows[..|rows| - 1], k, c) ==> SubmitsCaption(rows, k, c)
  {
    var init := rows[..|rows| - 1];
    if SubmitsCaption(init, k, c) {
      var i :| 0 <= i < |init| && KeptRow(init[i]) && init[i].key.value == k && init[i].caption == c;
      assert rows[i] == init[i];
    }
  }

  /** What the last row adds to the keys and captions the rows before it name. */
  lemma SubmitsLast(rows: seq<SubmittedOption>)
    requires |rows| > 0
    ensures forall k :: SubmitsKey(rows, k) <==>
              SubmitsKey(rows[..|rows| - 1], k) || (KeptRow(rows[|rows| - 1]) && rows[|rows| - 1].key.value == k)
    ensures forall k, c :: SubmitsCaption(rows[..|rows| - 1], k, c) ==> SubmitsCaption(rows, k, c)
  {
    forall k
      ensures SubmitsKey(rows, k) <==>
                SubmitsKey(rows[..|rows| - 1], k) || (KeptRow(rows[|rows| - 1]) && rows[|rows| - 1].key.value == k)
    {
      SubmitsKeyLast(rows, k);
    }
    forall k, c
      ensures SubmitsCaption(rows[..|rows| - 1], k, c) ==> SubmitsCaption(rows, k, c)
    {
      SubmitsCaptionLast(rows, k, c);
    }
  }

  /** The submitted options, rows with a blank caption or a non-numeric key
      dropped; a later row for the same key wins. */
  function CleanOptions(rows: seq<SubmittedOption>): (r: map<int, string>)
    ensures forall k :: k in r <==> SubmitsKey(rows, k)
    ensures forall k :: k in r ==> SubmitsCaption(rows, k, r[k])
    ensures |rows| > 0 && KeptRow(rows[|rows| - 1]) ==>
              rows[|rows| - 1].key.value in r && r[rows[|rows| - 1].key.value] == rows[|rows| - 1].caption
  {
    if |rows| == 0 then map[]
    else
      var init := CleanOptions(rows[..|rows| - 1]);
      var last := rows[|rows| - 1];
      SubmitsLast(rows);
      assert KeptRow(last) ==> SubmitsCaption(rows, last.key.value, last.caption);
      if KeptRow(last) then init[last.key.value := last.caption] else init
  }

  /** The smallest element of a non-empty set of integers. */
  function MinOf(s: set<int>): (m: int)
    requires s != {}
    ensures m in s && forall x :: x in s ==> m <= x
  {
    HasMin(s);
    var m :| m in s && forall x :: x in s ==> m <= x;
    m
  }

  lemma {:induction false} HasMin(s: set<int>)
    requires s != {}
    ensures exists m :: m in s && forall x :: x in s ==> m <= x
    decreases |s|
  {
    if forall z :: z !in s {
      assert false;
    }
    var y :| y in s;
    var rest := s - {y};
    if rest == {} {
      forall x | x in s
        ensures y <= x
      {
        assert x !in rest;
      }
    } else {
      HasMin(rest);
      var m :| m in rest && forall x :: x in rest ==> m <= x;
      var least := if y < m then y else m;
      forall x | x in s
        ensures least <= x
      {
        if x != y {
          assert x in rest;
        }
      }
      assert least in s;
    }
  }

  /** The elements of a set in ascending order. */
  function SortedKeys(s: set<int>): (r: seq<int>)
    ensures forall k :: k in r <==> k in s
    ensures forall i, j :: 0 <= i < j < |r| ==> r[i] < r[j]
    decreases |s|
  {
    if s == {} then []
    else
      var m := MinOf(s);
      var rest := SortedKeys(s - {m});
      assert forall k :: k in rest ==> m < k;
      [m] + rest
  }

  /** Overlay a submission on a stored option map: every stored key stays,
      submitted captions win, and the inactive list becomes exactly the
      stored keys the submission left out (an inactive option that is
      submitted again becomes active). */
  function Migrate(stored: OptionSet, submitted: map<int, string>): (r: OptionSet)
    ensures r.captions.Keys == stored.captions.Keys + submitted.Keys
    ensures forall k :: k in submitted ==> r.captions[k] == submitted[k]
    ensures forall k :: k in stored.captions && k !in submitted ==> r.captions[k] == stored.captions[k]
    ensures forall k :: k in r.inactive <==> k in stored.captions && k !in submitted
    ensures forall i, j :: 0 <= i < j < |r.inactive| ==> r.inactive[i] < r.inactive[j]
  {
    OptionSet(stored.captions + submitted, SortedKeys(stored.captions.Keys - submitted.Keys))
  }

  /** The options a form offers: the captions whose key is not inactive. */
  function ActiveOptions(o: OptionSet): map<int, string> {
    map k | k in o.captions && k !in o.inactive :: o.captions[k]
  }

  /** After a migration the options on offer are exactly the ones submitted. */
  lemma MigrateOffersSubmitted(stored: OptionSet, submitted: map<int, string>)
    ensures ActiveOptions(Migrate(stored, submitted)) == submitted
  {
    var r := Migrate(stored, submitted);
    assert ActiveOptions(r).Keys == submitted.Keys;
  }

  /** Saving the same submission twice gives the same option map. */
  lemma MigrateIdempotent(stored: OptionSet, submitted: map<int, string>)
    ensures Migrate(Migrate(stored, submitted), submitted) == Migrate(stored, submitted)
  {
    var once := Migrate(stored, submitted);
    var twice := Migrate(once, submitted);
    assert twice.captions == once.captions;
    assert once.captions.Keys - submitted.Keys == stored.captions.Keys - submitted.Keys;
  }

  /** Worked case: stored {1: A, 2: B}, submitted {1: A, 3: C} gives
      {1: A, 2: B, 3: C} with 2 inactive. */
  lemma MigrateExample()
    ensures Migrate(OptionSet(map[1 := "A", 2 := "B"], []), map[1 := "A", 3 := "C"])
            == OptionSet(map[1 := "A", 2 := "B", 3 := "C"], [2])
  {
    var r := Migrate(OptionSet(map[1 := "A", 2 := "B"], []), map[1 := "A", 3 := "C"]);
    assert map[1 := "A", 2 := "B"].Keys - map[1 := "A", 3 := "C"].Keys == {2};
    assert r.inactive == SortedKeys({2});
    assert MinOf({2}) == 2;
    assert r.captions == map[1 := "A", 2 := "B", 3 := "C"];
  }

  /** The option map a save stores. A submission counts only for an option
      type and only when option rows were sent at all. An update of a field
      whose stored type has options and that has a stored map migrates it;
      otherwise the cleaned submission is stored as it is, or nothing when
      there was none. */
  function SavedOptions(storedType: Option<FieldType>, stored: Option<OptionSet>,
                        newType: FieldType, rows: seq<SubmittedOption>): (r: Option<OptionSet>)
    ensures storedType.Some? && HasOptions(storedType.value) && stored.Some? ==>
              r.Some? && ActiveOptions(r.value) == SubmittedOptions(newType, rows)
              && stored.value.captions.Keys <= r.value.captions.Keys
    ensures (storedType.None? || !HasOptions(storedType.value) || stored.None?) ==>
              (r.Some? <==> HasOptions(newType) && |rows| > 0)
    ensures (storedType.None? || !HasOptions(storedType.value) || stored.None?) && r.Some? ==>
              r.value == OptionSet(CleanOptions(rows), [])
  {
    var submitted := SubmittedOptions(newType, rows);
    if storedType.Some? && HasOptions(storedType.value) && stored.Some? then
      MigrateOffersSubmitted(stored.value, submitted);
      Some(Migrate(stored.value, submitted))
    else if HasOptions(newType) && |rows| > 0 then
      Some(OptionSet(submitted, []))
    else None
  }

  /** The cleaned options of a submission, empty unless the new type has
      options and rows were sent. */
  function SubmittedOptions(newType: FieldType, rows: seq<SubmittedOption>): map<int, string> {
    if HasOptions(newType) && |rows| > 0 then CleanOptions(rows) else map[]
  }

  /** The keys ticked as multi-select defaults among the kept rows, in
      submission order. */
  function MultiDefaults(rows: seq<SubmittedOption>): (keys: seq<int>)
    ensures forall k :: k in keys ==> SubmitsKey(rows, k)
  {
    if |rows| == 0 then []
    else
      var init := MultiDefaults(rows[..|rows| - 1]);
      var last := rows[|rows| - 1];
      SubmitsLast(rows);
      if KeptRow(last) && last.multiDefault then init + [last.key.value] else init
  }

  /** Every multi-select default is one of the cleaned options. */
  lemma MultiDefaultsAreOptions(rows: seq<SubmittedOption>)
    ensures forall k :: k in MultiDefaults(rows) ==> k in CleanOptions(rows)
  {
  }
}
