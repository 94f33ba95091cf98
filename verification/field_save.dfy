/** Saving the custom-field form: a delete request, a cancel, or the
    creation or update of one field from its normalised settings. The
    database's choice of id for a new field is a parameter. */
module FieldSave {
  import opened Results
  import Php
  import opened FieldTypes
  import opened OptionMaps
  import opened FieldForm
  import opened FieldStore

  /** What the form posts. Absent text parameters are None. Most flags say
      whether the parameter was posted at all (`delete`, `cancel`, `isNew`,
      `active`, `bbc`, `displayEmpty`, `defaultTicked`); the four visibility
      boxes say whether it was posted non-empty. The name and description
      are taken as already escaped. */
  datatype Submission = Submission(
    delete: bool, field: Option<string>, cancel: bool, isNew: bool,
    name: string, description: string, fieldType: TypeCode, active: bool,
    length: Option<string>, location: Option<string>, icon: Option<string>,
    placement: Option<PlacementCode>, bbc: bool, displayEmpty: bool,
    defaultTicked: bool, textRows: Option<string>, textCols: Option<string>,
    seeUsers: bool, editUsers: bool, seeStaff: bool, editStaff: bool,
    depts: seq<DeptInput>, options: seq<SubmittedOption>, defaultSelect: Option<int>)

  /** The request deletes a field: a delete flag and a non-empty field
      parameter. */
  predicate DeleteRequest(sub: Submission) {
    sub.delete && sub.field.Some? && !Php.Empty(sub.field.value)
  }

  /** The settings a save stores for a field of type `t`, with the given
      option map; the display order is left to the caller. */
  function Settings(sub: Submission, t: FieldType, options: Option<OptionSet>): (rec: FieldRecord)
    ensures 0 <= rec.length <= 32000
    ensures rec.bbc ==> t == Text || t == LargeText
    ensures rec.placement == PrefixFilter ==> t == Select || t == Radio
    ensures rec.icon == "" || AllIconChars(rec.icon)
    ensures rec.fieldType == t && rec.options == options && rec.name == sub.name
  {
    var v := FormVisibility(sub.seeUsers, sub.editUsers, sub.seeStaff, sub.editStaff);
    FieldRecord(sub.active, 0, sub.name, sub.description, ParamInt(sub.location), Icon(sub.icon),
                t, FieldLength(sub.length), options, BbcFlag(sub.bbc, Known(t)),
                DefaultValue(Known(t), sub.defaultTicked, sub.textRows, sub.textCols, sub.options, sub.defaultSelect),
                CanSeeText(v), CanEditText(v), sub.displayEmpty, NormalisePlacement(sub.placement, Known(t)))
  }

  /** The saved icon follows the corrected test. It differs from the icon the
      pattern as written would store only for a posted name that ends in a
      newline, which the pattern as written keeps and the save drops. */
  lemma SettingsIconAgainstAsWritten(sub: Submission, t: FieldType, options: Option<OptionSet>)
    ensures Settings(sub, t, options).icon != IconAsWritten(sub.icon) ==>
              sub.icon.Some? && |sub.icon.value| > 1 && sub.icon.value[|sub.icon.value| - 1] == '\n'
              && IconAsWritten(sub.icon) == sub.icon.value && Settings(sub, t, options).icon == ""
  {
    assert Settings(sub, t, options).icon == Icon(sub.icon);
    IconAgainstAsWritten(sub.icon);
  }

  /** The requirement rows of a save of type `t`: a multi-select is limited
      by the number of submitted options. */
  function SavedRequirements(sub: Submission, t: FieldType): (r: map<int, int>)
    ensures forall d :: d in r <==> exists i :: 0 <= i < |sub.depts| && sub.depts[i].present && sub.depts[i].dept == d
    ensures forall i :: 0 <= i < |sub.depts| && LastPresent(sub.depts, i) ==>
              sub.depts[i].dept in r
              && r[sub.depts[i].dept] == Requirement(sub.depts[i], Known(t), |SubmittedOptions(t, sub.options)|)
    ensures t == Multi ==> forall d :: d in r ==> 0 <= r[d] <= |SubmittedOptions(t, sub.options)|
    ensures t != Multi ==> forall d :: d in r ==> r[d] == 0 || r[d] == 1
  {
    Requirements(sub.depts, Known(t), |SubmittedOptions(t, sub.options)|)
  }

  /** Create a new field: the type must be one of the known types; the field
      goes last, with the cleaned options as they were submitted. */
  function SaveNew(s: Store, sub: Submission, newId: int): (r: Result<Store, SaveError>)
    requires newId !in s.fields
    ensures sub.fieldType.Unrecognised? ==> r == Err(InvalidType)
    ensures sub.fieldType.Known? && newId == 0 ==> r == Err(CouldNotCreate)
    ensures r.Ok? <==> sub.fieldType.Known? && newId != 0
    ensures r.Ok? ==> r.value.fields.Keys == s.fields.Keys + {newId}
                      && r.value.fields[newId].order == |s.fields|
                      && r.value.fields[newId].fieldType == sub.fieldType.t
                      && (forall f :: f in s.fields ==> r.value.fields[f] == s.fields[f])
                      && r.value.values == s.values
    ensures r.Ok? ==> forall k :: k in r.value.required && k.field != newId ==>
                                    k in s.required && r.value.required[k] == s.required[k]
    ensures r.Ok? ==> forall k :: k in s.required && k.field != newId ==> k in r.value.required
    ensures r.Ok? ==> forall d :: DeptKey(newId, d) in r.value.required <==> d in SavedRequirements(sub, sub.fieldType.t)
    ensures r.Ok? && HasOptions(sub.fieldType.t) && |sub.options| > 0 ==>
              r.value.fields[newId].options == Some(OptionSet(CleanOptions(sub.options), []))
  {
    if !(sub.fieldType.Known? && sub.fieldType.t in ChangeTypes(AllTypes)) then Err(InvalidType)
    else
      var t := sub.fieldType.t;
      var rec := Settings(sub, t, SavedOptions(None, None, t, sub.options));
      Create(s, rec, newId, SavedRequirements(sub, t))
  }

  /** Update an existing field: it must exist and its stored type must be
      allowed to become the posted one. Its place in the order stays, its
      option map is migrated, and its requirement rows are replaced. */
  function SaveExisting(s: Store, sub: Submission): (r: Result<Store, SaveError>)
    ensures ParamInt(sub.field) !in s.fields ==> r == Err(CannotEdit)
    ensures ParamInt(sub.field) in s.fields ==>
              (r == Err(InvalidTypeChange) <==>
                 !(sub.fieldType.Known? && CanBecome(s.fields[ParamInt(sub.field)].fieldType, sub.fieldType.t)))
    ensures r.Ok? <==> ParamInt(sub.field) in s.fields && sub.fieldType.Known?
                       && CanBecome(s.fields[ParamInt(sub.field)].fieldType, sub.fieldType.t)
    ensures r.Ok? ==>
              var id := ParamInt(sub.field);
              id in s.fields && r.value.fields.Keys == s.fields.Keys
              && r.value.fields[id].order == s.fields[id].order
              && r.value.fields[id].fieldType == sub.fieldType.t
              && (forall f :: f in s.fields && f != id ==> r.value.fields[f] == s.fields[f])
              && r.value.values == s.values
    ensures r.Ok? ==> forall k :: k in r.value.required && k.field != ParamInt(sub.field) ==>
                                    k in s.required && r.value.required[k] == s.required[k]
    ensures r.Ok? ==> forall k :: k in s.required && k.field != ParamInt(sub.field) ==> k in r.value.required
    ensures r.Ok? ==> forall d ::
              DeptKey(ParamInt(sub.field), d) in r.value.required <==> d in SavedRequirements(sub, sub.fieldType.t)
    ensures r.Ok? ==>
              var before := s.fields[ParamInt(sub.field)];
              HasOptions(before.fieldType) && before.options.Some? ==>
                r.value.fields[ParamInt(sub.field)].options.Some?
                && before.options.value.captions.Keys <= r.value.fields[ParamInt(sub.field)].options.value.captions.Keys
  {
    var id := ParamInt(sub.field);
    if id !in s.fields then Err(CannotEdit)
    else
      var stored := s.fields[id];
      if !(sub.fieldType.Known? && sub.fieldType.t in ChangeTypes(From(Known(stored.fieldType)))) then
        Err(InvalidTypeChange)
      else
        var t := sub.fieldType.t;
        var options := SavedOptions(Some(stored.fieldType), stored.options, t, sub.options);
        var rec := Settings(sub, t, options).(order := stored.order);
        Ok(Store(s.fields[id := rec], s.values, ReplaceRequirements(s.required, id, SavedRequirements(sub, t))))
  }

  /** One save of the custom-field form. `newId` is the id the database
      would give a created field. */
  function Save(s: Store, sub: Submission, newId: int): (r: Result<Store, SaveError>)
    requires newId !in s.fields
    ensures DeleteRequest(sub) ==> r == Ok(Delete(s, Php.IntCast(sub.field.value)))
    ensures !DeleteRequest(sub) && sub.cancel ==> r == Ok(s)
    ensures !DeleteRequest(sub) && !sub.cancel && Php.Blank(sub.name) ==> r == Err(NoFieldName)
    ensures !DeleteRequest(sub) && !sub.cancel && !Php.Blank(sub.name) ==>
              r == if sub.isNew then SaveNew(s, sub, newId) else SaveExisting(s, sub)
  {
    if DeleteRequest(sub) then Ok(Delete(s, Php.IntCast(sub.field.value)))
    else if sub.cancel then Ok(s)
    else if Php.Blank(sub.name) then Err(NoFieldName)
    else if sub.isNew then SaveNew(s, sub, newId)
    else SaveExisting(s, sub)
  }

  /** Updating a field keeps contiguous display orders. */
  lemma SaveExistingKeepsContiguous(s: Store, sub: Submission)
    requires Contiguous(s.fields)
    ensures SaveExisting(s, sub).Ok? ==> Contiguous(SaveExisting(s, sub).value.fields)
  {
    var r := SaveExisting(s, sub);
    if r.Ok? {
      var fields := r.value.fields;
      assert |fields| == |s.fields| by { assert fields.Keys == s.fields.Keys; }
      forall a | a in fields
        ensures fields[a].order == s.fields[a].order
      {
      }
    }
  }

  /** Creating a field keeps contiguous display orders. */
  lemma SaveNewKeepsContiguous(s: Store, sub: Submission, newId: int)
    requires newId !in s.fields && Contiguous(s.fields)
    ensures SaveNew(s, sub, newId).Ok? ==> Contiguous(SaveNew(s, sub, newId).value.fields)
  {
    if sub.fieldType.Known? {
      var t := sub.fieldType.t;
      CreateKeepsContiguous(s, Settings(sub, t, SavedOptions(None, None, t, sub.options)), newId,
                            SavedRequirements(sub, t));
    }
  }

  /** Every save keeps the display orders 0 .. n-1 for n fields. */
  lemma SaveKeepsContiguous(s: Store, sub: Submission, newId: int)
    requires newId !in s.fields && Contiguous(s.fields)
    ensures Save(s, sub, newId).Ok? ==> Contiguous(Save(s, sub, newId).value.fields)
  {
    if DeleteRequest(sub) {
      var id := Php.IntCast(sub.field.value);
      if id in s.fields {
        DeleteKeepsContiguous(s, id);
      }
    } else {
      SaveNewKeepsContiguous(s, sub, newId);
      SaveExistingKeepsContiguous(s, sub);
    }
  }

  /** Only a delete removes stored values, and only those of the deleted
      field; every other outcome leaves the values alone. */
  lemma SaveKeepsValues(s: Store, sub: Submission, newId: int)
    requires newId !in s.fields
    ensures Save(s, sub, newId).Ok? ==>
              forall k :: k in s.values && k !in Save(s, sub, newId).value.values ==>
                DeleteRequest(sub) && k.field == Php.IntCast(sub.field.value)
  {
  }

  /** Saving an existing field never drops an option key of its stored map:
      values that name an option keep naming one. */
  lemma UpdateKeepsOptionKeys(s: Store, sub: Submission, newId: int, k: int)
    requires newId !in s.fields
    requires !DeleteRequest(sub) && !sub.cancel && !sub.isNew
    requires ParamInt(sub.field) in s.fields
    requires var before := s.fields[ParamInt(sub.field)];
             HasOptions(before.fieldType) && before.options.Some? && k in before.options.value.captions
    ensures Save(s, sub, newId).Ok? ==>
              var now := Save(s, sub, newId).value.fields[ParamInt(sub.field)];
              now.options.Some? && k in now.options.value.captions
  {
  }
}
