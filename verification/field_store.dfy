/** The custom-field tables as immutable maps: field definitions by id (each
    with its display order), stored values by post and field, and the
    per-department requirement rows. Deleting, creating and moving fields
    keep the display orders consistent. */
module FieldStore {
  import opened Results
  import Php
  import opened FieldTypes
  import opened OptionMaps
  import opened FieldForm

  /** One field definition. */
  datatype FieldRecord = FieldRecord(
    active: bool, order: int, name: string, description: string, location: int, icon: string,
    fieldType: FieldType, length: int, options: Option<OptionSet>, bbc: bool, defaultValue: string,
    canSee: string, canEdit: string, displayEmpty: bool, placement: Placement)

  datatype ValueKey = ValueKey(post: int, field: int)
  datatype DeptKey = DeptKey(field: int, dept: int)

  /** The three tables. */
  datatype Store = Store(fields: map<int, FieldRecord>, values: map<ValueKey, string>, required: map<DeptKey, int>)

  /** No two fields share a display order. */
  predicate UniqueOrders(fields: map<int, FieldRecord>) {
    forall a, b :: a in fields && b in fields && a != b ==> fields[a].order != fields[b].order
  }

  /** The display orders are exactly 0 .. n-1 for n fields. */
  predicate Contiguous(fields: map<int, FieldRecord>) {
    UniqueOrders(fields) && forall id :: id in fields ==> 0 <= fields[id].order < |fields|
  }

  /** Two records agree on everything but the display order. */
  predicate SameButOrder(a: FieldRecord, b: FieldRecord) {
    a.(order := 0) == b.(order := 0)
  }

  // ---------------------------------------------------------------- delete

  /** The order a field has after the field at `gone` is removed. */
  function Shifted(order: int, gone: int): int {
    if order > gone then order - 1 else order
  }

  /** Delete a field: its definition, its stored values and its requirement
      rows go, and every field after it moves up one place. An unknown id
      changes nothing. */
  function Delete(s: Store, id: int): (r: Store)
    ensures id !in s.fields ==> r == s
    ensures id in s.fields ==> r.fields.Keys == s.fields.Keys - {id}
    ensures id in s.fields ==> forall f :: f in r.fields ==>
              SameButOrder(r.fields[f], s.fields[f])
              && (s.fields[f].order > s.fields[id].order ==> r.fields[f].order == s.fields[f].order - 1)
              && (s.fields[f].order <= s.fields[id].order ==> r.fields[f].order == s.fields[f].order)
    ensures id in s.fields ==> forall k :: k in r.values <==> k in s.values && k.field != id
    ensures id in s.fields ==> forall k :: k in r.required <==> k in s.required && k.field != id
    ensures forall k :: k in r.values ==> r.values[k] == s.values[k]
    ensures forall k :: k in r.required ==> r.required[k] == s.required[k]
  {
    if id !in s.fields then s
    else
      var gone := s.fields[id].order;
      Store(map f | f in s.fields && f != id :: s.fields[f].(order := Shifted(s.fields[f].order, gone)),
            map k | k in s.values && k.field != id :: s.values[k],
            map k | k in s.required && k.field != id :: s.required[k])
  }

  lemma CardRemove(fields: map<int, FieldRecord>, id: int)
    requires id in fields
    ensures |(map f | f in fields && f != id :: fields[f]).Keys| == |fields| - 1
  {
    var m := map f | f in fields && f != id :: fields[f];
    assert m.Keys == fields.Keys - {id};
  }

  /** Deleting from contiguous orders 0 .. n-1 leaves contiguous orders
      0 .. n-2, in the same relative order. */
  lemma DeleteKeepsContiguous(s: Store, id: int)
    requires Contiguous(s.fields) && id in s.fields
    ensures Contiguous(Delete(s, id).fields)
    ensures forall a, b :: a in Delete(s, id).fields && b in Delete(s, id).fields ==>
              (Delete(s, id).fields[a].order < Delete(s, id).fields[b].order <==> s.fields[a].order < s.fields[b].order)
  {
    var r := Delete(s, id).fields;
    assert r.Keys == s.fields.Keys - {id};
    assert |r| == |s.fields| - 1 by {
      assert |r.Keys| == |s.fields.Keys - {id}|;
    }
    forall f | f in r
      ensures 0 <= r[f].order < |r|
    {
      assert f in s.fields && f != id;
    }
  }

  // ---------------------------------------------------------------- create

  datatype SaveError = NoFieldName | InvalidType | InvalidTypeChange | CannotEdit | CouldNotCreate

  /** Requirement rows of one field replaced by a new set. */
  function ReplaceRequirements(required: map<DeptKey, int>, field: int, reqs: map<int, int>): (r: map<DeptKey, int>)
    ensures forall k :: k in r <==> (k in required && k.field != field) || (k.field == field && k.dept in reqs)
    ensures forall k :: k in r && k.field != field ==> r[k] == required[k]
    ensures forall d :: d in reqs ==> r[DeptKey(field, d)] == reqs[d]
  {
    var kept := map k | k in required && k.field != field :: required[k];
    var added := map k | k in (set d | d in reqs :: DeptKey(field, d)) :: reqs[k.dept];
    kept + added
  }

  /** Create a field from normalised settings. It goes last in the display
      order; `newId` is the id the database hands out for it, and no id
      means the field could not be created. */
  function Create(s: Store, rec: FieldRecord, newId: int, reqs: map<int, int>): (r: Result<Store, SaveError>)
    requires newId !in s.fields
    ensures newId == 0 <==> r.Err?
    ensures r.Err? ==> r.error == CouldNotCreate
    ensures r.Ok? ==> r.value.fields.Keys == s.fields.Keys + {newId}
    ensures r.Ok? ==> r.value.fields[newId].order == |s.fields| && SameButOrder(r.value.fields[newId], rec)
    ensures r.Ok? ==> forall f :: f in s.fields ==> r.value.fields[f] == s.fields[f]
    ensures r.Ok? ==> r.value.values == s.values
    ensures r.Ok? ==> forall d :: d in reqs ==> DeptKey(newId, d) in r.value.required
                                                && r.value.required[DeptKey(newId, d)] == reqs[d]
    ensures r.Ok? ==> forall k :: k in r.value.required <==>
                                    (k in s.required && k.field != newId) || (k.field == newId && k.dept in reqs)
    ensures r.Ok? ==> forall k :: k in r.value.required && k.field != newId ==> r.value.required[k] == s.required[k]
  {
    if newId == 0 then Err(CouldNotCreate)
    else Ok(Store(s.fields[newId := rec.(order := |s.fields|)], s.values, ReplaceRequirements(s.required, newId, reqs)))
  }

  /** Appending to contiguous orders 0 .. n-1 gives contiguous orders 0 .. n. */
  lemma CreateKeepsContiguous(s: Store, rec: FieldRecord, newId: int, reqs: map<int, int>)
    requires newId !in s.fields && Contiguous(s.fields)
    ensures Create(s, rec, newId, reqs).Ok? ==> Contiguous(Create(s, rec, newId, reqs).value.fields)
  {
    if newId != 0 {
      var fields := s.fields[newId := rec.(order := |s.fields|)];
      assert |fields| == |s.fields| + 1;
      forall a, b | a in fields && b in fields && a != b
        ensures fields[a].order != fields[b].order
      {
      }
      assert Create(s, rec, newId, reqs).value.fields == fields;
    }
  }

  // ---------------------------------------------------------------- move

  datatype MoveError = CannotMove | CannotMoveUp | CannotMoveDown

  /** The posted direction: "up" or "down", anything else counts as none. */
  function MoveDirection(posted: Option<string>): string {
    if posted == Some("up") || posted == Some("down") then posted.value else ""
  }

  /** The place a move aims at. */
  function Destination(order: int, direction: string): int {
    order + (if direction == "up" then -1 else 1)
  }

  /** Some field with a non-zero id sits at the given order. */
  predicate Occupied(fields: map<int, FieldRecord>, order: int) {
    exists o :: o in fields && o != 0 && fields[o].order == order
  }

  /** Give field `id` the order `dest` and the field that had `dest` the order
      `id` had. */
  function Swap(fields: map<int, FieldRecord>, id: int, dest: int): (r: map<int, FieldRecord>)
    requires id in fields
    ensures r.Keys == fields.Keys
    ensures forall f :: f in r ==> SameButOrder(r[f], fields[f])
    ensures r[id].order == dest
    ensures forall f :: f in r && f != id && fields[f].order == dest ==> r[f].order == fields[id].order
    ensures forall f :: f in r && f != id && fields[f].order != dest ==> r[f] == fields[f]
  {
    var pos := fields[id].order;
    map f | f in fields :: if f == id then fields[f].(order := dest)
                           else if fields[f].order == dest then fields[f].(order := pos)
                           else fields[f]
  }

  /** Whether the move is carried out, as written: there must be fields and
      a direction, the field must be known with a non-empty order (order 0
      reads as empty), and the destination must be occupied. */
  predicate MoveAllowedAsWritten(fields: map<int, FieldRecord>, id: int, direction: string) {
    fields != map[] && direction != "" && id in fields && fields[id].order != 0
    && Occupied(fields, Destination(fields[id].order, direction))
  }

  /** Move a field one place up or down by swapping it with its neighbour,
      as written. */
  function MoveAsWritten(fields: map<int, FieldRecord>, fieldParam: Option<string>, posted: Option<string>)
    : (r: Result<map<int, FieldRecord>, MoveError>)
    requires UniqueOrders(fields)
    ensures r.Ok? <==> MoveAllowedAsWritten(fields, ParamInt(fieldParam), MoveDirection(posted))
    ensures r.Ok? ==> r.value == Swap(fields, ParamInt(fieldParam),
                                      Destination(fields[ParamInt(fieldParam)].order, MoveDirection(posted)))
  {
    var id := ParamInt(fieldParam);
    var direction := MoveDirection(posted);
    if fields == map[] || direction == "" then Err(CannotMove)
    else if id !in fields || fields[id].order == 0 then Err(CannotMove)
    else
      var dest := Destination(fields[id].order, direction);
      if !Occupied(fields, dest) then Err(if direction == "up" then CannotMoveUp else CannotMoveDown)
      else Ok(Swap(fields, id, dest))
  }

  /** Whether the move is carried out, as intended: any known field may move
      to an occupied neighbouring place. */
  predicate MoveAllowed(fields: map<int, FieldRecord>, id: int, direction: string) {
    fields != map[] && direction != "" && id in fields
    && Occupied(fields, Destination(fields[id].order, direction))
  }

  /** Move a field one place up or down, the field at order 0 included. */
  function Move(fields: map<int, FieldRecord>, fieldParam: Option<string>, posted: Option<string>)
    : (r: Result<map<int, FieldRecord>, MoveError>)
    requires UniqueOrders(fields)
    ensures r.Ok? <==> MoveAllowed(fields, ParamInt(fieldParam), MoveDirection(posted))
    ensures r.Ok? ==> r.value == Swap(fields, ParamInt(fieldParam),
                                      Destination(fields[ParamInt(fieldParam)].order, MoveDirection(posted)))
    ensures MoveAllowedAsWritten(fields, ParamInt(fieldParam), MoveDirection(posted)) ==>
              r == MoveAsWritten(fields, fieldParam, posted)
  {
    var id := ParamInt(fieldParam);
    var direction := MoveDirection(posted);
    if fields == map[] || direction == "" then Err(CannotMove)
    else if id !in fields then Err(CannotMove)
    else
      var dest := Destination(fields[id].order, direction);
      if !Occupied(fields, dest) then Err(if direction == "up" then CannotMoveUp else CannotMoveDown)
      else Ok(Swap(fields, id, dest))
  }

  /** A swap with an occupied neighbour keeps the orders contiguous. */
  lemma SwapKeepsContiguous(fields: map<int, FieldRecord>, id: int, dest: int)
    requires Contiguous(fields) && id in fields && Occupied(fields, dest)
    ensures Contiguous(Swap(fields, id, dest))
  {
    var r := Swap(fields, id, dest);
    assert |r| == |fields| by { assert r.Keys == fields.Keys; }
  }

  /** A successful move keeps the orders contiguous. */
  lemma MoveKeepsContiguous(fields: map<int, FieldRecord>, fieldParam: Option<string>, posted: Option<string>)
    requires Contiguous(fields)
    ensures Move(fields, fieldParam, posted).Ok? ==> Contiguous(Move(fields, fieldParam, posted).value)
  {
    var id := ParamInt(fieldParam);
    if Move(fields, fieldParam, posted).Ok? {
      SwapKeepsContiguous(fields, id, Destination(fields[id].order, MoveDirection(posted)));
    }
  }

  /** Swapping a field with its neighbour and swapping back restores every
      order. */
  lemma SwapBack(fields: map<int, FieldRecord>, id: int, other: int)
    requires UniqueOrders(fields) && id in fields && other in fields && other != id
    ensures Swap(Swap(fields, id, fields[other].order), id, fields[id].order) == fields
  {
    var dest := fields[other].order;
    var pos := fields[id].order;
    var once := Swap(fields, id, dest);
    var back := Swap(once, id, pos);
    forall f | f in fields
      ensures back[f] == fields[f]
    {
      if f != id && f != other {
        assert fields[f].order != dest && fields[f].order != pos;
      }
    }
    assert back.Keys == fields.Keys;
  }

  /** A known field with an occupied neighbour in the posted direction is
      swapped with it. */
  lemma MoveOk(fields: map<int, FieldRecord>, fieldParam: Option<string>, direction: string)
    requires UniqueOrders(fields) && (direction == "up" || direction == "down")
    requires ParamInt(fieldParam) in fields
    requires Occupied(fields, Destination(fields[ParamInt(fieldParam)].order, direction))
    ensures Move(fields, fieldParam, Some(direction))
            == Ok(Swap(fields, ParamInt(fieldParam), Destination(fields[ParamInt(fieldParam)].order, direction)))
  {
    assert MoveDirection(Some(direction)) == direction;
  }

  /** Swapping a field with the one below it leaves the field below it in
      the field's old place, and swapping back up restores every order. */
  lemma SwapDownUp(fields: map<int, FieldRecord>, id: int)
    requires Contiguous(fields) && id in fields
    requires Occupied(fields, fields[id].order + 1)
    ensures Contiguous(Swap(fields, id, fields[id].order + 1))
    ensures Occupied(Swap(fields, id, fields[id].order + 1), fields[id].order)
    ensures Swap(Swap(fields, id, fields[id].order + 1), id, fields[id].order) == fields
  {
    var pos := fields[id].order;
    var other :| other in fields && other != 0 && fields[other].order == pos + 1;
    var down := Swap(fields, id, pos + 1);
    SwapKeepsContiguous(fields, id, pos + 1);
    assert down[other].order == pos;
    SwapBack(fields, id, other);
  }

  /** A successful move down swaps the field with the one below it. */
  lemma MoveDownIsSwap(fields: map<int, FieldRecord>, fieldParam: Option<string>)
    requires UniqueOrders(fields)
    requires Move(fields, fieldParam, Some("down")).Ok?
    ensures ParamInt(fieldParam) in fields
    ensures Occupied(fields, fields[ParamInt(fieldParam)].order + 1)
    ensures Move(fields, fieldParam, Some("down"))
            == Ok(Swap(fields, ParamInt(fieldParam), fields[ParamInt(fieldParam)].order + 1))
  {
    assert MoveDirection(Some("down")) == "down";
  }

  /** Moving a field down and then up again restores every order. */
  lemma MoveDownUp(fields: map<int, FieldRecord>, fieldParam: Option<string>, down: map<int, FieldRecord>)
    requires Contiguous(fields)
    requires Move(fields, fieldParam, Some("down")) == Ok(down)
    ensures UniqueOrders(down) && Move(down, fieldParam, Some("up")) == Ok(fields)
  {
    var id := ParamInt(fieldParam);
    MoveDownIsSwap(fields, fieldParam);
    SwapDownUp(fields, id);
    MoveOk(down, fieldParam, "up");
  }

  /** The field at order 0 can never be moved as written, though a move down
      is possible: with fields 1 (order 0) and 2 (order 1), moving field 1
      down is refused, while the intended move swaps the two. */
  lemma FirstFieldCannotMoveDown(a: FieldRecord, b: FieldRecord)
    requires a.order == 0 && b.order == 1
    ensures MoveAsWritten(map[1 := a, 2 := b], Some("1"), Some("down")) == Err(CannotMove)
    ensures Move(map[1 := a, 2 := b], Some("1"), Some("down")).Ok?
  {
    Php.IntCastOfIntText(1);
    assert Php.IntText(1) == "1";
    var fields := map[1 := a, 2 := b];
    assert fields[2].order == Destination(0, "down");
  }
}
