/** The filter menu of the ticket listing: each filterable prefix field
    offers only the options that some stored value of that field actually
    uses, and a field left with nothing to offer is dropped. */
module FilterInUse {
  import Php

  /** A filterable field in the menu: its name and its option captions. */
  datatype FilterField = FilterField(name: string, options: map<int, string>)

  /** A stored custom-field value: the field and the text stored. Every
      stored value of the menu's fields counts, whichever ticket it belongs to. */
  datatype StoredValue = StoredValue(field: int, value: string)

  /** Whether the field has any stored value at all. */
  predicate HasValues(rows: seq<StoredValue>, field: int) {
    exists i :: 0 <= i < |rows| && rows[i].field == field
  }

  /** Whether some stored value of the field is the text of option key `k`.
      A stored text only matches the key it is the canonical text of. */
  predicate KeyUsed(rows: seq<StoredValue>, field: int, k: int) {
    exists i :: 0 <= i < |rows| && rows[i].field == field && rows[i].value == Php.IntText(k)
  }

  /** The options of a field whose key some stored value of it names. */
  function KeptOptions(options: map<int, string>, rows: seq<StoredValue>, field: int): (r: map<int, string>)
    ensures forall k :: k in r <==> k in options && KeyUsed(rows, field, k)
    ensures forall k :: k in r ==> r[k] == options[k]
    ensures r != map[] ==> HasValues(rows, field)
  {
    map k | k in options && KeyUsed(rows, field, k) :: options[k]
  }

  /** The menu after reduction. A field with no stored value at all is
      dropped; any other keeps only its used options, and is dropped too when
      none is left. */
  function Reduce(fields: map<int, FilterField>, rows: seq<StoredValue>): (r: map<int, FilterField>)
    ensures forall id :: id in r <==> id in fields && KeptOptions(fields[id].options, rows, id) != map[]
    ensures forall id :: id in r ==> r[id] == FilterField(fields[id].name, KeptOptions(fields[id].options, rows, id))
  {
    map id | id in fields && HasValues(rows, id) && KeptOptions(fields[id].options, rows, id) != map[]
      :: FilterField(fields[id].name, KeptOptions(fields[id].options, rows, id))
  }

  /** Each field left in the menu offers exactly the options of the full menu
      that some stored value of it uses, with the same captions, and a field
      is left exactly when it has such an option. */
  lemma ReduceOffersUsed(fields: map<int, FilterField>, rows: seq<StoredValue>, id: int, k: int)
    ensures id in Reduce(fields, rows) && k in Reduce(fields, rows)[id].options <==>
              id in fields && k in fields[id].options && KeyUsed(rows, id, k)
    ensures id in Reduce(fields, rows) ==> Reduce(fields, rows)[id].name == fields[id].name && |Reduce(fields, rows)[id].options| > 0
    ensures id in Reduce(fields, rows) && k in Reduce(fields, rows)[id].options ==>
              Reduce(fields, rows)[id].options[k] == fields[id].options[k]
  {
  }

  /** Keeping the used options of an already reduced option map keeps them all. */
  lemma KeptTwice(options: map<int, string>, rows: seq<StoredValue>, field: int)
    ensures KeptOptions(KeptOptions(options, rows, field), rows, field) == KeptOptions(options, rows, field)
  {
  }

  /** Reducing a reduced menu against the same stored values changes nothing. */
  lemma ReduceIdempotent(fields: map<int, FilterField>, rows: seq<StoredValue>)
    ensures Reduce(Reduce(fields, rows), rows) == Reduce(fields, rows)
  {
    var r := Reduce(fields, rows);
    var rr := Reduce(r, rows);
    forall id | id in r
      ensures id in rr && rr[id] == r[id]
    {
      KeptTwice(fields[id].options, rows, id);
    }
    assert rr.Keys == r.Keys;
  }

  /** A field whose stored texts are none of them the canonical text of an
      integer (such as "01" or "x") is dropped from the menu, whatever its
      options. */
  lemma NonCanonicalValuesOfferNothing(fields: map<int, FilterField>, rows: seq<StoredValue>, id: int)
    requires forall i :: 0 <= i < |rows| && rows[i].field == id ==> Php.CanonicalKey(rows[i].value).None?
    ensures id !in Reduce(fields, rows)
  {
    var r := Reduce(fields, rows);
    if id in r {
      var k :| k in r[id].options;
      var i :| 0 <= i < |rows| && rows[i].field == id && rows[i].value == Php.IntText(k);
      Php.CanonicalKeyIff(rows[i].value, k);
      assert false;
    }
  }
}
