/** Custom-field types and the compatibility map that says which types a
    stored field may be changed to on save. */
module FieldTypes {

  datatype FieldType = Text | LargeText | IntNumber | FloatNumber | Select | Checkbox | Radio | Multi

  /** A type code as read from a request or a stored row: one of the eight
      known types, or anything else. */
  datatype TypeCode = Known(t: FieldType) | Unrecognised

  /** The argument of the compatibility map: the listing query for every
      known type, or the type a field has now. */
  datatype TypeQuery = AllTypes | From(code: TypeCode)

  /** Whether a type keeps its values as keys of an option map. */
  predicate HasOptions(t: FieldType) {
    t == Select || t == Radio || t == Multi
  }

  /** The types a field may become. The listing query gives all eight; text
      and large text interchange; an integer may widen to a float but not
      back; select and radio interchange and may widen to multi-select;
      checkbox and multi-select stay as they are; an unknown code gets none. */
  function ChangeTypes(q: TypeQuery): (r: seq<FieldType>)
    ensures q.AllTypes? ==> forall t: FieldType :: t in r
    ensures q == From(Unrecognised) ==> r == []
    ensures q.From? && q.code.Known? ==> q.code.t in r
    ensures forall i, j :: 0 <= i < j < |r| ==> r[i] != r[j]
  {
    match q
    case AllTypes =>
      EveryTypeListed();
      [Text, LargeText, IntNumber, FloatNumber, Select, Checkbox, Radio, Multi]
    case From(Unrecognised) => []
    case From(Known(t)) =>
      match t
      case Text => [Text, LargeText]
      case LargeText => [Text, LargeText]
      case IntNumber => [IntNumber, FloatNumber]
      case FloatNumber => [FloatNumber]
      case Select => [Select, Radio, Multi]
      case Radio => [Select, Radio, Multi]
      case Checkbox => [Checkbox]
      case Multi => [Multi]
  }

  lemma EveryTypeListed()
    ensures forall t: FieldType :: t in [Text, LargeText, IntNumber, FloatNumber, Select, Checkbox, Radio, Multi]
  {
    forall t: FieldType
      ensures t in [Text, LargeText, IntNumber, FloatNumber, Select, Checkbox, Radio, Multi]
    {
      match t
      case Text =>
      case LargeText =>
      case IntNumber =>
      case FloatNumber =>
      case Select =>
      case Checkbox =>
      case Radio =>
      case Multi =>
    }
  }

  /** A field of type `a` may be saved with type `b`. */
  predicate CanBecome(a: FieldType, b: FieldType) {
    b in ChangeTypes(From(Known(a)))
  }

  /** The kind of value a type holds: free text, a number, a choice among
      options, or a flag. */
  datatype Family = TextFamily | NumberFamily | ChoiceFamily | FlagFamily

  function FamilyOf(t: FieldType): Family {
    match t
    case Text => TextFamily
    case LargeText => TextFamily
    case IntNumber => NumberFamily
    case FloatNumber => NumberFamily
    case Select => ChoiceFamily
    case Radio => ChoiceFamily
    case Multi => ChoiceFamily
    case Checkbox => FlagFamily
  }

  /** How much a type can hold within its family: a float holds every
      integer, a multi-select every single selection. */
  function Width(t: FieldType): nat {
    if t == FloatNumber || t == Multi then 1 else 0
  }

  /** The compatibility map is exactly lossless widening: a change is allowed
      iff it stays in the same family and does not narrow. */
  lemma CanBecomeIsWidening(a: FieldType, b: FieldType)
    ensures CanBecome(a, b) <==> FamilyOf(a) == FamilyOf(b) && Width(a) <= Width(b)
  {
  }

  /** Every type may stay as it is, and two allowed changes in a row make an
      allowed change. */
  lemma CanBecomePreorder(a: FieldType, b: FieldType, c: FieldType)
    ensures CanBecome(a, a)
    ensures CanBecome(a, b) && CanBecome(b, c) ==> CanBecome(a, c)
  {
    CanBecomeIsWidening(a, b);
    CanBecomeIsWidening(b, c);
    CanBecomeIsWidening(a, c);
  }

  /** The directed cases: integer to float only one way; float, checkbox and
      multi-select only to themselves; select and radio to exactly the three
      choice types; text and large text both ways. */
  lemma ChangeDirections(t: FieldType)
    ensures CanBecome(IntNumber, FloatNumber) && !CanBecome(FloatNumber, IntNumber)
    ensures CanBecome(FloatNumber, t) <==> t == FloatNumber
    ensures CanBecome(Checkbox, t) <==> t == Checkbox
    ensures CanBecome(Multi, t) <==> t == Multi
    ensures CanBecome(Select, t) <==> HasOptions(t)
    ensures CanBecome(Radio, t) <==> HasOptions(t)
    ensures CanBecome(Text, LargeText) && CanBecome(LargeText, Text)
  {
  }

  /** A change never moves a field into or out of the option-holding types. */
  lemma ChangeKeepsOptions(a: FieldType, b: FieldType)
    requires CanBecome(a, b)
    ensures HasOptions(a) <==> HasOptions(b)
  {
    CanBecomeIsWidening(a, b);
  }
}
