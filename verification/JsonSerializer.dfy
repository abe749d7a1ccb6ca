/**
 `JsonSerializer`: turns typed values into JSON trees and back.  The types are numbers, booleans, strings,
 vectors, optionals, structs and `Any`, nested in any way.
 */
module JsonSerializer {
  import opened JsonNumber
  import opened JsonValue

  datatype Type =
    | TNumber(number: NumberType)
    | TBool
    | TString
    | TVector(element: Type)
    | TOptional(payload: Type)
    | TStruct(fields: Fields)
    | TAny

  /** The visited fields of a struct, in order; `initial` is what default construction puts in the field. */
  datatype Fields = NoFields | Field(name: string, ty: Type, initial: Typed, rest: Fields)

  datatype Typed =
    | ANumber(n: Numeric)
    | ABool(b: bool)
    | AString(s: string)
    | AVector(items: seq<Typed>)
    | Absent
    | Present(value: Typed)
    | AStruct(first: StructValue)
    | AnAny(a: Any)

  datatype StructValue = NoValues | Values(head: Typed, rest: StructValue)

  datatype Kind = WrongType | KeyNotFound
  datatype Error = Error(kind: Kind, message: string)

  /** How decoding ends: with a value, with an error, or not properly at all. */
  datatype Decoded<T> = Ok(value: T) | Err(error: Error) | Stops(fault: Fault)

  // ---------------------------------------------------------------- types and values

  ghost predicate HasType(v: Typed, ty: Type)
    decreases v
  {
    match ty
    case TNumber(t) => v.ANumber? && Proper(v.n) && OfType(v.n, t)
    case TBool => v.ABool?
    case TString => v.AString?
    case TVector(e) => v.AVector? && forall i :: 0 <= i < |v.items| ==> HasType(v.items[i], e)
    case TOptional(p) => v.Absent? || (v.Present? && HasType(v.value, p))
    case TStruct(fields) => v.AStruct? && HaveTypes(v.first, fields)
    case TAny => v.AnAny?
  }

  ghost predicate HaveTypes(vs: StructValue, fields: Fields)
    decreases vs
  {
    match fields
    case NoFields => vs.NoValues?
    case Field(_, ty, _, rest) => vs.Values? && HasType(vs.head, ty) && HaveTypes(vs.rest, rest)
  }

  function FieldNames(fields: Fields): seq<string> {
    match fields
    case NoFields => []
    case Field(name, _, _, rest) => [name] + FieldNames(rest)
  }

  /** The members of each struct have different names, and optional fields an initial value of their type. */
  ghost predicate WellFormed(ty: Type) {
    match ty
    case TVector(e) => WellFormed(e)
    case TOptional(p) => WellFormed(p)
    case TStruct(fields) => WellFormedFields(fields)
    case _ => true
  }

  ghost predicate WellFormedFields(fields: Fields) {
    match fields
    case NoFields => true
    case Field(name, ty, initial, rest) =>
      name !in FieldNames(rest) && WellFormed(ty) && (ty.TOptional? ==> HasType(initial, ty)) && WellFormedFields(rest)
  }

  // ---------------------------------------------------------------- the two directions

  /** `ToAny`. */
  function Encode(ty: Type, v: Typed): Any
    requires HasType(v, ty)
    decreases v
  {
    match ty
    case TNumber(_) => Leaf(Number(v.n))
    case TBool => Leaf(Bool(v.b))
    case TString => Leaf(Text(v.s))
    case TVector(e) => List(seq(|v.items|, i requires 0 <= i < |v.items| => Encode(e, v.items[i])))
    case TOptional(p) => if v.Present? then Encode(p, v.value) else Leaf(Null)
    case TStruct(fields) => Object(EncodeFields(fields, v.first))
    case TAny => v.a
  }

  /** `JsonSerializeStructImpl`: fields that encode to null are left out. */
  function EncodeFields(fields: Fields, vs: StructValue): map<string, Any>
    requires HaveTypes(vs, fields)
    decreases vs
  {
    match fields
    case NoFields => map[]
    case Field(name, ty, _, rest) =>
      var value := Encode(ty, vs.head);
      var others := EncodeFields(rest, vs.rest);
      if value == Leaf(Null) then others else others[name := value]
  }

  /** `FromAny`. */
  function Decode(ty: Type, a: Any): Decoded<Typed>
    decreases ty, 0
  {
    match ty
    case TNumber(t) =>
      if a.Leaf? && a.scalar.Number? then
        match Cast(t, a.scalar.n)
        case Gives(n) => Ok(ANumber(n))
        case Refused => Err(Error(WrongType, "Number not convertible to expected arithmetic type"))
        case Faults(fault) => Stops(fault)
      else Err(Error(WrongType, "Expected a number"))
    case TBool =>
      if a.Leaf? && a.scalar.Bool? then Ok(ABool(a.scalar.b))
      else if a.Leaf? && a.scalar.Number? && CastToBool(a.scalar.n).Some? then Ok(ABool(CastToBool(a.scalar.n).value))
      else Err(Error(WrongType, "Expected a bool"))
    case TString =>
      if a.Leaf? && a.scalar.Text? then Ok(AString(a.scalar.s)) else Err(Error(WrongType, "Expected a string"))
    case TVector(e) =>
      if a.List? then
        match DecodeItems(e, a.items)
        case Ok(items) => Ok(AVector(items))
        case Err(error) => Err(error)
        case Stops(fault) => Stops(fault)
      else Err(Error(WrongType, "Expected a list"))
    case TOptional(p) =>
      (match Decode(p, a)
       case Ok(value) => Ok(Present(value))
       case Err(_) => Err(Error(WrongType, "Optional value not of expected type"))
       case Stops(fault) => Stops(fault))
    case TStruct(fields) =>
      if a.Object? then
        match DecodeFields(fields, a.members)
        case Ok(values) => Ok(AStruct(values))
        case Err(error) => Err(error)
        case Stops(fault) => Stops(fault)
      else Err(Error(WrongType, ""))
    case TAny => Ok(AnAny(a))
  }

  /** Front to back, up to the first entry that does not give a value. */
  function DecodeItems(e: Type, items: seq<Any>): Decoded<seq<Typed>>
    decreases e, |items|
  {
    if items == [] then Ok([])
    else
      var n := |items| - 1;
      var before := DecodeItems(e, items[..n]);
      if !before.Ok? then before
      else
        match Decode(e, items[n])
        case Ok(last) => Ok(before.value + [last])
        case Err(_) => Err(Error(WrongType, "List entry not of expected type"))
        case Stops(fault) => Stops(fault)
  }

  /** What one field becomes; a missing optional field keeps its initial value. */
  function DecodeField(name: string, ty: Type, initial: Typed, members: map<string, Any>): Decoded<Typed>
    decreases ty, 1
  {
    if name in members then
      var value := Decode(ty, members[name]);
      if value.Err? then Err(Error(value.error.kind, name)) else value
    else if ty.TOptional? then Ok(initial)
    else Err(Error(KeyNotFound, name))
  }

  /** `JsonDeserializeStructImpl`: stops at the first field that does not get a value. */
  function DecodeFields(fields: Fields, members: map<string, Any>): Decoded<StructValue>
    decreases fields
  {
    match fields
    case NoFields => Ok(NoValues)
    case Field(name, ty, initial, rest) =>
      match DecodeField(name, ty, initial, members)
      case Err(error) => Err(error)
      case Stops(fault) => Stops(fault)
      case Ok(first) =>
        match DecodeFields(rest, members)
        case Err(error) => Err(error)
        case Stops(fault) => Stops(fault)
        case Ok(others) => Ok(Values(first, others))
  }

  /** Vector decoding as the loop it is: the list is read front to back and left at the first failure. */
  method DecodeVector(e: Type, items: seq<Any>) returns (r: Decoded<seq<Typed>>)
    ensures r == DecodeItems(e, items)
  {
    var result: seq<Typed> := [];
    for i := 0 to |items|
      invariant DecodeItems(e, items[..i]) == Ok(result)
    {
      assert items[..i + 1][..i] == items[..i] && items[..i + 1][i] == items[i];
      var value := Decode(e, items[i]);
      if !value.Ok? {
        FailureStays(e, items, i + 1);
        return if value.Err? then Err(Error(WrongType, "List entry not of expected type")) else Stops(value.fault);
      }
      result := result + [value.value];
    }
    assert items[..|items|] == items;
    return Ok(result);
  }

  lemma {:induction false} FailureStays(e: Type, items: seq<Any>, n: nat)
    requires 0 < n <= |items| && !DecodeItems(e, items[..n]).Ok?
    ensures DecodeItems(e, items) == DecodeItems(e, items[..n])
    decreases |items|
  {
    if n == |items| {
      assert items[..n] == items;
    } else {
      var before := items[..|items| - 1];
      assert before[..n] == items[..n];
      FailureStays(e, before, n);
    }
  }
}
