/** For which types decoding undoes encoding, and why members that no field names do not matter. */
module JsonRoundTrip {
  import opened JsonNumber
  import opened JsonValue
  import opened JsonSerializer

  /**
   Optionals occur only as fields of a struct that start out empty, around a payload that is neither optional
   nor `Any`; and no field is an `Any`.
   */
  ghost predicate Safe(ty: Type)
    decreases ty, 0
  {
    match ty
    case TVector(e) => Safe(e)
    case TOptional(_) => false
    case TStruct(fields) => SafeFields(fields)
    case _ => true
  }

  ghost predicate SafeFields(fields: Fields)
    decreases fields, 0
  {
    match fields
    case NoFields => true
    case Field(_, ty, initial, rest) => SafeField(ty, initial) && SafeFields(rest)
  }

  ghost predicate SafeField(ty: Type, initial: Typed)
    decreases ty, 1
  {
    if ty.TOptional? then initial == Absent && !ty.payload.TAny? && Safe(ty.payload)
    else !ty.TAny? && Safe(ty)
  }

  ghost predicate RoundTrips(ty: Type, v: Typed)
    requires HasType(v, ty)
  {
    Decode(ty, Encode(ty, v)) == Ok(v)
  }

  // ---------------------------------------------------------------- safe types round-trip

  lemma NotNull(ty: Type, v: Typed)
    requires HasType(v, ty) && !ty.TOptional? && !ty.TAny?
    ensures Encode(ty, v) != Leaf(Null)
  {
  }

  lemma {:induction false} SafeRoundTrips(ty: Type, v: Typed)
    requires WellFormed(ty) && Safe(ty) && HasType(v, ty)
    ensures RoundTrips(ty, v)
    decreases v
  {
    match ty
    case TVector(e) => SafeItems(e, v.items, |v.items|);
      var a := Encode(ty, v);
      assert a.items[..|v.items|] == a.items && v.items[..|v.items|] == v.items;
    case TStruct(fields) =>
      SafeStruct(fields, v.first, EncodeFields(fields, v.first));
    case _ =>
  }

  lemma {:induction false} SafeItems(e: Type, vs: seq<Typed>, n: nat)
    requires n <= |vs| && WellFormed(e) && Safe(e) && forall i :: 0 <= i < |vs| ==> HasType(vs[i], e)
    ensures DecodeItems(e, EncodeItems(e, vs)[..n]) == Ok(vs[..n])
    decreases vs, n
  {
    var items := EncodeItems(e, vs);
    if n == 0 {
      assert vs[..0] == [];
    } else {
      SafeItems(e, vs, n - 1);
      SafeRoundTrips(e, vs[n - 1]);
      var front := items[..n];
      assert front[n - 1] == items[n - 1] && front[..n - 1] == items[..n - 1];
      assert vs[..n] == vs[..n - 1] + [vs[n - 1]];
    }
  }

  function EncodeItems(e: Type, vs: seq<Typed>): seq<Any>
    requires forall i :: 0 <= i < |vs| ==> HasType(vs[i], e)
  {
    seq(|vs|, i requires 0 <= i < |vs| => Encode(e, vs[i]))
  }

  /** The members agree with the encoded fields on every name that a field has. */
  ghost predicate Agrees(fields: Fields, vs: StructValue, members: map<string, Any>)
    requires HaveTypes(vs, fields)
  {
    var own := EncodeFields(fields, vs);
    forall name :: name in FieldNames(fields) ==>
      (name in members <==> name in own) && (name in own ==> members[name] == own[name])
  }

  lemma {:induction false} SafeStruct(fields: Fields, vs: StructValue, members: map<string, Any>)
    requires WellFormedFields(fields) && SafeFields(fields) && HaveTypes(vs, fields) && Agrees(fields, vs, members)
    ensures DecodeFields(fields, members) == Ok(vs)
    decreases vs
  {
    match fields
    case NoFields =>
    case Field(name, ty, initial, rest) =>
      EncodedNames(rest, vs.rest);
      assert SafeField(ty, initial) && (ty.TOptional? ==> Safe(ty.payload)) && Agrees(rest, vs.rest, members);
      SafeStruct(rest, vs.rest, members);
      if !ty.TOptional? {
        NotNull(ty, vs.head);
        SafeRoundTrips(ty, vs.head);
      } else if vs.head.Present? {
        NotNull(ty.payload, vs.head.value);
        SafeRoundTrips(ty.payload, vs.head.value);
        assert Decode(ty, Encode(ty, vs.head)) == Ok(vs.head);
      } else {
        assert Encode(ty, vs.head) == Leaf(Null) && name !in EncodeFields(fields, vs);
      }
  }

  lemma {:induction false} EncodedNames(fields: Fields, vs: StructValue)
    requires HaveTypes(vs, fields)
    ensures forall name :: name in EncodeFields(fields, vs) ==> name in FieldNames(fields)
    decreases vs
  {
    if fields.Field? {
      EncodedNames(fields.rest, vs.rest);
    }
  }

  // ---------------------------------------------------------------- other types do not

  /** Some value of each type. */
  ghost function Default(ty: Type): (v: Typed)
    ensures HasType(v, ty)
  {
    match ty
    case TNumber(t) => ANumber(Zero(t))
    case TBool => ABool(false)
    case TString => AString("")
    case TVector(_) => AVector([])
    case TOptional(_) => Absent
    case TStruct(fields) => AStruct(Defaults(fields))
    case TAny => AnAny(Leaf(Null))
  }

  ghost function Defaults(fields: Fields): (vs: StructValue)
    ensures HaveTypes(vs, fields)
  {
    match fields
    case NoFields => NoValues
    case Field(_, ty, _, rest) => Values(Default(ty), Defaults(rest))
  }

  /** A value that an unsafe type does not get back. */
  lemma {:induction false} UnsafeWitness(ty: Type) returns (v: Typed)
    requires WellFormed(ty) && !Safe(ty)
    ensures HasType(v, ty) && !RoundTrips(ty, v)
    decreases ty, 1
  {
    match ty
    case TVector(e) =>
      var w := UnsafeWitness(e);
      v := AVector([w]);
      var a := Encode(ty, v);
      var one, first := DecodeItems(e, a.items), Decode(e, a.items[0]);
      assert a.items[0] == Encode(e, w) && a.items[..0] == [] && DecodeItems(e, a.items[..0]) == Ok([]);
      assert one.Ok? ==> first.Ok? && one.value == [first.value];
    case TOptional(p) =>
      v := Absent;
    case TStruct(fields) =>
      var vs := UnsafeStruct(fields);
      v := AStruct(vs);
      EncodedNames(fields, vs);
      if RoundTrips(ty, v) {
        assert Agrees(fields, vs, EncodeFields(fields, vs));
      }
  }

  /** A struct value that is not read back from any object that agrees with its encoding. */
  lemma {:induction false} UnsafeStruct(fields: Fields) returns (vs: StructValue)
    requires WellFormedFields(fields) && !SafeFields(fields)
    ensures HaveTypes(vs, fields)
    ensures forall members :: Agrees(fields, vs, members) ==> DecodeFields(fields, members) != Ok(vs)
    decreases fields, 0
  {
    var Field(name, ty, initial, rest) := fields;
    if SafeField(ty, initial) {
      var others := UnsafeStruct(rest);
      vs := Values(Default(ty), others);
      EncodedNames(rest, others);
      forall members | Agrees(fields, vs, members) ensures Agrees(rest, others, members) {
      }
    } else {
      var w := UnsafeField(name, ty, initial);
      vs := Values(w, Defaults(rest));
      EncodedNames(rest, vs.rest);
    }
  }

  /** A field value that is not read back, whether it was written or left out. */
  lemma {:induction false} UnsafeField(name: string, ty: Type, initial: Typed) returns (w: Typed)
    requires WellFormed(ty) && !SafeField(ty, initial) && (ty.TOptional? ==> HasType(initial, ty))
    ensures HasType(w, ty)
    ensures var e := Encode(ty, w);
      if e == Leaf(Null) then !ty.TOptional? || initial != w else Decode(ty, e) != Ok(w)
    decreases ty, 2
  {
    if !ty.TOptional? {
      if ty.TAny? {
        w := AnAny(Leaf(Null));
      } else {
        w := UnsafeWitness(ty);
      }
    } else if initial != Absent {
      w := Absent;
    } else if ty.payload.TAny? {
      w := Present(AnAny(Leaf(Null)));
    } else {
      var v := UnsafeWitness(ty.payload);
      w := Present(v);
    }
  }

  /** A type gets all its values back exactly when it is safe. */
  lemma SafeIffRoundTrips(ty: Type)
    requires WellFormed(ty)
    ensures Safe(ty) <==> forall v :: HasType(v, ty) ==> RoundTrips(ty, v)
  {
    if Safe(ty) {
      forall v | HasType(v, ty) ensures RoundTrips(ty, v) {
        SafeRoundTrips(ty, v);
      }
    } else {
      var v := UnsafeWitness(ty);
    }
  }

  // ---------------------------------------------------------------- members that no field names

  /** b is a with members added to objects that are read as structs, under names that no field has. */
  ghost predicate Padded(ty: Type, a: Any, b: Any)
    decreases ty
  {
    match ty
    case TVector(e) =>
      if a.List? && b.List?
      then |a.items| == |b.items| && forall i :: 0 <= i < |a.items| ==> Padded(e, a.items[i], b.items[i])
      else a == b
    case TOptional(p) => Padded(p, a, b)
    case TStruct(fields) => if a.Object? && b.Object? then PaddedFields(fields, a.members, b.members) else a == b
    case _ => a == b
  }

  ghost predicate PaddedFields(fields: Fields, m: map<string, Any>, n: map<string, Any>)
    decreases fields
  {
    match fields
    case NoFields => true
    case Field(name, ty, _, rest) =>
      && (name in m <==> name in n) && (name in m ==> Padded(ty, m[name], n[name]))
      && PaddedFields(rest, m, n)
  }

  /** Such members change nothing: the same value comes out, or the same error. */
  lemma {:induction false} PaddingIsIgnored(ty: Type, a: Any, b: Any)
    requires Padded(ty, a, b)
    ensures Decode(ty, a) == Decode(ty, b)
    decreases ty, 1
  {
    match ty
    case TVector(e) =>
      if a.List? && b.List? {
        PaddedItems(e, a.items, b.items);
      }
    case TOptional(p) => PaddingIsIgnored(p, a, b);
    case TStruct(fields) =>
      if a.Object? && b.Object? {
        PaddedStruct(fields, a.members, b.members);
      }
    case _ =>
  }

  lemma {:induction false} PaddedItems(e: Type, s: seq<Any>, t: seq<Any>)
    requires |s| == |t| && forall i :: 0 <= i < |s| ==> Padded(e, s[i], t[i])
    ensures DecodeItems(e, s) == DecodeItems(e, t)
    decreases e, 2, |s|
  {
    if s == [] {
    } else {
      var n := |s| - 1;
      PaddingIsIgnored(e, s[n], t[n]);
      PaddedItems(e, s[..n], t[..n]);
    }
  }

  lemma {:induction false} PaddedStruct(fields: Fields, m: map<string, Any>, n: map<string, Any>)
    requires PaddedFields(fields, m, n)
    ensures DecodeFields(fields, m) == DecodeFields(fields, n)
    decreases fields, 0
  {
    match fields
    case NoFields =>
    case Field(name, ty, initial, rest) =>
      if name in m {
        PaddingIsIgnored(ty, m[name], n[name]);
      }
      PaddedStruct(rest, m, n);
  }

  // ---------------------------------------------------------------- what comes out is of the type

  /** Every number in the tree is in the range of the type it is stored as. */
  ghost predicate Stored(a: Any) {
    match a
    case Leaf(scalar) => scalar.Number? ==> Proper(scalar.n)
    case List(items) => forall i :: 0 <= i < |items| ==> Stored(items[i])
    case Object(members) => forall name :: name in members ==> Stored(members[name])
  }

  /** Whatever the tree, decoding gives a value of the type or an error. */
  lemma {:induction false} DecodedHasType(ty: Type, a: Any)
    requires WellFormed(ty) && Stored(a)
    ensures Decode(ty, a).Ok? ==> HasType(Decode(ty, a).value, ty)
    decreases ty, 1
  {
    match ty
    case TNumber(t) =>
      if Decode(ty, a).Ok? {
        CastKeepsAmountIff(t, a.scalar.n);
      }
    case TVector(e) =>
      if a.List? {
        DecodedItems(e, a.items);
      }
    case TOptional(p) => DecodedHasType(p, a);
    case TStruct(fields) =>
      if a.Object? {
        DecodedFields(fields, a.members);
      }
    case _ =>
  }

  lemma {:induction false} DecodedItems(e: Type, items: seq<Any>)
    requires WellFormed(e) && forall i :: 0 <= i < |items| ==> Stored(items[i])
    ensures var r := DecodeItems(e, items);
      r.Ok? ==> |r.value| == |items| && forall i :: 0 <= i < |items| ==> HasType(r.value[i], e)
    decreases e, 2, |items|
  {
    if items == [] {
    } else {
      DecodedHasType(e, items[|items| - 1]);
      DecodedItems(e, items[..|items| - 1]);
    }
  }

  lemma {:induction false} DecodedFields(fields: Fields, members: map<string, Any>)
    requires WellFormedFields(fields) && forall name :: name in members ==> Stored(members[name])
    ensures DecodeFields(fields, members).Ok? ==> HaveTypes(DecodeFields(fields, members).value, fields)
    decreases fields, 0
  {
    match fields
    case NoFields =>
    case Field(name, ty, initial, rest) =>
      if name in members {
        DecodedHasType(ty, members[name]);
      }
      DecodedFields(rest, members);
  }
}
