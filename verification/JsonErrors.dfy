/** What decoding a struct gives field by field, and which error it reports for which field. */
module JsonErrors {
  import opened JsonValue
  import opened JsonSerializer

  function Length(fields: Fields): nat {
    if fields.NoFields? then 0 else 1 + Length(fields.rest)
  }

  /** The fields from the i-th on; the first of them is the i-th field. */
  function From(fields: Fields, i: nat): (r: Fields)
    requires i < Length(fields)
    ensures r.Field?
  {
    if i == 0 then fields else From(fields.rest, i - 1)
  }

  function ValueAt(values: StructValue, i: nat): Typed
    requires i < Size(values)
  {
    if i == 0 then values.head else ValueAt(values.rest, i - 1)
  }

  function Size(values: StructValue): nat {
    if values.NoValues? then 0 else 1 + Size(values.rest)
  }

  /** A member has the name of the field and can be decoded, or the field is optional and there is none. */
  ghost predicate Gets(f: Fields, members: map<string, Any>)
    requires f.Field?
  {
    if f.name in members then Decode(f.ty, members[f.name]).Ok? else f.ty.TOptional?
  }

  ghost predicate Missing(f: Fields, members: map<string, Any>)
    requires f.Field?
  {
    f.name !in members && !f.ty.TOptional?
  }

  ghost predicate Fails(f: Fields, members: map<string, Any>)
    requires f.Field?
  {
    Missing(f, members) || (f.name in members && Decode(f.ty, members[f.name]).Err?)
  }

  /** Field i is the first that gets no value, and the reason is an error. */
  ghost predicate FailsAt(fields: Fields, members: map<string, Any>, i: nat) {
    && i < Length(fields) && Fails(From(fields, i), members)
    && forall j: nat :: j < i ==> Gets(From(fields, j), members)
  }

  /** The error names the first field that fails: as missing, or with the kind of its own error. */
  lemma {:induction false} ErrorIsOfFirst(fields: Fields, members: map<string, Any>, i: nat)
    requires FailsAt(fields, members, i)
    ensures DecodeFields(fields, members).Err?
    ensures var f, error := From(fields, i), DecodeFields(fields, members).error;
      && error.message == f.name
      && error.kind == if f.name in members then Decode(f.ty, members[f.name]).error.kind else KeyNotFound
    decreases i
  {
    if i == 0 {
    } else {
      assert Gets(From(fields, 0), members);
      forall j: nat | j < i - 1 ensures Gets(From(fields.rest, j), members) {
        assert From(fields, j + 1) == From(fields.rest, j);
      }
      ErrorIsOfFirst(fields.rest, members, i - 1);
    }
  }

  /** Every error of a struct is that of a field. */
  lemma {:induction false} ErrorHasField(fields: Fields, members: map<string, Any>) returns (i: nat)
    requires DecodeFields(fields, members).Err?
    ensures FailsAt(fields, members, i)
  {
    if Fails(fields, members) {
      i := 0;
    } else {
      i := ErrorHasField(fields.rest, members);
      i := i + 1;
      forall j: nat | j < i ensures Gets(From(fields, j), members) {
        if j > 0 {
          assert From(fields, j) == From(fields.rest, j - 1);
        }
      }
    }
  }

  ghost predicate AllGet(fields: Fields, members: map<string, Any>) {
    forall j: nat :: j < Length(fields) ==> Gets(From(fields, j), members)
  }

  lemma {:induction false} AllGetSucceeds(fields: Fields, members: map<string, Any>)
    requires AllGet(fields, members)
    ensures DecodeFields(fields, members).Ok?
  {
    if fields.NoFields? {
    } else {
      assert Gets(From(fields, 0), members);
      forall j: nat | j < Length(fields.rest) ensures Gets(From(fields.rest, j), members) {
        assert From(fields, j + 1) == From(fields.rest, j);
      }
      AllGetSucceeds(fields.rest, members);
    }
  }

  /** Decoding succeeds exactly if every field gets a value. */
  lemma SucceedsIff(fields: Fields, members: map<string, Any>)
    ensures DecodeFields(fields, members).Ok? <==> AllGet(fields, members)
  {
    if AllGet(fields, members) {
      AllGetSucceeds(fields, members);
    } else if DecodeFields(fields, members).Ok? {
      forall j: nat | j < Length(fields) ensures Gets(From(fields, j), members) {
        FieldValues(fields, members, j);
      }
    }
  }

  /** And then each field has what its member decodes to, or what it started out with. */
  lemma {:induction false} FieldValues(fields: Fields, members: map<string, Any>, j: nat)
    requires DecodeFields(fields, members).Ok? && j < Length(fields)
    ensures Size(DecodeFields(fields, members).value) == Length(fields)
    ensures var f := From(fields, j);
      && Gets(f, members)
      && ValueAt(DecodeFields(fields, members).value, j)
         == if f.name in members then Decode(f.ty, members[f.name]).value else f.initial
    decreases fields
  {
    if fields.rest.Field? {
      FieldValues(fields.rest, members, if j == 0 then 0 else j - 1);
    }
  }

  // ---------------------------------------------------------------- the kind of an error

  /** Down from the tree, through the fields of structs that fail first, a field is missing. */
  ghost predicate Lacks(ty: Type, a: Any)
    decreases ty, 0
  {
    ty.TStruct? && a.Object? && LacksField(ty.fields, a.members)
  }

  ghost predicate LacksField(fields: Fields, members: map<string, Any>)
    decreases fields
  {
    && fields.Field?
    && (|| Missing(fields, members)
        || (fields.name in members && Lacks(fields.ty, members[fields.name]))
        || (Gets(fields, members) && LacksField(fields.rest, members)))
  }

  /** An error says that a key was not found exactly if one is missing there; lists and optionals hide it. */
  lemma {:induction false} KeyNotFoundIff(ty: Type, a: Any)
    ensures Decode(ty, a).Err? && Decode(ty, a).error.kind.KeyNotFound? <==> Lacks(ty, a)
    decreases ty, 1
  {
    match ty
    case TStruct(fields) =>
      if a.Object? {
        KeyOfFieldNotFoundIff(fields, a.members);
      }
    case TVector(e) =>
      if a.List? {
        ItemErrors(e, a.items);
      }
    case _ =>
  }

  lemma {:induction false} KeyOfFieldNotFoundIff(fields: Fields, members: map<string, Any>)
    ensures DecodeFields(fields, members).Err? && DecodeFields(fields, members).error.kind.KeyNotFound?
       <==> LacksField(fields, members)
    decreases fields, 0
  {
    match fields
    case NoFields =>
    case Field(name, ty, _, rest) =>
      if name in members {
        KeyNotFoundIff(ty, members[name]);
      }
      KeyOfFieldNotFoundIff(rest, members);
  }

  lemma {:induction false} ItemErrors(e: Type, items: seq<Any>)
    ensures DecodeItems(e, items).Err? ==>
      DecodeItems(e, items).error == Error(WrongType, "List entry not of expected type")
    decreases |items|
  {
    if items == [] {
    } else {
      ItemErrors(e, items[..|items| - 1]);
    }
  }
}
