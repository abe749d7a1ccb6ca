/** When decoding ends neither with a value nor with an error, told from what it looks at in reading order. */
module JsonFaults {
  import opened Wrappers
  import opened JsonNumber
  import opened JsonValue
  import opened JsonSerializer

  /** What decoding looks at: a number cell with the type asked for, or a place where the tree does not fit. */
  datatype Look = Asks(t: NumberType, n: Numeric) | Misfit

  predicate Passes(l: Look) { l.Asks? && Cast(l.t, l.n).Gives? }

  predicate Faulty(l: Look) { l.Asks? && Cast(l.t, l.n).Faults? }

  /** Everything decoding would look at, in reading order, if nothing ever stopped it. */
  ghost function Reading(ty: Type, a: Any): seq<Look>
    decreases ty, 0
  {
    match ty
    case TNumber(t) => if a.Leaf? && a.scalar.Number? then [Asks(t, a.scalar.n)] else [Misfit]
    case TBool =>
      if a.Leaf? && (a.scalar.Bool? || (a.scalar.Number? && CastToBool(a.scalar.n).Some?)) then [] else [Misfit]
    case TString => if a.Leaf? && a.scalar.Text? then [] else [Misfit]
    case TVector(e) => if a.List? then ReadingItems(e, a.items) else [Misfit]
    case TOptional(p) => Reading(p, a)
    case TStruct(fields) => if a.Object? then ReadingFields(fields, a.members) else [Misfit]
    case TAny => []
  }

  ghost function ReadingItems(e: Type, items: seq<Any>): seq<Look>
    decreases e, |items|
  {
    if items == [] then [] else ReadingItems(e, items[..|items| - 1]) + Reading(e, items[|items| - 1])
  }

  ghost function ReadingFields(fields: Fields, members: map<string, Any>): seq<Look>
    decreases fields
  {
    match fields
    case NoFields => []
    case Field(name, ty, _, rest) =>
      (if name in members then Reading(ty, members[name]) else if ty.TOptional? then [] else [Misfit])
      + ReadingFields(rest, members)
  }

  /** The first look that does not pass, if there is one. */
  function FirstStop(looks: seq<Look>): Option<Look> {
    if looks == [] then None else if Passes(looks[0]) then FirstStop(looks[1..]) else Some(looks[0])
  }

  lemma {:induction false} FirstStopConcat(a: seq<Look>, b: seq<Look>)
    ensures FirstStop(a + b) == if FirstStop(a).Some? then FirstStop(a) else FirstStop(b)
  {
    if a == [] {
      assert a + b == b;
    } else {
      assert (a + b)[0] == a[0] && (a + b)[1..] == a[1..] + b;
      FirstStopConcat(a[1..], b);
    }
  }

  /** Look i is the first that does not pass. */
  ghost predicate StopsAt(looks: seq<Look>, i: int) {
    0 <= i < |looks| && !Passes(looks[i]) && forall j :: 0 <= j < i ==> Passes(looks[j])
  }

  lemma {:induction false} FirstStopFound(looks: seq<Look>) returns (i: int)
    requires FirstStop(looks).Some?
    ensures StopsAt(looks, i) && FirstStop(looks) == Some(looks[i])
  {
    if Passes(looks[0]) {
      i := FirstStopFound(looks[1..]);
      i := i + 1;
      assert forall j :: 0 < j < i ==> looks[j] == looks[1..][j - 1];
    } else {
      i := 0;
    }
  }

  lemma {:induction false} FirstStopOnly(looks: seq<Look>, i: int)
    requires StopsAt(looks, i)
    ensures FirstStop(looks) == Some(looks[i])
    decreases |looks|
  {
    if i == 0 {
    } else {
      assert StopsAt(looks[1..], i - 1);
      FirstStopOnly(looks[1..], i - 1);
    }
  }

  /** How decoding ends is decided by the first look that does not pass. */
  ghost predicate EndsLike<T>(r: Decoded<T>, looks: seq<Look>) {
    match FirstStop(looks)
    case None => r.Ok?
    case Some(l) => if Faulty(l) then r.Stops? && r.fault == Cast(l.t, l.n).fault else r.Err?
  }

  lemma {:induction false} DecodeEndsLike(ty: Type, a: Any)
    ensures EndsLike(Decode(ty, a), Reading(ty, a))
    decreases ty, 1
  {
    match ty
    case TVector(e) =>
      if a.List? {
        ItemsEndLike(e, a.items);
      }
    case TOptional(p) => DecodeEndsLike(p, a);
    case TStruct(fields) =>
      if a.Object? {
        FieldsEndLike(fields, a.members);
      }
    case _ =>
  }

  lemma {:induction false} ItemsEndLike(e: Type, items: seq<Any>)
    ensures EndsLike(DecodeItems(e, items), ReadingItems(e, items))
    decreases e, 2, |items|
  {
    if items == [] {
    } else {
      var n := |items| - 1;
      ItemsEndLike(e, items[..n]);
      DecodeEndsLike(e, items[n]);
      FirstStopConcat(ReadingItems(e, items[..n]), Reading(e, items[n]));
    }
  }

  lemma {:induction false} FieldsEndLike(fields: Fields, members: map<string, Any>)
    ensures EndsLike(DecodeFields(fields, members), ReadingFields(fields, members))
    decreases fields, 0
  {
    match fields
    case NoFields =>
    case Field(name, ty, initial, rest) =>
      var first := if name in members then Reading(ty, members[name]) else if ty.TOptional? then [] else [Misfit];
      if name in members {
        DecodeEndsLike(ty, members[name]);
      }
      FieldsEndLike(rest, members);
      FirstStopConcat(first, ReadingFields(rest, members));
  }

  /** A `double` asked of a cell stored as `float`, or an integer asked of a NaN. */
  predicate AsksTheImpossible(l: Look) {
    l.Asks? && ((l.t.Double? && l.n.InFloat?) || (l.t.Integer? && !l.n.Whole? && l.n.x.NotANumber?))
  }

  /** The first look that does not pass asks for the impossible. */
  ghost predicate FaultsFirst(looks: seq<Look>) {
    exists i :: StopsAt(looks, i) && AsksTheImpossible(looks[i])
  }

  /** Decoding does not end properly exactly when it asks for the impossible before anything is refused. */
  lemma StopsIff(ty: Type, a: Any)
    ensures Decode(ty, a).Stops? <==> FaultsFirst(Reading(ty, a))
  {
    DecodeEndsLike(ty, a);
    StopMeansFault(Decode(ty, a), Reading(ty, a));
    FirstFault(Reading(ty, a));
  }

  lemma StopMeansFault<T>(r: Decoded<T>, looks: seq<Look>)
    requires EndsLike(r, looks)
    ensures r.Stops? <==> FirstStop(looks).Some? && Faulty(FirstStop(looks).value)
  {
  }

  lemma FirstFault(looks: seq<Look>)
    ensures FirstStop(looks).Some? && Faulty(FirstStop(looks).value)
       <==> FaultsFirst(looks)
  {
    if FirstStop(looks).Some? && Faulty(FirstStop(looks).value) {
      var i := FirstStopFound(looks);
      assert StopsAt(looks, i) && AsksTheImpossible(looks[i]);
    }
    if i :| StopsAt(looks, i) && AsksTheImpossible(looks[i]) {
      FirstStopOnly(looks, i);
    }
  }

  /** The case: a float that was stored is asked for as a double. */
  lemma StoppedExample()
    ensures HasType(ANumber(InFloat(Finite(1.0))), TNumber(Float))
    ensures Encode(TNumber(Float), ANumber(InFloat(Finite(1.0)))) == Leaf(Number(InFloat(Finite(1.0))))
    ensures Decode(TNumber(Double), Leaf(Number(InFloat(Finite(1.0))))) == Stops(FloatAskedAsDouble)
  {
    SmallInteger(1);
  }

  /** Every number in the tree is one that the parser stores. */
  ghost predicate Parsed(a: Any) {
    match a
    case Leaf(scalar) => scalar.Number? ==> FromParser(scalar.n)
    case List(items) => forall i :: 0 <= i < |items| ==> Parsed(items[i])
    case Object(members) => forall name :: name in members ==> Parsed(members[name])
  }

  /** A tree that came from the parser is decoded to a value or an error, as any type. */
  lemma {:induction false} ParsedNeverStops(ty: Type, a: Any)
    requires Parsed(a)
    ensures !Decode(ty, a).Stops?
    decreases ty, 1
  {
    match ty
    case TNumber(t) =>
      if a.Leaf? && a.scalar.Number? {
        FaultIff(t, a.scalar.n);
      }
    case TVector(e) =>
      if a.List? {
        ParsedItemsNeverStop(e, a.items);
      }
    case TOptional(p) => ParsedNeverStops(p, a);
    case TStruct(fields) =>
      if a.Object? {
        ParsedFieldsNeverStop(fields, a.members);
      }
    case _ =>
  }

  lemma {:induction false} ParsedItemsNeverStop(e: Type, items: seq<Any>)
    requires forall i :: 0 <= i < |items| ==> Parsed(items[i])
    ensures !DecodeItems(e, items).Stops?
    decreases e, 2, |items|
  {
    if items == [] {
    } else {
      ParsedNeverStops(e, items[|items| - 1]);
      ParsedItemsNeverStop(e, items[..|items| - 1]);
    }
  }

  lemma {:induction false} ParsedFieldsNeverStop(fields: Fields, members: map<string, Any>)
    requires forall name :: name in members ==> Parsed(members[name])
    ensures !DecodeFields(fields, members).Stops?
    decreases fields, 0
  {
    match fields
    case NoFields =>
    case Field(name, ty, _, rest) =>
      if name in members {
        ParsedNeverStops(ty, members[name]);
      }
      ParsedFieldsNeverStop(rest, members);
  }
}
