/** JSON values, JSON documents and the events that a parser reports for them. */
module JsonValue {
  import opened JsonNumber

  datatype Scalar = Null | Bool(b: bool) | Number(n: Numeric) | Text(s: string)

  /** `score::json::Any`. */
  datatype Any = Leaf(scalar: Scalar) | List(items: seq<Any>) | Object(members: map<string, Any>)

  /** A document as it is written: an object lists its members in order, and may repeat a name. */
  datatype Document = Plain(scalar: Scalar) | Array(items: Items) | Record(members: Members)
  datatype Items = NoItems | Item(first: Document, rest: Items)
  datatype Members = NoMembers | Member(name: string, value: Document, rest: Members)

  datatype Event =
    | OnScalar(scalar: Scalar)
    | OnKey(name: string)
    | OnStartArray
    | OnEndArray
    | OnStartObject
    | OnEndObject

  /** The events of a document, in the order of its text. */
  function Events(d: Document): seq<Event> {
    match d
    case Plain(scalar) => [OnScalar(scalar)]
    case Array(items) => [OnStartArray] + ItemEvents(items) + [OnEndArray]
    case Record(members) => [OnStartObject] + MemberEvents(members) + [OnEndObject]
  }

  function ItemEvents(items: Items): seq<Event> {
    match items
    case NoItems => []
    case Item(first, rest) => Events(first) + ItemEvents(rest)
  }

  function MemberEvents(members: Members): seq<Event> {
    match members
    case NoMembers => []
    case Member(name, value, rest) => [OnKey(name)] + Events(value) + MemberEvents(rest)
  }

  /** The value a document denotes; of members with the same name the last one counts. */
  function Value(d: Document): Any {
    match d
    case Plain(scalar) => Leaf(scalar)
    case Array(items) => List(ItemValues(items))
    case Record(members) => Object(ToMap(Names(members), MemberValues(members)))
  }

  function ItemValues(items: Items): seq<Any> {
    match items
    case NoItems => []
    case Item(first, rest) => [Value(first)] + ItemValues(rest)
  }

  function MemberValues(members: Members): (vs: seq<Any>)
    ensures |vs| == |Names(members)|
  {
    match members
    case NoMembers => []
    case Member(_, value, rest) => [Value(value)] + MemberValues(rest)
  }

  function Names(members: Members): seq<string> {
    match members
    case NoMembers => []
    case Member(name, _, rest) => [name] + Names(rest)
  }

  function ToMap<T>(names: seq<string>, values: seq<T>): (m: map<string, T>)
    requires |names| == |values|
    ensures forall k :: k in m <==> k in names
  {
    if names == [] then map[]
    else
      var n := |names| - 1;
      assert forall k :: k in names <==> k in names[..n] || k == names[n] by { LastOrBefore(names); }
      ToMap(names[..n], values[..n])[names[n] := values[n]]
  }

  lemma LastOrBefore(names: seq<string>)
    requires names != []
    ensures forall k :: k in names <==> k in names[..|names| - 1] || k == names[|names| - 1]
  {
    assert names == names[..|names| - 1] + [names[|names| - 1]];
  }

  lemma {:induction false} ToMapAt<T>(names: seq<string>, values: seq<T>, i: nat)
    requires |names| == |values| && Distinct(names) && i < |names|
    ensures ToMap(names, values)[names[i]] == values[i]
  {
    var n := |names| - 1;
    if i < n {
      assert names[i] != names[n];
      ToMapAt(names[..n], values[..n], i);
    }
  }

  ghost predicate Distinct(names: seq<string>) {
    forall i, j :: 0 <= i < j < |names| ==> names[i] != names[j]
  }

  /** Every object in the document has non-empty and distinct names. */
  ghost predicate Acceptable(d: Document) {
    match d
    case Plain(_) => true
    case Array(items) => AcceptableItems(items)
    case Record(members) => "" !in Names(members) && Distinct(Names(members)) && AcceptableValues(members)
  }

  ghost predicate AcceptableItems(items: Items) {
    match items
    case NoItems => true
    case Item(first, rest) => Acceptable(first) && AcceptableItems(rest)
  }

  ghost predicate AcceptableValues(members: Members) {
    match members
    case NoMembers => true
    case Member(_, value, rest) => Acceptable(value) && AcceptableValues(rest)
  }
}
