/**
 Tree building without pointers: the containers still open are kept apart, each with the values it has
 so far.  This is the simple form that the pointer-based builder is compared with.
 */
module JsonZipper {
  import opened Wrappers
  import opened JsonValue

  datatype Failure = ParsingError | DanglingPointer

  /** An open container; an object names each value it has, and also the container opened inside it. */
  datatype Frame = ListFrame(done: seq<Any>) | ObjectFrame(names: seq<string>, done: seq<Any>)

  datatype Zipper = Zipper(stack: seq<Frame>, root: Any, lastKey: string)

  const START := Zipper([], Leaf(Null), "")

  function Top(z: Zipper): Frame
    requires z.stack != []
  {
    z.stack[|z.stack| - 1]
  }

  function Below(z: Zipper): seq<Frame>
    requires z.stack != []
  {
    z.stack[..|z.stack| - 1]
  }

  /** An object takes a value only under a name that is not empty and not used. */
  predicate CanStore(z: Zipper) {
    z.stack == [] || Top(z).ListFrame? || (z.lastKey != "" && z.lastKey !in Top(z).names)
  }

  function Named(f: Frame, key: string): Frame {
    if f.ListFrame? then f else f.(names := f.names + [key])
  }

  function With(f: Frame, v: Any): Frame { f.(done := f.done + [v]) }

  function Put(z: Zipper, v: Any): Zipper {
    if z.stack == [] then z.(root := v)
    else z.(stack := Below(z) + [With(Named(Top(z), z.lastKey), v)])
  }

  function Open(z: Zipper, f: Frame): Zipper {
    if z.stack == [] then z.(stack := [f])
    else z.(stack := Below(z) + [Named(Top(z), z.lastKey), f])
  }

  lemma OpenFrames(z: Zipper, f: Frame)
    requires z.stack != []
    ensures var frames, n := Open(z, f).stack, |z.stack| - 1;
      && |frames| == n + 2 && frames[n] == Named(Top(z), z.lastKey) && frames[n + 1] == f
      && forall k :: 0 <= k < n ==> frames[k] == z.stack[k]
  {
  }

  function Closed(f: Frame): Any {
    match f
    case ListFrame(done) => List(done)
    case ObjectFrame(names, done) => if |names| == |done| then Object(ToMap(names, done)) else Leaf(Null)
  }

  function Close(z: Zipper): Zipper {
    if z.stack == [] then z
    else if |z.stack| == 1 then z.(stack := [], root := Closed(Top(z)))
    else
      var below := Below(z);
      var n := |below| - 1;
      z.(stack := below[..n] + [With(below[n], Closed(Top(z)))])
  }

  function Step(z: Zipper, e: Event): Result<Zipper, Failure> {
    match e
    case OnKey(name) => Ok(z.(lastKey := name))
    case OnScalar(scalar) => if CanStore(z) then Ok(Put(z, Leaf(scalar))) else Err(ParsingError)
    case OnStartArray => if CanStore(z) then Ok(Open(z, ListFrame([]))) else Err(ParsingError)
    case OnStartObject => if CanStore(z) then Ok(Open(z, ObjectFrame([], []))) else Err(ParsingError)
    case OnEndArray => Ok(Close(z))
    case OnEndObject => Ok(Close(z))
  }

  function Run(z: Zipper, es: seq<Event>): Result<Zipper, Failure>
    decreases |es|
  {
    if es == [] then Ok(z)
    else
      var r := Step(z, es[0]);
      if r.Ok? then Run(r.value, es[1..]) else r
  }

  function Continue(r: Result<Zipper, Failure>, es: seq<Event>): Result<Zipper, Failure> {
    if r.Ok? then Run(r.value, es) else r
  }

  lemma {:induction false} RunConcat(z: Zipper, a: seq<Event>, b: seq<Event>)
    ensures Run(z, a + b) == Continue(Run(z, a), b)
    decreases |a|
  {
    if a == [] {
      assert a + b == b;
    } else {
      assert (a + b)[0] == a[0] && (a + b)[1..] == a[1..] + b;
      if Step(z, a[0]).Ok? {
        RunConcat(Step(z, a[0]).value, a[1..], b);
      }
    }
  }

  lemma RunOne(z: Zipper, e: Event, es: seq<Event>)
    ensures Run(z, [e] + es) == Continue(Step(z, e), es)
    ensures Run(z, [e]) == Step(z, e)
  {
    assert ([e] + es)[1..] == es && [e][1..] == [];
  }

  /** The events of a document succeed if and only if it is acceptable, and then they store the value it denotes. */
  lemma {:induction false} FeedDocument(z: Zipper, d: Document)
    requires CanStore(z)
    ensures Stores(z, d)
    decreases d, 1
  {
    match d
    case Plain(scalar) => RunOne(z, OnScalar(scalar), []);
    case Array(items) => FeedArray(z, items);
    case Record(members) => FeedRecord(z, members);
  }

  ghost predicate Outcome(r: Result<Zipper, Failure>, ok: bool, root: Any, stack: seq<Frame>) {
    if ok then r.Ok? && r.value.root == root && r.value.stack == stack else r == Err(ParsingError)
  }

  ghost predicate Stores(z: Zipper, d: Document) {
    Outcome(Run(z, Events(d)), Acceptable(d), Put(z, Value(d)).root, Put(z, Value(d)).stack)
  }

  lemma {:induction false} FeedArray(z: Zipper, items: Items)
    requires CanStore(z)
    ensures Stores(z, Array(items))
    decreases items, 1
  {
    var empty := ListFrame([]);
    Bracketed(z, OnStartArray, Open(z, empty), ItemEvents(items), OnEndArray);
    FeedItems(Open(z, empty), items);
    assert [] + ItemValues(items) == ItemValues(items);
    Finished(z, empty, ListFrame(ItemValues(items)), ItemEvents(items), AcceptableItems(items));
  }

  lemma {:induction false} FeedRecord(z: Zipper, members: Members)
    requires CanStore(z)
    ensures Stores(z, Record(members))
    decreases members, 1
  {
    var empty := ObjectFrame([], []);
    Bracketed(z, OnStartObject, Open(z, empty), MemberEvents(members), OnEndObject);
    assert Top(Open(z, empty)) == empty;
    FeedMembers(Open(z, empty), members);
    assert [] + Names(members) == Names(members) && [] + MemberValues(members) == MemberValues(members);
    assert Outcome(Run(Open(z, empty), MemberEvents(members)), Acceptable(Record(members)),
                   z.root, Below(Open(z, empty)) + [Filled(members)]);
    Finished(z, empty, Filled(members), MemberEvents(members), Acceptable(Record(members)));
    FilledValue(members);
  }

  function Filled(members: Members): Frame { ObjectFrame(Names(members), MemberValues(members)) }

  lemma FilledValue(members: Members)
    ensures Closed(Filled(members)) == Value(Record(members))
  {
  }

  /** After the events of its content, closing a container stores the value of what was filled in. */
  lemma Finished(z: Zipper, empty: Frame, full: Frame, es: seq<Event>, ok: bool)
    requires Outcome(Run(Open(z, empty), es), ok, z.root, Below(Open(z, empty)) + [full])
    ensures Outcome(Ended(Run(Open(z, empty), es)), ok, Put(z, Closed(full)).root, Put(z, Closed(full)).stack)
  {
    if ok {
      CloseOpened(z, empty, full, Run(Open(z, empty), es).value);
    }
  }

  function Ended(r: Result<Zipper, Failure>): Result<Zipper, Failure> {
    if r.Ok? then Ok(Close(r.value)) else r
  }

  lemma Bracketed(z: Zipper, start: Event, z1: Zipper, es: seq<Event>, end: Event)
    requires Step(z, start) == Ok(z1) && (end.OnEndArray? || end.OnEndObject?)
    ensures Run(z, [start] + es + [end]) == Ended(Run(z1, es))
  {
    assert [start] + es + [end] == [start] + (es + [end]);
    RunOne(z, start, es + [end]);
    RunConcat(z1, es, [end]);
    if Run(z1, es).Ok? {
      RunOne(Run(z1, es).value, end, []);
    }
  }

  /** Apart from the last name seen, the states are the same. */
  predicate Same(z: Zipper, w: Zipper) { z.stack == w.stack && z.root == w.root }

  /** Opening a container, filling it and closing it stores the finished value. */
  lemma CloseOpened(z: Zipper, empty: Frame, full: Frame, w: Zipper)
    requires w.root == z.root && w.stack == Below(Open(z, empty)) + [full]
    ensures Same(Close(w), Put(z, Closed(full)))
  {
    if z.stack != [] {
      var inner := Named(Top(z), z.lastKey);
      assert w.stack == Below(z) + [inner, full];
      assert Below(w) == Below(z) + [inner];
    }
  }

  lemma {:induction false} FeedItems(z: Zipper, items: Items)
    requires z.stack != [] && Top(z).ListFrame?
    ensures Outcome(Run(z, ItemEvents(items)), AcceptableItems(items),
                    z.root, Below(z) + [ListFrame(Top(z).done + ItemValues(items))])
    decreases items, 0
  {
    match items
    case NoItems =>
      assert Top(z).done + [] == Top(z).done;
    case Item(first, rest) =>
      FeedDocument(z, first);
      RunConcat(z, Events(first), ItemEvents(rest));
      if Acceptable(first) {
        FeedItems(Run(z, Events(first)).value, rest);
        assert (Top(z).done + [Value(first)]) + ItemValues(rest) == Top(z).done + ItemValues(items);
      }
  }

  lemma {:induction false} FeedMembers(z: Zipper, members: Members)
    requires z.stack != [] && Top(z).ObjectFrame? && Distinct(Top(z).names)
    ensures Outcome(Run(z, MemberEvents(members)),
                    "" !in Names(members) && Distinct(Top(z).names + Names(members)) && AcceptableValues(members),
                    z.root,
                    Below(z) + [ObjectFrame(Top(z).names + Names(members), Top(z).done + MemberValues(members))])
    decreases members, 0
  {
    var names := Top(z).names;
    match members
    case NoMembers =>
      assert names + [] == names && Top(z).done + [] == Top(z).done;
    case Member(name, value, rest) =>
      var z1 := z.(lastKey := name);
      MemberRun(z, members);
      assert (names + [name]) + Names(rest) == names + Names(members);
      DistinctNext(names, name, Names(rest));
      if CanStore(z1) {
        FeedDocument(z1, value);
        if Acceptable(value) {
          FeedMembers(Run(z1, Events(value)).value, rest);
          assert (Top(z).done + [Value(value)]) + MemberValues(rest) == Top(z).done + MemberValues(members);
        }
      } else {
        FirstFails(z1, value);
      }
  }

  lemma MemberRun(z: Zipper, members: Members)
    requires members.Member?
    ensures Run(z, MemberEvents(members))
         == Continue(Run(z.(lastKey := members.name), Events(members.value)), MemberEvents(members.rest))
  {
    var z1, es, more := z.(lastKey := members.name), Events(members.value), MemberEvents(members.rest);
    assert MemberEvents(members) == [OnKey(members.name)] + (es + more);
    RunOne(z, OnKey(members.name), es + more);
    RunConcat(z1, es, more);
  }

  lemma DistinctNext(names: seq<string>, name: string, rest: seq<string>)
    requires Distinct(names)
    ensures Distinct(names + [name]) <==> name !in names
    ensures Distinct((names + [name]) + rest) ==> name !in names
  {
    var all := (names + [name]) + rest;
    assert all[|names|] == name && forall i :: 0 <= i < |names| ==> all[i] == names[i];
  }

  lemma FirstFails(z: Zipper, d: Document)
    requires !CanStore(z)
    ensures Run(z, Events(d)) == Err(ParsingError)
  {
    match d
    case Plain(scalar) =>
    case Array(items) => assert Events(d)[0] == OnStartArray;
    case Record(members) => assert Events(d)[0] == OnStartObject;
  }

  /** A whole document, from the empty builder. */
  lemma WholeDocument(d: Document)
    ensures Outcome(Run(START, Events(d)), Acceptable(d), Value(d), [])
  {
    FeedDocument(START, d);
  }
}
