/** The builder object: its callbacks update the tree, the stack of pointers and the last name in place. */
module JsonTreeBuilder {
  import opened Wrappers
  import opened JsonValue
  import opened JsonZipper
  import B = JsonBuilder

  class TreeBuilder {
    var memory: map<B.Addr, B.Node>
    var unused: B.Addr
    var hierarchy: seq<B.Addr>
    var lastKey: string
    ghost var zipper: Zipper  // the same tree, without pointers

    /** Memory is laid out as it should be, and holds what the zipper says. */
    ghost predicate Valid()
      reads this
    {
      B.Inv(Now()) && B.Represents(Now(), zipper)
    }

    function Now(): B.State
      reads this
    {
      B.State(memory, unused, hierarchy, lastKey)
    }

    constructor ()
      ensures Valid() && zipper == START
    {
      memory, unused, hierarchy, lastKey := map[B.ROOT := B.Cell(Null)], 1, [], "";
      zipper := START;
    }

    /** Stores a value in the innermost open container and returns the address it got. */
    method Store(n: B.Node, moves: bool) returns (r: Result<B.Addr, Failure>)
      modifies this`memory, this`unused
      ensures var was := B.Store(old(Now()), n, moves);
        if was.Ok? then r == Ok(was.value.1) && Now() == was.value.0 else r == Err(was.error) && Now() == old(Now())
    {
      if |hierarchy| == 0 {
        memory := map[B.ROOT := n];
        return Ok(B.ROOT);
      }
      var top := hierarchy[|hierarchy| - 1];
      if top !in memory {
        return Err(DanglingPointer);
      }
      var node := memory[top];
      if node.Vector? {
        var items := node.items;
        if moves {
          var cells := B.MovedCells(memory, items, unused);
          items := B.NewItems(unused, |items|);
          memory := cells[top := B.Vector(items)];
          unused := unused + |items|;
        }
        memory := memory[top := B.Vector(items + [unused])][unused := n];
        unused := unused + 1;
        return Ok(unused - 1);
      }
      if lastKey == "" || node.Cell? || lastKey in node.names {
        return Err(ParsingError);
      }
      memory := memory[top := B.Map(node.names + [lastKey], node.items + [unused])][unused := n];
      unused := unused + 1;
      return Ok(unused - 1);
    }

    /** Stores a new container and makes it the innermost open one. */
    method StartContainer(n: B.Node, ghost f: Frame, moves: bool) returns (r: Result<(), Failure>)
      requires Valid() && B.Blank(n, f)
      modifies this
      ensures Valid()
      ensures if CanStore(old(zipper)) then r.Ok? && zipper == Open(old(zipper), f)
              else r == Err(ParsingError) && zipper == old(zipper)
    {
      B.OpenAgrees(Now(), zipper, n, f, moves);
      var stored := Store(n, moves);
      if stored.Err? {
        return Err(stored.error);
      }
      hierarchy := hierarchy + [stored.value];
      zipper := Open(zipper, f);
      return Ok(());
    }

    method EndContainer()
      requires Valid()
      modifies this`hierarchy, this`zipper
      ensures Valid() && zipper == Close(old(zipper))
    {
      B.ContainerClosed(Now(), zipper);
      if |hierarchy| > 0 {
        hierarchy := hierarchy[..|hierarchy| - 1];
      }
      zipper := Close(zipper);
    }

    method OnScalar(scalar: Scalar, moves: bool) returns (r: Result<(), Failure>)
      requires Valid()
      modifies this`memory, this`unused, this`zipper
      ensures Valid()
      ensures if CanStore(old(zipper)) then r.Ok? && zipper == Put(old(zipper), Leaf(scalar))
              else r == Err(ParsingError) && zipper == old(zipper)
    {
      B.StepAgrees(Now(), zipper, Event.OnScalar(scalar), moves);
      var stored := Store(B.Cell(scalar), moves);
      if stored.Err? {
        return Err(stored.error);
      }
      zipper := Put(zipper, Leaf(scalar));
      return Ok(());
    }

    /** Each callback does to the tree in memory what the event does to the tree without pointers. */
    method On(e: Event, moves: bool) returns (r: Result<(), Failure>)
      requires Valid()
      modifies this
      ensures Valid()
      ensures var w := JsonZipper.Step(old(zipper), e);
        if w.Ok? then r.Ok? && zipper == w.value else r == Err(w.error) && zipper == old(zipper)
    {
      r := Ok(());
      match e
      case OnKey(name) =>
        lastKey := name;
        zipper := zipper.(lastKey := name);
      case OnScalar(scalar) => r := OnScalar(scalar, moves);
      case OnStartArray => r := StartContainer(B.Vector([]), ListFrame([]), moves);
      case OnStartObject => r := StartContainer(B.Map([], []), ObjectFrame([], []), moves);
      case OnEndArray => EndContainer();
      case OnEndObject => EndContainer();
    }

    /** Hands over the events one by one until one fails; every failure is reported as a parsing error. */
    method GetData(es: seq<Event>, moves: seq<bool>) returns (r: Result<map<B.Addr, B.Node>, Failure>)
      requires Valid() && zipper == START && |es| == |moves|
      modifies this
      ensures r.Err? ==> r.error == ParsingError
      ensures forall d :: es == Events(d) ==>
        (if Acceptable(d) then r.Ok? && B.Holds(r.value, B.ROOT, Value(d), {}) else r.Err?)
    {
      ghost var all := Run(START, es);
      forall d | es == Events(d) ensures Outcome(all, Acceptable(d), Value(d), []) {
        WholeDocument(d);
      }
      assert es[0..] == es;
      for i := 0 to |es|
        invariant Valid() && Run(zipper, es[i..]) == all
      {
        assert es[i..][1..] == es[i + 1..];
        var done := On(es[i], moves[i]);
        if done.Err? {
          return Err(ParsingError);
        }
      }
      r := Ok(memory);
    }
  }
}
