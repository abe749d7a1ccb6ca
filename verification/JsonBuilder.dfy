/**
 `AnyTreeBuilder`: builds a tree from parser events through a stack of raw pointers into containers that
 grow.  Memory is explicit, so that a pointer left behind by a list that moved its elements can be told
 from a live one.
 */
module JsonBuilder {
  import opened Wrappers
  import opened JsonValue
  import opened JsonZipper

  type Addr = nat

  /** What is stored at an address; a list owns the cells of its elements, an object those of its members. */
  datatype Node = Cell(scalar: Scalar) | Vector(items: seq<Addr>) | Map(names: seq<string>, items: seq<Addr>)

  /** The live cells, the next unused address, and the fields `hierarchy_` and `last_key_`. */
  datatype State = State(mem: map<Addr, Node>, unused: Addr, hierarchy: seq<Addr>, lastKey: string)

  /** The address of the field `root_`. */
  const ROOT: Addr := 0

  const INITIAL := State(map[ROOT := Cell(Null)], 1, [], "")

  function Kids(n: Node): seq<Addr> { if n.Cell? then [] else n.items }

  function TopAddr(s: State): Addr
    requires s.hierarchy != []
  {
    s.hierarchy[|s.hierarchy| - 1]
  }

  function Set(h: seq<Addr>): set<Addr> { set a | a in h }

  // ---------------------------------------------------------------- the operations

  /** The cells after a vector moved its elements to new addresses; the old addresses are dead. */
  function MovedCells(mem: map<Addr, Node>, items: seq<Addr>, unused: Addr): map<Addr, Node> {
    map a | a in mem.Keys + NewAddrs(unused, |items|) && a !in items ::
      if a in NewAddrs(unused, |items|) && items[a - unused] in mem then mem[items[a - unused]]
      else if a in mem then mem[a] else Cell(Null)
  }

  function NewItems(unused: Addr, n: nat): seq<Addr> { seq(n, i => unused + i) }

  function NewAddrs(unused: Addr, n: nat): (r: set<Addr>)
    ensures forall a :: a in r <==> unused <= a < unused + n
  {
    if n == 0 then {} else NewAddrs(unused, n - 1) + {unused + n - 1}
  }

  /** The vector on top of the stack runs out of capacity. */
  function Relocate(s: State): State
    requires s.hierarchy != [] && TopAddr(s) in s.mem && s.mem[TopAddr(s)].Vector?
  {
    var items := s.mem[TopAddr(s)].items;
    s.(mem := MovedCells(s.mem, items, s.unused)[TopAddr(s) := Vector(NewItems(s.unused, |items|))],
       unused := s.unused + |items|)
  }

  function Plus(n: Node, key: string, child: Addr): Node
    requires !n.Cell?
  {
    match n
    case Vector(items) => Vector(items + [child])
    case Map(names, items) => Map(names + [key], items + [child])
  }

  /** Constructs a new element, at an unused address, in the container on top of the stack. */
  function Attach(s: State, n: Node): State
    requires s.hierarchy != [] && TopAddr(s) in s.mem && !s.mem[TopAddr(s)].Cell?
  {
    s.(mem := s.mem[TopAddr(s) := Plus(s.mem[TopAddr(s)], s.lastKey, s.unused)][s.unused := n], unused := s.unused + 1)
  }

  /** `Store`: the new state and the address of the stored value.  `moves` says whether a vector has to move. */
  function Store(s: State, n: Node, moves: bool): Result<(State, Addr), Failure> {
    if s.hierarchy == [] then Ok((s.(mem := map[ROOT := n]), ROOT))
    else if TopAddr(s) !in s.mem then Err(DanglingPointer)
    else
      var top := s.mem[TopAddr(s)];
      if top.Vector? then
        var s1 := if moves then Relocate(s) else s;
        Ok((Attach(s1, n), s1.unused))
      else if s.lastKey == "" then Err(ParsingError)
      else if top.Cell? then Err(ParsingError)
      else if s.lastKey in top.names then Err(ParsingError)
      else Ok((Attach(s, n), s.unused))
  }

  function StartContainer(s: State, n: Node, moves: bool): Result<State, Failure> {
    var r := Store(s, n, moves);
    if r.Ok? then Ok(r.value.0.(hierarchy := s.hierarchy + [r.value.1])) else Err(r.error)
  }

  function EndContainer(s: State): State {
    if s.hierarchy == [] then s else s.(hierarchy := s.hierarchy[..|s.hierarchy| - 1])
  }

  function Step(s: State, e: Event, moves: bool): Result<State, Failure> {
    match e
    case OnKey(name) => Ok(s.(lastKey := name))
    case OnScalar(scalar) =>
      var r := Store(s, Cell(scalar), moves);
      if r.Ok? then Ok(r.value.0) else Err(r.error)
    case OnStartArray => StartContainer(s, Vector([]), moves)
    case OnStartObject => StartContainer(s, Map([], []), moves)
    case OnEndArray => Ok(EndContainer(s))
    case OnEndObject => Ok(EndContainer(s))
  }

  /** The events until the first failure; `moves[i]` is for the i-th event. */
  function Run(s: State, es: seq<Event>, moves: seq<bool>): Result<State, Failure>
    requires |es| == |moves|
    decreases |es|
  {
    if es == [] then Ok(s)
    else
      var r := Step(s, es[0], moves[0]);
      if r.Ok? then Run(r.value, es[1..], moves[1..]) else r
  }

  // ---------------------------------------------------------------- what memory holds

  /** The cell at a and those below it hold the value v, and none of them is in `off`. */
  ghost predicate Holds(mem: map<Addr, Node>, a: Addr, v: Any, off: set<Addr>)
    decreases v
  {
    && a in mem && a !in off
    && match v
       case Leaf(scalar) => mem[a] == Cell(scalar)
       case List(vs) =>
         && mem[a].Vector? && |mem[a].items| == |vs|
         && forall i :: 0 <= i < |vs| ==> Holds(mem, mem[a].items[i], vs[i], off)
       case Object(m) =>
         && mem[a].Map? && |mem[a].items| == |mem[a].names| && Distinct(mem[a].names)
         && (forall k :: k in m <==> k in mem[a].names)
         && forall i :: 0 <= i < |mem[a].names| ==> Holds(mem, mem[a].items[i], m[mem[a].names[i]], off)
  }

  /** Memory determines the value. */
  lemma {:induction false} HoldsOne(mem: map<Addr, Node>, a: Addr, v: Any, w: Any, off: set<Addr>)
    requires Holds(mem, a, v, off) && Holds(mem, a, w, off)
    ensures v == w
    decreases v
  {
    match v
    case Leaf(_) =>
    case List(vs) =>
      forall i | 0 <= i < |vs| ensures vs[i] == w.items[i] {
        HoldsOne(mem, mem[a].items[i], vs[i], w.items[i], off);
      }
    case Object(m) =>
      var names := mem[a].names;
      forall k | k in m ensures m[k] == w.members[k] {
        var i :| 0 <= i < |names| && names[i] == k;
        HoldsOne(mem, mem[a].items[i], m[k], w.members[k], off);
      }
  }

  /** Cells that are neither in `off` nor dead are unchanged, and refer to no dead cell. */
  ghost predicate Keeps(mem: map<Addr, Node>, now: map<Addr, Node>, off: set<Addr>, off': set<Addr>, dead: set<Addr>) {
    && (forall x :: x in mem && x !in off && x !in dead ==> x in now && now[x] == mem[x] && x !in off')
    && (forall x, i :: Owns(mem, x, i) && x !in off ==> Kids(mem[x])[i] !in dead)
  }

  /** A value survives a change of memory that keeps its cells, even when its own cell is moved. */
  lemma {:induction false} HoldsKept(
    mem: map<Addr, Node>, now: map<Addr, Node>, a: Addr, a': Addr, v: Any,
    off: set<Addr>, off': set<Addr>, dead: set<Addr>)
    requires Holds(mem, a, v, off) && Keeps(mem, now, off, off', dead)
    requires a' in now && now[a'] == mem[a] && a' !in off'
    ensures Holds(now, a', v, off')
    decreases v
  {
    match v
    case Leaf(_) =>
    case List(vs) =>
      forall i | 0 <= i < |vs| ensures Holds(now, now[a'].items[i], vs[i], off') {
        assert Owns(mem, a, i);
        var kid := Kids(mem[a])[i];
        HoldsKept(mem, now, kid, kid, vs[i], off, off', dead);
      }
    case Object(m) =>
      forall i | 0 <= i < |mem[a].names| ensures Holds(now, now[a'].items[i], m[mem[a].names[i]], off') {
        assert Owns(mem, a, i);
        var kid := Kids(mem[a])[i];
        HoldsKept(mem, now, kid, kid, m[mem[a].names[i]], off, off', dead);
      }
  }

  // ---------------------------------------------------------------- the invariant

  /** Every live container owns live cells of its own; the root belongs to no container. */
  ghost predicate Owned(mem: map<Addr, Node>) {
    && ROOT in mem
    && (forall a, i :: Owns(mem, a, i) ==> Kids(mem[a])[i] in mem && Kids(mem[a])[i] != ROOT)
    && (forall a, b, i, j ::
          Owns(mem, a, i) && Owns(mem, b, j) && Kids(mem[a])[i] == Kids(mem[b])[j] ==> a == b && i == j)
  }

  ghost predicate Owns(mem: map<Addr, Node>, a: Addr, i: int) { a in mem && 0 <= i < |Kids(mem[a])| }

  ghost predicate Bounded(mem: map<Addr, Node>, unused: Addr) {
    forall a :: a in mem ==> a < unused
  }

  /**
   The stacked pointers are live containers, all different; the first points to the root, and each other
   one to the most recently stored element of the container below it.
   */
  ghost predicate Chain(mem: map<Addr, Node>, h: seq<Addr>) {
    && (h != [] ==> h[0] == ROOT)
    && (forall k :: 0 <= k < |h| ==> h[k] in mem && !mem[h[k]].Cell?)
    && (forall k, l :: 0 <= k < l < |h| ==> h[k] != h[l])
    && (forall k :: 0 <= k < |h| - 1 ==> Newest(mem, h[k], h[k + 1]))
  }

  ghost predicate Newest(mem: map<Addr, Node>, a: Addr, child: Addr)
    requires a in mem
  {
    var kids := Kids(mem[a]);
    kids != [] && kids[|kids| - 1] == child
  }

  ghost predicate Inv(s: State) {
    Owned(s.mem) && Bounded(s.mem, s.unused) && Chain(s.mem, s.hierarchy)
  }

  /** The cell at h[k] holds what frame k says, and the element that is still open if there is one. */
  ghost predicate FrameHolds(mem: map<Addr, Node>, h: seq<Addr>, f: Frame, k: nat)
    requires k < |h|
  {
    && h[k] in mem && !mem[h[k]].Cell? && mem[h[k]].Vector? == f.ListFrame?
    && (f.ObjectFrame? ==> mem[h[k]].names == f.names && Distinct(f.names) && |f.names| == |Kids(mem[h[k]])|)
    && |Kids(mem[h[k]])| == |f.done| + (if k == |h| - 1 then 0 else 1)
    && forall i :: 0 <= i < |f.done| ==> Holds(mem, Kids(mem[h[k]])[i], f.done[i], Set(h))
  }

  /** The state is the zipper laid out in memory. */
  ghost predicate Represents(s: State, z: Zipper) {
    && |s.hierarchy| == |z.stack| && s.lastKey == z.lastKey
    && (s.hierarchy == [] ==> Holds(s.mem, ROOT, z.root, {}))
    && forall k :: 0 <= k < |z.stack| ==> FrameHolds(s.mem, s.hierarchy, z.stack[k], k)
  }

  // ---------------------------------------------------------------- storing a value

  /** The elements of the top container are not on the stack. */
  lemma KidsOffStack(s: State, i: int, k: nat)
    requires Inv(s) && s.hierarchy != [] && Owns(s.mem, TopAddr(s), i) && k < |s.hierarchy|
    ensures Kids(s.mem[TopAddr(s)])[i] != s.hierarchy[k]
  {
    if k > 0 {
      var below := s.hierarchy[k - 1];
      assert Newest(s.mem, below, s.hierarchy[k]);
      assert Owns(s.mem, below, |Kids(s.mem[below])| - 1);
    }
  }

  lemma AttachOwned(s: State, n: Node)
    requires Inv(s) && s.hierarchy != [] && !s.mem[TopAddr(s)].Cell? && Kids(n) == []
    ensures Owned(Attach(s, n).mem) && Bounded(Attach(s, n).mem, Attach(s, n).unused)
  {
    var t, c := TopAddr(s), s.unused;
    var now := Attach(s, n).mem;
    assert Kids(now[t]) == Kids(s.mem[t]) + [c];
    forall a, i | Owns(now, a, i)
      ensures Kids(now[a])[i] in now && Kids(now[a])[i] != ROOT
      ensures Kids(now[a])[i] == c <==> a == t && i == |Kids(s.mem[t])|
      ensures Kids(now[a])[i] != c ==> Owns(s.mem, a, i) && Kids(now[a])[i] == Kids(s.mem[a])[i]
    {
      assert a != c;
      assert !(a == t && i == |Kids(s.mem[t])|) ==> Owns(s.mem, a, i);
    }
  }

  lemma AttachChain(s: State, n: Node)
    requires Inv(s) && s.hierarchy != [] && !s.mem[TopAddr(s)].Cell?
    ensures Chain(Attach(s, n).mem, s.hierarchy)
    ensures !n.Cell? ==> Chain(Attach(s, n).mem, s.hierarchy + [s.unused])
  {
    var h, now, c := s.hierarchy, Attach(s, n).mem, s.unused;
    forall k | 0 <= k < |h| - 1 ensures Newest(now, h[k], h[k + 1]) {
      assert h[k] != TopAddr(s) && Newest(s.mem, h[k], h[k + 1]);
    }
    var h' := h + [c];
    forall k | 0 <= k < |h'| - 1 ensures Newest(now, h'[k], h'[k + 1]) {
      assert k < |h| - 1 ==> Newest(now, h[k], h[k + 1]);
    }
  }

  /** Everything stored so far is untouched by the new element. */
  lemma AttachKeeps(s: State, n: Node, off': set<Addr>)
    requires Inv(s) && s.hierarchy != [] && !s.mem[TopAddr(s)].Cell? && off' <= Set(s.hierarchy) + {s.unused}
    ensures Keeps(s.mem, Attach(s, n).mem, Set(s.hierarchy), off', {})
  {
    assert TopAddr(s) in Set(s.hierarchy);
  }

  lemma AttachFrame(s: State, n: Node, f: Frame, k: nat, h': seq<Addr>)
    requires Inv(s) && k < |s.hierarchy| - 1 && !s.mem[TopAddr(s)].Cell? && FrameHolds(s.mem, s.hierarchy, f, k)
    requires h' == s.hierarchy || h' == s.hierarchy + [s.unused]
    ensures FrameHolds(Attach(s, n).mem, h', f, k)
  {
    AttachKeeps(s, n, Set(h'));
    var now := Attach(s, n).mem;
    assert s.hierarchy[k] != TopAddr(s);
    forall i | 0 <= i < |f.done| ensures Holds(now, Kids(now[h'[k]])[i], f.done[i], Set(h')) {
      var kid := Kids(s.mem[s.hierarchy[k]])[i];
      HoldsKept(s.mem, now, kid, kid, f.done[i], Set(s.hierarchy), Set(h'), {});
    }
  }

  /** An element of the top container still holds what it held. */
  lemma AttachItem(s: State, n: Node, i: nat, v: Any, off': set<Addr>)
    requires Inv(s) && s.hierarchy != [] && !s.mem[TopAddr(s)].Cell? && i < |Kids(s.mem[TopAddr(s)])|
    requires Holds(s.mem, Kids(s.mem[TopAddr(s)])[i], v, Set(s.hierarchy)) && off' <= Set(s.hierarchy) + {s.unused}
    ensures var now := Attach(s, n).mem;
      i < |Kids(now[TopAddr(s)])| && Holds(now, Kids(now[TopAddr(s)])[i], v, off')
  {
    AttachKeeps(s, n, off');
    var kid := Kids(s.mem[TopAddr(s)])[i];
    assert Kids(Attach(s, n).mem[TopAddr(s)]) == Kids(s.mem[TopAddr(s)]) + [s.unused];
    HoldsKept(s.mem, Attach(s, n).mem, kid, kid, v, Set(s.hierarchy), off', {});
  }

  /** The top frame after a scalar was stored in it. */
  lemma AttachScalar(s: State, scalar: Scalar, f: Frame)
    requires Inv(s) && s.hierarchy != [] && FrameHolds(s.mem, s.hierarchy, f, |s.hierarchy| - 1)
    requires f.ObjectFrame? ==> s.lastKey !in f.names
    ensures FrameHolds(
              Attach(s, Cell(scalar)).mem, s.hierarchy, With(Named(f, s.lastKey), Leaf(scalar)), |s.hierarchy| - 1)
  {
    var now, t, off := Attach(s, Cell(scalar)).mem, TopAddr(s), Set(s.hierarchy);
    assert Kids(now[t]) == Kids(s.mem[t]) + [s.unused];
    forall i | 0 <= i < |f.done| ensures Holds(now, Kids(now[t])[i], f.done[i], off) {
      AttachItem(s, Cell(scalar), i, f.done[i], off);
    }
    assert Holds(now, s.unused, Leaf(scalar), off);
  }

  /** The top frame after a container was opened in it. */
  lemma AttachContainer(s: State, n: Node, f: Frame)
    requires Inv(s) && s.hierarchy != [] && FrameHolds(s.mem, s.hierarchy, f, |s.hierarchy| - 1)
    requires f.ObjectFrame? ==> s.lastKey !in f.names
    ensures FrameHolds(Attach(s, n).mem, s.hierarchy + [s.unused], Named(f, s.lastKey), |s.hierarchy| - 1)
  {
    var now, t, h' := Attach(s, n).mem, TopAddr(s), s.hierarchy + [s.unused];
    assert Kids(now[t]) == Kids(s.mem[t]) + [s.unused] && h'[|s.hierarchy| - 1] == t;
    forall i | 0 <= i < |f.done| ensures Holds(now, Kids(now[t])[i], f.done[i], Set(h')) {
      AttachItem(s, n, i, f.done[i], Set(h'));
    }
  }

  lemma ScalarStored(s: State, z: Zipper, scalar: Scalar)
    requires Inv(s) && Represents(s, z) && z.stack != [] && CanStore(z)
    ensures Inv(Attach(s, Cell(scalar))) && Represents(Attach(s, Cell(scalar)), Put(z, Leaf(scalar)))
  {
    var n := |z.stack| - 1;
    assert FrameHolds(s.mem, s.hierarchy, z.stack[n], n);
    AttachOwned(s, Cell(scalar));
    AttachChain(s, Cell(scalar));
    AttachScalar(s, scalar, Top(z));
    forall k | 0 <= k < n ensures FrameHolds(Attach(s, Cell(scalar)).mem, s.hierarchy, z.stack[k], k) {
      AttachFrame(s, Cell(scalar), z.stack[k], k, s.hierarchy);
    }
  }

  function Pushed(s: State, a: Addr): State { s.(hierarchy := s.hierarchy + [a]) }

  /** What a new container is stored as. */
  predicate Blank(n: Node, f: Frame) {
    (n == Vector([]) && f == ListFrame([])) || (n == Map([], []) && f == ObjectFrame([], []))
  }

  lemma BlankFrame(s: State, node: Node, f: Frame)
    requires s.hierarchy != [] && TopAddr(s) in s.mem && !s.mem[TopAddr(s)].Cell? && Blank(node, f)
    ensures FrameHolds(Attach(s, node).mem, s.hierarchy + [s.unused], f, |s.hierarchy|)
  {
  }

  lemma ContainerFrame(s: State, z: Zipper, node: Node, f: Frame, k: nat)
    requires Inv(s) && Represents(s, z) && z.stack != [] && CanStore(z) && Blank(node, f) && k <= |z.stack|
    ensures |Open(z, f).stack| == |z.stack| + 1
    ensures FrameHolds(Attach(s, node).mem, s.hierarchy + [s.unused], Open(z, f).stack[k], k)
  {
    var n := |z.stack| - 1;
    assert FrameHolds(s.mem, s.hierarchy, z.stack[n], n);
    OpenFrames(z, f);
    if k < n {
      AttachFrame(s, node, z.stack[k], k, s.hierarchy + [s.unused]);
    } else if k == n {
      AttachContainer(s, node, Top(z));
    } else {
      BlankFrame(s, node, f);
    }
  }

  lemma ContainerStored(s: State, z: Zipper, node: Node, f: Frame)
    requires Inv(s) && Represents(s, z) && z.stack != [] && CanStore(z) && Blank(node, f)
    ensures Inv(Pushed(Attach(s, node), s.unused)) && Represents(Pushed(Attach(s, node), s.unused), Open(z, f))
  {
    var n := |z.stack| - 1;
    assert FrameHolds(s.mem, s.hierarchy, z.stack[n], n);
    AttachOwned(s, node);
    AttachChain(s, node);
    forall k | 0 <= k <= |z.stack|
      ensures |Open(z, f).stack| == |z.stack| + 1
      ensures FrameHolds(Attach(s, node).mem, s.hierarchy + [s.unused], Open(z, f).stack[k], k)
    {
      ContainerFrame(s, z, node, f, k);
    }
  }

  // ---------------------------------------------------------------- moving the elements of a vector

  lemma RelocateOwned(s: State)
    requires Inv(s) && s.hierarchy != [] && s.mem[TopAddr(s)].Vector?
    ensures Owned(Relocate(s).mem) && Bounded(Relocate(s).mem, Relocate(s).unused)
  {
    var t := TopAddr(s);
    var items, now := s.mem[t].items, Relocate(s).mem;
    forall i | 0 <= i < |items| ensures items[i] != t && items[i] != ROOT && items[i] in s.mem {
      assert Owns(s.mem, t, i);
      KidsOffStack(s, i, |s.hierarchy| - 1);
    }
    forall a, i | Owns(now, a, i) ensures Source(s, now, a, i) {
      RelocateSource(s, a, i);
    }
  }

  /** Where the i-th element of the cell a was before its container or itself was moved. */
  ghost predicate Source(s: State, now: map<Addr, Node>, a: Addr, i: int)
    requires s.hierarchy != [] && Owns(now, a, i)
  {
    var t := TopAddr(s);
    if a == t then Owns(s.mem, t, i) && Kids(now[a])[i] == s.unused + i && Kids(now[a])[i] in now
    else
      var b := if a < s.unused then a else if Owns(s.mem, t, a - s.unused) then Kids(s.mem[t])[a - s.unused] else t;
      && b != t && Owns(s.mem, b, i) && Kids(now[a])[i] == Kids(s.mem[b])[i]
      && Kids(now[a])[i] in now && Kids(now[a])[i] < s.unused && Kids(now[a])[i] != ROOT
  }

  lemma RelocateSource(s: State, a: Addr, i: int)
    requires Inv(s) && s.hierarchy != [] && s.mem[TopAddr(s)].Vector? && Owns(Relocate(s).mem, a, i)
    ensures Source(s, Relocate(s).mem, a, i)
  {
    var t := TopAddr(s);
    var items, now := s.mem[t].items, Relocate(s).mem;
    if a != t {
      var b := if a < s.unused then a else items[a - s.unused];
      assert b in s.mem && now[a] == s.mem[b];
      assert Owns(s.mem, b, i);
      var kid := Kids(s.mem[b])[i];
      assert b != t by {
        if a >= s.unused {
          assert Owns(s.mem, t, a - s.unused);
          KidsOffStack(s, a - s.unused, |s.hierarchy| - 1);
        }
      }
      assert kid !in items by {
        forall j | 0 <= j < |items| ensures items[j] != kid {
          assert Owns(s.mem, t, j);
        }
      }
    }
  }

  /** Growing the top vector leaves every stacked pointer live: the cells that die are not on the stack. */
  lemma RelocateChain(s: State)
    requires Inv(s) && s.hierarchy != [] && s.mem[TopAddr(s)].Vector?
    ensures Chain(Relocate(s).mem, s.hierarchy)
    ensures forall k :: 0 <= k < |s.hierarchy| - 1 ==> Relocate(s).mem[s.hierarchy[k]] == s.mem[s.hierarchy[k]]
  {
    var h, items, now := s.hierarchy, s.mem[TopAddr(s)].items, Relocate(s).mem;
    forall k | 0 <= k < |h| ensures h[k] in now && (k < |h| - 1 ==> now[h[k]] == s.mem[h[k]]) {
      forall i | 0 <= i < |items| ensures items[i] != h[k] {
        assert Owns(s.mem, TopAddr(s), i);
        KidsOffStack(s, i, k);
      }
      assert h[k] !in items;
    }
    forall k | 0 <= k < |h| - 1 ensures Newest(now, h[k], h[k + 1]) {
      assert Newest(s.mem, h[k], h[k + 1]);
    }
  }

  lemma RelocateKeeps(s: State)
    requires Inv(s) && s.hierarchy != [] && s.mem[TopAddr(s)].Vector?
    ensures Keeps(s.mem, Relocate(s).mem, Set(s.hierarchy), Set(s.hierarchy), Set(s.mem[TopAddr(s)].items))
  {
    var t := TopAddr(s);
    var items, now, off := s.mem[t].items, Relocate(s).mem, Set(s.hierarchy);
    assert t in off;
    forall x, i | Owns(s.mem, x, i) && x !in off ensures Kids(s.mem[x])[i] !in Set(items) {
      forall j | 0 <= j < |items| ensures items[j] != Kids(s.mem[x])[i] {
        assert Owns(s.mem, t, j);
      }
    }
  }

  /** An element of the vector that moves holds at its new address what it held. */
  lemma RelocatedItem(s: State, i: nat, v: Any)
    requires Inv(s) && s.hierarchy != [] && s.mem[TopAddr(s)].Vector? && i < |s.mem[TopAddr(s)].items|
    requires Holds(s.mem, s.mem[TopAddr(s)].items[i], v, Set(s.hierarchy))
    ensures Holds(Relocate(s).mem, s.unused + i, v, Set(s.hierarchy))
  {
    RelocateKeeps(s);
    var items, now, h := s.mem[TopAddr(s)].items, Relocate(s).mem, Set(s.hierarchy);
    assert Owns(s.mem, TopAddr(s), i);
    HoldsKept(s.mem, now, items[i], s.unused + i, v, h, h, Set(items));
  }

  /** An element of another container stays where it is. */
  lemma UnmovedItem(s: State, a: Addr, i: nat, v: Any)
    requires Inv(s) && s.hierarchy != [] && s.mem[TopAddr(s)].Vector? && a != TopAddr(s) && Owns(s.mem, a, i)
    requires Holds(s.mem, Kids(s.mem[a])[i], v, Set(s.hierarchy))
    ensures Holds(Relocate(s).mem, Kids(s.mem[a])[i], v, Set(s.hierarchy))
  {
    RelocateKeeps(s);
    var items, now, h, kid := s.mem[TopAddr(s)].items, Relocate(s).mem, Set(s.hierarchy), Kids(s.mem[a])[i];
    forall j | 0 <= j < |items| ensures items[j] != kid {
      assert Owns(s.mem, TopAddr(s), j);
    }
    HoldsKept(s.mem, now, kid, kid, v, h, h, Set(items));
  }

  lemma RelocateFrame(s: State, f: Frame, k: nat)
    requires Inv(s) && k < |s.hierarchy| && s.mem[TopAddr(s)].Vector? && FrameHolds(s.mem, s.hierarchy, f, k)
    ensures FrameHolds(Relocate(s).mem, s.hierarchy, f, k)
  {
    RelocateChain(s);
    var h, now := s.hierarchy, Relocate(s).mem;
    forall i | 0 <= i < |f.done| ensures Holds(now, Kids(now[h[k]])[i], f.done[i], Set(h)) {
      if k == |h| - 1 {
        RelocatedItem(s, i, f.done[i]);
      } else {
        UnmovedItem(s, h[k], i, f.done[i]);
      }
    }
  }

  lemma Relocated(s: State, z: Zipper)
    requires Inv(s) && Represents(s, z) && z.stack != [] && Top(z).ListFrame?
    ensures s.mem[TopAddr(s)].Vector? && Inv(Relocate(s)) && Represents(Relocate(s), z)
  {
    var n := |z.stack| - 1;
    assert FrameHolds(s.mem, s.hierarchy, z.stack[n], n);
    RelocateOwned(s);
    RelocateChain(s);
    forall k | 0 <= k < |z.stack| ensures FrameHolds(Relocate(s).mem, s.hierarchy, z.stack[k], k) {
      RelocateFrame(s, z.stack[k], k);
    }
  }

  // ---------------------------------------------------------------- closing a container

  /** The cell of a finished container holds its value. */
  lemma ClosedHolds(s: State, f: Frame)
    requires Inv(s) && s.hierarchy != [] && FrameHolds(s.mem, s.hierarchy, f, |s.hierarchy| - 1)
    ensures Holds(s.mem, TopAddr(s), Closed(f), Set(s.hierarchy[..|s.hierarchy| - 1]))
  {
    var t, h, below := TopAddr(s), s.hierarchy, s.hierarchy[..|s.hierarchy| - 1];
    forall i | 0 <= i < |f.done| ensures Holds(s.mem, Kids(s.mem[t])[i], f.done[i], Set(below)) {
      var kid := Kids(s.mem[t])[i];
      HoldsKept(s.mem, s.mem, kid, kid, f.done[i], Set(h), Set(below), {});
    }
    if f.ObjectFrame? {
      MapHolds(s.mem, t, f.names, f.done, Set(below));
    }
  }

  lemma MapHolds(mem: map<Addr, Node>, a: Addr, names: seq<string>, values: seq<Any>, off: set<Addr>)
    requires a in mem && a !in off && mem[a].Map? && mem[a].names == names && Distinct(names)
    requires |names| == |mem[a].items| == |values|
    requires forall i :: 0 <= i < |values| ==> Holds(mem, mem[a].items[i], values[i], off)
    ensures Holds(mem, a, Object(ToMap(names, values)), off)
  {
    var m := ToMap(names, values);
    forall i | 0 <= i < |names| ensures Holds(mem, mem[a].items[i], m[names[i]], off) {
      ToMapAt(names, values, i);
    }
  }

  lemma PoppedFrame(s: State, f: Frame, k: nat, v: Any)
    requires Inv(s) && k < |s.hierarchy| - 1 && FrameHolds(s.mem, s.hierarchy, f, k)
    requires k == |s.hierarchy| - 2 ==> Holds(s.mem, TopAddr(s), v, Set(s.hierarchy[..|s.hierarchy| - 1]))
    ensures FrameHolds(s.mem, s.hierarchy[..|s.hierarchy| - 1], if k == |s.hierarchy| - 2 then With(f, v) else f, k)
  {
    var h, below := s.hierarchy, s.hierarchy[..|s.hierarchy| - 1];
    assert Newest(s.mem, h[k], h[k + 1]);
    forall i | 0 <= i < |f.done| ensures Holds(s.mem, Kids(s.mem[h[k]])[i], f.done[i], Set(below)) {
      var kid := Kids(s.mem[h[k]])[i];
      HoldsKept(s.mem, s.mem, kid, kid, f.done[i], Set(h), Set(below), {});
    }
  }

  lemma PoppedChain(mem: map<Addr, Node>, h: seq<Addr>)
    requires Chain(mem, h) && h != []
    ensures Chain(mem, h[..|h| - 1])
  {
    var below := h[..|h| - 1];
    forall k | 0 <= k < |below| - 1 ensures Newest(mem, below[k], below[k + 1]) {
      assert Newest(mem, h[k], h[k + 1]);
    }
  }

  lemma ContainerClosed(s: State, z: Zipper)
    requires Inv(s) && Represents(s, z)
    ensures Inv(EndContainer(s)) && Represents(EndContainer(s), Close(z))
  {
    if z.stack != [] {
      var n, z' := |z.stack| - 1, Close(z);
      assert FrameHolds(s.mem, s.hierarchy, z.stack[n], n);
      ClosedHolds(s, Top(z));
      PoppedChain(s.mem, s.hierarchy);
      if n == 0 {
        assert Set(s.hierarchy[..n]) == {};
        assert Holds(s.mem, ROOT, z'.root, {});
      }
      forall k | 0 <= k < |z'.stack| ensures FrameHolds(s.mem, s.hierarchy[..n], z'.stack[k], k) {
        assert FrameHolds(s.mem, s.hierarchy, z.stack[k], k);
        PoppedFrame(s, z.stack[k], k, Closed(Top(z)));
        assert z'.stack[k] == if k == n - 1 then With(z.stack[k], Closed(Top(z))) else z.stack[k];
      }
    }
  }

  // ---------------------------------------------------------------- runs

  /** Each event does to the pointers what it does to the zipper, and fails exactly when that fails. */
  ghost predicate Agree(r: Result<State, Failure>, w: Result<Zipper, Failure>) {
    if w.Ok? then r.Ok? && Inv(r.value) && Represents(r.value, w.value) else r == Err(w.error)
  }

  lemma StoreAgrees(s: State, z: Zipper, n: Node, moves: bool)
    requires Inv(s) && Represents(s, z) && z.stack != []
    ensures if CanStore(z)
      then
        var s1 := if moves && Top(z).ListFrame? && TopAddr(s) in s.mem && s.mem[TopAddr(s)].Vector? then Relocate(s)
                  else s;
        && s1.hierarchy == s.hierarchy && Inv(s1) && Represents(s1, z)
        && TopAddr(s1) in s1.mem && !s1.mem[TopAddr(s1)].Cell? && Store(s, n, moves) == Ok((Attach(s1, n), s1.unused))
      else Store(s, n, moves) == Err(ParsingError)
  {
    var k := |z.stack| - 1;
    assert FrameHolds(s.mem, s.hierarchy, z.stack[k], k);
    if Top(z).ListFrame? {
      Relocated(s, z);
    }
  }

  lemma StepAgrees(s: State, z: Zipper, e: Event, moves: bool)
    requires Inv(s) && Represents(s, z)
    ensures Agree(Step(s, e, moves), JsonZipper.Step(z, e))
  {
    match e
    case OnKey(_) =>
    case OnEndArray => ContainerClosed(s, z);
    case OnEndObject => ContainerClosed(s, z);
    case OnScalar(scalar) =>
      if z.stack != [] {
        StoreAgrees(s, z, Cell(scalar), moves);
        if CanStore(z) {
          ScalarStored(if moves && Top(z).ListFrame? then Relocate(s) else s, z, scalar);
        }
      }
    case OnStartArray => OpenAgrees(s, z, Vector([]), ListFrame([]), moves);
    case OnStartObject => OpenAgrees(s, z, Map([], []), ObjectFrame([], []), moves);
  }

  lemma OpenAgrees(s: State, z: Zipper, n: Node, f: Frame, moves: bool)
    requires Inv(s) && Represents(s, z) && Blank(n, f)
    ensures Agree(StartContainer(s, n, moves), if CanStore(z) then Ok(Open(z, f)) else Err(ParsingError))
  {
    if z.stack != [] {
      StoreAgrees(s, z, n, moves);
      if CanStore(z) {
        ContainerStored(if moves && Top(z).ListFrame? then Relocate(s) else s, z, n, f);
      }
    }
  }

  lemma {:induction false} RunAgrees(s: State, z: Zipper, es: seq<Event>, moves: seq<bool>)
    requires |es| == |moves| && Inv(s) && Represents(s, z)
    ensures Agree(Run(s, es, moves), JsonZipper.Run(z, es))
    decreases |es|
  {
    if es == [] {
    } else {
      StepAgrees(s, z, es[0], moves[0]);
      if Step(s, es[0], moves[0]).Ok? {
        RunAgrees(Step(s, es[0], moves[0]).value, JsonZipper.Step(z, es[0]).value, es[1..], moves[1..]);
      }
    }
  }

  /** Whatever the events and whenever vectors move: no stacked pointer dangles, and each is where it should be. */
  lemma PointersStayLive(es: seq<Event>, moves: seq<bool>)
    requires |es| == |moves|
    ensures Run(INITIAL, es, moves) != Err(DanglingPointer)
    ensures Run(INITIAL, es, moves).Ok? ==> Inv(Run(INITIAL, es, moves).value)
  {
    RunAgrees(INITIAL, START, es, moves);
    ZipperErrors(START, es);
  }

  lemma {:induction false} ZipperErrors(z: Zipper, es: seq<Event>)
    ensures JsonZipper.Run(z, es).Err? ==> JsonZipper.Run(z, es).error == ParsingError
    decreases |es|
  {
    if es != [] && JsonZipper.Step(z, es[0]).Ok? {
      ZipperErrors(JsonZipper.Step(z, es[0]).value, es[1..]);
    }
  }

  /**
   The events of a document build exactly the value it denotes if every object in it has non-empty, distinct
   names, and fail otherwise.
   */
  lemma BuildsTheDocument(d: Document, moves: seq<bool>)
    requires |moves| == |Events(d)|
    ensures var r := Run(INITIAL, Events(d), moves);
      if Acceptable(d) then r.Ok? && r.value.hierarchy == [] && Holds(r.value.mem, ROOT, Value(d), {})
      else r == Err(ParsingError)
  {
    RunAgrees(INITIAL, START, Events(d), moves);
    WholeDocument(d);
  }
}
