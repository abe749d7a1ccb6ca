/** No operation on one list touches another: each modifier, with a second list beside the one it changes. */
module OtherLists {
  import opened IntrusiveList

  ghost predicate Beside(l: List, other: List)
    reads l, l.root, l.elems, other, other.root, other.elems
  {
    l.Valid() && other.Valid() && l != other && l.root != other.root
  }

  /** The nodes of a list, and elements that belong to no list, are no nodes of another. */
  lemma NodesApart(l: List, other: List, xs: set<Element>)
    requires Beside(l, other) && forall x :: x in xs ==> (!x.IsLinked() && !x.isRoot) || x in l.elems
    ensures forall e :: e in other.elems ==> e !in l.Nodes() && e !in xs
    ensures other.root !in l.Nodes() && other.root !in xs
  {
    ListsDisjoint(l, other);
    forall e | e in other.elems ensures e !in l.Nodes() && e !in xs {
      assert e in Set(other.elems);
      assert forall k :: k in l.elems ==> k in Set(l.elems);
    }
  }

  lemma NodeIsOwn(l: List, i: int)
    ensures NodeAt(l.root, l.elems, i) in l.Nodes()
  {
    if 0 <= i < |l.elems| {
      assert l.elems[i] in Set(l.elems);
    }
  }

  /** The nodes around position k. */
  lemma NeighboursAreOwn(l: List, k: int)
    ensures NodeAt(l.root, l.elems, k - 1) in l.Nodes() && NodeAt(l.root, l.elems, k) in l.Nodes()
    ensures NodeAt(l.root, l.elems, k + 1) in l.Nodes()
  {
    NodeIsOwn(l, k - 1);
    NodeIsOwn(l, k);
    NodeIsOwn(l, k + 1);
  }

  method PushFront(l: List, x: Element, ghost other: List)
    requires Beside(l, other) && !x.IsLinked() && !x.isRoot
    modifies l`elems, x`next, x`prev, (NodeAt(l.root, l.elems, 0))`prev, l.root`next
    ensures Beside(l, other) && l.elems == [x] + old(l.elems) && other.elems == old(other.elems)
  {
    NodesApart(l, other, {x});
    NeighboursAreOwn(l, 0);
    l.PushFront(x);
  }

  method PushBack(l: List, x: Element, ghost other: List)
    requires Beside(l, other) && !x.IsLinked() && !x.isRoot
    modifies l`elems, x`next, x`prev, l.root`prev, (NodeAt(l.root, l.elems, |l.elems| - 1))`next
    ensures Beside(l, other) && l.elems == old(l.elems) + [x] && other.elems == old(other.elems)
  {
    NodesApart(l, other, {x});
    NeighboursAreOwn(l, |l.elems|);
    l.PushBack(x);
  }

  method InsertBefore(l: List, x: Element, position: Element, ghost k: nat, ghost other: List)
    requires Beside(l, other) && !x.IsLinked() && !x.isRoot
    requires k <= |l.elems| && position == NodeAt(l.root, l.elems, k)
    modifies l`elems, x`next, x`prev, position`prev, (NodeAt(l.root, l.elems, k as int - 1))`next
    ensures Beside(l, other) && l.elems == Inserted(old(l.elems), k, x) && other.elems == old(other.elems)
  {
    NodesApart(l, other, {x});
    NeighboursAreOwn(l, k);
    l.InsertBefore(x, position, k);
  }

  method InsertRange(
    l: List, position: Element, xs: seq<Element>,
    ghost before: seq<Element>, ghost after: seq<Element>, ghost other: List)
    returns (first: Element)
    requires Beside(l, other) && Waiting(xs, 0)
    requires l.elems == before + after && position == NodeAt(l.root, after, 0)
    modifies l`elems, Touched(xs, position, NodeAt(l.root, before, |before| - 1))
    ensures Beside(l, other) && l.elems == before + xs + after && other.elems == old(other.elems)
    ensures first == if xs == [] then position else xs[0]
  {
    NodesApart(l, other, Set(xs));
    ghost var last := NodeAt(l.root, before, |before| - 1);
    assert position in l.Nodes() && last in l.Nodes() by { Grown(before, xs, after, l.root); }
    first := l.InsertRange(position, xs, before, after);
  }

  method PopFront(l: List, calls: seq<Element>, ghost other: List) returns (r: seq<Element>)
    requires Beside(l, other) && !l.Empty()
    modifies l`elems, l.Nodes()`next, l.Nodes()`prev
    ensures Beside(l, other) && old(l.elems) != [] && l.elems == old(l.elems)[1..] && other.elems == old(other.elems)
    ensures r == calls + [old(l.elems)[0]] && !old(l.elems)[0].IsLinked()
  {
    NodesApart(l, other, {});
    NeighboursAreOwn(l, 0);
    r := l.PopFront(calls);
  }

  method PopBack(l: List, calls: seq<Element>, ghost other: List) returns (r: seq<Element>)
    requires Beside(l, other) && !l.Empty()
    modifies l`elems, l.Nodes()`next, l.Nodes()`prev
    ensures Beside(l, other) && old(l.elems) != [] && other.elems == old(other.elems)
    ensures var last := |old(l.elems)| - 1;
      l.elems == old(l.elems)[..last] && r == calls + [old(l.elems)[last]] && !old(l.elems)[last].IsLinked()
  {
    NodesApart(l, other, {});
    NeighboursAreOwn(l, |l.elems| - 1);
    r := l.PopBack(calls);
  }

  method Erase(l: List, position: Element, calls: seq<Element>, ghost k: nat, ghost other: List)
    returns (next: Element, r: seq<Element>)
    requires Beside(l, other) && k < |l.elems| && position == l.elems[k]
    modifies l`elems, l.Nodes()`next, l.Nodes()`prev
    ensures Beside(l, other) && l.elems == Removed(old(l.elems), k) && other.elems == old(other.elems)
    ensures next == NodeAt(l.root, l.elems, k) && r == calls + [position] && !position.IsLinked()
  {
    NodesApart(l, other, {});
    NeighboursAreOwn(l, k);
    next, r := l.Erase(position, calls, k);
  }

  method EraseRange(
    l: List, first: Element, last: Element, calls: seq<Element>,
    ghost before: seq<Element>, ghost range: seq<Element>, ghost after: seq<Element>, ghost other: List)
    returns (position: Element, r: seq<Element>)
    requires Beside(l, other) && l.elems == before + range + after
    requires first == NodeAt(l.root, range + after, 0) && last == NodeAt(l.root, after, 0)
    modifies l`elems, l.Nodes()`next, l.Nodes()`prev
    ensures Beside(l, other) && l.elems == before + after && other.elems == old(other.elems)
    ensures r == calls + range && Unlinked(Set(range)) && position == last
  {
    NodesApart(l, other, {});
    position, r := l.EraseRange(first, last, calls, before, range, after);
  }

  method Clear(l: List, calls: seq<Element>, ghost other: List) returns (r: seq<Element>)
    requires Beside(l, other)
    modifies l`elems, l.Nodes()`next, l.Nodes()`prev
    ensures Beside(l, other) && l.elems == [] && other.elems == old(other.elems)
    ensures r == calls + old(l.elems) && Unlinked(Set(old(l.elems)))
  {
    NodesApart(l, other, {});
    r := l.Clear(calls);
  }

  method RemoveAndDisposeIf(l: List, p: Element -> bool, calls: seq<Element>, ghost other: List)
    returns (r: seq<Element>)
    requires Beside(l, other)
    modifies l`elems, l.Nodes()`next, l.Nodes()`prev
    ensures Beside(l, other) && l.elems == Filter(old(l.elems), Not(p)) && other.elems == old(other.elems)
    ensures r == calls + Filter(old(l.elems), p) && Unlinked(Set(Filter(old(l.elems), p)))
  {
    NodesApart(l, other, {});
    r := l.RemoveAndDisposeIf(p, calls);
  }

  method DisposeAndAssign(l: List, calls: seq<Element>, xs: seq<Element>, ghost other: List) returns (r: seq<Element>)
    requires Beside(l, other)
    requires forall i :: 0 <= i < |xs| ==> (!xs[i].IsLinked() && !xs[i].isRoot) || xs[i] in l.elems
    requires forall i, j :: 0 <= i < j < |xs| ==> xs[i] != xs[j]
    modifies l`elems, l.Nodes()`next, l.Nodes()`prev, xs`next, xs`prev
    ensures Beside(l, other) && l.elems == xs && other.elems == old(other.elems)
    ensures r == calls + old(l.elems) && Unlinked(Set(old(l.elems)) - Set(xs))
  {
    NodesApart(l, other, Set(xs));
    assert forall x :: x in xs ==> x in Set(xs);
    r := l.DisposeAndAssign(calls, xs);
  }

  method MoveElement(l: List, from: Element, ghost k: nat, ghost other: List) returns (e: Element)
    requires Beside(l, other) && k < |l.elems| && from == l.elems[k]
    modifies l`elems, l.Nodes()`next, l.Nodes()`prev
    ensures Beside(l, other) && l.elems == old(l.elems)[k := e] && other.elems == old(other.elems)
    ensures fresh(e) && !from.IsLinked()
  {
    NodesApart(l, other, {});
    NeighboursAreOwn(l, k);
    e := l.MoveElement(from, k);
  }

  /** Swapping two lists leaves a third as it is. */
  method Swap(l: List, x: List, ghost other: List)
    requires Beside(l, other) && Beside(x, other) && (x != l ==> x.root != l.root)
    modifies l`elems, x`elems, l.Nodes()`next, l.Nodes()`prev, x.Nodes()`next, x.Nodes()`prev
    ensures Beside(l, other) && Beside(x, other) && l.elems == old(x.elems) && x.elems == old(l.elems)
    ensures other.elems == old(other.elems)
  {
    NodesApart(l, other, {});
    NodesApart(x, other, {});
    l.Swap(x);
  }
}
