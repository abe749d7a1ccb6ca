/**
 `intrusive_list`: a circular doubly linked list around a sentinel, whose nodes are the elements
 themselves.  Every modifier keeps the ring and refines an operation on a sequence of elements.
 */
module IntrusiveList {

  class Element {
    var next: Element?
    var prev: Element?
    const isRoot: bool  // the sentinel inside a list object, as opposed to an element

    constructor ()
      ensures next == null && prev == null && !isRoot
    {
      next, prev, isRoot := null, null, false;
    }

    constructor EmptyRoot()
      ensures next == this && prev == this && isRoot
    {
      isRoot := true;
      new;
      next := this;
      prev := this;
    }

    /** Move construction: the new element takes the place of `from` between its neighbours. */
    constructor MoveFrom(from: Element)
      requires if from.next != null then from.prev != null && from.next != from && from.prev != from
               else from.prev == null
      modifies from`next, from`prev, Some(from.next)`prev, Some(from.prev)`next
      ensures !isRoot && next == old(from.next) && prev == old(from.prev)
      ensures !from.IsLinked() && from.prev == null
      ensures old(from.next) != null ==> next.prev == this && prev.next == this
    {
      next, prev, isRoot := null, null, false;
      new;
      if from.IsLinked() {
        next := from.next;
        next.prev := this;
        prev := from.prev;
        prev.next := this;
        from.Unlink();
      }
    }

    predicate IsLinked()
      reads this
    {
      next != null
    }

    method Unlink()
      requires IsLinked()
      modifies this`next, this`prev
      ensures next == null && prev == null
    {
      next, prev := null, null;
    }
  }

  ghost function Some(e: Element?): set<Element> { if e == null then {} else {e} }

  ghost predicate Unlinked(es: set<Element>)
    reads es
  {
    forall e :: e in es ==> e.next == null && e.prev == null
  }

  ghost function Set(es: seq<Element>): set<Element> { set e | e in es }

  lemma SetNext(es: seq<Element>, m: nat)
    requires m < |es|
    ensures Set(es[..m + 1]) == Set(es[..m]) + {es[m]}
  {
    assert es[..m + 1] == es[..m] + [es[m]];
  }

  /** One call of the disposer, appended to the calls so far; the element must be unlinked by then. */
  method Dispose(e: Element, calls: seq<Element>) returns (r: seq<Element>)
    requires !e.IsLinked()
    ensures r == calls + [e]
  {
    r := calls + [e];
  }

  /** The i-th node of the ring: the elements in order, the root before and after them. */
  function NodeAt(root: Element, elems: seq<Element>, i: int): Element {
    if 0 <= i < |elems| then elems[i] else root
  }

  /** The root is a sentinel, the elements are not. */
  ghost predicate Proper(root: Element, elems: seq<Element>) {
    root.isRoot && forall i :: 0 <= i < |elems| ==> !elems[i].isRoot
  }

  ghost predicate Distinct(root: Element, elems: seq<Element>) {
    && (forall i :: 0 <= i < |elems| ==> elems[i] != root)
    && forall i, j :: 0 <= i < j < |elems| ==> elems[i] != elems[j]
  }

  /** The nodes form one ring: each points to the one after it and to the one before it. */
  ghost predicate Ring(root: Element, elems: seq<Element>)
    reads root, elems
  {
    && root.next == NodeAt(root, elems, 0) && root.prev == NodeAt(root, elems, |elems| - 1)
    && (forall i {:trigger elems[i].next} :: 0 <= i < |elems| ==> elems[i].next == NodeAt(root, elems, i + 1))
    && (forall i {:trigger elems[i].prev} :: 0 <= i < |elems| ==> elems[i].prev == NodeAt(root, elems, i - 1))
  }

  function Inserted(elems: seq<Element>, k: nat, x: Element): seq<Element>
    requires k <= |elems|
  {
    elems[..k] + [x] + elems[k..]
  }

  function Removed(elems: seq<Element>, k: nat): seq<Element>
    requires k < |elems|
  {
    elems[..k] + elems[k + 1..]
  }

  // ---------------------------------------------------------------- links and sequences

  lemma NodeAtInserted(root: Element, elems: seq<Element>, k: nat, x: Element, i: int)
    requires k <= |elems| && -1 <= i <= |elems| + 1
    ensures NodeAt(root, Inserted(elems, k, x), i)
         == if i < k then NodeAt(root, elems, i) else if i == k then x else NodeAt(root, elems, i - 1)
  {
  }

  lemma NodeAtRemoved(root: Element, elems: seq<Element>, k: nat, i: int)
    requires k < |elems| && -1 <= i < |elems|
    ensures NodeAt(root, Removed(elems, k), i) == if i < k then NodeAt(root, elems, i) else NodeAt(root, elems, i + 1)
  {
  }

  /** A ring but for the links between node k - 1 and node k. */
  ghost predicate RingBut(root: Element, elems: seq<Element>, k: nat)
    reads root, elems
  {
    && (k != 0 ==> root.next == NodeAt(root, elems, 0))
    && (k != |elems| ==> root.prev == NodeAt(root, elems, |elems| - 1))
    && (forall i :: 0 <= i < |elems| && i != k - 1 ==> elems[i].next == NodeAt(root, elems, i + 1))
    && (forall i :: 0 <= i < |elems| && i != k ==> elems[i].prev == NodeAt(root, elems, i - 1))
  }

  lemma DistinctInserted(root: Element, elems: seq<Element>, k: nat, x: Element)
    requires k <= |elems| && Proper(root, elems) && Distinct(root, elems) && !x.isRoot && x !in elems
    ensures Proper(root, Inserted(elems, k, x)) && Distinct(root, Inserted(elems, k, x))
  {
  }

  lemma RingInserted(root: Element, elems: seq<Element>, k: nat, x: Element)
    requires k <= |elems| && RingBut(root, elems, k)
    requires x.next == NodeAt(root, elems, k) && x.prev == NodeAt(root, elems, k as int - 1)
    requires NodeAt(root, elems, k as int - 1).next == x && NodeAt(root, elems, k).prev == x
    ensures Ring(root, Inserted(elems, k, x))
  {
    var now := Inserted(elems, k, x);
    forall i | 0 <= i < |now|
      ensures now[i].next == NodeAt(root, now, i + 1) && now[i].prev == NodeAt(root, now, i - 1)
    {
      NodeAtInserted(root, elems, k, x, i);
      NodeAtInserted(root, elems, k, x, i + 1);
      NodeAtInserted(root, elems, k, x, i - 1);
    }
    NodeAtInserted(root, elems, k, x, 0);
    NodeAtInserted(root, elems, k, x, |elems|);
  }

  /** `insert_node_before`, seen on the ring that `target` belongs to. */
  method InsertNodeBefore(node: Element, target: Element, ghost root: Element, ghost elems: seq<Element>, ghost k: nat)
    requires Distinct(root, elems) && Ring(root, elems) && k <= |elems| && target == NodeAt(root, elems, k)
    requires node != root && node !in elems
    modifies node`next, node`prev, target`prev, (NodeAt(root, elems, k as int - 1))`next
    ensures Ring(root, Inserted(elems, k, node))
  {
    node.next := target;
    node.prev := target.prev;
    target.prev.next := node;
    target.prev := node;
    assert RingBut(root, elems, k);
    RingInserted(root, elems, k, node);
  }

  lemma InsertedAtEnds(elems: seq<Element>, x: Element)
    ensures Inserted(elems, 0, x) == [x] + elems
    ensures Inserted(elems, |elems|, x) == elems + [x]
  {
  }

  lemma AppendNext(calls: seq<Element>, es: seq<Element>, m: nat)
    requires m < |es|
    ensures (calls + es[..m]) + [es[m]] == calls + es[..m + 1] && es[..m] + [es[m]] == es[..m + 1]
    ensures es[m..][0] == es[m] && es[m..][1..] == es[m + 1..]
  {
  }

  /** The elements that satisfy p, in order. */
  function Filter(es: seq<Element>, p: Element -> bool): seq<Element> {
    if es == [] then []
    else
      var rest := Filter(es[..|es| - 1], p);
      if p(es[|es| - 1]) then rest + [es[|es| - 1]] else rest
  }

  /** What is kept and what is disposed of are together the whole list. */
  lemma {:induction false} FilterPartition(es: seq<Element>, p: Element -> bool)
    ensures multiset(Filter(es, p)) + multiset(Filter(es, Not(p))) == multiset(es)
    ensures forall e :: e in Filter(es, p) <==> e in es && p(e)
  {
    if es == [] {
    } else {
      FilterPartition(es[..|es| - 1], p);
      assert es == es[..|es| - 1] + [es[|es| - 1]];
    }
  }

  lemma FilterNext(es: seq<Element>, m: nat, p: Element -> bool)
    requires m < |es|
    ensures Filter(es[..m + 1], p) == if p(es[m]) then Filter(es[..m], p) + [es[m]] else Filter(es[..m], p)
  {
    assert es[..m + 1][..m] == es[..m];
  }

  /** What a list holds when the first m elements have been looked at and those satisfying p removed. */
  ghost function Swept(all: seq<Element>, m: nat, p: Element -> bool): seq<Element>
    requires m <= |all|
  {
    Filter(all[..m], Not(p)) + all[m..]
  }

  function Not(p: Element -> bool): Element -> bool { (e: Element) => !p(e) }

  lemma SweptNext(all: seq<Element>, m: nat, p: Element -> bool)
    requires m < |all|
    ensures var k := |Filter(all[..m], Not(p))|;
      && k < |Swept(all, m, p)| && Swept(all, m, p)[k] == all[m]
      && Swept(all, m + 1, p) == (if p(all[m]) then Removed(Swept(all, m, p), k) else Swept(all, m, p))
      && |Filter(all[..m + 1], Not(p))| == if p(all[m]) then k else k + 1
  {
    FilterNext(all, m, Not(p));
    var kept, rest := Filter(all[..m], Not(p)), all[m + 1..];
    assert all[m..] == [all[m]] + rest;
    assert Swept(all, m, p) == kept + [all[m]] + rest;
    if p(all[m]) {
      assert Removed(kept + [all[m]] + rest, |kept|) == kept + rest;
    }
  }

  /** A ring but for the two links that go around node k. */
  ghost predicate RingAround(root: Element, elems: seq<Element>, k: nat)
    requires k < |elems|
    reads root, elems
  {
    && NodeAt(root, elems, k - 1).next == NodeAt(root, elems, k + 1)
    && NodeAt(root, elems, k + 1).prev == NodeAt(root, elems, k - 1)
    && (k != 0 ==> root.next == NodeAt(root, elems, 0))
    && (k != |elems| - 1 ==> root.prev == NodeAt(root, elems, |elems| - 1))
    && (forall i :: 0 <= i < |elems| && i != k - 1 && i != k ==> elems[i].next == NodeAt(root, elems, i + 1))
    && (forall i :: 0 <= i < |elems| && i != k && i != k + 1 ==> elems[i].prev == NodeAt(root, elems, i - 1))
  }

  lemma RingRemoved(root: Element, elems: seq<Element>, k: nat)
    requires k < |elems| && RingAround(root, elems, k)
    ensures Ring(root, Removed(elems, k))
  {
    var now := Removed(elems, k);
    forall i | 0 <= i < |now|
      ensures now[i].next == NodeAt(root, now, i + 1) && now[i].prev == NodeAt(root, now, i - 1)
    {
      NodeAtRemoved(root, elems, k, i);
      NodeAtRemoved(root, elems, k, i + 1);
      NodeAtRemoved(root, elems, k, i - 1);
    }
    NodeAtRemoved(root, elems, k, 0);
    NodeAtRemoved(root, elems, k, |elems| - 2);
  }

  lemma DistinctRemoved(root: Element, elems: seq<Element>, k: nat)
    requires k < |elems| && Proper(root, elems) && Distinct(root, elems)
    ensures Proper(root, Removed(elems, k)) && Distinct(root, Removed(elems, k))
  {
  }

  method UnlinkNode(node: Element, ghost root: Element, ghost elems: seq<Element>, ghost k: nat)
    requires Distinct(root, elems) && Ring(root, elems) && k < |elems| && node == elems[k]
    modifies node`next, node`prev, (NodeAt(root, elems, k - 1))`next, (NodeAt(root, elems, k + 1))`prev
    ensures RingAround(root, elems, k) && node.next == null && node.prev == null
  {
    node.prev.next := node.next;
    node.next.prev := node.prev;
    node.next := null;
    node.prev := null;
  }

  /** `remove_and_dispose_node`, seen on the ring the node belongs to. */
  method RemoveAndDisposeNode(
    node: Element, calls: seq<Element>, ghost root: Element, ghost elems: seq<Element>, ghost k: nat)
    returns (r: seq<Element>)
    requires Distinct(root, elems) && Ring(root, elems) && k < |elems| && node == elems[k]
    modifies node`next, node`prev, (NodeAt(root, elems, k - 1))`next, (NodeAt(root, elems, k + 1))`prev
    ensures Ring(root, Removed(elems, k))
    ensures node.next == null && node.prev == null && r == calls + [node]
  {
    UnlinkNode(node, root, elems, k);
    RingRemoved(root, elems, k);
    r := Dispose(node, calls);
  }

  class List {
    const root: Element
    ghost var elems: seq<Element>

    ghost predicate Valid()
      reads this, root, elems
    {
      Proper(root, elems) && Distinct(root, elems) && Ring(root, elems)
    }

    ghost function Nodes(): set<Element>
      reads this
    {
      {root} + Set(elems)
    }

    constructor ()
      ensures Valid() && elems == [] && fresh(root)
    {
      root := new Element.EmptyRoot();
      elems := [];
    }

    predicate Empty()
      reads this, root
    {
      root.next == root
    }

    /** Records that the ring now runs through `now`. */
    ghost method Adopt(now: seq<Element>)
      requires Proper(root, now) && Distinct(root, now) && Ring(root, now)
      modifies this`elems
      ensures Valid() && elems == now
    {
      elems := now;
    }

    lemma UnlinkedIsNew(x: Element)
      requires Valid() && !x.IsLinked() && !x.isRoot
      ensures x !in elems && x != root
    {
    }

    /** Inserts x before the k-th node; `position` is that node. */
    method InsertBefore(x: Element, position: Element, ghost k: nat)
      requires Valid() && k <= |elems| && position == NodeAt(root, elems, k)
      requires !x.IsLinked() && !x.isRoot
      modifies this`elems, x`next, x`prev, position`prev, (NodeAt(root, elems, k as int - 1))`next
      ensures Valid() && elems == Inserted(old(elems), k, x)
    {
      UnlinkedIsNew(x);
      DistinctInserted(root, elems, k, x);
      InsertNodeBefore(x, position, root, elems, k);
      Adopt(Inserted(elems, k, x));
    }

    method PushFront(x: Element)
      requires Valid() && !x.IsLinked() && !x.isRoot
      modifies this`elems, x`next, x`prev, (NodeAt(root, elems, 0))`prev, root`next
      ensures Valid() && elems == [x] + old(elems)
    {
      InsertBefore(x, root.next, 0);
    }

    method PushBack(x: Element)
      requires Valid() && !x.IsLinked() && !x.isRoot
      modifies this`elems, x`next, x`prev, root`prev, (NodeAt(root, elems, |elems| - 1))`next
      ensures Valid() && elems == old(elems) + [x]
    {
      InsertedAtEnds(elems, x);
      InsertBefore(x, root, |elems|);
    }

    /** Removes the k-th element, which is `node`. */
    method Remove(node: Element, calls: seq<Element>, ghost k: nat) returns (r: seq<Element>)
      requires Valid() && k < |elems| && node == elems[k]
      modifies this`elems, node`next, node`prev, (NodeAt(root, elems, k - 1))`next, (NodeAt(root, elems, k + 1))`prev
      ensures Valid() && elems == Removed(old(elems), k)
      ensures node.next == null && node.prev == null && r == calls + [node]
    {
      DistinctRemoved(root, elems, k);
      r := RemoveAndDisposeNode(node, calls, root, elems, k);
      Adopt(Removed(elems, k));
    }

    method PopFront(calls: seq<Element>) returns (r: seq<Element>)
      requires Valid() && !Empty()
      modifies this`elems, root`next, (NodeAt(root, elems, 0))`next, (NodeAt(root, elems, 0))`prev,
               (NodeAt(root, elems, 1))`prev
      ensures Valid() && old(elems) != [] && elems == old(elems)[1..]
      ensures old(elems)[0].next == null && old(elems)[0].prev == null && r == calls + [old(elems)[0]]
    {
      r := Remove(root.next, calls, 0);
    }

    method PopBack(calls: seq<Element>) returns (r: seq<Element>)
      requires Valid() && !Empty()
      modifies this`elems, root`prev, (NodeAt(root, elems, |elems| - 1))`next, (NodeAt(root, elems, |elems| - 1))`prev,
               (NodeAt(root, elems, |elems| - 2))`next
      ensures Valid() && old(elems) != [] && elems == old(elems)[..|old(elems)| - 1]
      ensures var last := old(elems)[|old(elems)| - 1];
        last.next == null && last.prev == null && r == calls + [last]
    {
      r := Remove(root.prev, calls, |elems| - 1);
    }

    /** Removes the k-th element; elements that were unlinked before stay so. */
    method RemoveAlso(node: Element, calls: seq<Element>, ghost k: nat, ghost gone: set<Element>)
      returns (r: seq<Element>)
      requires Valid() && k < |elems| && node == elems[k] && Unlinked(gone)
      modifies this`elems, node`next, node`prev, (NodeAt(root, elems, k - 1))`next, (NodeAt(root, elems, k + 1))`prev
      ensures Valid() && elems == Removed(old(elems), k)
      ensures Unlinked(gone + {node}) && r == calls + [node]
    {
      assert NodeAt(root, elems, k - 1) !in gone && NodeAt(root, elems, k + 1) !in gone;
      r := Remove(node, calls, k);
    }

    /** Empties the list from the front, unlinking each element before it is handed to the disposer. */
    method Clear(calls: seq<Element>) returns (r: seq<Element>)
      requires Valid()
      modifies this`elems, Nodes()`next, Nodes()`prev
      ensures Valid() && elems == []
      ensures r == calls + old(elems) && Unlinked(Set(old(elems)))
    {
      r := calls;
      ghost var all, m := elems, 0;
      while !Empty()
        invariant Valid() && 0 <= m <= |all| && elems == all[m..]
        invariant r == calls + all[..m] && Unlinked(Set(all[..m]))
        decreases |elems|
      {
        AppendNext(calls, all, m);
        SetNext(all, m);
        r := RemoveAlso(root.next, r, 0, Set(all[..m]));
        m := m + 1;
      }
      assert all[..m] == all;
    }

    method EraseStep(
      node: Element, calls: seq<Element>,
      ghost before: seq<Element>, ghost range: seq<Element>, ghost after: seq<Element>,
      ghost m: nat, ghost nodes: set<Element>)
      returns (next: Element, r: seq<Element>)
      requires m < |range| && Valid() && elems == Left(before, range, after, m) && node == range[m]
      requires Unlinked(Set(range[..m])) && Set(elems) <= nodes
      modifies this`elems, root`next, root`prev, nodes`next, nodes`prev
      ensures Valid() && elems == Left(before, range, after, m + 1) && next == NodeAt(root, elems, |before|)
      ensures Unlinked(Set(range[..m + 1])) && r == calls + [node] && Set(elems) <= nodes
    {
      LeftNext(before, range, after, m, root);
      SetNext(range, m);
      SetRemoved(elems, |before|);
      next := node.next;
      r := RemoveAlso(node, calls, |before|, Set(range[..m]));
    }

    /**
     Ranged erase: the list is `before`, the range and `after`; `first` and `last` are the nodes where
     the range starts and ends.
     */
    method EraseRange(
      first: Element, last: Element, calls: seq<Element>,
      ghost before: seq<Element>, ghost range: seq<Element>, ghost after: seq<Element>)
      returns (position: Element, r: seq<Element>)
      requires Valid() && elems == before + range + after
      requires first == NodeAt(root, range + after, 0) && last == NodeAt(root, after, 0)
      modifies this`elems, Nodes()`next, Nodes()`prev
      ensures Valid() && elems == before + after
      ensures r == calls + range && Unlinked(Set(range))
      ensures position == last
    {
      r := calls;
      position := first;
      ghost var m, nodes := 0, Set(elems);
      LeftEnds(before, range, after, root);
      CurrentAt(before, range, after, 0, root);
      while position != last
        invariant 0 <= m <= |range| && Valid() && elems == Left(before, range, after, m) && Set(elems) <= nodes
        invariant position == NodeAt(root, elems, |before|) && (position == last <==> m == |range|)
        invariant r == calls + range[..m] && Unlinked(Set(range[..m]))
        decreases |range| - m
      {
        LeftNext(before, range, after, m, root);
        CallsNext(calls, range, m);
        position, r := EraseStep(position, r, before, range, after, m, nodes);
        m := m + 1;
        CurrentAt(before, range, after, m, root);
      }
      assert range[..m] == range;
    }

    /** One element of the sweep: `all[m]` is looked at; `gone` are the elements removed so far. */
    method SweepStep(
      node: Element, p: Element -> bool, calls: seq<Element>,
      ghost all: seq<Element>, ghost m: nat, ghost gone: set<Element>, ghost nodes: set<Element>)
      returns (next: Element, r: seq<Element>)
      requires m < |all| && Valid() && elems == Swept(all, m, p) && node == all[m]
      requires Unlinked(gone) && Set(elems) <= nodes
      modifies this`elems, root`next, root`prev, nodes`next, nodes`prev
      ensures Valid() && elems == Swept(all, m + 1, p) && next == NodeAt(root, all, m + 1) && Set(elems) <= nodes
      ensures if p(node) then r == calls + [node] && Unlinked(gone + {node}) else r == calls && Unlinked(gone)
    {
      ghost var k := |Filter(all[..m], Not(p))|;
      SweptNext(all, m, p);
      AfterSwept(all, m, p, root);
      SetRemoved(elems, k);
      r := calls;
      next := node.next;
      if p(node) {
        r := RemoveAlso(node, calls, k, gone);
      }
    }

    /** Removes the elements that satisfy p, handing each, unlinked, to the disposer in list order. */
    method RemoveAndDisposeIf(p: Element -> bool, calls: seq<Element>) returns (r: seq<Element>)
      requires Valid()
      modifies this`elems, Nodes()`next, Nodes()`prev
      ensures Valid() && elems == Filter(old(elems), Not(p))
      ensures r == calls + Filter(old(elems), p) && Unlinked(Set(Filter(old(elems), p)))
    {
      r := calls;
      var first := root.next;
      ghost var all, m, gone, nodes := elems, 0, {}, Set(elems);
      SweptEnds(all, p);
      while first != root
        invariant 0 <= m <= |all| && Valid() && elems == Swept(all, m, p) && Proper(root, all)
        invariant first == NodeAt(root, all, m) && (first == root <==> m == |all|)
        invariant r == calls + Filter(all[..m], p) && Set(elems) <= nodes
        invariant Unlinked(gone) && gone == Set(Filter(all[..m], p))
        decreases |all| - m
      {
        DisposedNext(calls, all, m, p);
        first, r := SweepStep(first, p, r, all, m, gone, nodes);
        gone := if p(all[m]) then gone + {all[m]} else gone;
        m := m + 1;
      }
    }

    /** `erase` of one element; returns the position after it. */
    method Erase(position: Element, calls: seq<Element>, ghost k: nat) returns (next: Element, r: seq<Element>)
      requires Valid() && k < |elems| && position == elems[k]
      modifies this`elems, position`next, position`prev,
               (NodeAt(root, elems, k - 1))`next, (NodeAt(root, elems, k + 1))`prev
      ensures Valid() && elems == Removed(old(elems), k) && next == NodeAt(root, elems, k)
      ensures position.next == null && position.prev == null && r == calls + [position]
    {
      NodeAtRemoved(root, elems, k, k);
      next := position.next;
      r := Remove(position, calls, k);
    }

    /** One insertion of a range, at the nodes given; elements still waiting to be inserted stay unlinked. */
    method InsertStep(
      position: Element, ghost k: nat, xs: seq<Element>, m: nat,
      ghost before: seq<Element>, ghost after: seq<Element>, ghost nodes: set<Element>)
      requires m < |xs| && Valid() && elems == before + xs[..m] + after && k == |before| + m
      requires position == NodeAt(root, elems, k) && {position, NodeAt(root, elems, k - 1), xs[m]} <= nodes
      requires Waiting(xs, m)
      modifies this`elems, nodes`next, nodes`prev
      ensures Valid() && elems == before + xs[..m + 1] + after && Waiting(xs, m + 1)
      ensures position == NodeAt(root, elems, k + 1) && xs[m] == NodeAt(root, elems, k)
    {
      GrownNext(before, xs, after, m, root);
      assert NodeAt(root, elems, k - 1).next != null;
      InsertBefore(xs[m], position, k);
    }

    /** Ranged insert before the node `position`, where the list is `before` and `after`. */
    method InsertRange(position: Element, xs: seq<Element>, ghost before: seq<Element>, ghost after: seq<Element>)
      returns (first: Element)
      requires Valid() && elems == before + after && position == NodeAt(root, after, 0) && Waiting(xs, 0)
      modifies this`elems, Touched(xs, position, NodeAt(root, before, |before| - 1))
      ensures Valid() && elems == before + xs + after
      ensures first == if xs == [] then position else xs[0]
    {
      first := position;
      ghost var last := NodeAt(root, before, |before| - 1);
      ghost var nodes := Touched(xs, position, last);
      Grown(before, xs, after, root);
      for m := 0 to |xs|
        invariant Valid() && elems == before + xs[..m] + after && Waiting(xs, m)
        invariant position == NodeAt(root, elems, |before| + m)
        invariant NodeAt(root, elems, |before| + m - 1) == (if m == 0 then last else xs[m - 1])
        invariant first == if m == 0 then position else xs[0]
      {
        if m == 0 {
          first := xs[0];
        }
        assert xs[m] in nodes && (m > 0 ==> xs[m - 1] in nodes);
        InsertStep(position, |before| + m, xs, m, before, after, nodes);
      }
      assert xs[..|xs|] == xs;
    }

    /** Empties this list while another one stays as it is. */
    method ClearBeside(other: List)
      requires Valid() && other.Valid() && other != this && other.root != root
      modifies this`elems, Nodes()`next, Nodes()`prev
      ensures Valid() && elems == [] && Unlinked(Set(old(elems)))
      ensures other.Valid() && other.elems == old(other.elems)
    {
      ListsDisjoint(this, other);
      Apart(Nodes(), other.elems);
      var _ := Clear([]);
    }

    /** An empty list takes over the ring of `from`; elements that belong to no list stay so. */
    method TakeOver(from: List, ghost gone: set<Element>)
      requires Valid() && elems == [] && from.Valid() && from != this && from.root != root && Unlinked(gone)
      modifies this`elems, from`elems, root`next, root`prev, from.Nodes()`next, from.Nodes()`prev
      ensures Valid() && from.Valid() && elems == old(from.elems) && from.elems == [] && Unlinked(gone)
    {
      ghost var theirs := from.elems;
      if !from.Empty() {
        assert root !in gone && from.root !in gone && NodeAt(from.root, theirs, 0) !in gone
            && NodeAt(from.root, theirs, |theirs| - 1) !in gone;
        MoveRing(root, from.root, theirs);
        Adopt(theirs);
        from.Adopt([]);
      }
    }

    /** Move assignment: this list is emptied and takes over the ring of `from`, which becomes empty. */
    method MoveAssign(from: List)
      requires Valid() && from.Valid() && (from != this ==> from.root != root)
      modifies this`elems, from`elems, Nodes()`next, Nodes()`prev, from.Nodes()`next, from.Nodes()`prev
      ensures Valid() && from.Valid()
      ensures from == this ==> elems == old(elems)
      ensures from != this ==> elems == old(from.elems) && from.elems == [] && Unlinked(Set(old(elems)))
    {
      if this == from {
        return;
      }
      ghost var gone := Set(elems);
      ClearBeside(from);
      TakeOver(from, gone);
    }

    /** Move assignment leaves every third list as it is. */
    method MoveAssignBeside(from: List, ghost other: List)
      requires Valid() && from.Valid() && from != this && from.root != root
      requires other.Valid() && other != this && other != from && other.root != root && other.root != from.root
      modifies this`elems, from`elems, Nodes()`next, Nodes()`prev, from.Nodes()`next, from.Nodes()`prev
      ensures Valid() && from.Valid() && elems == old(from.elems) && from.elems == [] && Unlinked(Set(old(elems)))
      ensures other.Valid() && other.elems == old(other.elems)
    {
      ListsDisjoint(this, other);
      ListsDisjoint(from, other);
      Apart(Nodes(), other.elems);
      Apart(from.Nodes(), other.elems);
      MoveAssign(from);
    }

    /** Exchanges the contents of two lists by three moves through a temporary list. */
    method Swap(x: List)
      requires Valid() && x.Valid() && (x != this ==> x.root != root)
      modifies this`elems, x`elems, Nodes()`next, Nodes()`prev, x.Nodes()`next, x.Nodes()`prev
      ensures Valid() && x.Valid() && elems == old(x.elems) && x.elems == old(elems)
    {
      if this == x {
        return;
      }
      var tmp := new List();
      tmp.MoveAssignBeside(x, this);
      x.MoveAssignBeside(this, tmp);
      MoveAssignBeside(tmp, x);
    }

    /** One push of an assignment; elements still waiting stay unlinked. */
    method PushStep(xs: seq<Element>, m: nat, ghost nodes: set<Element>)
      requires m < |xs| && Valid() && elems == xs[..m] && Waiting(xs, m) && nodes == Set(xs)
      modifies this`elems, root`next, root`prev, nodes`next, nodes`prev
      ensures Valid() && elems == xs[..m + 1] && Waiting(xs, m + 1)
    {
      assert xs[m] in nodes && (m > 0 ==> xs[m - 1] in nodes);
      assert NodeAt(root, elems, |elems| - 1).next != null;
      PushBack(xs[m]);
    }

    method PushAll(xs: seq<Element>)
      requires Valid() && elems == [] && Waiting(xs, 0)
      modifies this`elems, root`next, root`prev, xs`next, xs`prev
      ensures Valid() && elems == xs
    {
      ghost var nodes := Set(xs);
      for m := 0 to |xs|
        invariant Valid() && elems == xs[..m] && Waiting(xs, m)
      {
        PushStep(xs, m, nodes);
      }
    }

    /** `dispose_and_assign`: the new elements may come from this list, whose elements are unlinked first. */
    method DisposeAndAssign(calls: seq<Element>, xs: seq<Element>) returns (r: seq<Element>)
      requires Valid()
      requires forall i :: 0 <= i < |xs| ==> (!xs[i].IsLinked() && !xs[i].isRoot) || xs[i] in elems
      requires forall i, j :: 0 <= i < j < |xs| ==> xs[i] != xs[j]
      modifies this`elems, Nodes()`next, Nodes()`prev, xs`next, xs`prev
      ensures Valid() && elems == xs && r == calls + old(elems)
      ensures Unlinked(Set(old(elems)) - Set(xs))
    {
      ghost var mine := Set(elems);
      assert forall i :: 0 <= i < |xs| ==> (!xs[i].IsLinked() || xs[i] in mine) && !xs[i].isRoot;
      r := Clear(calls);
      assert Waiting(xs, 0);
      assert Unlinked(mine) && root !in mine;
      PushAll(xs);
    }

    /** Counts the nodes from the first one round to the root. */
    method Size() returns (n: nat)
      requires Valid()
      ensures n == |elems|
    {
      n := 0;
      var node := root.next;
      while node != root
        invariant n <= |elems| && node == NodeAt(root, elems, n)
        decreases |elems| - n
      {
        node := node.next;
        n := n + 1;
      }
    }

    /** Move-constructing an element puts the new one in the place of the old, which belongs to no list any more. */
    method MoveElement(from: Element, ghost k: nat) returns (e: Element)
      requires Valid() && k < |elems| && from == elems[k]
      modifies this`elems, from`next, from`prev, (NodeAt(root, elems, k - 1))`next, (NodeAt(root, elems, k + 1))`prev
      ensures Valid() && elems == old(elems)[k := e] && fresh(e)
      ensures !from.IsLinked() && from.prev == null
    {
      e := ReplaceNode(from, root, elems, k);
      RingReplaced(root, elems, k, e);
      DistinctReplaced(root, elems, k, e);
      Adopt(elems[k := e]);
    }
  }

  method ReplaceNode(from: Element, ghost root: Element, ghost elems: seq<Element>, ghost k: nat) returns (e: Element)
    requires Distinct(root, elems) && Ring(root, elems) && k < |elems| && from == elems[k]
    modifies from`next, from`prev, (NodeAt(root, elems, k - 1))`next, (NodeAt(root, elems, k + 1))`prev
    ensures RingExcept(root, elems, k) && fresh(e) && !e.isRoot && !from.IsLinked() && from.prev == null
    ensures e.next == NodeAt(root, elems, k + 1) && e.prev == NodeAt(root, elems, k - 1)
    ensures NodeAt(root, elems, k - 1).next == e && NodeAt(root, elems, k + 1).prev == e
  {
    Neighbours(root, elems, k);
    e := new Element.MoveFrom(from);
  }

  /** The neighbours of node k are no other nodes. */
  lemma Neighbours(root: Element, elems: seq<Element>, k: nat)
    requires k < |elems| && Distinct(root, elems)
    ensures var before, after := NodeAt(root, elems, k - 1), NodeAt(root, elems, k + 1);
      && elems[k] != root && before != elems[k] && after != elems[k]
      && (k != 0 ==> root != before) && (k != |elems| - 1 ==> root != after)
      && (forall i :: 0 <= i < |elems| && i != k - 1 && i != k ==> elems[i] != before && elems[i] != elems[k])
      && (forall i :: 0 <= i < |elems| && i != k && i != k + 1 ==> elems[i] != after && elems[i] != elems[k])
  {
  }

  lemma DistinctReplaced(root: Element, elems: seq<Element>, k: nat, e: Element)
    requires k < |elems| && Proper(root, elems) && Distinct(root, elems) && !e.isRoot && e !in elems
    ensures Proper(root, elems[k := e]) && Distinct(root, elems[k := e])
  {
  }

  lemma RingReplaced(root: Element, elems: seq<Element>, k: nat, e: Element)
    requires k < |elems| && RingExcept(root, elems, k) && e != root
    requires e.next == NodeAt(root, elems, k + 1) && e.prev == NodeAt(root, elems, k - 1)
    requires NodeAt(root, elems, k - 1).next == e && NodeAt(root, elems, k + 1).prev == e
    ensures Ring(root, elems[k := e])
  {
    var now := elems[k := e];
    assert forall i :: -1 <= i <= |elems| ==> NodeAt(root, now, i) == if i == k then e else NodeAt(root, elems, i);
  }

  /** A ring but for node k and the links to it. */
  ghost predicate RingExcept(root: Element, elems: seq<Element>, k: nat)
    reads root, elems
  {
    && (k != 0 ==> root.next == NodeAt(root, elems, 0))
    && (k != |elems| - 1 ==> root.prev == NodeAt(root, elems, |elems| - 1))
    && (forall i :: 0 <= i < |elems| && i != k - 1 && i != k ==> elems[i].next == NodeAt(root, elems, i + 1))
    && (forall i :: 0 <= i < |elems| && i != k && i != k + 1 ==> elems[i].prev == NodeAt(root, elems, i - 1))
  }

  /** Re-roots a ring that is not empty; the old root becomes an empty ring. */
  method MoveRing(root: Element, other: Element, ghost elems: seq<Element>)
    requires Ring(other, elems) && Distinct(other, elems) && elems != [] && Distinct(root, elems) && root != other
    modifies root`next, root`prev, other`next, other`prev,
             (NodeAt(other, elems, 0))`prev, (NodeAt(other, elems, |elems| - 1))`next
    ensures Ring(root, elems) && Ring(other, [])
  {
    root.prev := other.prev;
    root.prev.next := root;
    root.next := other.next;
    root.next.prev := root;
    other.next := other;
    other.prev := other;
  }

  /** Lists with different roots have no element in common. */
  lemma ListsDisjoint(a: List, b: List)
    requires a.Valid() && b.Valid() && a.root != b.root
    ensures Set(a.elems) !! Set(b.elems)
  {
    forall i, j | 0 <= i < |a.elems| && 0 <= j < |b.elems| ensures a.elems[i] != b.elems[j] {
      if a.elems[i] == b.elems[j] {
        SharedTail(a, b, i, j);
      }
    }
  }

  /** A shared element would make the rest of the two rings, and so their roots, the same. */
  lemma {:induction false} SharedTail(a: List, b: List, i: nat, j: nat)
    requires a.Valid() && b.Valid() && a.root != b.root
    requires i < |a.elems| && j < |b.elems| && a.elems[i] == b.elems[j]
    ensures false
    decreases |a.elems| - i
  {
    assert a.elems[i].next == NodeAt(a.root, a.elems, i + 1);
    assert b.elems[j].next == NodeAt(b.root, b.elems, j + 1);
    if i + 1 < |a.elems| && j + 1 < |b.elems| {
      SharedTail(a, b, i + 1, j + 1);
    }
  }

  /** The nodes a ranged insert touches: the new elements and the two between which they go. */
  ghost function Touched(xs: seq<Element>, position: Element, last: Element): set<Element> {
    Set(xs) + {position, last}
  }

  /** The elements from m on are distinct and belong to no list. */
  ghost predicate Waiting(xs: seq<Element>, m: nat)
    reads xs
  {
    && (forall i :: m <= i < |xs| ==> !xs[i].IsLinked() && !xs[i].isRoot)
    && (forall i, j :: m <= i < j < |xs| ==> xs[i] != xs[j])
  }

  lemma Grown(before: seq<Element>, xs: seq<Element>, after: seq<Element>, root: Element)
    ensures before + xs[..0] + after == before + after
    ensures NodeAt(root, before + after, |before|) == NodeAt(root, after, 0)
    ensures NodeAt(root, before + after, |before| - 1) == NodeAt(root, before, |before| - 1)
  {
  }

  lemma GrownNext(before: seq<Element>, xs: seq<Element>, after: seq<Element>, m: nat, root: Element)
    requires m < |xs|
    ensures var now := before + xs[..m] + after;
      && Inserted(now, |before| + m, xs[m]) == before + xs[..m + 1] + after
      && NodeAt(root, Inserted(now, |before| + m, xs[m]), |before| + m + 1) == NodeAt(root, now, |before| + m)
      && NodeAt(root, Inserted(now, |before| + m, xs[m]), |before| + m) == xs[m]
  {
    NodeAtInserted(root, before + xs[..m] + after, |before| + m, xs[m], |before| + m + 1);
    NodeAtInserted(root, before + xs[..m] + after, |before| + m, xs[m], |before| + m);
    assert xs[..m + 1] == xs[..m] + [xs[m]];
  }

  lemma SetRemoved(es: seq<Element>, k: nat)
    requires k < |es|
    ensures Set(Removed(es, k)) <= Set(es)
  {
  }

  lemma DisposedNext(calls: seq<Element>, all: seq<Element>, m: nat, p: Element -> bool)
    requires m < |all|
    ensures var f, f' := Filter(all[..m], p), Filter(all[..m + 1], p);
      if p(all[m]) then (calls + f) + [all[m]] == calls + f' && Set(f') == Set(f) + {all[m]} else f' == f
  {
    FilterNext(all, m, p);
    SetAppend(Filter(all[..m], p), all[m]);
  }

  /** The list with the first m elements of the range erased. */
  ghost function Left(before: seq<Element>, range: seq<Element>, after: seq<Element>, m: nat): seq<Element>
    requires m <= |range|
  {
    before + range[m..] + after
  }

  lemma LeftEnds(before: seq<Element>, range: seq<Element>, after: seq<Element>, root: Element)
    ensures Left(before, range, after, 0) == before + range + after
    ensures Left(before, range, after, |range|) == before + after
    ensures NodeAt(root, before + range + after, |before|) == NodeAt(root, range + after, 0)
  {
  }

  lemma LeftNext(before: seq<Element>, range: seq<Element>, after: seq<Element>, m: nat, root: Element)
    requires m < |range|
    ensures var now, k := Left(before, range, after, m), |before|;
      && k < |now| && now[k] == range[m] && Removed(now, k) == Left(before, range, after, m + 1)
      && NodeAt(root, now, k + 1) == NodeAt(root, Left(before, range, after, m + 1), k)
  {
  }

  /** The node at the front of what is left of the range is the end of the range exactly when nothing is left. */
  lemma CurrentAt(before: seq<Element>, range: seq<Element>, after: seq<Element>, m: nat, root: Element)
    requires m <= |range| && Distinct(root, Left(before, range, after, m))
    ensures NodeAt(root, Left(before, range, after, m), |before|) == NodeAt(root, after, 0) <==> m == |range|
  {
    var now, k := Left(before, range, after, m), |before|;
    if m < |range| {
      assert now[k] == range[m];
      assert after != [] ==> now[k + |range| - m] == after[0];
    }
  }

  lemma CallsNext(calls: seq<Element>, range: seq<Element>, m: nat)
    requires m < |range|
    ensures (calls + range[..m]) + [range[m]] == calls + range[..m + 1]
  {
  }

  lemma Apart(nodes: set<Element>, others: seq<Element>)
    requires nodes !! Set(others)
    ensures forall e :: e in others ==> e !in nodes
  {
    forall e | e in others ensures e !in nodes {
      assert e in Set(others);
    }
  }

  lemma SetAppend(es: seq<Element>, e: Element)
    ensures Set(es + [e]) == Set(es) + {e}
  {
  }

  /** The node after the one looked at is the next of the original list. */
  lemma AfterSwept(all: seq<Element>, m: nat, p: Element -> bool, root: Element)
    requires m < |all|
    ensures NodeAt(root, Swept(all, m, p), |Filter(all[..m], Not(p))| + 1) == NodeAt(root, all, m + 1)
  {
  }

  lemma SweptEnds(all: seq<Element>, p: Element -> bool)
    ensures Swept(all, 0, p) == all && Filter(all[..0], p) == []
    ensures Swept(all, |all|, p) == Filter(all, Not(p)) && all[..|all|] == all
  {
    assert all[..|all|] == all && all[|all|..] == [];
  }
}
