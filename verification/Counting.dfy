/** Counting, adding up, and bounding how often something happens in a run by a measure. */
module Counting {

  ghost function Count<T(!new)>(xs: seq<T>, p: T -> bool): nat {
    if xs == [] then 0 else Count(xs[..|xs| - 1], p) + (if p(xs[|xs| - 1]) then 1 else 0)
  }

  lemma {:induction false} CountUpdate<T(!new)>(xs: seq<T>, i: nat, x: T, p: T -> bool)
    requires i < |xs|
    ensures Count(xs[i := x], p) == Count(xs, p) - (if p(xs[i]) then 1 else 0) + (if p(x) then 1 else 0)
  {
    var last := |xs| - 1;
    if i == last {
      assert xs[i := x][..last] == xs[..last];
    } else {
      assert xs[i := x][..last] == xs[..last][i := x];
      CountUpdate(xs[..last], i, x, p);
    }
  }

  lemma {:induction false} CountZero<T(!new)>(xs: seq<T>, p: T -> bool)
    requires forall i :: 0 <= i < |xs| ==> !p(xs[i])
    ensures Count(xs, p) == 0
  {
    if xs == [] {
    } else {
      CountZero(xs[..|xs| - 1], p);
    }
  }

  lemma {:induction false} CountSame<T(!new)>(xs: seq<T>, p: T -> bool, q: T -> bool)
    requires forall i :: 0 <= i < |xs| ==> p(xs[i]) == q(xs[i])
    ensures Count(xs, p) == Count(xs, q)
  {
    if xs == [] {
    } else {
      CountSame(xs[..|xs| - 1], p, q);
    }
  }

  lemma CountPrefix<T(!new)>(xs: seq<T>, i: nat, p: T -> bool)
    requires i < |xs|
    ensures Count(xs[..i + 1], p) == Count(xs[..i], p) + if p(xs[i]) then 1 else 0
  {
    assert xs[..i + 1][..i] == xs[..i];
  }

  ghost function Sum(xs: seq<nat>): nat {
    if xs == [] then 0 else Sum(xs[..|xs| - 1]) + xs[|xs| - 1]
  }

  lemma {:induction false} SumUpdate(xs: seq<nat>, i: nat, x: nat)
    requires i < |xs|
    ensures Sum(xs[i := x]) == Sum(xs) - xs[i] + x
  {
    var last := |xs| - 1;
    if i == last {
      assert xs[i := x][..last] == xs[..last];
    } else {
      assert xs[i := x][..last] == xs[..last][i := x];
      SumUpdate(xs[..last], i, x);
    }
  }

  lemma {:induction false} SumGrows(xs: seq<nat>, ys: seq<nat>, d: nat)
    requires |xs| == |ys| && forall i :: 0 <= i < |xs| ==> ys[i] <= xs[i] + d
    ensures Sum(ys) <= Sum(xs) + d * |xs|
  {
    if xs == [] {
    } else {
      var last := |xs| - 1;
      SumGrows(xs[..last], ys[..last], d);
      assert d * |xs| == d * last + d;
    }
  }

  /** n times cost, as a sum. */
  ghost function Budget(cost: nat, n: nat): nat {
    if n == 0 then 0 else Budget(cost, n - 1) + cost
  }

  lemma {:induction false} BudgetIsProduct(cost: nat, n: nat)
    ensures Budget(cost, n) == cost * n
  {
    if n == 0 {
    } else {
      BudgetIsProduct(cost, n - 1);
      assert cost * n == cost * (n - 1) + cost;
    }
  }

  /** What one action may do to a measure: an internal one lowers it, any other raises it by at most `cost`. */
  predicate Charged<A>(before: nat, a: A, after: nat, internal: A -> bool, cost: nat) {
    if internal(a) then after < before else after <= before + cost
  }

  lemma {:induction false} BoundedCharges<A(!new)>(
    measures: seq<nat>, actions: seq<A>, internal: A -> bool, external: A -> bool, cost: nat, i: nat)
    requires i < |measures| == |actions| + 1
    requires forall a :: external(a) == !internal(a)
    requires forall k :: 0 <= k < |actions| ==> Charged(measures[k], actions[k], measures[k + 1], internal, cost)
    ensures Count(actions[..i], internal) + measures[i] <= measures[0] + Budget(cost, Count(actions[..i], external))
    decreases i
  {
    if i == 0 {
      assert actions[..0] == [];
    } else {
      BoundedCharges(measures, actions, internal, external, cost, i - 1);
      assert Charged(measures[i - 1], actions[i - 1], measures[i - 1 + 1], internal, cost);
      CountPrefix(actions, i - 1, internal);
      CountPrefix(actions, i - 1, external);
    }
  }
}
