/** Normalization keeps the meaning of a path, reaches a normal form and stays there. */
module PathMeaning {
  import opened PathText
  import opened PathNormal

  // ---------------------------------------------------------------- the passes keep the walk

  lemma {:induction false} WalkWithoutDots(dir: seq<string>, ns: seq<string>)
    ensures Walk(dir, WithoutDots(ns)) == Walk(dir, ns)
  {
    if ns == [] {
    } else {
      var before, x := ns[..|ns| - 1], ns[|ns| - 1];
      assert ns == before + [x];
      WalkWithoutDots(dir, before);
      WalkLast(dir, before, x);
      WalkLast(dir, WithoutDots(before), x);
    }
  }

  lemma {:induction false} WalkCancel(dir: seq<string>, ns: seq<string>)
    requires AreNames(ns) && DOT !in ns
    ensures Walk(dir, Cancel(ns)) == Walk(dir, ns)
  {
    if ns == [] {
    } else {
      var before, x := ns[..|ns| - 1], ns[|ns| - 1];
      assert ns == before + [x];
      CancelNames(before);
      WalkCancel(dir, before);
      WalkLast(dir, before, x);
      WalkPush(dir, Cancel(before), x);
    }
  }

  lemma WalkPush(dir: seq<string>, stack: seq<string>, x: string)
    requires AreNames(stack) && DOT !in stack
    ensures Walk(dir, Push(stack, x)) == Visit(Walk(dir, stack), x)
  {
    if Push(stack, x) == stack + [x] {
      WalkLast(dir, stack, x);
    } else {
      var below, top := stack[..|stack| - 1], stack[|stack| - 1];
      assert stack == below + [top] && top in stack;
      WalkLast(dir, below, top);
    }
  }

  lemma {:induction false} WalkWithoutLeadingUps(ns: seq<string>)
    ensures Walk([], WithoutLeadingUps(ns)) == Walk([], ns)
  {
    if ns != [] && ns[0] == DOTDOT {
      WalkWithoutLeadingUps(ns[1..]);
    }
  }

  lemma WalkKept(base: seq<string>, absolute: bool, ns: seq<string>)
    requires AreNames(ns)
    ensures Walk(Start(base, absolute), Kept(absolute, ns)) == Walk(Start(base, absolute), ns)
  {
    var plain := WithoutDots(ns);
    WithoutDotsNames(ns);
    WalkWithoutDots(Start(base, absolute), ns);
    WalkCancel(Start(base, absolute), plain);
    WalkWithoutLeadingUps(Cancel(plain));
  }

  // ---------------------------------------------------------------- reading back what was printed

  lemma {:induction false} NamesOfJoin(ns: seq<string>)
    requires AreNames(ns)
    ensures Names(Join(ns)) == ns
    ensures ns != [] ==> Join(ns) != "" && Join(ns)[0] != SEP && !EndsWithSeparator(Join(ns))
  {
    if |ns| == 1 {
      NamesOfName(ns[0]);
    } else if ns != [] {
      var before, x := ns[..|ns| - 1], ns[|ns| - 1];
      NamesOfJoin(before);
      NamesConcat(Join(before), x);
      NamesOfName(x);
      assert ns == before + [x];
    }
  }

  /** Splitting a printed path gives back its names, its root and its final separator. */
  lemma ReadBack(absolute: bool, ns: seq<string>, trailing: bool)
    requires AreNames(ns) && (ns == [] ==> absolute && !trailing)
    ensures Names(Form(absolute, ns, trailing)) == ns
    ensures IsAbsolute(Form(absolute, ns, trailing)) == absolute
    ensures EndsWithSeparator(Form(absolute, ns, trailing)) == (trailing || ns == [])
  {
    var front := if absolute then ROOT + Join(ns) else Join(ns);
    NamesOfJoin(ns);
    assert absolute ==> front[1..] == Join(ns);
    assert ns != [] ==> front[|front| - 1] == Join(ns)[|Join(ns)| - 1];
    if trailing {
      assert front + ROOT == front + ROOT + "";
      NamesConcat(front, "");
    }
  }

  // ---------------------------------------------------------------- meaning

  /** A path and its normal form lead to the same directory from everywhere. */
  lemma NormalKeepsMeaning(base: seq<string>, s: string)
    ensures Resolve(base, Normal(s)) == Resolve(base, s)
  {
    if Parts(s) != [] {
      var absolute, ns := IsAbsolute(s), Names(s);
      NormalIsForm(s);
      NamesAreNames(s);
      KeptNames(absolute, ns);
      WalkKept(base, absolute, ns);
      ResolveByNames(base, s);
      ResolveByNames(base, Normal(s));
      var kept := Kept(absolute, ns);
      if !absolute && kept == [] {
        NamesOfName(DOT);
        assert Walk(base, [DOT]) == Walk(Visit(base, DOT), []);
      } else {
        ReadBack(absolute, kept, kept != [] && !LastIsUp(kept) && DirectoryLike(s));
      }
    }
  }

  // ---------------------------------------------------------------- normal form

  /** Dot-dots only at the front, and none at all below a root. */
  ghost predicate Canonical(absolute: bool, ns: seq<string>) {
    && AreNames(ns) && DOT !in ns
    && (forall i :: 0 < i < |ns| && ns[i] == DOTDOT ==> ns[i - 1] == DOTDOT)
    && (absolute && ns != [] ==> ns[0] != DOTDOT)
  }

  lemma {:induction false} CancelCanonical(ns: seq<string>)
    requires AreNames(ns) && DOT !in ns
    ensures Canonical(false, Cancel(ns))
  {
    if ns == [] {
    } else {
      assert ns[|ns| - 1] in ns;
      CancelCanonical(ns[..|ns| - 1]);
    }
  }

  lemma {:induction false} WithoutLeadingUpsCanonical(ns: seq<string>)
    requires Canonical(false, ns)
    ensures Canonical(true, WithoutLeadingUps(ns))
  {
    if ns != [] && ns[0] == DOTDOT {
      WithoutLeadingUpsCanonical(ns[1..]);
    }
  }

  lemma KeptCanonical(absolute: bool, ns: seq<string>)
    requires AreNames(ns)
    ensures Canonical(absolute, Kept(absolute, ns))
  {
    WithoutDotsNames(ns);
    CancelCanonical(WithoutDots(ns));
    WithoutLeadingUpsCanonical(Cancel(WithoutDots(ns)));
  }

  lemma {:induction false} CanonicalStays(ns: seq<string>)
    requires Canonical(false, ns)
    ensures WithoutDots(ns) == ns && Cancel(ns) == ns
  {
    if ns == [] {
    } else {
      var before, x := ns[..|ns| - 1], ns[|ns| - 1];
      assert x in ns && ns == before + [x];
      CanonicalStays(before);
      assert before != [] && x == DOTDOT ==> before[|before| - 1] == DOTDOT;
    }
  }

  lemma CanonicalKept(absolute: bool, ns: seq<string>)
    requires Canonical(absolute, ns)
    ensures Kept(absolute, ns) == ns
  {
    CanonicalStays(ns);
  }

  /**
   The shape of a normalized path: unchanged if it had at most one part (it was empty, a lone
   component or only separators), else a dot, or an optional root, then dot-dots (relative paths
   only), then plain names, then at most one separator, which follows a plain name.
   */
  lemma NormalShape(s: string) returns (ns: seq<string>, trailing: bool)
    ensures Parts(s) == [] ==> Normal(s) == s && (s == "" || IsName(s) || Names(s) == [])
    ensures Parts(s) != [] ==>
      && Canonical(IsAbsolute(s), ns)
      && (trailing ==> ns != [] && !LastIsUp(ns))
      && Normal(s) == (if !IsAbsolute(s) && ns == [] then DOT else Form(IsAbsolute(s), ns, trailing))
  {
    ns := Kept(IsAbsolute(s), Names(s));
    trailing := ns != [] && !LastIsUp(ns) && DirectoryLike(s);
    NamesAreNames(s);
    KeptCanonical(IsAbsolute(s), Names(s));
    if Parts(s) != [] {
      NormalIsForm(s);
    } else if s != "" {
      RawPartsAssembled(s);
      LonePart(s);
    }
  }

  /** Normalizing twice is normalizing once. */
  lemma NormalIdempotent(s: string)
    ensures Normal(Normal(s)) == Normal(s)
  {
    var n := Normal(s);
    if Parts(s) != [] && Parts(n) != [] {
      var ns, trailing := NormalShape(s);
      NormalIsForm(n);
      if !IsAbsolute(s) && ns == [] {
        NamesOfName(DOT);
      } else {
        ReadBack(IsAbsolute(s), ns, trailing);
        CanonicalKept(IsAbsolute(s), ns);
        LastIsNotDot(ns);
        RawPartsAssembled(n);
      }
    }
  }

  lemma LastIsNotDot(ns: seq<string>)
    requires DOT !in ns
    ensures EndsInDots(ns) <==> LastIsUp(ns)
  {
  }

  /** An absolute path normalizes to the text of the directory it denotes. */
  lemma AbsoluteNormal(s: string)
    requires IsAbsolute(s) && Names(s) != []
    ensures Names(Normal(s)) == Resolve([], s) && IsAbsolute(Normal(s))
    ensures Canonical(true, Resolve([], s))
  {
    var ns, trailing := NormalShape(s);
    RawPartsAssembled(s);
    NormalKeepsMeaning([], s);
    ReadBack(true, ns, trailing);
    ResolveByNames([], Normal(s));
    WalkCanonical([], ns);
  }

  lemma {:induction false} WalkCanonical(dir: seq<string>, ns: seq<string>)
    requires Canonical(true, ns)
    ensures Walk(dir, ns) == dir + ns
    decreases |ns|
  {
    if ns == [] {
    } else {
      var before, x := ns[..|ns| - 1], ns[|ns| - 1];
      assert ns == before + [x] && x in ns;
      NoUps(ns, |ns| - 1);
      WalkCanonical(dir, before);
      WalkLast(dir, before, x);
    }
  }

  lemma {:induction false} NoUps(ns: seq<string>, i: nat)
    requires Canonical(true, ns) && i < |ns|
    ensures ns[i] != DOTDOT
  {
    if i == 0 {
    } else {
      NoUps(ns, i - 1);
    }
  }
}
