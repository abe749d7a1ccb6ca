/**
 Reading a path: the splitter behind `Path::Parse`, the components an iterator walks, and the
 directory they lead to.
 */
module PathText {

  const SEP: char := '/'
  const DOT: string := "."
  const DOTDOT: string := ".."
  const ROOT: string := "/"

  predicate IsAbsolute(s: string) { s != "" && s[0] == SEP }

  predicate EndsWithSeparator(s: string) { s != "" && s[|s| - 1] == SEP }

  /** The position of the first separator, or the length. */
  function FirstSeparator(s: string): (k: nat)
    ensures k <= |s| && (k < |s| ==> s[k] == SEP)
    ensures forall i :: 0 <= i < k ==> s[i] != SEP
  {
    if s == "" || s[0] == SEP then 0 else 1 + FirstSeparator(s[1..])
  }

  /** The non-empty pieces between separators. */
  function Names(s: string): seq<string>
    decreases |s|
  {
    if s == "" then []
    else if s[0] == SEP then Names(s[1..])
    else [s[..FirstSeparator(s)]] + Names(s[FirstSeparator(s)..])
  }

  predicate IsName(x: string) { x != "" && SEP !in x }

  ghost predicate AreNames(xs: seq<string>) { forall i :: 0 <= i < |xs| ==> IsName(xs[i]) }

  lemma {:induction false} NamesAreNames(s: string)
    ensures AreNames(Names(s))
    decreases |s|
  {
    if s == "" {
    } else if s[0] == SEP {
      NamesAreNames(s[1..]);
    } else {
      NamesAreNames(s[FirstSeparator(s)..]);
    }
  }

  lemma FirstSeparatorUnique(s: string, k: nat)
    requires k <= |s| && (k < |s| ==> s[k] == SEP) && forall i :: 0 <= i < k ==> s[i] != SEP
    ensures FirstSeparator(s) == k
  {
  }

  /** Splitting distributes over a separator. */
  lemma {:induction false} NamesConcat(p: string, q: string)
    ensures Names(p + ROOT + q) == Names(p) + Names(q)
    decreases |p|
  {
    var s := p + ROOT + q;
    if p == "" {
      assert s[1..] == q;
    } else if p[0] == SEP {
      assert s[1..] == p[1..] + ROOT + q;
      NamesConcat(p[1..], q);
    } else {
      var k := FirstSeparator(p);
      FirstSeparatorUnique(s, k);
      assert s[..k] == p[..k];
      assert s[k..] == p[k..] + ROOT + q;
      NamesConcat(p[k..], q);
      assert Names(s) == [s[..k]] + Names(s[k..]);
    }
  }

  lemma NamesOfName(x: string)
    requires IsName(x)
    ensures Names(x) == [x]
  {
    FirstSeparatorUnique(x, |x|);
    assert x[|x|..] == "" && x[..|x|] == x;
  }

  lemma {:induction false} NoNamesMeansSeparators(s: string)
    ensures Names(s) == [] <==> forall i :: 0 <= i < |s| ==> s[i] == SEP
    decreases |s|
  {
    if s != "" && s[0] == SEP {
      NoNamesMeansSeparators(s[1..]);
      assert s == [SEP] + s[1..];
    }
  }

  // ---------------------------------------------------------------- parts and components

  function Rooted(absolute: bool, names: seq<string>): seq<string> {
    if absolute then [ROOT] + names else names
  }

  /** Root, names, and an empty last part, each if present. */
  function Assemble(absolute: bool, names: seq<string>, trailing: bool): seq<string> {
    if trailing then Rooted(absolute, names) + [""] else Rooted(absolute, names)
  }

  /** The parts `Parse` finds before it drops a lone one. */
  function RawParts(s: string): seq<string> {
    var found := Rooted(IsAbsolute(s), Names(s));
    if EndsWithSeparator(s) && (|found| > 1 || !IsAbsolute(s)) then found + [""] else found
  }

  /** `parts_` after `Parse`. */
  function Parts(s: string): seq<string> {
    if |RawParts(s)| == 1 then [] else RawParts(s)
  }

  lemma RawPartsAssembled(s: string)
    requires s != ""
    ensures RawParts(s) == Assemble(IsAbsolute(s), Names(s), EndsWithSeparator(s) && Names(s) != [])
    ensures RawParts(s) != []
  {
    NoNamesMeansSeparators(s);
    assert s[0] != SEP ==> Names(s) != [];
  }

  /** What iterating over the path yields: its parts, or the whole text if there is only one. */
  function Components(s: string): seq<string> {
    if Parts(s) != [] then Parts(s) else if s == "" then [] else [s]
  }

  // ---------------------------------------------------------------- where a path leads

  /** One component, seen from a directory given as its names from the root down. */
  function Visit(dir: seq<string>, part: string): seq<string> {
    if part != "" && part[0] == SEP then []
    else if part == DOTDOT then (if dir == [] then [] else dir[..|dir| - 1])
    else if part == DOT || part == "" then dir
    else dir + [part]
  }

  function Walk(dir: seq<string>, parts: seq<string>): seq<string>
    decreases |parts|
  {
    if parts == [] then dir else Walk(Visit(dir, parts[0]), parts[1..])
  }

  /** The directory a path denotes, seen from `base`. */
  function Resolve(base: seq<string>, s: string): seq<string> {
    Walk(base, Components(s))
  }

  lemma {:induction false} WalkConcat(dir: seq<string>, a: seq<string>, b: seq<string>)
    ensures Walk(dir, a + b) == Walk(Walk(dir, a), b)
    decreases |a|
  {
    if a == [] {
      assert a + b == b;
    } else {
      assert (a + b)[1..] == a[1..] + b;
      WalkConcat(Visit(dir, a[0]), a[1..], b);
    }
  }

  lemma WalkLast(dir: seq<string>, a: seq<string>, x: string)
    ensures Walk(dir, a + [x]) == Visit(Walk(dir, a), x)
  {
    WalkConcat(dir, a, [x]);
    assert Walk(Walk(dir, a), [x]) == Walk(Visit(Walk(dir, a), x), []);
  }

  function Start(base: seq<string>, absolute: bool): seq<string> { if absolute then [] else base }

  lemma WalkAssembled(base: seq<string>, absolute: bool, names: seq<string>, trailing: bool)
    ensures Walk(base, Assemble(absolute, names, trailing)) == Walk(Start(base, absolute), names)
  {
    var front := Rooted(absolute, names);
    if trailing {
      WalkLast(base, front, "");
    }
    if absolute {
      assert front[1..] == names;
    }
  }

  /** Where a path leads depends only on whether it is absolute and on its names. */
  lemma ResolveByNames(base: seq<string>, s: string)
    ensures Resolve(base, s) == Walk(Start(base, IsAbsolute(s)), Names(s))
  {
    if s != "" {
      RawPartsAssembled(s);
      WalkAssembled(base, IsAbsolute(s), Names(s), EndsWithSeparator(s) && Names(s) != []);
      if |RawParts(s)| == 1 {
        LoneComponent(base, s);
      }
    }
  }

  /** A path with a single part is that part, or only separators. */
  lemma LonePart(s: string)
    requires |RawParts(s)| == 1
    ensures s != ""
    ensures if IsAbsolute(s) then Names(s) == [] else IsName(s) && Names(s) == [s]
  {
    RawPartsAssembled(s);
    if !IsAbsolute(s) {
      var k := FirstSeparator(s);
      assert Names(s) == [s[..k]] + Names(s[k..]);
      assert Names(s[k..]) == [];
      NoNamesMeansSeparators(s[k..]);
      assert !EndsWithSeparator(s);
      assert s[..k] == s;
    }
  }

  lemma LoneComponent(base: seq<string>, s: string)
    requires |RawParts(s)| == 1
    ensures Walk(base, [s]) == Walk(Start(base, IsAbsolute(s)), Names(s))
  {
    LonePart(s);
    assert Walk(base, [s]) == Walk(Visit(base, s), []);
    if !IsAbsolute(s) {
      assert Walk(base, Names(s)) == Walk(Visit(base, s), []);
    }
  }
}
