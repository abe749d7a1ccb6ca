/** How the fake file system turns a path into names to follow from the root. */
module FilePaths {
  import opened PathText
  import opened PathNormal
  import opened PathMeaning
  import opened PathSplit

  /** `FakeWeaklyCanonical`. */
  function WeaklyCanonical(here: string, path: string): string {
    if path == "" then path
    else if !IsAbsolute(path) then Normal(Append(here, path))
    else Normal(path)
  }

  /** The directory, as names from the root, that the current directory stands for. */
  function Here(here: string): seq<string> { Resolve([], here) }

  lemma AbsoluteCanonical(base: seq<string>, s: string)
    requires IsAbsolute(s)
    ensures IsAbsolute(Normal(s)) && Names(Normal(s)) == Resolve(base, s) == Resolve([], s)
    ensures Canonical(true, Resolve(base, s))
  {
    ResolveByNames(base, s);
    ResolveByNames([], s);
    RawPartsAssembled(s);
    if Names(s) != [] {
      AbsoluteNormal(s);
    }
  }

  /** The canonical path spells out where the path leads from the current directory. */
  lemma CanonicalNames(here: string, path: string)
    requires IsAbsolute(here) && path != ""
    ensures IsAbsolute(WeaklyCanonical(here, path))
    ensures Names(WeaklyCanonical(here, path)) == Resolve(Here(here), path)
    ensures Canonical(true, Resolve(Here(here), path))
  {
    if IsAbsolute(path) {
      AbsoluteCanonical(Here(here), path);
    } else {
      NamesOfAppend(here, path);
      ResolveAppend([], here, path);
      AbsoluteCanonical([], Append(here, path));
    }
  }

  // ---------------------------------------------------------------- which paths name an entry

  /** A last name that is no dot survives normalization. */
  lemma KeptLast(ns: seq<string>)
    requires ns != [] && !EndsInDots(ns)
    ensures Kept(true, ns) != []
  {
    var before, x := ns[..|ns| - 1], ns[|ns| - 1];
    assert ns == before + [x];
    WithoutDotsLast(before, x);
    CancelLast(WithoutDots(before), x);
    WithoutLeadingUpsLast(Cancel(WithoutDots(before)), x);
  }

  lemma NotOnlySeparators(s: string)
    requires s != "" && !EndsWithSeparator(s)
    ensures Names(s) != []
  {
    NoNamesMeansSeparators(s);
  }

  lemma KeptNothing(s: string)
    requires IsAbsolute(s)
    ensures Kept(true, Names(s)) == [] ==> DirectoryLike(s)
  {
    if !DirectoryLike(s) {
      NotOnlySeparators(s);
      KeptLast(Names(s));
    }
  }

  /** An absolute path normalizes to a text with a final separator exactly if it names a directory by its end. */
  lemma NormalEnds(s: string)
    requires IsAbsolute(s)
    ensures EndsWithSeparator(Normal(s)) <==> DirectoryLike(s)
  {
    if Parts(s) == [] {
      RawPartsAssembled(s);
      LonePart(s);
      NoNamesMeansSeparators(s);
    } else {
      NormalIsForm(s);
      NamesAreNames(s);
      var ns := Kept(true, Names(s));
      KeptCanonical(true, Names(s));
      KeptNothing(s);
      if ns != [] {
        NoUps(ns, |ns| - 1);
      }
      ReadBack(true, ns, ns != [] && DirectoryLike(s));
    }
  }

  lemma AppendEndsInDots(here: string, path: string)
    requires IsAbsolute(here) && path != "" && !IsAbsolute(path)
    ensures EndsInDots(Names(Append(here, path))) <==> EndsInDots(Names(path))
  {
    NamesOfAppend(here, path);
    NoNamesMeansSeparators(path);
    LastOfSum(Names(here), Names(path));
  }

  lemma AppendEndsInSeparator(here: string, path: string)
    requires path != "" && !IsAbsolute(path)
    ensures EndsWithSeparator(Append(here, path)) <==> EndsWithSeparator(path)
  {
    LastOfSum(here, path);
    LastOfSum(here + ROOT, path);
  }

  lemma AppendEnds(here: string, path: string)
    requires IsAbsolute(here) && path != "" && !IsAbsolute(path)
    ensures DirectoryLike(Append(here, path)) <==> DirectoryLike(path)
  {
    AppendEndsInDots(here, path);
    AppendEndsInSeparator(here, path);
  }

  lemma LastOfSum<T>(a: seq<T>, b: seq<T>)
    requires b != []
    ensures (a + b)[|a + b| - 1] == b[|b| - 1]
  {
  }

  lemma NoFilename(c: string)
    requires c != ""
    ensures Filename(c) == "" <==> EndsWithSeparator(c)
  {
    DirectoryAndFilename(c);
    var name := Filename(c);
    if name != "" {
      assert c[|c| - 1] == name[|name| - 1] && name[|name| - 1] in name;
    }
  }

  /** Whether a path names an entry, or a directory by its end, can be seen from its text. */
  lemma CanonicalEnds(here: string, path: string)
    requires IsAbsolute(here)
    ensures Filename(WeaklyCanonical(here, path)) != "" <==> path != "" && !DirectoryLike(path)
    ensures path != "" ==> (EndsWithSeparator(WeaklyCanonical(here, path)) <==> DirectoryLike(path))
  {
    if path != "" {
      CanonicalNames(here, path);
      NoFilename(WeaklyCanonical(here, path));
      if IsAbsolute(path) {
        NormalEnds(path);
      } else {
        NormalEnds(Append(here, path));
        AppendEnds(here, path);
      }
    }
  }

  // ---------------------------------------------------------------- taking canonical paths apart

  /** After its first component an absolute path has its names, and then at most an empty component. */
  lemma AfterRoot(s: string)
    requires IsAbsolute(s)
    ensures Components(s) != []
    ensures Components(s)[1..] == if EndsWithSeparator(s) && Names(s) != [] then Names(s) + [""] else Names(s)
  {
    RawPartsAssembled(s);
  }

  /** The canonical path has an empty last component exactly if the path ends as a directory does, below the root. */
  lemma EmptyComponent(here: string, path: string)
    requires IsAbsolute(here) && path != ""
    ensures var components := Components(WeaklyCanonical(here, path));
      && components != []
      && (components[|components| - 1] == "" <==> DirectoryLike(path) && Resolve(Here(here), path) != [])
  {
    var c := WeaklyCanonical(here, path);
    CanonicalNames(here, path);
    CanonicalEnds(here, path);
    RawPartsAssembled(c);
    NamesAreNames(c);
    var ns := Names(c);
    assert ns != [] ==> IsName(ns[|ns| - 1]);
  }

  /** The parent and the filename of a canonical path are its names but for the last, and the last. */
  lemma CanonicalParent(here: string, path: string)
    requires IsAbsolute(here) && Filename(WeaklyCanonical(here, path)) != ""
    ensures var c, ns := WeaklyCanonical(here, path), Resolve(Here(here), path);
      && path != "" && ns != [] && Filename(c) == ns[|ns| - 1]
      && ParentPath(c).Some? && IsAbsolute(ParentPath(c).value)
      && forall base :: Resolve(base, ParentPath(c).value) == ns[..|ns| - 1]
  {
    var c, name := WeaklyCanonical(here, path), Filename(WeaklyCanonical(here, path));
    CanonicalNames(here, path);
    var ns := Resolve(Here(here), path);
    NormalRejoins(if IsAbsolute(path) then path else Append(here, path));
    DirectoryAndFilename(c);
    NamesOfName(name);
    var parent := ParentPath(c).value;
    ParentOf(c, parent, name);
    assert ns == Names(parent) + [name];
    assert Canonical(true, Names(parent)) by { FrontCanonical(Names(parent), name); }
    forall base ensures Resolve(base, parent) == ns[..|ns| - 1] {
      ResolveByNames(base, parent);
      WalkCanonical([], Names(parent));
    }
  }

  /** A canonical path without a filename has a parent that leads to the same place. */
  lemma CanonicalDirectory(here: string, path: string)
    requires IsAbsolute(here) && path != "" && Filename(WeaklyCanonical(here, path)) == ""
    ensures var c := WeaklyCanonical(here, path);
      && ParentPath(c).Some? && IsAbsolute(ParentPath(c).value)
      && forall base :: Resolve(base, ParentPath(c).value) == Resolve(Here(here), path)
  {
    var c := WeaklyCanonical(here, path);
    CanonicalNames(here, path);
    NormalRejoins(if IsAbsolute(path) then path else Append(here, path));
    var parent := ParentPath(c).value;
    NamesOfAppend(parent, "");
    assert Names(parent) + [] == Names(parent);
    forall base ensures Resolve(base, parent) == Resolve(Here(here), path) {
      ResolveByNames(base, parent);
      WalkCanonical([], Names(parent));
    }
  }

  lemma CanonicalHasParent(here: string, path: string)
    ensures ParentPath(WeaklyCanonical(here, path)).Some?
  {
    if path != "" {
      NormalRejoins(if IsAbsolute(path) then path else Append(here, path));
    }
  }

  /** A canonical path leads, from the root, where its names say. */
  lemma CanonicalStandsForItself(here: string, path: string)
    requires IsAbsolute(here) && path != ""
    ensures Here(WeaklyCanonical(here, path)) == Resolve(Here(here), path)
  {
    CanonicalNames(here, path);
    ResolveByNames([], WeaklyCanonical(here, path));
    WalkCanonical([], Resolve(Here(here), path));
  }

  lemma ExampleNames()
    ensures Names("/a/") == ["a"] && Components("/a/") == ["/", "a", ""]
  {
    var s := "/a/";
    assert s == "/a" + ROOT + "" && "/a" == "" + ROOT + "a";
    NamesConcat("/a", "");
    NamesConcat("", "a");
    NamesOfName("a");
    assert Names(s) == ["a"];
    RawPartsAssembled(s);
    assert Components(s) == ["/"] + ["a"] + [""];
  }

  /** A final separator survives: from the root the path `/a/` stays `/a/`, whose last component is empty. */
  lemma FinalSeparatorExample()
    ensures WeaklyCanonical("/", "/a/") == "/a/" && Names("/a/") == ["a"] && Components("/a/") == ["/", "a", ""]
  {
    ExampleNames();
    NormalIsForm("/a/");
    assert WithoutDots(["a"]) == ["a"] by { WithoutDotsLast([], "a"); }
    assert Cancel(["a"]) == ["a"] by { CancelLast([], "a"); }
    assert Form(true, ["a"], true) == ROOT + "a" + ROOT;
  }

  lemma ParentOf(c: string, parent: string, name: string)
    requires IsAbsolute(c) && IsName(name) && Append(parent, name) == c
    ensures IsAbsolute(parent) && Names(c) == Names(parent) + Names(name)
  {
    if parent != "" {
      NamesOfAppend(parent, name);
    }
  }

  lemma FrontCanonical(front: seq<string>, last: string)
    requires Canonical(true, front + [last])
    ensures Canonical(true, front)
  {
    var all := front + [last];
    assert forall i :: 0 <= i < |front| ==> all[i] == front[i];
    assert forall x :: x in front ==> x in all;
  }

  lemma CanonicalIsPlain(ns: seq<string>, i: nat)
    requires Canonical(true, ns) && i < |ns|
    ensures IsName(ns[i]) && ns[i] != DOT && ns[i] != DOTDOT
  {
    NoUps(ns, i);
    assert ns[i] in ns;
  }
}
