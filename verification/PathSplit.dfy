/** Appending paths, and taking them apart at the last separator and the last dot. */
module PathSplit {
  import opened Wrappers
  import opened PathText
  import opened PathNormal
  import opened PathMeaning

  // ---------------------------------------------------------------- append

  /** `operator/` on native strings. */
  function Append(p: string, q: string): string {
    if p == "" || IsAbsolute(q) then q
    else if EndsWithSeparator(p) then p + q
    else p + ROOT + q
  }

  lemma AppendAppend(p: string, q: string, r: string)
    requires p != "" && q != "" && !IsAbsolute(q) && !IsAbsolute(r)
    ensures Append(Append(p, q), r) == Append(p, Append(q, r))
  {
    var front := if EndsWithSeparator(p) then p else p + ROOT;
    var middle := if EndsWithSeparator(q) then "" else ROOT;
    assert Append(p, q) == front + q;
    assert Append(q, r) == q + middle + r && !IsAbsolute(q + middle + r);
    assert (front + q)[|front + q| - 1] == q[|q| - 1];
    assert Append(front + q, r) == front + q + middle + r;
    assert front + q + middle + r == front + (q + middle + r);
  }

  lemma AppendAssociative(p: string, q: string, r: string)
    ensures Append(Append(p, q), r) == Append(p, Append(q, r))
    ensures Append("", q) == q
  {
    if p != "" && !IsAbsolute(q) && !IsAbsolute(r) {
      if q == "" {
        assert Append(p, q) == if EndsWithSeparator(p) then p else p + ROOT;
      } else {
        AppendAppend(p, q, r);
      }
    }
  }

  lemma NamesOfAppend(p: string, q: string)
    requires p != "" && !IsAbsolute(q)
    ensures Names(Append(p, q)) == Names(p) + Names(q)
    ensures IsAbsolute(Append(p, q)) == IsAbsolute(p)
  {
    if EndsWithSeparator(p) {
      AfterSeparator(p, q);
    } else {
      NamesConcat(p, q);
    }
  }

  lemma AfterSeparator(p: string, q: string)
    requires EndsWithSeparator(p)
    ensures Names(p + q) == Names(p) + Names(q)
  {
    var front := p[..|p| - 1];
    assert p == front + ROOT;
    assert front + ROOT + "" == p;
    NamesConcat(front, "");
    assert Names(p) == Names(front);
    NamesConcat(front, q);
  }

  /** Following `p / q` is following `q` from where `p` leads. */
  lemma ResolveAppend(base: seq<string>, p: string, q: string)
    ensures Resolve(base, Append(p, q)) == Resolve(Resolve(base, p), q)
  {
    ResolveByNames(base, p);
    ResolveByNames(Resolve(base, p), q);
    ResolveByNames(base, Append(p, q));
    if p != "" && !IsAbsolute(q) {
      NamesOfAppend(p, q);
      WalkConcat(Start(base, IsAbsolute(p)), Names(p), Names(q));
    }
  }

  // ---------------------------------------------------------------- last separator, filename

  /** The position of the last `c` among the first n characters. */
  function LastBefore(s: string, n: nat, c: char): (k: Option<nat>)
    requires n <= |s|
    ensures k.None? ==> forall i :: 0 <= i < n ==> s[i] != c
    ensures k.Some? ==> k.value < n && s[k.value] == c && forall i :: k.value < i < n ==> s[i] != c
  {
    if n == 0 then None else if s[n - 1] == c then Some(n - 1) else LastBefore(s, n - 1, c)
  }

  /** The position of the last `c`. */
  function LastIndex(s: string, c: char): (k: Option<nat>)
    ensures k.None? <==> c !in s
    ensures k.Some? ==> k.value < |s| && s[k.value] == c && c !in s[k.value + 1..]
  {
    LastBefore(s, |s|, c)
  }

  lemma LastIndexUnique(s: string, c: char, k: nat)
    requires k < |s| && s[k] == c && c !in s[k + 1..]
    ensures LastIndex(s, c) == Some(k)
  {
  }

  /** Where the filename starts, if there is one. */
  function FilenamePosition(s: string): (k: Option<nat>)
    ensures k.Some? ==> k.value < |s|
  {
    var start := match LastIndex(s, SEP) { case Some(k) => k + 1 case None => 0 };
    if s == "" || start == |s| then None else Some(start)
  }

  function Filename(s: string): string {
    match FilenamePosition(s) case None => "" case Some(k) => s[k..]
  }

  /** The text `RemoveFilename` leaves. */
  function RemoveFilename(s: string): string {
    match FilenamePosition(s) case None => s case Some(k) => s[..k]
  }

  /** Where the extension of a filename starts, if it has one. */
  function DotPosition(name: string): (k: Option<nat>)
    requires name != ""
    ensures k.Some? ==> 0 < k.value < |name| && name[k.value] == '.' && '.' !in name[k.value + 1..]
  {
    if name == DOT || name == DOTDOT then None
    else match LastIndex(name[1..], '.')
      case None => None
      case Some(k) =>
        assert name[1..][k + 1..] == name[k + 2..];
        Some(k + 1)
  }

  function NameStem(name: string): string {
    if name == "" then "" else match DotPosition(name) case None => name case Some(k) => name[..k]
  }

  function NameExtension(name: string): string {
    if name == "" then "" else match DotPosition(name) case None => "" case Some(k) => name[k..]
  }

  /** Where the extension starts in the path, if its filename has one. */
  function ExtensionPosition(s: string): (k: Option<nat>)
    ensures k.Some? ==> FilenamePosition(s).Some? && FilenamePosition(s).value < k.value < |s|
  {
    match FilenamePosition(s)
    case None => None
    case Some(start) => match DotPosition(s[start..]) { case None => None case Some(k) => Some(start + k) }
  }

  function Extension(s: string): string {
    match ExtensionPosition(s) case None => "" case Some(k) => s[k..]
  }

  function Stem(s: string): string {
    match FilenamePosition(s)
    case None => ""
    case Some(start) => match ExtensionPosition(s) { case None => s[start..] case Some(k) => s[start..k] }
  }

  lemma StemOfFilename(s: string)
    ensures Stem(s) == NameStem(Filename(s)) && Extension(s) == NameExtension(Filename(s))
  {
    if FilenamePosition(s).Some? {
      StemAt(s, FilenamePosition(s).value);
    }
  }

  lemma StemAt(s: string, start: nat)
    requires FilenamePosition(s) == Some(start)
    ensures Stem(s) == NameStem(s[start..]) && Extension(s) == NameExtension(s[start..])
  {
    var name := s[start..];
    if DotPosition(name).Some? {
      var k := DotPosition(name).value;
      assert ExtensionPosition(s) == Some(start + k);
      assert name[..k] == s[start..start + k];
      assert name[k..] == s[start + k..];
    } else {
      assert ExtensionPosition(s) == None;
    }
  }

  /** The extension as it will be written: with a dot in front unless it is empty. */
  function Dotted(extension: string): string {
    if extension != "" && extension[0] != '.' then "." + extension else extension
  }

  function WithoutExtension(s: string): string {
    match ExtensionPosition(s) case None => s case Some(k) => s[..k]
  }

  function ReplaceExtension(s: string, extension: string): string { WithoutExtension(s) + Dotted(extension) }

  lemma DirectoryAndFilename(s: string)
    ensures RemoveFilename(s) + Filename(s) == s && SEP !in Filename(s)
    ensures RemoveFilename(s) == "" || EndsWithSeparator(RemoveFilename(s))
  {
    var k := FilenamePosition(s);
    if k.None? {
      assert RemoveFilename(s) == s && Filename(s) == "" && s + "" == s;
      assert s != "" ==> LastIndex(s, SEP) == Some(|s| - 1);
    } else {
      assert s[..k.value] + s[k.value..] == s;
      if LastIndex(s, SEP).Some? {
        assert s[..k.value][k.value - 1] == SEP;
      } else {
        assert s[..0] == "" && s[0..] == s;
      }
    }
  }

  lemma NameSplits(name: string)
    ensures NameStem(name) + NameExtension(name) == name
  {
  }

  /** A path is its directory part followed by its filename; a filename is its stem followed by its extension. */
  lemma SplitAndRejoin(s: string)
    ensures RemoveFilename(s) + Filename(s) == s && SEP !in Filename(s)
    ensures RemoveFilename(s) == "" || EndsWithSeparator(RemoveFilename(s))
    ensures Stem(s) + Extension(s) == Filename(s)
  {
    DirectoryAndFilename(s);
    StemOfFilename(s);
    NameSplits(Filename(s));
  }

  /** The filename is what follows the last separator, however that is arrived at. */
  lemma FilenameAfter(dir: string, name: string)
    requires (dir == "" || EndsWithSeparator(dir)) && SEP !in name && name != ""
    ensures FilenamePosition(dir + name) == Some(|dir|) && Filename(dir + name) == name
  {
    var s := dir + name;
    assert s[|dir|..] == name;
    if dir != "" {
      LastIndexUnique(s, SEP, |dir| - 1);
    }
  }

  lemma DotUnique(name: string, k: nat)
    requires 0 < k < |name| && name[k] == '.' && '.' !in name[k + 1..] && name != DOTDOT
    ensures DotPosition(name) == Some(k)
  {
    assert name[1..][k..] == name[k + 1..];
    LastIndexUnique(name[1..], '.', k - 1);
  }

  /** When a stem and an extension, put together, come apart again as they were. */
  lemma NameComesApart(stem: string, dotted: string)
    requires stem != "" && dotted != "" && dotted[0] == '.'
    ensures (NameStem(stem + dotted) == stem && NameExtension(stem + dotted) == dotted)
      <==> '.' !in dotted[1..] && stem + dotted != DOTDOT
  {
    var name := stem + dotted;
    assert name[|stem| + 1..] == dotted[1..];
    if '.' !in dotted[1..] && name != DOTDOT {
      DotUnique(name, |stem|);
      assert name[..|stem|] == stem && name[|stem|..] == dotted;
    } else if DotPosition(name) == Some(|stem|) {
      assert false;
    }
  }

  /** The extension without its leading dot, if it has one. */
  function Bare(extension: string): string {
    if extension != "" && extension[0] == '.' then extension[1..] else extension
  }

  /** Exactly when `ReplaceExtension` keeps the stem and sets the extension it was given. */
  predicate Replaceable(s: string, extension: string) {
    && SEP !in extension
    && if extension == "" then NameExtension(Stem(s)) == ""
       else '.' !in Bare(extension) && !(Stem(s) == DOT && Bare(extension) == "")
  }

  lemma DottedBare(extension: string)
    requires extension != ""
    ensures Dotted(extension) == "." + Bare(extension) && Dotted(extension)[1..] == Bare(extension)
  {
  }

  lemma TwoDots(stem: string, bare: string)
    requires stem != ""
    ensures stem + ("." + bare) == DOTDOT <==> stem == DOT && bare == ""
  {
    if stem + ("." + bare) == DOTDOT {
      assert |stem| == 1 && (stem + ("." + bare))[0] == stem[0];
    }
  }

  lemma StemIsName(name: string)
    requires IsName(name)
    ensures IsName(NameStem(name))
  {
  }

  lemma WithoutExtensionIs(s: string)
    requires FilenamePosition(s).Some?
    ensures WithoutExtension(s) == RemoveFilename(s) + Stem(s)
    ensures IsName(Stem(s))
  {
    var start := FilenamePosition(s).value;
    DirectoryAndFilename(s);
    StemOfFilename(s);
    StemIsName(Filename(s));
    if ExtensionPosition(s).Some? {
      CutTwice(s, start, ExtensionPosition(s).value);
    }
  }

  lemma CutTwice(s: string, i: nat, j: nat)
    requires i <= j <= |s|
    ensures s[..j] == s[..i] + s[i..j]
  {
  }

  lemma SeparatorInDotted(extension: string)
    ensures SEP in Dotted(extension) <==> SEP in extension
    ensures extension != "" ==> Dotted(extension) != "" && Dotted(extension)[0] == '.'
  {
  }

  /** `ReplaceExtension`, taken apart. */
  lemma ReplacedIs(s: string, extension: string)
    requires FilenamePosition(s).Some?
    ensures ReplaceExtension(s, extension) == RemoveFilename(s) + (Stem(s) + Dotted(extension))
    ensures SEP !in extension ==> Filename(ReplaceExtension(s, extension)) == Stem(s) + Dotted(extension)
  {
    WithoutExtensionIs(s);
    DirectoryAndFilename(s);
    SeparatorInDotted(extension);
    Regroup(RemoveFilename(s), Stem(s), Dotted(extension));
  }

  lemma Regroup(dir: string, stem: string, dotted: string)
    requires (dir == "" || EndsWithSeparator(dir)) && IsName(stem)
    ensures dir + stem + dotted == dir + (stem + dotted)
    ensures SEP !in dotted ==> Filename(dir + (stem + dotted)) == stem + dotted
  {
    if SEP !in dotted {
      FilenameAfter(dir, stem + dotted);
    }
  }

  lemma ReplaceExtensionExact(s: string, extension: string)
    requires FilenamePosition(s).Some?
    ensures (&& Stem(ReplaceExtension(s, extension)) == Stem(s)
             && Extension(ReplaceExtension(s, extension)) == if extension == "" then "" else "." + Bare(extension))
      <==> Replaceable(s, extension)
  {
    var stem, dotted, r := Stem(s), Dotted(extension), ReplaceExtension(s, extension);
    WithoutExtensionIs(s);
    ReplacedIs(s, extension);
    SeparatorInDotted(extension);
    StemOfFilename(r);
    if extension != "" {
      DottedBare(extension);
      TwoDots(stem, Bare(extension));
    }
    if SEP in extension {
      NoSeparatorInExtension(r);
    } else if extension == "" {
      assert stem + dotted == stem;
      NameSplits(stem);
    } else {
      NameComesApart(stem, dotted);
    }
  }

  lemma NoSeparatorInExtension(s: string)
    ensures SEP !in Extension(s)
  {
    SplitAndRejoin(s);
    if SEP in Extension(s) {
      InEnd(Stem(s), Extension(s), SEP);
    }
  }

  lemma InEnd(a: string, b: string, c: char)
    requires c in b
    ensures c in a + b
  {
    var i :| 0 <= i < |b| && b[i] == c;
    assert (a + b)[|a| + i] == c;
  }

  // ---------------------------------------------------------------- parent

  predicate OnlySeparators(s: string) { forall i :: 0 <= i < |s| ==> s[i] == SEP }

  /** The backward scan of `ParentPath` over a run of separators; None if it would read before the text. */
  function ScanBack(s: string, position: nat): (r: Option<nat>)
    requires position < |s|
    ensures r.Some? ==> 0 < r.value <= position && s[r.value - 1] != SEP
    ensures r.Some? ==> forall i :: r.value <= i < position ==> s[i] == SEP
    ensures r.None? ==> forall i :: 0 <= i < position ==> s[i] == SEP
  {
    if position == 0 then None else if s[position - 1] == SEP then ScanBack(s, position - 1) else Some(position)
  }

  /** `ParentPath`; None where its scan leaves the text. */
  function ParentPath(s: string): Option<string> {
    if s == "" || OnlySeparators(s) then Some(s)
    else match LastIndex(s, SEP)
      case None => Some("")
      case Some(k) =>
        if k == 0 then Some(ROOT)
        else match ScanBack(s, k) { case None => None case Some(cut) => Some(s[..cut]) }
  }

  /** The whole text up to the filename is a run of two or more separators. */
  predicate DoubleRooted(s: string) {
    |s| > 2 && s[0] == SEP && s[1] == SEP && !EndsWithSeparator(s) && |Names(s)| == 1
  }

  lemma ScanLeaves(s: string, k: nat)
    requires LastIndex(s, SEP) == Some(k) && !OnlySeparators(s)
    ensures ParentPath(s).None? <==> k > 0 && OnlySeparators(s[..k])
  {
    assert forall i :: 0 <= i < k ==> s[..k][i] == s[i];
    assert ScanBack(s, k).Some? ==> s[..k][ScanBack(s, k).value - 1] != SEP;
  }

  /** The names of a path are those before its last separator and the one after it. */
  lemma NamesAroundLast(s: string, k: nat)
    requires LastIndex(s, SEP) == Some(k)
    ensures |Names(s)| == |Names(s[..k])| + (if EndsWithSeparator(s) then 0 else 1)
  {
    var front, name := s[..k], s[k + 1..];
    assert s == front + ROOT + name;
    NamesConcat(front, name);
    if name != "" {
      NamesOfName(name);
      assert name[|name| - 1] == s[|s| - 1] && s[|s| - 1] in name;
    }
  }

  lemma RootedTwice(s: string, k: nat)
    requires LastIndex(s, SEP) == Some(k) && !OnlySeparators(s)
    ensures DoubleRooted(s) <==> k > 0 && OnlySeparators(s[..k])
  {
    NamesAroundLast(s, k);
    NoNamesMeansSeparators(s[..k]);
    assert forall i :: 0 <= i < k ==> s[..k][i] == s[i];
    assert k > 0 ==> s[..k][0] == s[0];
    assert k > 1 ==> s[..k][1] == s[1];
  }

  /** `ParentPath` reads outside the text for exactly the paths made of several separators and one name. */
  lemma ParentOutOfRange(s: string)
    ensures ParentPath(s).None? <==> DoubleRooted(s)
  {
    if !OnlySeparators(s) && LastIndex(s, SEP).Some? {
      ScanLeaves(s, LastIndex(s, SEP).value);
      RootedTwice(s, LastIndex(s, SEP).value);
    } else if s != "" {
      assert s[0] in s && s[|s| - 1] in s;
    }
  }

  /** The last separator does not follow another one. */
  predicate SingleLastSeparator(s: string) {
    match LastIndex(s, SEP) case None => true case Some(k) => k == 0 || s[k - 1] != SEP
  }

  predicate Rejoins(s: string) { ParentPath(s).Some? && Append(ParentPath(s).value, Filename(s)) == s }

  lemma SeparatorsRejoin(s: string)
    requires OnlySeparators(s)
    ensures Rejoins(s)
  {
    if s != "" {
      LastIndexUnique(s, SEP, |s| - 1);
      assert Filename(s) == "";
      assert s + "" == s;
    }
  }

  lemma NameRejoins(s: string)
    requires SEP !in s
    ensures Rejoins(s)
  {
    assert s != "" ==> s[0] in s;
    assert Filename(s) == s;
  }

  lemma RootedRejoins(s: string)
    requires LastIndex(s, SEP) == Some(0) && !OnlySeparators(s)
    ensures Rejoins(s)
  {
    FilenameFrom(s, 0);
    assert s == ROOT + s[1..];
  }

  lemma DeeperRejoins(s: string, k: nat)
    requires LastIndex(s, SEP) == Some(k) && k > 0 && !OnlySeparators(s)
    ensures Rejoins(s) <==> s[k - 1] != SEP
  {
    FilenameFrom(s, k);
    if ScanBack(s, k).Some? {
      RejoinAtCut(s, k, ScanBack(s, k).value);
    }
  }

  /** Parent and filename rejoin to the path for exactly the paths whose last separator stands alone. */
  lemma ParentAndFilename(s: string)
    ensures (ParentPath(s).Some? && Append(ParentPath(s).value, Filename(s)) == s)
      <==> OnlySeparators(s) || SingleLastSeparator(s)
  {
    if OnlySeparators(s) {
      SeparatorsRejoin(s);
    } else if LastIndex(s, SEP).None? {
      NameRejoins(s);
    } else if LastIndex(s, SEP) == Some(0) {
      RootedRejoins(s);
    } else {
      DeeperRejoins(s, LastIndex(s, SEP).value);
    }
  }

  lemma FilenameFrom(s: string, k: nat)
    requires LastIndex(s, SEP) == Some(k)
    ensures Filename(s) == s[k + 1..]
  {
  }

  lemma RejoinAtCut(s: string, k: nat, cut: nat)
    requires 0 < cut <= k < |s| && s[cut - 1] != SEP && s[k] == SEP && SEP !in s[k + 1..]
    requires forall i :: cut <= i < k ==> s[i] == SEP
    ensures Append(s[..cut], s[k + 1..]) == s <==> s[k - 1] != SEP
  {
    assert Append(s[..cut], s[k + 1..]) == s[..cut] + ROOT + s[k + 1..];
    if cut == k {
      assert s == s[..k] + ROOT + s[k + 1..];
    } else {
      assert |s[..cut] + ROOT + s[k + 1..]| < |s|;
    }
  }

  lemma NameAfterText(s: string, front: string, x: string)
    requires s == front + ROOT + x && front != "" && !EndsWithSeparator(front) && IsName(x)
    ensures SingleLastSeparator(s) && !OnlySeparators(s) && Filename(s) == x
  {
    FilenameAfter(front + ROOT, x);
    assert s[|front| + 1..] == x;
    LastIndexUnique(s, SEP, |front|);
    assert s[|front| - 1] == front[|front| - 1];
  }

  lemma OneName(x: string)
    requires IsName(x)
    ensures SingleLastSeparator(x) && !OnlySeparators(x) && Filename(x) == x
  {
    FilenameAfter("", x);
    assert "" + x == x;
    assert x[0] in x;
  }

  lemma JoinedFront(ns: seq<string>) returns (front: string)
    requires AreNames(ns) && |ns| > 1
    ensures Join(ns) == front + ROOT + ns[|ns| - 1] && front != "" && !EndsWithSeparator(front)
  {
    NamesOfJoin(ns[..|ns| - 1]);
    front := Join(ns[..|ns| - 1]);
  }

  lemma JoinSingle(ns: seq<string>)
    requires AreNames(ns) && ns != []
    ensures SingleLastSeparator(Join(ns)) && !OnlySeparators(Join(ns))
    ensures Filename(Join(ns)) == ns[|ns| - 1]
  {
    if |ns| == 1 {
      OneName(ns[0]);
    } else {
      var front := JoinedFront(ns);
      NameAfterText(Join(ns), front, ns[|ns| - 1]);
    }
  }

  lemma TrailingSingle(front: string)
    requires front != "" && !EndsWithSeparator(front)
    ensures SingleLastSeparator(front + ROOT)
  {
    var n := front + ROOT;
    assert n[|front| + 1..] == "" && n[|front|] == SEP && n[|front| - 1] == front[|front| - 1];
    LastIndexUnique(n, SEP, |front|);
  }

  lemma RootedSingle(joined: string)
    requires joined != "" && joined[0] != SEP && SingleLastSeparator(joined)
    ensures SingleLastSeparator(ROOT + joined)
  {
    var n, last := ROOT + joined, LastIndex(joined, SEP);
    if last.None? {
      assert n[1..] == joined;
      LastIndexUnique(n, SEP, 0);
    } else {
      var k := last.value;
      assert n[k + 2..] == joined[k + 1..] && n[k + 1] == joined[k] && (k > 0 ==> n[k] == joined[k - 1]);
      LastIndexUnique(n, SEP, k + 1);
    }
  }

  lemma FormSingle(absolute: bool, ns: seq<string>, trailing: bool)
    requires AreNames(ns) && ns != []
    ensures SingleLastSeparator(Form(absolute, ns, trailing))
  {
    NamesOfJoin(ns);
    JoinSingle(ns);
    if trailing {
      TrailingSingle(if absolute then ROOT + Join(ns) else Join(ns));
    } else if absolute {
      RootedSingle(Join(ns));
    }
  }

  /** Of a normalized path the parent is always found inside the text, and parent and filename rejoin to it. */
  lemma NormalRejoins(s: string)
    ensures ParentPath(Normal(s)).Some?
    ensures Append(ParentPath(Normal(s)).value, Filename(Normal(s))) == Normal(s)
  {
    var n := Normal(s);
    ParentAndFilename(n);
    if Parts(s) == [] {
      if s != "" {
        RawPartsAssembled(s);
        LonePart(s);
        NoNamesMeansSeparators(s);
      }
    } else {
      var ns, trailing := NormalShape(s);
      if ns != [] {
        FormSingle(IsAbsolute(s), ns, trailing);
      }
    }
  }

  /** The counterexample: with doubled separators before the filename the pieces do not rejoin. */
  lemma RejoinCounterexample()
    ensures ParentPath("a//b") == Some("a") && Append("a", Filename("a//b")) == "a/b"
    ensures ParentPath("//b").None?
  {
    var s := "a//b";
    LastIndexUnique(s, SEP, 2);
    assert ScanBack(s, 2) == ScanBack(s, 1) == Some(1);
    assert s[..1] == "a" && s[3..] == "b";
    var t := "//b";
    LastIndexUnique(t, SEP, 1);
    assert ScanBack(t, 1) == ScanBack(t, 0) == None;
  }
}
