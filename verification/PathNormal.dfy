/** `Path::LexicallyNormal`: what its passes compute, what that means, and the form it has. */
module PathNormal {
  import opened PathText

  // ---------------------------------------------------------------- the passes

  /** Pass 1: parts that are not a dot. */
  function WithoutDots(parts: seq<string>): seq<string> {
    if parts == [] then []
    else if parts[|parts| - 1] == DOT then WithoutDots(parts[..|parts| - 1])
    else WithoutDots(parts[..|parts| - 1]) + [parts[|parts| - 1]]
  }

  predicate StartsWithSeparator(part: string) { part != "" && part[0] == SEP }

  /** A part that a following dot-dot takes away. */
  predicate Cancellable(part: string) { part != DOTDOT && !StartsWithSeparator(part) }

  /** One part put on a stack on which dot-dots cancel names. */
  function Push(stack: seq<string>, part: string): seq<string> {
    if part == DOTDOT && stack != [] && Cancellable(stack[|stack| - 1]) then stack[..|stack| - 1] else stack + [part]
  }

  /** Pass 2, as a single sweep with a stack: what the restarting scan ends with. */
  function Cancel(parts: seq<string>): seq<string> {
    if parts == [] then [] else Push(Cancel(parts[..|parts| - 1]), parts[|parts| - 1])
  }

  /** Leading dot-dots dropped. */
  function WithoutLeadingUps(parts: seq<string>): seq<string> {
    if parts != [] && parts[0] == DOTDOT then WithoutLeadingUps(parts[1..]) else parts
  }

  /** Pass 3: dot-dots right after the root go. */
  function WithoutUpsAfterRoot(parts: seq<string>): seq<string>
    requires parts != []
  {
    if StartsWithSeparator(parts[0]) then [parts[0]] + WithoutLeadingUps(parts[1..]) else parts
  }

  /** Pass 4: no trailing separator after a dot-dot (or a dot). */
  function WithoutTrailing(parts: seq<string>): seq<string> {
    if |parts| >= 2 && parts[|parts| - 1] == "" && (parts[|parts| - 2] == DOTDOT || parts[|parts| - 2] == DOT)
    then parts[..|parts| - 1] else parts
  }

  /** Whether a separator is due after these parts. */
  predicate SeparatorDue(parts: seq<string>) {
    exists i :: 0 <= i < |parts| && parts[i] != "" && !StartsWithSeparator(parts[i])
  }

  /** The text of a list of parts. */
  function Print(parts: seq<string>): string {
    if parts == [] then ""
    else
      var before := parts[..|parts| - 1];
      Print(before) + (if SeparatorDue(before) then ROOT else "") + parts[|parts| - 1]
  }

  predicate EndsInDots(parts: seq<string>) {
    parts != [] && (parts[|parts| - 1] == DOT || parts[|parts| - 1] == DOTDOT)
  }

  /** The text of the rewritten parts, with the separator that replaces a final dot or cancelled dot-dot. */
  function Finish(s: string, parts: seq<string>): string
    requires s != "" && parts != []
  {
    var text := Print(parts);
    if text == "" then DOT
    else if EndsInDots(Parts(s)) && parts[|parts| - 1] != DOTDOT && (|parts| != 1 || s[0] != SEP) then text + ROOT
    else text
  }

  /** `LexicallyNormal`, pass by pass. */
  function Normal(s: string): string {
    if Parts(s) == [] then s
    else
      var plain := WithoutDots(Parts(s));
      if plain == [] then DOT
      else
        var cancelled := Cancel(plain);
        if cancelled == [] then DOT
        else Finish(s, WithoutTrailing(WithoutUpsAfterRoot(cancelled)))
  }

  // ---------------------------------------------------------------- the passes on root, names and trailing part

  lemma {:induction false} WithoutDotsNames(ns: seq<string>)
    requires AreNames(ns)
    ensures AreNames(WithoutDots(ns)) && DOT !in WithoutDots(ns)
  {
    if ns == [] {
    } else {
      WithoutDotsNames(ns[..|ns| - 1]);
    }
  }

  lemma WithoutDotsLast(parts: seq<string>, x: string)
    ensures WithoutDots(parts + [x]) == if x == DOT then WithoutDots(parts) else WithoutDots(parts) + [x]
  {
    assert (parts + [x])[..|parts|] == parts;
  }

  lemma {:induction false} WithoutDotsRooted(ns: seq<string>)
    ensures WithoutDots([ROOT] + ns) == [ROOT] + WithoutDots(ns)
  {
    if ns == [] {
      assert [ROOT] + ns == [] + [ROOT];
      WithoutDotsLast([], ROOT);
    } else {
      var before, x := ns[..|ns| - 1], ns[|ns| - 1];
      assert [ROOT] + ns == ([ROOT] + before) + [x];
      WithoutDotsLast([ROOT] + before, x);
      WithoutDotsRooted(before);
    }
  }

  lemma WithoutDotsAssembled(absolute: bool, ns: seq<string>, trailing: bool)
    ensures WithoutDots(Assemble(absolute, ns, trailing)) == Assemble(absolute, WithoutDots(ns), trailing)
  {
    WithoutDotsRooted(ns);
    WithoutDotsLast(Rooted(absolute, ns), "");
  }

  lemma CancelLast(parts: seq<string>, x: string)
    ensures Cancel(parts + [x]) == Push(Cancel(parts), x)
  {
    assert (parts + [x])[..|parts|] == parts;
  }

  lemma PushRooted(stack: seq<string>, x: string)
    ensures Push([ROOT] + stack, x) == [ROOT] + Push(stack, x)
  {
    if stack != [] {
      assert ([ROOT] + stack)[|stack|] == stack[|stack| - 1];
      assert ([ROOT] + stack)[..|stack|] == [ROOT] + stack[..|stack| - 1];
    }
    assert ([ROOT] + stack) + [x] == [ROOT] + (stack + [x]);
  }

  lemma {:induction false} CancelRooted(ns: seq<string>)
    ensures Cancel([ROOT] + ns) == [ROOT] + Cancel(ns)
  {
    if ns == [] {
      assert [ROOT] + ns == [] + [ROOT];
      CancelLast([], ROOT);
    } else {
      var before, x := ns[..|ns| - 1], ns[|ns| - 1];
      assert [ROOT] + ns == ([ROOT] + before) + [x];
      CancelLast([ROOT] + before, x);
      CancelRooted(before);
      PushRooted(Cancel(before), x);
    }
  }

  lemma CancelAssembled(absolute: bool, ns: seq<string>, trailing: bool)
    ensures Cancel(Assemble(absolute, ns, trailing)) == Assemble(absolute, Cancel(ns), trailing)
  {
    CancelRooted(ns);
    CancelLast(Rooted(absolute, ns), "");
  }

  lemma {:induction false} WithoutLeadingUpsLast(ns: seq<string>, x: string)
    requires x != DOTDOT
    ensures WithoutLeadingUps(ns + [x]) == WithoutLeadingUps(ns) + [x]
  {
    if ns != [] && ns[0] == DOTDOT {
      assert (ns + [x])[1..] == ns[1..] + [x];
      WithoutLeadingUpsLast(ns[1..], x);
    }
  }

  lemma UpsAfterRootAssembled(absolute: bool, ns: seq<string>, trailing: bool)
    requires AreNames(ns) && Assemble(absolute, ns, trailing) != []
    ensures WithoutUpsAfterRoot(Assemble(absolute, ns, trailing))
         == Assemble(absolute, if absolute then WithoutLeadingUps(ns) else ns, trailing)
  {
    var parts := Assemble(absolute, ns, trailing);
    if absolute {
      assert parts[1..] == if trailing then ns + [""] else ns;
      WithoutLeadingUpsLast(ns, "");
      assert trailing ==> [ROOT] + (WithoutLeadingUps(ns) + [""]) == ([ROOT] + WithoutLeadingUps(ns)) + [""];
    } else {
      assert ns != [] ==> parts[0] == ns[0];
    }
  }

  predicate LastIsUp(ns: seq<string>) { ns != [] && ns[|ns| - 1] == DOTDOT }

  lemma TrailingAssembled(absolute: bool, ns: seq<string>, trailing: bool)
    requires AreNames(ns) && DOT !in ns
    ensures WithoutTrailing(Assemble(absolute, ns, trailing)) == Assemble(absolute, ns, trailing && !LastIsUp(ns))
  {
    var parts := Assemble(absolute, ns, trailing);
    if trailing {
      assert parts[..|parts| - 1] == Assemble(absolute, ns, false);
      assert ns != [] ==> parts[|parts| - 2] == ns[|ns| - 1] && ns[|ns| - 1] in ns;
    } else if ns != [] {
      assert parts[|parts| - 1] == ns[|ns| - 1];
    }
  }

  /** Names with separators between them. */
  function Join(ns: seq<string>): string {
    if ns == [] then "" else if |ns| == 1 then ns[0] else Join(ns[..|ns| - 1]) + ROOT + ns[|ns| - 1]
  }

  /** The text of a root, names and a final separator, each if present. */
  function Form(absolute: bool, ns: seq<string>, trailing: bool): string {
    var front := if absolute then ROOT + Join(ns) else Join(ns);
    if trailing then front + ROOT else front
  }

  lemma DueAfterNames(absolute: bool, ns: seq<string>)
    requires AreNames(ns)
    ensures SeparatorDue(Rooted(absolute, ns)) <==> ns != []
  {
    var parts := Rooted(absolute, ns);
    if ns != [] {
      assert parts[|parts| - 1] == ns[|ns| - 1];
    }
  }

  lemma PrintLast(parts: seq<string>, x: string)
    ensures Print(parts + [x]) == if SeparatorDue(parts) then Print(parts) + ROOT + x else Print(parts) + x
  {
    assert (parts + [x])[..|parts|] == parts;
    assert Print(parts) + "" + x == Print(parts) + x;
  }

  lemma JoinLast(ns: seq<string>, x: string)
    ensures Join(ns + [x]) == if ns == [] then x else Join(ns) + ROOT + x
  {
    assert (ns + [x])[..|ns|] == ns;
  }

  lemma {:induction false} PrintNames(ns: seq<string>)
    requires AreNames(ns)
    ensures Print(ns) == Join(ns)
  {
    if ns == [] {
    } else {
      var before, x := ns[..|ns| - 1], ns[|ns| - 1];
      PrintNames(before);
      DueAfterNames(false, before);
      PrintLast(before, x);
      assert ns == before + [x];
      JoinLast(before, x);
      assert before == [] ==> Print(before) + x == x;
    }
  }

  lemma {:induction false} PrintRooted(ns: seq<string>)
    requires AreNames(ns)
    ensures Print([ROOT] + ns) == ROOT + Join(ns)
  {
    if ns == [] {
      assert [ROOT] + ns == [] + [ROOT];
      PrintLast([], ROOT);
    } else {
      var before, x := ns[..|ns| - 1], ns[|ns| - 1];
      PrintRooted(before);
      assert [ROOT] + ns == ([ROOT] + before) + [x];
      assert ns == before + [x];
      PrintRootedLast(before, x);
    }
  }

  lemma PrintRootedLast(before: seq<string>, x: string)
    requires AreNames(before) && Print([ROOT] + before) == ROOT + Join(before)
    ensures Print(([ROOT] + before) + [x]) == ROOT + Join(before + [x])
  {
    DueAfterNames(true, before);
    PrintLast([ROOT] + before, x);
    JoinLast(before, x);
    RootFirst(Join(before), x);
  }

  lemma RootFirst(a: string, x: string)
    ensures (ROOT + a) + ROOT + x == ROOT + (a + ROOT + x)
    ensures (ROOT + "") + x == ROOT + x
  {
  }

  lemma PrintAssembled(absolute: bool, ns: seq<string>, trailing: bool)
    requires AreNames(ns)
    ensures Print(Assemble(absolute, ns, trailing)) == Form(absolute, ns, trailing && ns != [])
  {
    PrintNames(ns);
    PrintRooted(ns);
    DueAfterNames(absolute, ns);
    PrintLast(Rooted(absolute, ns), "");
  }

  // ---------------------------------------------------------------- closed form

  /** The names that survive: dots gone, names cancelled by dot-dots, no dot-dots above the root. */
  function Kept(absolute: bool, ns: seq<string>): seq<string> {
    var cancelled := Cancel(WithoutDots(ns));
    if absolute then WithoutLeadingUps(cancelled) else cancelled
  }

  /** The path names a directory by its last component. */
  predicate DirectoryLike(s: string) { EndsWithSeparator(s) || EndsInDots(Names(s)) }

  /** The normal form of a path with several parts. */
  function NormalForm(s: string): string {
    var ns := Kept(IsAbsolute(s), Names(s));
    if !IsAbsolute(s) && ns == [] then DOT
    else Form(IsAbsolute(s), ns, ns != [] && !LastIsUp(ns) && DirectoryLike(s))
  }

  lemma {:induction false} CancelNames(ns: seq<string>)
    requires AreNames(ns) && DOT !in ns
    ensures AreNames(Cancel(ns)) && DOT !in Cancel(ns)
  {
    if ns == [] {
    } else {
      assert ns[|ns| - 1] in ns;
      CancelNames(ns[..|ns| - 1]);
    }
  }

  lemma {:induction false} WithoutLeadingUpsNames(ns: seq<string>)
    requires AreNames(ns) && DOT !in ns
    ensures AreNames(WithoutLeadingUps(ns)) && DOT !in WithoutLeadingUps(ns)
  {
    if ns != [] && ns[0] == DOTDOT {
      WithoutLeadingUpsNames(ns[1..]);
    }
  }

  lemma KeptNames(absolute: bool, ns: seq<string>)
    requires AreNames(ns)
    ensures AreNames(Kept(absolute, ns)) && DOT !in Kept(absolute, ns)
  {
    WithoutDotsNames(ns);
    CancelNames(WithoutDots(ns));
    WithoutLeadingUpsNames(Cancel(WithoutDots(ns)));
  }

  /** The four passes and the printer compute the normal form. */
  lemma NormalIsForm(s: string)
    requires Parts(s) != []
    ensures Normal(s) == NormalForm(s)
  {
    var absolute, ns := IsAbsolute(s), Names(s);
    var trailing := EndsWithSeparator(s) && ns != [];
    RawPartsAssembled(s);
    NamesAreNames(s);
    WithoutDotsAssembled(absolute, ns, trailing);
    WithoutDotsNames(ns);
    CancelAssembled(absolute, WithoutDots(ns), trailing);
    var cancelled := Cancel(WithoutDots(ns));
    CancelNames(WithoutDots(ns));
    var parts := Assemble(absolute, cancelled, trailing);
    if parts != [] {
      UpsAfterRootAssembled(absolute, cancelled, trailing);
      KeptNames(absolute, ns);
      FinishIsForm(s, trailing);
    }
  }

  lemma FinishIsForm(s: string, trailing: bool)
    requires Parts(s) != [] && trailing == (EndsWithSeparator(s) && Names(s) != [])
    requires Assemble(IsAbsolute(s), Kept(IsAbsolute(s), Names(s)), trailing) != []
    ensures Finish(s, WithoutTrailing(Assemble(IsAbsolute(s), Kept(IsAbsolute(s), Names(s)), trailing)))
         == NormalForm(s)
  {
    var absolute, kept := IsAbsolute(s), Kept(IsAbsolute(s), Names(s));
    NamesAreNames(s);
    KeptNames(absolute, Names(s));
    TrailingAssembled(absolute, kept, trailing);
    var t := trailing && !LastIsUp(kept);
    PrintAssembled(absolute, kept, t);
    PartsEndInDots(s);
    if kept == [] {
      FinishNothing(absolute, t);
    } else {
      FormNotEmpty(absolute, kept, t);
      LastOfAssembled(absolute, kept, t);
    }
  }

  lemma FinishNothing(absolute: bool, trailing: bool)
    ensures Form(absolute, [], false) == if absolute then ROOT else ""
    ensures |Assemble(absolute, [], trailing)| == (if absolute then 1 else 0) + if trailing then 1 else 0
  {
  }

  lemma FormNotEmpty(absolute: bool, ns: seq<string>, trailing: bool)
    requires AreNames(ns) && ns != []
    ensures Form(absolute, ns, trailing) != ""
  {
  }

  lemma LastOfAssembled(absolute: bool, ns: seq<string>, trailing: bool)
    requires ns != []
    ensures var parts := Assemble(absolute, ns, trailing);
      && parts[|parts| - 1] == (if trailing then "" else ns[|ns| - 1])
      && (absolute ==> |parts| != 1)
  {
  }

  lemma PartsEndInDots(s: string)
    requires Parts(s) != []
    ensures EndsInDots(Parts(s)) <==> !EndsWithSeparator(s) && EndsInDots(Names(s))
  {
    RawPartsAssembled(s);
    if Names(s) != [] {
      LastOfAssembled(IsAbsolute(s), Names(s), EndsWithSeparator(s));
    }
  }
}
