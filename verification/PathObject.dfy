/** The `Path` object: its text, its parts, and the loops that keep and rewrite them. */
module PathObject {
  import opened Wrappers
  import opened PathText
  import opened PathNormal
  import opened PathSplit

  class Path {
    var native: string
    var parts: seq<string>

    ghost predicate Valid()
      reads this
    {
      parts == Parts(native)
    }

    constructor (text: string)
      ensures Valid() && native == text
    {
      native := text;
      new;
      Parse();
    }

    /** Splits the text; the assertion of the source, that some part was found, holds. */
    method Parse()
      modifies this`parts
      ensures Valid()
    {
      parts := [];
      if native == "" {
        return;
      }
      var startsWithSeparator := native[0] == SEP;
      if startsWithSeparator {
        parts := [ROOT];
      }
      AddPathPartsToParts();
      RawPartsAssembled(native);
      assert |parts| != 0;
      var isMultipart := |parts| > 1;
      if native[|native| - 1] == SEP && (isMultipart || !startsWithSeparator) {
        parts := parts + [""];
      }
      if |parts| == 1 {
        parts := [];
      }
    }

    /** Reads the text piece by piece up to the next separator and keeps the pieces that are not empty. */
    method AddPathPartsToParts()
      modifies this`parts
      ensures parts == old(parts) + Names(native)
    {
      var position := 0;
      ghost var found := [];
      while position < |native|
        invariant 0 <= position <= |native|
        invariant parts == old(parts) + found
        invariant found + Names(native[position..]) == Names(native)
      {
        var rest := native[position..];
        var k := FirstSeparator(rest);
        var piece := rest[..k];
        if piece != "" {
          parts := parts + [piece];
          found := found + [piece];
          assert Names(rest) == [piece] + Names(rest[k..]);
        }
        if k < |rest| {
          assert Names(rest[k..]) == Names(rest[k..][1..]);
          assert rest[k..][1..] == native[position + k + 1..];
        } else {
          assert rest[k..] == "";
        }
        position := if k < |rest| then position + k + 1 else |native|;
      }
      assert native[position..] == "";
    }

    /**
     `operator/=`.  Appending a path to itself reads the text after the separator was added to it,
     so a relative path that does not end in a separator gains one more at the end.
     */
    method AppendAssign(other: Path)
      requires Valid()
      modifies this
      ensures Valid()
      ensures native ==
        if other == this && old(native) != "" && !IsAbsolute(old(native)) && !EndsWithSeparator(old(native))
        then Append(Append(old(native), old(native)), "")
        else Append(old(native), old(other.native))
    {
      if native == "" || IsAbsolute(other.native) {
        native := other.native;
      } else {
        if native[|native| - 1] != SEP {
          native := native + [SEP];
        }
        native := native + other.native;
      }
      Parse();
      if other == this && old(native) != "" && !IsAbsolute(old(native)) && !EndsWithSeparator(old(native)) {
        SelfAppend(old(native));
      }
    }

    /** `ReplaceExtension`; a path given to itself is read after its extension is gone. */
    method ReplaceExtensionWith(replacement: Path)
      requires Valid()
      modifies this
      ensures Valid()
      ensures native ==
        ReplaceExtension(
          old(native), if replacement == this then WithoutExtension(old(native)) else old(replacement.native))
    {
      var position := ExtensionPosition(native);
      if position.Some? {
        native := native[..position.value];
      }
      var extension := replacement.native;
      if extension != "" && extension[0] != '.' {
        native := native + ".";
      }
      native := native + extension;
      Regrouped(WithoutExtension(old(native)), extension);
      Parse();
    }

    method RemoveFilenamePart()
      requires Valid()
      modifies this
      ensures Valid() && native == RemoveFilename(old(native))
    {
      var position := FilenamePosition(native);
      if position.Some? {
        native := native[..position.value];
        Parse();
      }
    }

    /** `ParentPath`; None stands for the read before the text. */
    method Parent() returns (r: Option<Path>)
      requires Valid()
      ensures r.None? <==> DoubleRooted(native)
      ensures r.Some? ==> fresh(r.value) && r.value.Valid() && ParentPath(native) == Some(r.value.native)
    {
      ParentOutOfRange(native);
      if native == "" || OnlySeparators(native) {
        var same := new Path(native);
        return Some(same);
      }
      var last := LastIndex(native, SEP);
      if last.None? {
        var empty := new Path("");
        return Some(empty);
      }
      if last.value == 0 {
        var root := new Path(ROOT);
        return Some(root);
      }
      var position := last.value;
      while position > 0 && native[position - 1] == SEP
        invariant 0 <= position <= last.value
        invariant ScanBack(native, position) == ScanBack(native, last.value)
      {
        position := position - 1;
      }
      if position == 0 {
        return None;
      }
      var parent := new Path(native[..position]);
      return Some(parent);
    }

    method LexicallyNormal() returns (r: Path)
      requires Valid()
      ensures fresh(r) && r.Valid() && r.native == Normal(native)
    {
      if parts == [] {
        r := new Path(native);
        return;
      }
      var newParts := CopyWithoutDots(parts);
      if newParts == [] {
        r := new Path(DOT);
        return;
      }
      PartsShape(native);
      newParts := RemoveNamesFollowedByMoveUps(newParts);
      if newParts == [] {
        r := new Path(DOT);
        return;
      }
      newParts := RemoveMoveUpsAfterRoot(newParts);
      newParts := WithoutTrailing(newParts);
      var text := CreateText(newParts);
      if text == "" {
        r := new Path(DOT);
        return;
      }
      NotEmptied(Cancel(WithoutDots(Parts(native))));
      if EndsInDots(parts) && newParts[|newParts| - 1] != DOTDOT && (|newParts| != 1 || native[0] != SEP) {
        text := text + [SEP];
      }
      r := new Path(text);
    }
  }

  lemma SelfAppend(s: string)
    requires s != "" && !IsAbsolute(s) && !EndsWithSeparator(s)
    ensures Append(Append(s, s), "") == s + ROOT + (s + ROOT)
  {
    var t := Append(s, s);
    assert t == s + ROOT + s && t[|t| - 1] == s[|s| - 1];
  }

  lemma Regrouped(a: string, b: string)
    ensures a + Dotted(b) == if b != "" && b[0] != '.' then a + "." + b else a + b
  {
  }

  /** Only the last part can be empty. */
  ghost predicate OnlyLastEmpty(parts: seq<string>) {
    forall i :: 0 <= i < |parts| - 1 ==> parts[i] != ""
  }

  lemma PartsShape(s: string)
    requires Parts(s) != []
    ensures OnlyLastEmpty(WithoutDots(Parts(s))) && s != ""
  {
    var absolute, ns := IsAbsolute(s), Names(s);
    RawPartsAssembled(s);
    NamesAreNames(s);
    WithoutDotsNames(ns);
    WithoutDotsAssembled(absolute, ns, EndsWithSeparator(s) && ns != []);
  }

  lemma NotEmptied(parts: seq<string>)
    requires parts != []
    ensures WithoutUpsAfterRoot(parts) != [] && WithoutTrailing(WithoutUpsAfterRoot(parts)) != []
  {
  }

  method CopyWithoutDots(parts: seq<string>) returns (r: seq<string>)
    ensures r == WithoutDots(parts)
  {
    r := [];
    for i := 0 to |parts|
      invariant r == WithoutDots(parts[..i])
    {
      assert parts[..i + 1] == parts[..i] + [parts[i]];
      WithoutDotsLast(parts[..i], parts[i]);
      if parts[i] != DOT {
        r := r + [parts[i]];
      }
    }
    assert parts[..|parts|] == parts;
  }

  /** The two parts at i - 1 and i cancel. */
  predicate CancelsAt(parts: seq<string>, i: nat)
    requires 0 < i < |parts|
  {
    parts[i] == DOTDOT && Cancellable(parts[i - 1])
  }

  /** The restarting scan: erase the first cancelling pair and start over, until there is none. */
  method RemoveNamesFollowedByMoveUps(parts: seq<string>) returns (r: seq<string>)
    requires OnlyLastEmpty(parts)
    ensures r == Cancel(parts)
  {
    r := parts;
    var again := true;
    while again
      invariant OnlyLastEmpty(r) && Cancel(r) == Cancel(parts)
      invariant !again ==> forall i :: 0 < i < |r| ==> !CancelsAt(r, i)
      decreases |r|, again
    {
      again := false;
      if r == [] {
        break;
      }
      var previous, current := 0, 1;
      while current < |r|
        invariant previous == current - 1 && 1 <= current <= |r|
        invariant forall i :: 0 < i < current ==> !CancelsAt(r, i)
        invariant !again
      {
        if r[current] == DOTDOT && r[previous] != DOTDOT && r[previous][0] != SEP {
          ErasedPair(r, previous);
          r := r[..previous] + r[current + 1..];
          again := true;
          break;
        }
        previous := current;
        current := current + 1;
      }
    }
    NothingToCancel(r);
  }

  /** Erasing a cancelling pair anywhere does not change what the sweep ends with. */
  lemma {:induction false} CancelErased(a: seq<string>, x: string, b: seq<string>)
    requires Cancellable(x)
    ensures Cancel(a + [x, DOTDOT] + b) == Cancel(a + b)
    decreases |b|
  {
    if b == [] {
      assert a + [x, DOTDOT] + b == (a + [x]) + [DOTDOT];
      CancelLast(a + [x], DOTDOT);
      CancelLast(a, x);
      assert a + b == a;
    } else {
      var before, y := b[..|b| - 1], b[|b| - 1];
      CancelErased(a, x, before);
      assert a + [x, DOTDOT] + b == (a + [x, DOTDOT] + before) + [y];
      assert a + b == (a + before) + [y];
      CancelLast(a + [x, DOTDOT] + before, y);
      CancelLast(a + before, y);
    }
  }

  lemma PairWithin(parts: seq<string>, k: nat)
    requires k + 1 < |parts|
    ensures parts == parts[..k] + [parts[k], parts[k + 1]] + parts[k + 2..]
  {
  }

  lemma StillOnlyLastEmpty(parts: seq<string>, k: nat)
    requires OnlyLastEmpty(parts) && k + 1 < |parts|
    ensures OnlyLastEmpty(parts[..k] + parts[k + 2..])
  {
    var r := parts[..k] + parts[k + 2..];
    forall i | 0 <= i < |r| - 1 ensures r[i] != "" {
      assert r[i] == if i < k then parts[i] else parts[i + 2];
    }
  }

  lemma ErasedPair(parts: seq<string>, k: nat)
    requires OnlyLastEmpty(parts) && k + 1 < |parts| && CancelsAt(parts, k + 1)
    ensures Cancel(parts[..k] + parts[k + 2..]) == Cancel(parts) && OnlyLastEmpty(parts[..k] + parts[k + 2..])
  {
    PairWithin(parts, k);
    StillOnlyLastEmpty(parts, k);
    CancelErased(parts[..k], parts[k], parts[k + 2..]);
  }

  lemma {:induction false} NothingToCancel(parts: seq<string>)
    requires forall i :: 0 < i < |parts| ==> !CancelsAt(parts, i)
    ensures Cancel(parts) == parts
  {
    if parts == [] {
    } else {
      var before := parts[..|parts| - 1];
      assert forall i :: 0 < i < |before| ==> CancelsAt(before, i) == CancelsAt(parts, i);
      NothingToCancel(before);
      assert |parts| > 1 ==> !CancelsAt(parts, |parts| - 1);
      assert parts == before + [parts[|parts| - 1]];
    }
  }

  method RemoveMoveUpsAfterRoot(parts: seq<string>) returns (r: seq<string>)
    requires parts != []
    ensures r == WithoutUpsAfterRoot(parts)
  {
    r := parts;
    if r[0] != "" && r[0][0] == SEP {
      while 1 < |r| && r[1] == DOTDOT
        invariant r != [] && r[0] == parts[0]
        invariant WithoutLeadingUps(r[1..]) == WithoutLeadingUps(parts[1..])
        decreases |r|
      {
        assert r[1..][1..] == r[2..];
        r := [r[0]] + r[2..];
      }
      assert WithoutLeadingUps(r[1..]) == r[1..];
    }
  }

  method CreateText(parts: seq<string>) returns (text: string)
    ensures text == Print(parts)
  {
    text := "";
    var isSeparatorRequired := false;
    for i := 0 to |parts|
      invariant text == Print(parts[..i])
      invariant isSeparatorRequired == SeparatorDue(parts[..i])
    {
      assert parts[..i + 1] == parts[..i] + [parts[i]];
      PrintLast(parts[..i], parts[i]);
      if isSeparatorRequired {
        text := text + [SEP];
      }
      text := text + parts[i];
      if parts[i] != "" && parts[i][0] != SEP {
        isSeparatorRequired := true;
        assert parts[..i + 1][i] == parts[i];
      } else {
        SameDue(parts[..i], parts[i]);
      }
    }
    assert parts[..|parts|] == parts;
  }

  lemma SameDue(parts: seq<string>, x: string)
    requires x == "" || StartsWithSeparator(x)
    ensures SeparatorDue(parts + [x]) == SeparatorDue(parts)
  {
    if SeparatorDue(parts) {
      var i :| 0 <= i < |parts| && parts[i] != "" && !StartsWithSeparator(parts[i]);
      assert (parts + [x])[i] == parts[i];
    }
  }
}
