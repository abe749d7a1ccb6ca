/**
 The in-memory file system: paths are resolved against the current directory, and the entries are created,
 linked and erased in place.
 */
module FakeFileSystem {
  import opened Wrappers
  import opened PathText
  import opened PathNormal
  import opened PathSplit
  import opened FileTree
  import opened FilePaths

  datatype Failure =
    | InvalidPath
    | FileOrDirectoryDoesNotExist
    | ParentDirectoryDoesNotExist
    | CouldNotCreateDirectory
    | CouldNotCreateFile
    | CouldNotRemoveFileOrDirectory
    | CouldNotCreateHardLink
    | CouldNotSetCurrentPath
    | ProgramStops  // not an error that is returned: a production assertion fails

  class FileSystem {
    var store: Store
    var unused: Id
    var currentDirectory: string
    ghost var at: Places

    ghost predicate Valid()
      reads this
    {
      IsTree(store, at) && IsAbsolute(currentDirectory) && Bounded(store, unused)
    }

    /** The names, from the root, of the place a path means at the moment. */
    ghost function Place(path: string): seq<string>
      reads this
    {
      Resolve(Here(currentDirectory), path)
    }

    constructor ()
      ensures Valid() && currentDirectory == "/" && store == map[ROOT_ID := Directory(map[])]
    {
      store, unused, currentDirectory := map[ROOT_ID := Directory(map[])], 1, "/";
      at := map[ROOT_ID := []];
    }

    /** Finds what a plain lookup of the resolved path finds. */
    method FindEntry(path: string) returns (r: Result<Id, Failure>)
      requires Valid()
      ensures path == "" ==> r == Err(InvalidPath)
      ensures path != "" ==>
        var found := Lookup(store, Place(path));
        if found.Some? then r == Ok(found.value) && found.value in store else r == Err(FileOrDirectoryDoesNotExist)
    {
      if path == "" {
        return Err(InvalidPath);
      }
      var canonical := WeaklyCanonical(currentDirectory, path);
      CanonicalNames(currentDirectory, path);
      AfterRoot(canonical);
      NamesAreNames(canonical);
      var found := Descend(store, Components(canonical), Names(canonical));
      if found.None? {
        return Err(FileOrDirectoryDoesNotExist);
      }
      OnePath(store, at, Place(path));
      return Ok(found.value);
    }

    predicate IsDir(x: Id)
      reads this
    {
      IsDirectory(store, x)
    }

    /** The directory that the place of the path is in, if there is one. */
    ghost function ParentDirectory(path: string): Option<Id>
      reads this
    {
      var ns := Place(path);
      if ns == [] then None
      else
        var d := Lookup(store, ns[..|ns| - 1]);
        if d.Some? && IsDirectory(store, d.value) then d else None
    }

    /** The path ends in a name that is no dot or dot-dot. */
    predicate NamesAnEntry(path: string) { path != "" && !DirectoryLike(path) }

    /** The filename of the canonical path is not empty. */
    method HasFilename(path: string) returns (b: bool)
      requires Valid()
      ensures b == NamesAnEntry(path)
    {
      CanonicalEnds(currentDirectory, path);
      b := Filename(WeaklyCanonical(currentDirectory, path)) != "";
    }

    /** Splits a path that names an entry into its directory, if that exists, and the name in it. */
    method FindParent(path: string) returns (r: Option<Id>, name: string)
      requires Valid() && NamesAnEntry(path)
      ensures r == ParentDirectory(path) && (r.Some? ==> IsDirectory(store, r.value))
      ensures Place(path) != [] && name == Place(path)[|Place(path)| - 1] && PlainName(name)
      ensures Lookup(store, Place(path)) == Follow(store, r, name)
    {
      var canonical := WeaklyCanonical(currentDirectory, path);
      name := Filename(canonical);
      CanonicalEnds(currentDirectory, path);
      CanonicalParent(currentDirectory, path);
      CanonicalNames(currentDirectory, path);
      var parent := FindEntry(ParentPath(canonical).value);
      ghost var ns := Place(path);
      CanonicalIsPlain(ns, |ns| - 1);
      Last(ns);
      if parent.Err? || !IsDir(parent.value) {
        return None, name;
      }
      return Some(parent.value), name;
    }

    /** Why nothing can be created at the path, if so. */
    ghost function CreateError(path: string, directory: bool): Option<Failure>
      reads this
    {
      if !NamesAnEntry(path) then Some(if directory then CouldNotCreateDirectory else CouldNotCreateFile)
      else if ParentDirectory(path).None? then Some(ParentDirectoryDoesNotExist)
      else if Lookup(store, Place(path)).Some? then Some(CouldNotCreateFile)
      else None
    }

    /** `CreateEntry`: a new entry at the place of the path, and no other path changes. */
    method CreateEntry(path: string, directory: bool) returns (r: Result<Id, Failure>)
      requires Valid()
      modifies this`store, this`unused, this`at
      ensures Valid()
      ensures r.Err? ==> old(CreateError(path, directory)) == Some(r.error) && store == old(store)
      ensures r.Ok? ==> old(CreateError(path, directory)).None? && OnlyPath(old(store), store, Place(path), r.value)
      ensures r.Ok? ==> r.value in store && store[r.value] == if directory then Directory(map[]) else File
    {
      var named := HasFilename(path);
      if !named {
        return Err(if directory then CouldNotCreateDirectory else CouldNotCreateFile);
      }
      var parent, filename := FindParent(path);
      if parent.None? {
        return Err(ParentDirectoryDoesNotExist);
      }
      if filename in store[parent.value].entries {
        return Err(CouldNotCreateFile);
      }
      var created := Add(parent.value, filename, if directory then Directory(map[]) else File, Place(path));
      return Ok(created);
    }

    /** Lists a new entry in a directory. */
    method Add(d: Id, name: string, entry: Entry, ghost ns: seq<string>) returns (x: Id)
      requires Valid() && IsDirectory(store, d) && name !in store[d].entries && PlainName(name) && IsLeaf(entry)
      requires ns != [] && ns[|ns| - 1] == name && Lookup(store, ns[..|ns| - 1]) == Some(d)
      modifies this`store, this`unused, this`at
      ensures Valid() && x in store && store[x] == entry && OnlyPath(old(store), store, ns, x)
      ensures SameKinds(old(store), store)
    {
      x := unused;
      ListedKinds(store, d, name, unused, entry);
      ListedTree(store, at, d, name, unused, entry);
      ListedOnly(store, at, d, name, unused, entry, ns);
      BoundedWith(store, d, name, unused, entry, unused);
      Replace(WithEntry(store, d, name, unused, entry), unused + 1, PlacesWith(at, d, name, unused, entry));
    }

    method Replace(now: Store, next: Id, ghost places: Places)
      requires IsAbsolute(currentDirectory) && IsTree(now, places) && Bounded(now, next)
      modifies this`store, this`unused, this`at
      ensures Valid() && store == now && unused == next && at == places
    {
      store, unused, at := now, next, places;
    }

    /** `FakeCreateDirectory`. */
    method CreateDirectory(path: string) returns (r: Result<(), Failure>)
      requires Valid()
      modifies this`store, this`unused, this`at
      ensures Valid()
      ensures r.Ok? <==> path != "" && old(
        if Lookup(store, Place(path)).Some? then IsDirectory(store, Lookup(store, Place(path)).value)
        else CreateError(path, true).None?)
      ensures r.Ok? ==> Lookup(store, Place(path)).Some? && IsDirectory(store, Lookup(store, Place(path)).value)
      ensures r.Ok? && old(Lookup(store, Place(path)).None?) ==>
        OnlyPath(old(store), store, Place(path), Lookup(store, Place(path)).value)
      ensures r.Err? ==> r.error == CouldNotCreateDirectory
      ensures r.Err? || old(Lookup(store, Place(path)).Some?) ==> store == old(store)
    {
      var entry := FindEntry(path);
      if entry.Ok? {
        return if IsDir(entry.value) then Ok(()) else Err(CouldNotCreateDirectory);
      }
      var created := CreateEntry(path, true);
      return if created.Ok? then Ok(()) else Err(CouldNotCreateDirectory);
    }

    /** One round of `FakeCreateDirectories`: the entry of the next name, which is created if there is none. */
    method Enter(current: Id, ghost ns: seq<string>, ghost m: nat, name: string, ghost was: Store) returns (next: Id)
      requires m < |ns| && name == ns[m] && PlainName(name)
      requires Valid() && IsDirectory(store, current) && Reached(was, store, ns, m, current)
      modifies this`store, this`unused, this`at
      ensures Valid() && Reached(was, store, ns, m + 1, next)
    {
      if name in store[current].entries {
        next := store[current].entries[name];
        assert Fits(store, at, current, name);
        ReachedExisting(was, store, ns, m, current);
      } else {
        next := Make(current, ns, m, name, was);
      }
    }

    method Make(current: Id, ghost ns: seq<string>, ghost m: nat, name: string, ghost was: Store) returns (next: Id)
      requires m < |ns| && name == ns[m] && PlainName(name)
      requires Valid() && IsDirectory(store, current) && Reached(was, store, ns, m, current)
      requires !Lists(store, current, name)
      modifies this`store, this`unused, this`at
      ensures Valid() && Reached(was, store, ns, m + 1, next)
    {
      ghost var mid := store;
      assert ns[..m + 1][..m] == ns[..m];
      next := Add(current, name, Directory(map[]), ns[..m + 1]);
      ReachedNew(was, mid, store, ns, m, current, next);
    }

    /** The rounds for the names of the path. */
    method EnterAll(names: seq<string>) returns (r: Option<Id>)
      requires Valid() && forall i :: 0 <= i < |names| ==> PlainName(names[i])
      modifies this`store, this`unused, this`at
      ensures Valid()
      ensures r.None? <==> Blocked(old(store), names, |names|)
      ensures r.None? ==> store == old(store)
      ensures r.Some? ==> Reached(old(store), store, names, |names|, r.value)
    {
      ghost var was := store;
      var current := ROOT_ID;
      ReachedStart(store, names);
      for i := 0 to |names|
        invariant Valid() && Reached(was, store, names, i, current) && !Blocked(was, names, i)
      {
        ReachedFile(was, store, names, i, current);
        BlockedNext(was, names, i);
        if !IsDir(current) {
          BlockedLater(was, names, i + 1, |names|);
          return None;
        }
        current := Enter(current, names, i, names[i], was);
      }
      return Some(current);
    }

    /** The loop gets to an empty component: below the root, the path ends as that of a directory does. */
    ghost predicate VisitsEmpty(path: string)
      reads this
    {
      DirectoryLike(path) && Place(path) != []
    }

    /**
     `FakeCreateDirectories`: what is missing on the way to the place is created, unless a file stands in the way.
     A file at the place itself is no failure.  Where the loop gets to an empty last component it creates an entry
     without a name, as if it were one more name, and the entries are a tree of named entries no more.
     */
    method CreateDirectories(path: string) returns (r: Result<(), Failure>)
      requires Valid()
      modifies this`store, this`unused, this`at
      ensures path == "" ==> r == Err(ProgramStops)
      ensures path != "" ==>
                (r.Err? <==> Blocked(old(store), Place(path), |Place(path)| + if VisitsEmpty(path) then 1 else 0))
      ensures path != "" && r.Err? ==> r.error == CouldNotCreateDirectory
      ensures r.Err? ==> store == old(store)
      ensures r.Ok? && !VisitsEmpty(path) ==>
        var x := Lookup(store, Place(path));
        && x.Some? && Reached(old(store), store, Place(path), |Place(path)|, x.value)
        && (IsDirectory(store, x.value) <==> !IsFile(old(store), Lookup(old(store), Place(path))))
      ensures r.Ok? && VisitsEmpty(path) ==>
        var below := Place(path) + [""];
        var x := Lookup(store, below);
        x.Some? && Reached(old(store), store, below, |below|, x.value) && IsDirectory(store, x.value)
      ensures Valid() <==> !(r.Ok? && VisitsEmpty(path))
      ensures Bounded(store, unused) && currentDirectory == old(currentDirectory)
    {
      if path == "" {
        return Err(ProgramStops);
      }
      var current := EnterNames(path);
      ghost var ns := Place(path);
      BlockedNext(old(store), ns, |ns|);
      if current.None? {
        return Err(CouldNotCreateDirectory);
      }
      ReachedFile(old(store), store, ns, |ns|, current.value);
      assert ns[..|ns|] == ns;
      var components := Components(WeaklyCanonical(currentDirectory, path));
      EmptyComponent(currentDirectory, path);
      if components[|components| - 1] == "" {
        if !IsDir(current.value) {
          return Err(CouldNotCreateDirectory);
        }
        ghost var mid := store;
        var below := EnterNameless(current.value, ns);
        NewBelow(old(store), mid, store, ns, "", current.value, below);
      }
      return Ok(());
    }

    /** The rounds up to the last component that is not empty. */
    method EnterNames(path: string) returns (r: Option<Id>)
      requires Valid() && path != ""
      modifies this`store, this`unused, this`at
      ensures Valid()
      ensures r.None? <==> Blocked(old(store), Place(path), |Place(path)|)
      ensures r.None? ==> store == old(store)
      ensures r.Some? ==> Reached(old(store), store, Place(path), |Place(path)|, r.value)
    {
      var canonical := WeaklyCanonical(currentDirectory, path);
      CanonicalNames(currentDirectory, path);
      ghost var ns := Place(path);
      forall i | 0 <= i < |ns| ensures PlainName(ns[i]) {
        CanonicalIsPlain(ns, i);
      }
      r := EnterAll(Names(canonical));
    }

    /** The round for an empty component. */
    method EnterNameless(current: Id, ghost ns: seq<string>) returns (x: Id)
      requires Valid() && IsDirectory(store, current) && Lookup(store, ns) == Some(current)
      modifies this`store, this`unused
      ensures !Valid() && OnlyPath(old(store), store, ns + [""], x) && IsDirectory(store, x)
      ensures !Lists(old(store), current, "") && SameKinds(old(store), store) && Bounded(store, unused)
    {
      NothingNameless(store, at, current);
      x := unused;
      if "" !in store[current].entries {
        NamelessOnly(store, at, ns, current, x);
        ListedKinds(store, current, "", x, Directory(map[]));
        BoundedWith(store, current, "", x, Directory(map[]), x);
        store := WithEntry(store, current, "", x, Directory(map[]));
        unused := unused + 1;
      }
      assert !IsTree(store, at) by {
        if IsTree(store, at) {
          NothingNameless(store, at, current);
        }
      }
    }

    /** `FakeCreateHardLink`: one more path to an existing file. */
    method CreateHardLink(oldPath: string, newPath: string) returns (r: Result<(), Failure>)
      requires Valid()
      modifies this`store, this`unused, this`at
      ensures Valid()
      ensures r.Err? ==> store == old(store)
      ensures r.Err? ==>
                r.error == if old(CanLink(oldPath, newPath)) then CouldNotCreateFile else CouldNotCreateHardLink
      ensures r.Ok? <==> old(CanLink(oldPath, newPath) && Lookup(store, Place(newPath)).None?)
      ensures r.Ok? ==> OnlyPath(old(store), store, Place(newPath), old(Lookup(store, Place(oldPath)).value))
    {
      var file := FindEntry(oldPath);
      var named := HasFilename(newPath);
      if file.Err? || IsDir(file.value) || !named {
        return Err(CouldNotCreateHardLink);
      }
      var parent, filename := FindParent(newPath);
      if parent.None? {
        return Err(CouldNotCreateHardLink);
      }
      if filename in store[parent.value].entries {
        return Err(CouldNotCreateFile);
      }
      Link(parent.value, filename, file.value, Place(newPath));
      return Ok(());
    }

    /** There is a file at the old path, and a directory for the new one. */
    ghost predicate CanLink(oldPath: string, newPath: string)
      reads this
    {
      var x := Lookup(store, Place(oldPath));
      && oldPath != "" && x.Some? && x.value in store && store[x.value].File?
      && NamesAnEntry(newPath) && ParentDirectory(newPath).Some?
    }

    method Link(d: Id, name: string, file: Id, ghost ns: seq<string>)
      requires Valid() && file in store && CanList(store, d, name, file, File)
      requires ns != [] && ns[|ns| - 1] == name && Lookup(store, ns[..|ns| - 1]) == Some(d)
      modifies this`store, this`unused, this`at
      ensures Valid() && OnlyPath(old(store), store, ns, file)
    {
      ListedTree(store, at, d, name, file, File);
      ListedOnly(store, at, d, name, file, File, ns);
      BoundedWith(store, d, name, file, File, unused);
      Replace(WithEntry(store, d, name, file, File), unused, at);
    }

    /** What no directory lists any more is destroyed, and so on for what only that listed. */
    method Collect()
      requires Placed(store, at) && Bounded(store, unused)
      modifies this`store
      ensures IsTree(store, at) && SamePaths(old(store), store) && Bounded(store, unused)
    {
      var unnamed := set x | x in store && x != ROOT_ID && Listings(store, x) == {};
      while unnamed != {}
        invariant Placed(store, at) && SamePaths(old(store), store) && Bounded(store, unused)
        invariant unnamed == set x | x in store && x != ROOT_ID && Listings(store, x) == {}
        decreases store.Keys
      {
        var x :| x in unnamed;
        NamedMeansListed(store, x);
        PathsWithout(store, x);
        PlacedWithout(store, at, x);
        store := store - {x};
        unnamed := set y | y in store && y != ROOT_ID && Listings(store, y) == {};
      }
      forall x | x in store && x != ROOT_ID ensures HasName(store, x) {
        NamedMeansListed(store, x);
        assert x !in unnamed;
      }
    }

    /** `Directory::Erase` of a name that is listed. */
    method Erase(d: Id, name: string, ghost ns: seq<string>)
      requires Valid() && Lists(store, d, name)
      requires ns != [] && ns[|ns| - 1] == name && Lookup(store, ns[..|ns| - 1]) == Some(d)
      modifies this`store
      ensures Valid() && CutAt(old(store), store, ns)
    {
      DelistedCut(store, at, d, name, ns);
      PlacedDelisted(store, at, d, name);
      store := Delisted(store, d, name);
      ghost var cut := store;
      Collect();
      CutThenSame(old(store), cut, store, ns);
    }

    /** A regular file, or a directory without entries. */
    predicate Removable(x: Id)
      reads this
    {
      x in store && (store[x].File? || store[x].entries == map[])
    }

    /** `FakeRemove`. */
    method Remove(path: string) returns (r: Result<(), Failure>)
      requires Valid()
      modifies this`store
      ensures Valid()
      ensures r.Err? ==> r.error == CouldNotRemoveFileOrDirectory && store == old(store)
      ensures r.Ok? <==> old(
        NamesAnEntry(path) && Lookup(store, Place(path)).Some? && Removable(Lookup(store, Place(path)).value))
      ensures r.Ok? ==> Place(path) != [] && CutAt(old(store), store, Place(path))
    {
      var named := HasFilename(path);
      if !named {
        // the filename is empty, and no directory lists the empty name
        return Err(CouldNotRemoveFileOrDirectory);
      }
      var parent, filename := FindParent(path);
      if parent.None? || filename !in store[parent.value].entries {
        return Err(CouldNotRemoveFileOrDirectory);
      }
      if !Removable(store[parent.value].entries[filename]) {
        return Err(CouldNotRemoveFileOrDirectory);
      }
      Erase(parent.value, filename, Place(path));
      return Ok(());
    }

    /** The directory that `FakeRemoveAll` looks in: that of the entry, or without a filename the place itself. */
    ghost function RemoveAllError(path: string): Failure
      reads this
    {
      var d := if NamesAnEntry(path) then ParentDirectory(path)
               else if path == "" then None else Lookup(store, Place(path));
      if d.Some? && IsDirectory(store, d.value) then FileOrDirectoryDoesNotExist else CouldNotRemoveFileOrDirectory
    }

    /** Without a filename there is nothing to erase: no directory lists the empty name. */
    method EraseNothing(path: string) returns (error: Failure)
      requires Valid() && !NamesAnEntry(path)
      ensures error == RemoveAllError(path)
    {
      var canonical := WeaklyCanonical(currentDirectory, path);
      CanonicalHasParent(currentDirectory, path);
      CanonicalEnds(currentDirectory, path);
      if path != "" {
        CanonicalDirectory(currentDirectory, path);
      }
      var parent := FindEntry(ParentPath(canonical).value);
      return if parent.Err? || !IsDir(parent.value) then CouldNotRemoveFileOrDirectory
             else FileOrDirectoryDoesNotExist;
    }

    /** `FakeRemoveAll`: whatever is at the path is erased, with everything below it. */
    method RemoveAll(path: string) returns (r: Result<(), Failure>)
      requires Valid()
      modifies this`store
      ensures Valid()
      ensures r.Err? ==> store == old(store)
      ensures r.Err? ==> r.error == old(RemoveAllError(path))
      ensures r.Ok? <==> old(NamesAnEntry(path) && Lookup(store, Place(path)).Some?)
      ensures r.Ok? ==> Place(path) != [] && CutAt(old(store), store, Place(path))
    {
      var named := HasFilename(path);
      if !named {
        var error := EraseNothing(path);
        return Err(error);
      }
      var parent, filename := FindParent(path);
      if parent.None? {
        return Err(CouldNotRemoveFileOrDirectory);
      }
      if filename !in store[parent.value].entries {
        return Err(FileOrDirectoryDoesNotExist);
      }
      Erase(parent.value, filename, Place(path));
      return Ok(());
    }

    /** `FakeHardLinkCount`: the number of paths to a file; for a directory two more than it has subdirectories. */
    method HardLinkCount(path: string) returns (r: Result<nat, Failure>)
      requires Valid()
      ensures r.Ok? <==> path != "" && Lookup(store, Place(path)).Some?
      ensures r.Err? ==> r.error == FileOrDirectoryDoesNotExist
      ensures r.Ok? ==> var x := Lookup(store, Place(path)).value;
        && x in store
        && (if store[x].File? then r.value == |PathsTo(store, at, x)| && AllPaths(x)
            else r.value == 2 + |Subdirectories(store, store[x].entries)|)
    {
      var entry := FindEntry(path);
      if entry.Err? {
        return Err(FileOrDirectoryDoesNotExist);
      }
      var x := entry.value;
      if !IsDir(x) {
        PathsAreNames(store, at, x);
        // every place that lists the file owns a reference, and so does the local one
        var useCount := |Listings(store, x)| + 1;
        return Ok(useCount - 1);
      }
      var n := CountSubdirectories(store, store[x].entries);
      return Ok(2 + n);
    }

    /** `PathsTo` is exactly the set of paths that lead to x. */
    ghost predicate AllPaths(x: Id)
      requires Valid()
      reads this
    {
      forall p :: p in PathsTo(store, at, x) <==> Lookup(store, p) == Some(x)
    }

    /** `FakeSetCurrentPath`. */
    method SetCurrentPath(path: string) returns (r: Result<(), Failure>)
      requires Valid()
      modifies this`currentDirectory
      ensures Valid()
      ensures r.Ok? <==> path != "" && old(Lookup(store, Place(path)).Some?)
      ensures r.Err? ==> r.error == CouldNotSetCurrentPath && currentDirectory == old(currentDirectory)
      ensures r.Ok? ==> Here(currentDirectory) == old(Place(path))
    {
      var entry := FindEntry(path);
      if entry.Err? {
        return Err(CouldNotSetCurrentPath);
      }
      CanonicalNames(currentDirectory, path);
      CanonicalStandsForItself(currentDirectory, path);
      currentDirectory := WeaklyCanonical(currentDirectory, path);
      return Ok(());
    }
  }

  method CountSubdirectories(store: Store, entries: map<string, Id>) returns (n: nat)
    ensures n == |Subdirectories(store, entries)|
  {
    n := 0;
    var left := entries.Keys;
    ghost var seen: map<string, Id> := map[];
    while left != {}
      invariant left <= entries.Keys && seen == entries - left && n == |Subdirectories(store, seen)|
      decreases left
    {
      var name :| name in left;
      ghost var more := entries - (left - {name});
      assert Subdirectories(store, more)
          == if IsDirectory(store, entries[name]) then Subdirectories(store, seen) + {name}
             else Subdirectories(store, seen);
      if IsDirectory(store, entries[name]) {
        n := n + 1;
      }
      left := left - {name};
      seen := more;
    }
    assert seen == entries;
  }

  /** The loop of `FindEntry`: from the second component to the last one that is not empty. */
  method Descend(store: Store, parts: seq<string>, ghost names: seq<string>) returns (r: Option<Id>)
    requires parts != [] && AreNames(names) && (parts[1..] == names || parts[1..] == names + [""])
    ensures r == Lookup(store, names)
  {
    assert forall k :: 0 <= k < |names| ==> parts[k + 1] == parts[1..][k] == names[k];
    var current, i := ROOT_ID, 1;
    while i < |parts| && parts[i] != ""
      invariant 1 <= i <= |names| + 1 && Lookup(store, names[..i - 1]) == Some(current)
      decreases |parts| - i
    {
      assert parts[i] == parts[1..][i - 1];
      LookupStep(store, names, i - 1);
      if current !in store || !store[current].Directory? || parts[i] !in store[current].entries {
        LookupFails(store, names, i);
        return None;
      }
      current := store[current].entries[parts[i]];
      i := i + 1;
    }
    assert names[..|names|] == names;
    return Some(current);
  }

  /** A lookup that fails on the way fails altogether. */
  lemma {:induction false} LookupFails(store: Store, names: seq<string>, k: nat)
    requires k <= |names| && Lookup(store, names[..k]).None?
    ensures Lookup(store, names).None?
    decreases |names|
  {
    if k == |names| {
      assert names[..k] == names;
    } else {
      var front := names[..|names| - 1];
      assert front[..k] == names[..k];
      LookupFails(store, front, k);
    }
  }
}
