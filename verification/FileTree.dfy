/**
 The entries of the fake file system as a graph: directories map names to entries, and an entry may be
 listed in several places.  This module says when the graph is a tree of directories with hard-linked
 files, and what adding and removing one name does to every path.
 */
module FileTree {
  import opened Wrappers
  import opened PathText

  type Id = nat

  datatype Entry = File | Directory(entries: map<string, Id>)

  type Store = map<Id, Entry>

  const ROOT_ID: Id := 0

  predicate IsDirectory(store: Store, x: Id) { x in store && store[x].Directory? }

  /** The directory d lists the name n. */
  predicate Lists(store: Store, d: Id, n: string) { IsDirectory(store, d) && n in store[d].entries }

  function Target(store: Store, d: Id, n: string): Id
    requires Lists(store, d, n)
  {
    store[d].entries[n]
  }

  /** The entry named n in a directory, if the directory was found and lists it. */
  function Follow(store: Store, d: Option<Id>, n: string): Option<Id> {
    if d.Some? && Lists(store, d.value, n) then Some(Target(store, d.value, n)) else None
  }

  /** Following names from the root, by nothing but tree lookup. */
  function Lookup(store: Store, names: seq<string>): Option<Id> {
    if names == [] then Some(ROOT_ID) else Follow(store, Lookup(store, names[..|names| - 1]), names[|names| - 1])
  }

  lemma LookupNext(store: Store, names: seq<string>, n: string)
    ensures Lookup(store, names + [n]) == Follow(store, Lookup(store, names), n)
  {
    assert (names + [n])[..|names|] == names;
  }

  lemma Last(p: seq<string>)
    requires p != []
    ensures p == p[..|p| - 1] + [p[|p| - 1]]
  {
  }

  lemma SameLast(q: seq<string>, m: string, a: seq<string>, n: string)
    ensures q + [m] == a + [n] <==> q == a && m == n
  {
    if q + [m] == a + [n] {
      assert (q + [m])[..|q|] == q && (a + [n])[..|a|] == a && (q + [m])[|q|] == m && (a + [n])[|a|] == n;
    }
  }

  // ---------------------------------------------------------------- the invariant

  predicate PlainName(n: string) { IsName(n) && n != DOT && n != DOTDOT }

  /** Where each directory is; the root is at the top, and a directory inside d one name below d. */
  type Places = map<Id, seq<string>>

  ghost predicate Placed(store: Store, at: Places) {
    && IsDirectory(store, ROOT_ID) && ROOT_ID in at && at[ROOT_ID] == []
    && (forall d :: IsDirectory(store, d) ==> d in at)
    && (forall d, n :: Lists(store, d, n) ==> Fits(store, at, d, n))
  }

  ghost predicate Fits(store: Store, at: Places, d: Id, n: string)
    requires Lists(store, d, n)
  {
    var x := Target(store, d, n);
    && x in store && x != ROOT_ID && PlainName(n)
    && (IsDirectory(store, x) ==> d in at && x in at && at[x] == at[d] + [n])
  }

  lemma NothingNameless(store: Store, at: Places, d: Id)
    requires Placed(store, at) && IsDirectory(store, d)
    ensures "" !in store[d].entries
  {
    assert Lists(store, d, "") == ("" in store[d].entries);
  }

  /** Listing a new directory without a name changes nothing but the one path to it. */
  lemma NamelessOnly(store: Store, at: Places, ns: seq<string>, d: Id, x: Id)
    requires IsTree(store, at) && Lookup(store, ns) == Some(d) && IsDirectory(store, d)
    requires "" !in store[d].entries && x !in store
    ensures OnlyPath(store, WithEntry(store, d, "", x, Directory(map[])), ns + [""], x)
  {
    assert (ns + [""])[..|ns|] == ns;
    ListedOnly(store, at, d, "", x, Directory(map[]), ns + [""]);
  }

  lemma NewBelow(was: Store, mid: Store, now: Store, ns: seq<string>, n: string, d: Id, x: Id)
    requires Reached(was, mid, ns, |ns|, d) && !Lists(mid, d, n)
    requires OnlyPath(mid, now, ns + [n], x) && IsDirectory(now, x)
    requires SameKinds(mid, now)
    ensures Lookup(now, ns + [n]) == Some(x) && Reached(was, now, ns + [n], |ns| + 1, x)
  {
    ReachedBelow(was, mid, ns, n, d);
    assert (ns + [n])[..|ns| + 1] == ns + [n];
    ReachedNew(was, mid, now, ns + [n], |ns|, d, x);
  }

  lemma ReachedBelow(was: Store, now: Store, ns: seq<string>, n: string, x: Id)
    requires Reached(was, now, ns, |ns|, x)
    ensures (ns + [n])[..|ns|] == ns && Lookup(now, ns) == Some(x) && Reached(was, now, ns + [n], |ns|, x)
  {
    assert ns[..|ns|] == ns && (ns + [n])[..|ns|] == ns;
  }

  ghost predicate HasName(store: Store, x: Id) {
    exists d, n :: Lists(store, d, n) && Target(store, d, n) == x
  }

  /** Directories form a tree, and nothing is kept that has no name. */
  ghost predicate IsTree(store: Store, at: Places) {
    Placed(store, at) && forall x :: x in store && x != ROOT_ID ==> HasName(store, x)
  }

  /** Each directory is found at its place. */
  lemma {:induction false} FoundAtPlace(store: Store, at: Places, d: Id)
    requires IsTree(store, at) && IsDirectory(store, d)
    ensures Lookup(store, at[d]) == Some(d)
    decreases |at[d]|
  {
    if d == ROOT_ID {
    } else {
      var e, n :| Lists(store, e, n) && Target(store, e, n) == d;
      assert Fits(store, at, e, n);
      FoundAtPlace(store, at, e);
      LookupNext(store, at[e], n);
    }
  }

  /** A directory has no other path: only regular files can have more than one name. */
  lemma {:induction false} OnePath(store: Store, at: Places, p: seq<string>)
    requires Placed(store, at) && Lookup(store, p).Some?
    ensures Lookup(store, p).value in store
    ensures IsDirectory(store, Lookup(store, p).value) ==> at[Lookup(store, p).value] == p
    decreases |p|
  {
    if p == [] {
    } else {
      var n := |p| - 1;
      OnePath(store, at, p[..n]);
      assert Fits(store, at, Lookup(store, p[..n]).value, p[n]);
    }
  }

  lemma DirectoriesAreATree(store: Store, at: Places, p: seq<string>, q: seq<string>)
    requires IsTree(store, at) && Lookup(store, p).Some? && IsDirectory(store, Lookup(store, p).value)
    ensures Lookup(store, q) == Lookup(store, p) ==> q == p
  {
    OnePath(store, at, p);
    if Lookup(store, q) == Lookup(store, p) {
      OnePath(store, at, q);
    }
  }

  // ---------------------------------------------------------------- adding a name

  /** The directory d gets the new name n for x. */
  function Listed(store: Store, d: Id, n: string, x: Id): Store
    requires IsDirectory(store, d)
  {
    store[d := Directory(store[d].entries[n := x])]
  }

  predicate IsLeaf(e: Entry) { e.File? || e.entries == map[] }

  /** The store with x, which has the content e, listed under n in d. */
  function WithEntry(store: Store, d: Id, n: string, x: Id, e: Entry): Store
    requires IsDirectory(store, d)
  {
    Listed(store, d, n, x)[x := e]
  }

  /** A name may be given to a new entry without content, or to a file. */
  ghost predicate CanHold(store: Store, d: Id, n: string, x: Id, e: Entry) {
    && IsDirectory(store, d) && n !in store[d].entries
    && IsLeaf(e) && (x !in store || (store[x] == e && e.File?))
  }

  ghost predicate CanList(store: Store, d: Id, n: string, x: Id, e: Entry) {
    CanHold(store, d, n, x, e) && PlainName(n)
  }

  lemma FollowListed(store: Store, d: Id, n: string, x: Id, e: Entry, y: Option<Id>, m: string)
    requires CanHold(store, d, n, x, e) && (y.Some? ==> y.value in store)
    ensures Follow(WithEntry(store, d, n, x, e), y, m)
         == if y == Some(d) && m == n then Some(x) else Follow(store, y, m)
    ensures Follow(WithEntry(store, d, n, x, e), Some(x), m) == None
  {
  }

  /** A path leads to a directory exactly if it is its place. */
  lemma PlaceOf(store: Store, at: Places, d: Id, q: seq<string>)
    requires IsTree(store, at) && IsDirectory(store, d)
    ensures Lookup(store, q) == Some(d) <==> q == at[d]
  {
    FoundAtPlace(store, at, d);
    if Lookup(store, q) == Some(d) {
      OnePath(store, at, q);
    }
  }

  /** Every path leads where it led before, except the new one. */
  lemma {:induction false} LookupListed(store: Store, at: Places, d: Id, n: string, x: Id, e: Entry, p: seq<string>)
    requires IsTree(store, at) && CanHold(store, d, n, x, e)
    ensures Lookup(WithEntry(store, d, n, x, e), p) == if p == at[d] + [n] then Some(x) else Lookup(store, p)
    decreases |p|
  {
    var now := WithEntry(store, d, n, x, e);
    if p == [] {
    } else {
      var q, m := p[..|p| - 1], p[|p| - 1];
      Last(p);
      LookupListed(store, at, d, n, x, e, q);
      SameLast(q, m, at[d], n);
      PlaceOf(store, at, d, q);
      if q == at[d] + [n] {
        PlaceOf(store, at, d, at[d]);
        LookupNext(store, at[d], n);
        FollowListed(store, d, n, x, e, None, m);
      } else {
        if Lookup(store, q).Some? {
          OnePath(store, at, q);
        }
        FollowListed(store, d, n, x, e, Lookup(store, q), m);
      }
    }
  }

  /** The path p leads to x now; every other path leads where it led. */
  ghost predicate OnlyPath(was: Store, now: Store, p: seq<string>, x: Id) {
    forall q :: Lookup(now, q) == if q == p then Some(x) else Lookup(was, q)
  }

  lemma ListedOnly(store: Store, at: Places, d: Id, n: string, x: Id, e: Entry, ns: seq<string>)
    requires IsTree(store, at) && CanHold(store, d, n, x, e)
    requires ns != [] && ns[|ns| - 1] == n && Lookup(store, ns[..|ns| - 1]) == Some(d)
    ensures OnlyPath(store, WithEntry(store, d, n, x, e), ns, x)
  {
    OnePath(store, at, ns[..|ns| - 1]);
    Last(ns);
    forall q ensures Lookup(WithEntry(store, d, n, x, e), q) == if q == ns then Some(x) else Lookup(store, q) {
      LookupListed(store, at, d, n, x, e, q);
    }
  }

  function PlacesWith(at: Places, d: Id, n: string, x: Id, e: Entry): Places
    requires d in at
  {
    if e.Directory? then at[x := at[d] + [n]] else at
  }

  lemma ListedPlaced(store: Store, at: Places, d: Id, n: string, x: Id, e: Entry)
    requires Placed(store, at) && CanList(store, d, n, x, e) && d in at && x != ROOT_ID
    ensures Placed(WithEntry(store, d, n, x, e), PlacesWith(at, d, n, x, e))
  {
    var now, at' := WithEntry(store, d, n, x, e), PlacesWith(at, d, n, x, e);
    forall c, m | Lists(now, c, m) ensures Fits(now, at', c, m) {
      assert c != x;
      if c != d || m != n {
        assert Lists(store, c, m) && Target(now, c, m) == Target(store, c, m);
        assert Fits(store, at, c, m);
      }
    }
  }

  lemma ListedNamed(store: Store, d: Id, n: string, x: Id, e: Entry, y: Id)
    requires CanList(store, d, n, x, e) && (y == x || HasName(store, y))
    ensures HasName(WithEntry(store, d, n, x, e), y)
  {
    var now := WithEntry(store, d, n, x, e);
    if y == x {
      assert Lists(now, d, n) && Target(now, d, n) == x;
    } else {
      var c, m :| Lists(store, c, m) && Target(store, c, m) == y;
      assert Lists(now, c, m) && Target(now, c, m) == y;
    }
  }

  lemma ListedTree(store: Store, at: Places, d: Id, n: string, x: Id, e: Entry)
    requires IsTree(store, at) && CanList(store, d, n, x, e)
    ensures d in at && IsTree(WithEntry(store, d, n, x, e), PlacesWith(at, d, n, x, e))
  {
    var now := WithEntry(store, d, n, x, e);
    ListedPlaced(store, at, d, n, x, e);
    forall y | y in now && y != ROOT_ID ensures HasName(now, y) {
      ListedNamed(store, d, n, x, e, y);
    }
  }

  predicate IsFile(store: Store, x: Option<Id>) { x.Some? && x.value in store && store[x.value].File? }

  /** What was there is still there, directories as directories and files as files. */
  ghost predicate SameKinds(was: Store, now: Store) {
    forall y :: y in was ==> y in now && now[y].Directory? == was[y].Directory?
  }

  /** Entries stay what they are; the new paths are beginnings of ns, and directories. */
  ghost predicate Extended(was: Store, now: Store, ns: seq<string>) {
    && SameKinds(was, now)
    && (forall q :: Lookup(was, q).Some? ==> Lookup(now, q) == Lookup(was, q))
    && (forall q :: Lookup(was, q).None? && Lookup(now, q).Some? ==> q <= ns && IsDirectory(now, Lookup(now, q).value))
  }

  lemma ExtendedNext(was: Store, mid: Store, now: Store, ns: seq<string>, m: nat, x: Id)
    requires m < |ns| && Extended(was, mid, ns[..m]) && Lookup(mid, ns[..m + 1]).None?
    requires OnlyPath(mid, now, ns[..m + 1], x) && IsDirectory(now, x)
    requires SameKinds(mid, now)
    ensures Extended(was, now, ns[..m + 1])
  {
    forall q | Lookup(was, q).None? && Lookup(now, q).Some?
      ensures q <= ns[..m + 1] && IsDirectory(now, Lookup(now, q).value)
    {
      if q != ns[..m + 1] {
        assert q <= ns[..m];
        PrefixLonger(q, ns, m);
      }
    }
  }

  /** The first m names lead to x, and what had to be made on the way was made. */
  ghost predicate Reached(was: Store, now: Store, ns: seq<string>, m: nat, x: Id)
    requires m <= |ns|
  {
    && x in now && Lookup(now, ns[..m]) == Some(x) && Extended(was, now, ns[..m])
    && (if Lookup(was, ns[..m]).Some? then now == was else IsDirectory(now, x))
  }

  /** A file stands where the first k names lead, with k below n. */
  ghost predicate Blocked(store: Store, ns: seq<string>, n: nat) {
    exists k :: 0 <= k < n && k <= |ns| && IsFile(store, Lookup(store, ns[..k]))
  }

  lemma ReachedStart(store: Store, ns: seq<string>)
    requires IsDirectory(store, ROOT_ID)
    ensures Reached(store, store, ns, 0, ROOT_ID) && !Blocked(store, ns, 0)
  {
  }

  /** What is reached is a file only if it was there before. */
  lemma ReachedFile(was: Store, now: Store, ns: seq<string>, m: nat, x: Id)
    requires m <= |ns| && Reached(was, now, ns, m, x)
    ensures !IsDirectory(now, x) ==> now == was && IsFile(was, Lookup(was, ns[..m]))
    ensures IsDirectory(now, x) ==> !IsFile(was, Lookup(was, ns[..m]))
  {
  }

  lemma BlockedNext(store: Store, ns: seq<string>, n: nat)
    requires n <= |ns|
    ensures Blocked(store, ns, n + 1) <==> Blocked(store, ns, n) || IsFile(store, Lookup(store, ns[..n]))
  {
    if Blocked(store, ns, n) {
      var k :| 0 <= k < n && k <= |ns| && IsFile(store, Lookup(store, ns[..k]));
      assert k < n + 1;
    }
  }

  lemma {:induction false} BlockedLater(store: Store, ns: seq<string>, n: nat, n': nat)
    requires n <= n' && Blocked(store, ns, n)
    ensures Blocked(store, ns, n')
  {
    var k :| 0 <= k < n && k <= |ns| && IsFile(store, Lookup(store, ns[..k]));
    assert k < n';
  }

  lemma ReachedExisting(was: Store, now: Store, ns: seq<string>, m: nat, x: Id)
    requires m < |ns| && Reached(was, now, ns, m, x) && Lists(now, x, ns[m]) && Target(now, x, ns[m]) in now
    ensures Reached(was, now, ns, m + 1, Target(now, x, ns[m]))
  {
    LookupStep(now, ns, m);
    LookupStep(was, ns, m);
    Longer(was, now, ns, m);
  }

  lemma ReachedNew(was: Store, mid: Store, now: Store, ns: seq<string>, m: nat, x: Id, y: Id)
    requires m < |ns| && Reached(was, mid, ns, m, x) && !Lists(mid, x, ns[m])
    requires OnlyPath(mid, now, ns[..m + 1], y) && IsDirectory(now, y)
    requires SameKinds(mid, now)
    ensures Reached(was, now, ns, m + 1, y)
  {
    LookupStep(mid, ns, m);
    LookupStep(was, ns, m);
    ExtendedNext(was, mid, now, ns, m, y);
  }

  lemma Longer(was: Store, now: Store, ns: seq<string>, m: nat)
    requires m < |ns| && Extended(was, now, ns[..m])
    ensures Extended(was, now, ns[..m + 1])
  {
    forall q | Lookup(was, q).None? && Lookup(now, q).Some?
      ensures q <= ns[..m + 1] && IsDirectory(now, Lookup(now, q).value)
    {
      PrefixLonger(q, ns, m);
    }
  }

  lemma LookupStep(store: Store, names: seq<string>, k: nat)
    requires k < |names|
    ensures Lookup(store, names[..k + 1]) == Follow(store, Lookup(store, names[..k]), names[k])
  {
    assert names[..k + 1][..k] == names[..k];
  }

  lemma PrefixLonger(q: seq<string>, ns: seq<string>, m: nat)
    requires m < |ns| && q <= ns[..m]
    ensures q <= ns[..m + 1]
  {
    assert ns[..m + 1][..m] == ns[..m];
  }

  lemma ListedKinds(store: Store, d: Id, n: string, x: Id, e: Entry)
    requires CanHold(store, d, n, x, e) && x !in store
    ensures SameKinds(store, WithEntry(store, d, n, x, e))
  {
  }

  ghost predicate Bounded(store: Store, unused: Id) {
    forall x :: x in store ==> x < unused
  }

  lemma BoundedWith(store: Store, d: Id, n: string, x: Id, e: Entry, unused: Id)
    requires IsDirectory(store, d) && Bounded(store, unused) && x <= unused
    ensures Bounded(WithEntry(store, d, n, x, e), if x == unused then unused + 1 else unused)
  {
  }

  // ---------------------------------------------------------------- removing a name

  function Delisted(store: Store, d: Id, n: string): Store
    requires IsDirectory(store, d)
  {
    store[d := Directory(store[d].entries - {n})]
  }

  lemma FollowDelisted(store: Store, d: Id, n: string, y: Option<Id>, m: string)
    requires IsDirectory(store, d)
    ensures Follow(Delisted(store, d, n), y, m) == if y == Some(d) && m == n then None else Follow(store, y, m)
  {
  }

  /** The paths through the removed name lead nowhere; all others lead where they led before. */
  lemma {:induction false} LookupDelisted(store: Store, at: Places, d: Id, n: string, p: seq<string>)
    requires IsTree(store, at) && IsDirectory(store, d)
    ensures Lookup(Delisted(store, d, n), p) == if at[d] + [n] <= p then None else Lookup(store, p)
    decreases |p|
  {
    if p == [] {
    } else {
      var q, m := p[..|p| - 1], p[|p| - 1];
      Last(p);
      LookupDelisted(store, at, d, n, q);
      SameLast(q, m, at[d], n);
      PlaceOf(store, at, d, q);
      PrefixNext(at[d] + [n], q, m);
      FollowDelisted(store, d, n, if at[d] + [n] <= q then None else Lookup(store, q), m);
    }
  }

  /** The paths from p on lead nowhere now; all others lead where they led. */
  ghost predicate CutAt(was: Store, now: Store, p: seq<string>) {
    forall q :: Lookup(now, q) == if p <= q then None else Lookup(was, q)
  }

  lemma DelistedCut(store: Store, at: Places, d: Id, n: string, ns: seq<string>)
    requires IsTree(store, at) && IsDirectory(store, d)
    requires ns != [] && ns[|ns| - 1] == n && Lookup(store, ns[..|ns| - 1]) == Some(d)
    ensures CutAt(store, Delisted(store, d, n), ns)
  {
    OnePath(store, at, ns[..|ns| - 1]);
    Last(ns);
    forall q ensures Lookup(Delisted(store, d, n), q) == if ns <= q then None else Lookup(store, q) {
      LookupDelisted(store, at, d, n, q);
    }
  }

  lemma PrefixNext(a: seq<string>, q: seq<string>, m: string)
    ensures a <= q + [m] <==> a <= q || a == q + [m]
  {
    if a <= q + [m] && |a| <= |q| {
      assert (q + [m])[..|a|] == q[..|a|];
    }
  }

  /** Destroying an entry that has no name changes no path. */
  lemma {:induction false} LookupWithout(store: Store, x: Id, p: seq<string>)
    requires x != ROOT_ID && !HasName(store, x)
    ensures Lookup(store - {x}, p) == Lookup(store, p) && Lookup(store, p) != Some(x)
    decreases |p|
  {
    if p == [] {
    } else {
      LookupWithout(store, x, p[..|p| - 1]);
    }
  }

  /** Every path leads where it led. */
  ghost predicate SamePaths(was: Store, now: Store) {
    forall q :: Lookup(now, q) == Lookup(was, q)
  }

  lemma CutThenSame(was: Store, cut: Store, now: Store, p: seq<string>)
    requires CutAt(was, cut, p) && SamePaths(cut, now)
    ensures CutAt(was, now, p)
  {
  }

  lemma PathsWithout(store: Store, x: Id)
    requires x != ROOT_ID && !HasName(store, x)
    ensures SamePaths(store, store - {x})
  {
    forall q ensures Lookup(store - {x}, q) == Lookup(store, q) {
      LookupWithout(store, x, q);
    }
  }

  lemma PlacedWithout(store: Store, at: Places, x: Id)
    requires Placed(store, at) && x != ROOT_ID && !HasName(store, x)
    ensures Placed(store - {x}, at)
  {
    var now := store - {x};
    forall d, n | Lists(now, d, n) ensures Fits(now, at, d, n) {
      assert Lists(store, d, n) && Fits(store, at, d, n);
    }
  }

  lemma PlacedDelisted(store: Store, at: Places, d: Id, n: string)
    requires Placed(store, at) && IsDirectory(store, d)
    ensures Placed(Delisted(store, d, n), at) && Delisted(store, d, n).Keys == store.Keys
  {
    var now := Delisted(store, d, n);
    forall c, m | Lists(now, c, m) ensures Fits(now, at, c, m) {
      assert Lists(store, c, m) && Fits(store, at, c, m);
    }
  }

  // ---------------------------------------------------------------- counting names

  /** The directories that list x, each with the name it has there. */
  function Listings(store: Store, x: Id): set<(Id, string)> {
    set d, n | d in store && store[d].Directory? && n in store[d].entries && store[d].entries[n] == x :: (d, n)
  }

  lemma NamedMeansListed(store: Store, x: Id)
    ensures HasName(store, x) <==> Listings(store, x) != {}
  {
    if HasName(store, x) {
      var d: Id, n :| Lists(store, d, n) && Target(store, d, n) == x;
      assert (d, n) in Listings(store, x);
    }
    if Listings(store, x) != {} {
      var e :| e in Listings(store, x);
      assert Lists(store, e.0, e.1) && Target(store, e.0, e.1) == x;
    }
  }

  /** The paths that lead to x, one for each place it is listed. */
  ghost function PathsTo(store: Store, at: Places, x: Id): set<seq<string>>
    requires Placed(store, at)
  {
    PathsOf(at, Listings(store, x))
  }

  ghost function PathsOf(at: Places, es: set<(Id, string)>): set<seq<string>>
    requires forall e :: e in es ==> e.0 in at
  {
    set e | e in es :: at[e.0] + [e.1]
  }

  /** These are all the paths to x, and there are as many of them as places where x is listed. */
  lemma PathsAreNames(store: Store, at: Places, x: Id)
    requires IsTree(store, at) && x != ROOT_ID
    ensures forall p :: p in PathsTo(store, at, x) <==> Lookup(store, p) == Some(x)
    ensures |PathsTo(store, at, x)| == |Listings(store, x)|
  {
    forall p ensures p in PathsTo(store, at, x) <==> Lookup(store, p) == Some(x) {
      PathMeansListing(store, at, x, p);
    }
    forall e, f | e in Listings(store, x) && f in Listings(store, x) && at[e.0] + [e.1] == at[f.0] + [f.1]
      ensures e == f
    {
      SameLast(at[e.0], e.1, at[f.0], f.1);
      PlaceOf(store, at, e.0, at[e.0]);
      PlaceOf(store, at, f.0, at[f.0]);
    }
    AsManyPaths(at, Listings(store, x));
  }

  lemma PathMeansListing(store: Store, at: Places, x: Id, p: seq<string>)
    requires IsTree(store, at) && x != ROOT_ID
    ensures p in PathsTo(store, at, x) <==> Lookup(store, p) == Some(x)
  {
    if p in PathsTo(store, at, x) {
      var e :| e in Listings(store, x) && p == at[e.0] + [e.1];
      PlaceOf(store, at, e.0, at[e.0]);
      LookupNext(store, at[e.0], e.1);
      assert Lists(store, e.0, e.1);
    }
    if Lookup(store, p) == Some(x) {
      Last(p);
      var d := Lookup(store, p[..|p| - 1]).value;
      OnePath(store, at, p[..|p| - 1]);
      assert (d, p[|p| - 1]) in Listings(store, x);
    }
  }

  lemma {:induction false} AsManyPaths(at: Places, es: set<(Id, string)>)
    requires forall e :: e in es ==> e.0 in at
    requires forall e, f :: e in es && f in es && at[e.0] + [e.1] == at[f.0] + [f.1] ==> e == f
    ensures |PathsOf(at, es)| == |es|
  {
    if es == {} {
    } else {
      var e :| e in es;
      AsManyPaths(at, es - {e});
      assert PathsOf(at, es) == PathsOf(at, es - {e}) + {at[e.0] + [e.1]};
    }
  }

  /** The names in a directory that belong to directories. */
  function Subdirectories(store: Store, among: map<string, Id>): set<string> {
    set n | n in among && IsDirectory(store, among[n])
  }
}
