/**
 Reducing the capabilities of a process: the list of capabilities to keep is cleared of duplicates in
 place, and everything that is not kept is put on the list to drop.
 */
module Capability {
  import opened Wrappers

  datatype Capability =
    | SysAdmin | Kill | Chown | DacOverride | DacReadSearch | Fowner | Fsetid | Setgid | Setuid | Setpcap
    | LinuxImmutable | NetBindService | NetBroadCast | NetAdmin | NetRaw | IpcLock | IpcOwner | SysModule
    | SysRawio | SysChroot | SysPtrace | SysPacct | Sysboot | SysNice | SysResource | SysTime | SysTtyConfig
    | Mknod | Lease | AuditWrite | AuditControl | Setfcap | MacOverride | MacAdmin | Syslog | WakeAlarm
    | BlockSuspend | AuditRead | InvalidValue

  datatype Error = EINVAL

  /** The capabilities in the order in which the source lists them. */
  function Nth(i: int): Capability {
    match i
    case 0 => SysAdmin case 1 => Kill case 2 => Chown case 3 => DacOverride case 4 => DacReadSearch
    case 5 => Fowner case 6 => Fsetid case 7 => Setgid case 8 => Setuid case 9 => Setpcap
    case 10 => LinuxImmutable case 11 => NetBindService case 12 => NetBroadCast case 13 => NetAdmin
    case 14 => NetRaw case 15 => IpcLock case 16 => IpcOwner case 17 => SysModule case 18 => SysRawio
    case 19 => SysChroot case 20 => SysPtrace case 21 => SysPacct case 22 => Sysboot case 23 => SysNice
    case 24 => SysResource case 25 => SysTime case 26 => SysTtyConfig case 27 => Mknod case 28 => Lease
    case 29 => AuditWrite case 30 => AuditControl case 31 => Setfcap case 32 => MacOverride
    case 33 => MacAdmin case 34 => Syslog case 35 => WakeAlarm case 36 => BlockSuspend case _ => AuditRead
  }

  const COUNT := 38

  function AllCapabilities(): seq<Capability> { seq(COUNT, i => Nth(i)) }

  ghost predicate NoDuplicates(s: seq<Capability>) {
    forall i, j :: 0 <= i < j < |s| ==> s[i] != s[j]
  }

  /** Position i holds the last occurrence of its capability. */
  ghost predicate IsLast(s: seq<Capability>, i: nat)
    requires i < |s|
  {
    s[i] !in s[i + 1..]
  }

  /** The positions from n on that hold a last occurrence, in order. */
  ghost function LastPositions(s: seq<Capability>, n: nat): (p: seq<nat>)
    requires n <= |s|
    ensures forall k :: 0 <= k < |p| ==> n <= p[k] < |s| && IsLast(s, p[k])
    ensures forall k, l :: 0 <= k < l < |p| ==> p[k] < p[l]
    ensures forall i :: n <= i < |s| && IsLast(s, i) ==> i in p
    decreases |s| - n
  {
    if n == |s| then [] else (if IsLast(s, n) then [n] else []) + LastPositions(s, n + 1)
  }

  function KeepLast(s: seq<Capability>): seq<Capability> {
    if s == [] then [] else (if s[0] in s[1..] then [] else [s[0]]) + KeepLast(s[1..])
  }

  /** `KeepLast` is what stands at the positions of the last occurrences, in the order of the list. */
  lemma KeepLastPositions(s: seq<Capability>)
    ensures var p := LastPositions(s, 0);
      |KeepLast(s)| == |p| && forall k :: 0 <= k < |p| ==> KeepLast(s)[k] == s[p[k]]
  {
    KeepLastFrom(s, 0);
    assert s[0..] == s;
  }

  lemma {:induction false} KeepLastFrom(s: seq<Capability>, n: nat)
    requires n <= |s|
    ensures var p := LastPositions(s, n);
      |KeepLast(s[n..])| == |p| && forall k :: 0 <= k < |p| ==> KeepLast(s[n..])[k] == s[p[k]]
    decreases |s| - n
  {
    if n < |s| {
      KeepLastFrom(s, n + 1);
      assert s[n..][1..] == s[n + 1..] && s[n..][0] == s[n];
    }
  }

  /** Each capability of the list is kept once. */
  lemma {:induction false} KeepLastOnce(s: seq<Capability>)
    ensures NoDuplicates(KeepLast(s))
    ensures forall c :: c in KeepLast(s) <==> c in s
  {
    if s == [] {
    } else {
      KeepLastOnce(s[1..]);
      assert s == [s[0]] + s[1..];
    }
  }

  lemma {:induction false} KeepLastOfDistinct(s: seq<Capability>)
    requires NoDuplicates(s)
    ensures KeepLast(s) == s
  {
    if s == [] {
    } else {
      KeepLastOfDistinct(s[1..]);
    }
  }

  function Erased(s: seq<Capability>, j: nat): seq<Capability>
    requires j < |s|
  {
    s[..j] + s[j + 1..]
  }

  /** Erasing an entry that occurs again later does not change what is kept. */
  lemma {:induction false} EraseEarlier(s: seq<Capability>, j: nat)
    requires j < |s| && s[j] in s[j + 1..]
    ensures KeepLast(Erased(s, j)) == KeepLast(s)
  {
    if j == 0 {
      assert Erased(s, 0) == s[1..];
    } else {
      EraseEarlier(s[1..], j - 1);
      var e := Erased(s, j);
      assert e[0] == s[0] && e[1..] == Erased(s[1..], j - 1);
      assert s[0] in s[1..] <==> s[0] in e[1..];
    }
  }

  /** The entry at k occurs nowhere else. */
  ghost predicate Unique(s: seq<Capability>, k: nat)
    requires k < |s|
  {
    forall m :: 0 <= m < |s| && m != k ==> s[m] != s[k]
  }

  lemma ErasedUnique(s: seq<Capability>, j: nat, i: nat)
    requires j < i < |s| && forall k :: i < k < |s| ==> Unique(s, k)
    ensures forall k :: i - 1 < k < |s| - 1 ==> Unique(Erased(s, j), k)
    ensures Erased(s, j)[i - 1] == s[i] && Erased(s, j)[i..] == s[i + 1..]
    ensures forall m :: j <= m < |s| - 1 ==> Erased(s, j)[m] == s[m + 1]
  {
    var e := Erased(s, j);
    forall k | i - 1 < k < |e| ensures Unique(e, k) {
      assert Unique(s, k + 1) && e[k] == s[k + 1];
      forall m | 0 <= m < |e| && m != k ensures e[m] != e[k] {
        assert e[m] == if m < j then s[m] else s[m + 1];
      }
    }
  }

  lemma OthersAreLeft(s: seq<Capability>, i: nat, j: nat)
    requires i < |s| && j < |s| && i != j && s[i] == s[j] && forall k :: i < k < |s| ==> Unique(s, k)
    ensures j < i && s[j] in s[j + 1..]
  {
    assert i < j <= j ==> Unique(s, j);
    assert j < i ==> s[j + 1..][i - j - 1] == s[i];
  }

  /** How far the backward pass has come: everything from j + 1 on, but r[i] itself, differs from r[i]. */
  ghost predicate Erasing(list: seq<Capability>, at: nat, r: seq<Capability>, i: nat, j: int) {
    && at < |list| && -1 <= j < |r| && i < |r| && i <= at && r[i] == list[at] && r[i + 1..] == list[at + 1..]
    && KeepLast(r) == KeepLast(list)
    && (forall k :: i < k < |r| ==> Unique(r, k))
    && (forall m :: j < m < |r| && m != i ==> r[m] != r[i])
  }

  lemma ErasingNext(list: seq<Capability>, at: nat, r: seq<Capability>, i: nat, j: nat)
    requires Erasing(list, at, r, i, j) && i != j && r[i] == r[j]
    ensures j < i && Erasing(list, at, Erased(r, j), i - 1, j - 1)
  {
    OthersAreLeft(r, i, j);
    EraseEarlier(r, j);
    ErasedUnique(r, j, i);
  }

  /** The inner loop: erases every other occurrence of the capability at `at`, all of which lie left of it. */
  method EraseOthers(list: seq<Capability>, at: nat) returns (r: seq<Capability>, i: nat)
    requires at < |list| && forall k :: at < k < |list| ==> Unique(list, k)
    ensures i <= at && i < |r| && r[i] == list[at] && KeepLast(r) == KeepLast(list) && r[i + 1..] == list[at + 1..]
    ensures forall k :: i <= k < |r| ==> Unique(r, k)
  {
    r, i := list, at;
    var j := |r| - 1;
    while j >= 0
      invariant Erasing(list, at, r, i, j)
    {
      if i != j && r[i] == r[j] {
        ErasingNext(list, at, r, i, j);
        r := Erased(r, j);
        if j < i {
          i := i - 1;
        }
      }
      j := j - 1;
    }
  }

  /** The de-duplication loop: what remains is the last occurrence of each capability, in order. */
  method RemoveDuplicates(list: seq<Capability>) returns (r: seq<Capability>)
    ensures r == KeepLast(list)
  {
    r := list;
    var i := |r| - 1;
    while i >= 0
      invariant -1 <= i < |r| && KeepLast(r) == KeepLast(list)
      invariant forall k :: i < k < |r| ==> Unique(r, k)
    {
      r, i := EraseOthers(r, i);
      i := i - 1;
    }
    forall a, b | 0 <= a < b < |r| ensures r[a] != r[b] {
      assert Unique(r, a);
    }
    KeepLastOfDistinct(r);
  }

  // ---------------------------------------------------------------- the capabilities to drop

  function Position(c: Capability): int {
    match c
    case SysAdmin => 0 case Kill => 1 case Chown => 2 case DacOverride => 3 case DacReadSearch => 4
    case Fowner => 5 case Fsetid => 6 case Setgid => 7 case Setuid => 8 case Setpcap => 9
    case LinuxImmutable => 10 case NetBindService => 11 case NetBroadCast => 12 case NetAdmin => 13
    case NetRaw => 14 case IpcLock => 15 case IpcOwner => 16 case SysModule => 17 case SysRawio => 18
    case SysChroot => 19 case SysPtrace => 20 case SysPacct => 21 case Sysboot => 22 case SysNice => 23
    case SysResource => 24 case SysTime => 25 case SysTtyConfig => 26 case Mknod => 27 case Lease => 28
    case AuditWrite => 29 case AuditControl => 30 case Setfcap => 31 case MacOverride => 32
    case MacAdmin => 33 case Syslog => 34 case WakeAlarm => 35 case BlockSuspend => 36 case AuditRead => 37
    case InvalidValue => -1
  }

  lemma Placed(i: nat)
    requires i < COUNT
    ensures Position(Nth(i)) == i
  {
  }

  lemma Listed(c: Capability)
    requires c != InvalidValue
    ensures 0 <= Position(c) < COUNT && Nth(Position(c)) == c
  {
  }

  /** The list written out in the source holds every capability but the invalid one, once. */
  lemma AllIsComplete()
    ensures NoDuplicates(AllCapabilities())
    ensures forall c :: c in AllCapabilities() <==> c != InvalidValue
  {
    var all := AllCapabilities();
    forall i | 0 <= i < |all| ensures Position(all[i]) == i {
      Placed(i);
    }
    forall c | c != InvalidValue ensures c in all {
      Listed(c);
      assert all[Position(c)] == c;
    }
  }

  /** Everything that is not kept is dropped, each capability once. */
  method DetermineCapabilitiesToDrop(keep: seq<Capability>) returns (drop: seq<Capability>)
    ensures NoDuplicates(drop)
    ensures forall c :: c in drop <==> c != InvalidValue && c !in keep
  {
    AllIsComplete();
    var all := AllCapabilities();
    drop := [];
    for k := 0 to |all|
      invariant NoDuplicates(drop)
      invariant forall c :: c in drop <==> c in all[..k] && c !in keep
    {
      if all[k] !in keep {
        drop := drop + [all[k]];
      }
    }
    assert all[..|all|] == all;
  }

  /** The lists that a reduction works with: rejected if and only if an invalid value is among those to keep. */
  method ReduceProcessCapabilitiesTo(capabilities: seq<Capability>)
    returns (r: Result<(seq<Capability>, seq<Capability>), Error>)
    ensures r.Err? <==> InvalidValue in capabilities
    ensures r.Ok? ==> var (keep, drop) := r.value;
      && keep == KeepLast(capabilities)
      && NoDuplicates(keep + drop)
      && (forall c :: c in keep <==> c in capabilities)
      && (forall c :: c in keep + drop <==> c != InvalidValue)
  {
    for k := 0 to |capabilities|
      invariant InvalidValue !in capabilities[..k]
    {
      if capabilities[k] == InvalidValue {
        return Err(EINVAL);
      }
    }
    assert capabilities[..|capabilities|] == capabilities;
    var keep := RemoveDuplicates(capabilities);
    KeepLastOnce(capabilities);
    var drop := DetermineCapabilitiesToDrop(keep);
    forall a, b | 0 <= a < |keep| && 0 <= b < |drop| ensures keep[a] != drop[b] {
      assert drop[b] in drop && keep[a] in keep;
    }
    r := Ok((keep, drop));
  }
}
