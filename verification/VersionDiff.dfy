/**
 The difference between two recorded versions of an agent: per capability name, added,
 removed or changed, in order of name.
 */
module VersionDiff {
  import opened Wrappers

  /** A capability entry: its name and everything else about it. */
  datatype Capability = Capability(name: string, body: string)

  datatype Version = Version(version: string, endpoint: string, capabilities: seq<Capability>,
                             metadata: map<string, string>)

  type Named = map<string, Capability>

  datatype Change =
    | Added(name: string, after: Capability)
    | Removed(name: string, before: Capability)
    | Changed(name: string, before: Capability, after: Capability)

  datatype Diff = Diff(versionChanged: bool, endpointChanged: bool, metadataChanged: bool, capabilities: seq<Change>)

  /** The entries by name; of several entries with one name the last counts. */
  function ByName(capabilities: seq<Capability>): Named {
    if capabilities == [] then map[]
    else
      var last := capabilities[|capabilities| - 1];
      ByName(capabilities[..|capabilities| - 1])[last.name := last]
  }

  /* ---------- the order of names ---------- */

  /** Lexicographic order by code point. */
  predicate Less(a: string, b: string) {
    b != "" && (a == "" || a[0] < b[0] || (a[0] == b[0] && Less(a[1..], b[1..])))
  }

  lemma {:induction false} LessTotal(a: string, b: string)
    ensures Less(a, b) || Less(b, a) || a == b
    ensures !(Less(a, b) && Less(b, a))
  {
    if a != "" && b != "" && a[0] == b[0] {
      LessTotal(a[1..], b[1..]);
      assert a == [a[0]] + a[1..] && b == [b[0]] + b[1..];
    }
  }

  /** `a` is a proper prefix of `b`, or smaller where they first differ, which is at `k`. */
  predicate Before(a: string, b: string, k: nat) {
    k <= |a| && k < |b| && a[..k] == b[..k] && (k < |a| ==> a[k] < b[k])
  }

  lemma BeforeTail(a: string, b: string, k: nat)
    requires a != "" && b != ""
    ensures Before(a, b, 0) <==> a[0] < b[0]
    ensures Before(a, b, k + 1) <==> a[0] == b[0] && Before(a[1..], b[1..], k)
  {
    if k + 1 <= |a| && k + 1 < |b| {
      var s, t := a[..k + 1], b[..k + 1];
      assert s == [a[0]] + a[1..][..k] && t == [b[0]] + b[1..][..k];
      assert s[0] == a[0] && s[1..] == a[1..][..k] && t[0] == b[0] && t[1..] == b[1..][..k];
      assert s == t <==> a[0] == b[0] && a[1..][..k] == b[1..][..k];
      assert k + 1 < |a| ==> a[1..][k] == a[k + 1];
      assert b[1..][k] == b[k + 1];
    }
  }

  /** The order of names is the lexicographic one by code point. */
  lemma {:induction false} LessIff(a: string, b: string)
    ensures Less(a, b) <==> exists k :: Before(a, b, k)
  {
    if a == "" {
      assert b != "" ==> Before(a, b, 0);
    } else if b != "" {
      LessIff(a[1..], b[1..]);
      BeforeTail(a, b, 0);
      if k: nat :| Before(a[1..], b[1..], k) {
        BeforeTail(a, b, k);
      }
      if k: nat :| Before(a, b, k) && k > 0 {
        BeforeTail(a, b, k - 1);
      }
    }
  }

  /** Entry `i` is the last one with the name. */
  predicate LastNamed(capabilities: seq<Capability>, i: nat, n: string)
    requires i < |capabilities|
  {
    capabilities[i].name == n && forall j :: i < j < |capabilities| ==> capabilities[j].name != n
  }

  /** Of the entries with one name the last is taken. */
  lemma {:induction false} ByNameIff(capabilities: seq<Capability>, n: string)
    ensures n in ByName(capabilities) <==> exists i :: 0 <= i < |capabilities| && capabilities[i].name == n
    ensures forall i :: 0 <= i < |capabilities| && LastNamed(capabilities, i, n) ==>
              ByName(capabilities)[n] == capabilities[i]
    decreases |capabilities|
  {
    if capabilities != [] {
      var init := capabilities[..|capabilities| - 1];
      ByNameIff(init, n);
      assert forall i :: 0 <= i < |init| ==> init[i] == capabilities[i];
    }
  }

  lemma {:induction false} LessIrreflexive(a: string)
    ensures !Less(a, a)
  {
    LessTotal(a, a);
  }

  lemma {:induction false} LessTransitive(a: string, b: string, c: string)
    requires Less(a, b) && Less(b, c)
    ensures Less(a, c)
  {
    if a != "" && a[0] == b[0] == c[0] {
      LessTransitive(a[1..], b[1..], c[1..]);
    }
  }

  predicate StrictlySorted(names: seq<string>) {
    forall i, j :: 0 <= i < j < |names| ==> Less(names[i], names[j])
  }

  /** Puts a new name into its place. */
  method InsertSorted(names: seq<string>, name: string) returns (r: seq<string>)
    requires StrictlySorted(names) && name !in names
    ensures StrictlySorted(r) && forall n :: n in r <==> n in names || n == name
  {
    var i := 0;
    while i < |names| && Less(names[i], name)
      invariant 0 <= i <= |names|
      invariant forall j :: 0 <= j < i ==> Less(names[j], name)
    {
      i := i + 1;
    }
    forall j | i <= j < |names|
      ensures Less(name, names[j])
    {
      LessTotal(names[i], name);
      if i < j {
        LessTransitive(name, names[i], names[j]);
      }
    }
    r := names[..i] + [name] + names[i..];
  }

  method SortNames(names: set<string>) returns (r: seq<string>)
    ensures StrictlySorted(r) && forall n :: n in r <==> n in names
  {
    r := [];
    var rest := names;
    while rest != {}
      invariant rest <= names && StrictlySorted(r)
      invariant forall n :: n in r <==> n in names - rest
      decreases rest
    {
      var n :| n in rest;
      r := InsertSorted(r, n);
      rest := rest - {n};
    }
  }

  /* ---------- differences ---------- */

  /** What happened to one name. */
  function ChangeOf(before: Named, after: Named, n: string): Option<Change> {
    if n !in before && n !in after then None
    else if n !in before then Some(Added(n, after[n]))
    else if n !in after then Some(Removed(n, before[n]))
    else if before[n] != after[n] then Some(Changed(n, before[n], after[n]))
    else None
  }

  predicate InOrder(changes: seq<Change>) {
    forall i, j :: 0 <= i < j < |changes| ==> Less(changes[i].name, changes[j].name)
  }

  /** The changes are those of all names that differ, once each and in order of name. */
  ghost predicate IsDiff(before: Named, after: Named, changes: seq<Change>) {
    && InOrder(changes)
    && (forall i :: 0 <= i < |changes| ==> ChangeOf(before, after, changes[i].name) == Some(changes[i]))
    && (forall n :: ChangeOf(before, after, n).Some? ==> ChangeOf(before, after, n).value in changes)
  }

  /** The changes found so far are those of the names already visited. */
  ghost predicate IsPartialDiff(before: Named, after: Named, visited: seq<string>, changes: seq<Change>) {
    && InOrder(changes)
    && (forall k :: 0 <= k < |changes| ==>
          changes[k].name in visited && ChangeOf(before, after, changes[k].name) == Some(changes[k]))
    && (forall n :: n in visited && ChangeOf(before, after, n).Some? ==> ChangeOf(before, after, n).value in changes)
  }

  /** Visiting a later name adds its change, if there is one. */
  lemma VisitName(before: Named, after: Named, visited: seq<string>, changes: seq<Change>, name: string)
    requires IsPartialDiff(before, after, visited, changes) && forall n :: n in visited ==> Less(n, name)
    ensures IsPartialDiff(before, after, visited + [name],
      match ChangeOf(before, after, name) { case None => changes case Some(c) => changes + [c] })
  {
    var c := ChangeOf(before, after, name);
    assert forall n :: n in visited + [name] <==> n in visited || n == name;
    if c.Some? {
      var longer := changes + [c.value];
      assert c.value in longer;
      assert forall k :: 0 <= k < |changes| ==> longer[k] == changes[k];
    }
  }

  function ListOf(c: Option<Change>): seq<Change> {
    match c
    case None => []
    case Some(change) => [change]
  }

  lemma NextName(before: Named, after: Named, names: seq<string>, i: nat, changes: seq<Change>)
    requires StrictlySorted(names) && i < |names| && IsPartialDiff(before, after, names[..i], changes)
    ensures IsPartialDiff(before, after, names[..i + 1], changes + ListOf(ChangeOf(before, after, names[i])))
  {
    assert names[..i + 1] == names[..i] + [names[i]];
    VisitName(before, after, names[..i], changes, names[i]);
    assert changes + [] == changes;
  }

  lemma AllNamesVisited(before: Named, after: Named, names: seq<string>, changes: seq<Change>)
    requires IsPartialDiff(before, after, names[..|names|], changes)
    requires forall n :: n in before || n in after ==> n in names
    ensures IsDiff(before, after, changes)
  {
    assert names[..|names|] == names;
  }

  method DiffCapabilities(before: seq<Capability>, after: seq<Capability>) returns (changes: seq<Change>)
    ensures IsDiff(ByName(before), ByName(after), changes)
  {
    var b, a := ByName(before), ByName(after);
    var names := SortNames(b.Keys + a.Keys);
    changes := [];
    for i := 0 to |names|
      invariant IsPartialDiff(b, a, names[..i], changes)
    {
      var name := names[i];
      assert name in names;
      NextName(b, a, names, i, changes);
      ghost var next := changes + ListOf(ChangeOf(b, a, name));
      if name !in b {
        changes := changes + [Added(name, a[name])];
      } else if name !in a {
        changes := changes + [Removed(name, b[name])];
      } else if b[name] != a[name] {
        changes := changes + [Changed(name, b[name], a[name])];
      }
      assert changes == next;
    }
    AllNamesVisited(b, a, names, changes);
  }

  datatype DiffError = RevisionsNotFound

  method DiffVersions(versions: map<int, Version>, fromRevision: int, toRevision: int)
    returns (r: Result<Diff, DiffError>)
    ensures r.Ok? <==> fromRevision in versions && toRevision in versions
    ensures r.Ok? ==>
              var before, after := versions[fromRevision], versions[toRevision];
              && IsDiff(ByName(before.capabilities), ByName(after.capabilities), r.value.capabilities)
              && (r.value.versionChanged <==> before.version != after.version)
              && (r.value.endpointChanged <==> before.endpoint != after.endpoint)
              && (r.value.metadataChanged <==> before.metadata != after.metadata)
  {
    if fromRevision !in versions || toRevision !in versions {
      return Err(RevisionsNotFound);
    }
    var before, after := versions[fromRevision], versions[toRevision];
    var changes := DiffCapabilities(before.capabilities, after.capabilities);
    r := Ok(Diff(before.version != after.version, before.endpoint != after.endpoint, before.metadata != after.metadata,
        changes));
  }

  /* ---------- patching ---------- */

  function ApplyChange(m: Named, c: Change): Named {
    match c
    case Added(n, after) => m[n := after]
    case Removed(n, _) => m - {n}
    case Changed(n, _, after) => m[n := after]
  }

  function Patch(m: Named, changes: seq<Change>): Named {
    if changes == [] then m else ApplyChange(Patch(m, changes[..|changes| - 1]), changes[|changes| - 1])
  }

  /** After a prefix of the changes, touched names are as after and the others as before. */
  lemma {:induction false} PatchPrefix(before: Named, after: Named, changes: seq<Change>, k: nat, n: string)
    requires IsDiff(before, after, changes) && k <= |changes|
    ensures var m := Patch(before, changes[..k]);
      if exists i :: 0 <= i < k && changes[i].name == n
      then (n in m <==> n in after) && (n in m ==> m[n] == after[n])
      else (n in m <==> n in before) && (n in m ==> m[n] == before[n])
  {
    if k > 0 {
      assert changes[..k][..k - 1] == changes[..k - 1];
      PatchPrefix(before, after, changes, k - 1, n);
      var c := changes[k - 1];
      assert ChangeOf(before, after, c.name) == Some(c);
    }
  }

  /** Applying the difference to the earlier capabilities gives the later ones. */
  lemma PatchGivesAfter(before: Named, after: Named, changes: seq<Change>)
    requires IsDiff(before, after, changes)
    ensures Patch(before, changes) == after
  {
    assert changes[..|changes|] == changes;
    forall n
      ensures n in Patch(before, changes) <==> n in after
      ensures n in after ==> Patch(before, changes)[n] == after[n]
    {
      PatchPrefix(before, after, changes, |changes|, n);
      if ChangeOf(before, after, n).Some? {
        var c := ChangeOf(before, after, n).value;
        var i :| 0 <= i < |changes| && changes[i] == c;
        assert changes[i].name == n;
      }
    }
  }

  /** The list is empty exactly when the two versions have the same capabilities. */
  lemma EmptyIffEqual(before: Named, after: Named, changes: seq<Change>)
    requires IsDiff(before, after, changes)
    ensures changes == [] <==> before == after
  {
    if changes == [] {
      PatchGivesAfter(before, after, changes);
    } else {
      assert ChangeOf(before, after, changes[0].name) == Some(changes[0]);
    }
  }

  function Mirror(c: Change): Change {
    match c
    case Added(n, after) => Removed(n, after)
    case Removed(n, before) => Added(n, before)
    case Changed(n, before, after) => Changed(n, after, before)
  }

  function MirrorAll(changes: seq<Change>): seq<Change> {
    seq(|changes|, i requires 0 <= i < |changes| => Mirror(changes[i]))
  }

  lemma ChangeMirrors(before: Named, after: Named, n: string)
    ensures ChangeOf(after, before, n) ==
      match ChangeOf(before, after, n) { case None => None case Some(c) => Some(Mirror(c)) }
  {
  }

  /** A strictly sorted list is determined by its elements. */
  lemma {:induction false} SortedDetermined(x: seq<string>, y: seq<string>)
    requires StrictlySorted(x) && StrictlySorted(y)
    requires forall n :: n in x <==> n in y
    ensures x == y
  {
    assert y != [] ==> y[0] in y;
    if x != [] {
      assert x[0] in y && y[0] in x;
      LessTotal(x[0], y[0]);
      assert x[0] == y[0];
      LessIrreflexive(x[0]);
      forall n
        ensures n in x[1..] <==> n in y[1..]
      {
        assert n in x <==> n == x[0] || n in x[1..];
        assert n in y <==> n == y[0] || n in y[1..];
        assert x[0] !in x[1..] && y[0] !in y[1..];
      }
      SortedDetermined(x[1..], y[1..]);
      assert x == [x[0]] + x[1..] && y == [y[0]] + y[1..];
    }
  }

  function Names(changes: seq<Change>): seq<string> {
    seq(|changes|, i requires 0 <= i < |changes| => changes[i].name)
  }

  lemma DiffNames(before: Named, after: Named, changes: seq<Change>, n: string)
    requires IsDiff(before, after, changes)
    ensures n in Names(changes) <==> ChangeOf(before, after, n).Some?
  {
    if n in Names(changes) {
      var i :| 0 <= i < |changes| && Names(changes)[i] == n;
      assert changes[i].name == n;
    }
    if ChangeOf(before, after, n).Some? {
      var i :| 0 <= i < |changes| && changes[i] == ChangeOf(before, after, n).value;
      assert Names(changes)[i] == n;
    }
  }

  /** A difference is determined by the two versions. */
  lemma DiffIsUnique(before: Named, after: Named, x: seq<Change>, y: seq<Change>)
    requires IsDiff(before, after, x) && IsDiff(before, after, y)
    ensures x == y
  {
    forall n
      ensures n in Names(x) <==> n in Names(y)
    {
      DiffNames(before, after, x, n);
      DiffNames(before, after, y, n);
    }
    assert StrictlySorted(Names(x)) && StrictlySorted(Names(y));
    SortedDetermined(Names(x), Names(y));
    forall i | 0 <= i < |x|
      ensures x[i] == y[i]
    {
      assert Names(x)[i] == x[i].name && Names(y)[i] == y[i].name;
      assert ChangeOf(before, after, x[i].name) == Some(x[i]) && ChangeOf(before, after, y[i].name) == Some(y[i]);
    }
  }

  lemma MirrorIsDiff(before: Named, after: Named, changes: seq<Change>)
    requires IsDiff(before, after, changes)
    ensures IsDiff(after, before, MirrorAll(changes))
  {
    var mirrored := MirrorAll(changes);
    assert InOrder(mirrored);
    forall i | 0 <= i < |mirrored|
      ensures ChangeOf(after, before, mirrored[i].name) == Some(mirrored[i])
    {
      assert ChangeOf(before, after, changes[i].name) == Some(changes[i]);
      ChangeMirrors(before, after, changes[i].name);
    }
    forall n | ChangeOf(after, before, n).Some?
      ensures ChangeOf(after, before, n).value in mirrored
    {
      ChangeMirrors(before, after, n);
      var i :| 0 <= i < |changes| && changes[i] == ChangeOf(before, after, n).value;
      assert mirrored[i] == ChangeOf(after, before, n).value;
    }
  }

  /** Swapping the revisions mirrors the difference, and the mirrored one undoes it. */
  lemma SwapMirrorsAndUndoes(before: Named, after: Named, changes: seq<Change>, swapped: seq<Change>)
    requires IsDiff(before, after, changes) && IsDiff(after, before, swapped)
    ensures swapped == MirrorAll(changes)
    ensures Patch(Patch(before, changes), swapped) == before
  {
    MirrorIsDiff(before, after, changes);
    DiffIsUnique(after, before, swapped, MirrorAll(changes));
    PatchGivesAfter(before, after, changes);
    PatchGivesAfter(after, before, swapped);
  }
}
