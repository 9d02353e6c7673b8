/**
 * The two working folders of app.py (`downloads` and `temp`) as the service
 * sees them: a sequence of entries in the order `os.listdir` reports them,
 * each a base name, a modification time and a size. Deleting is filtering;
 * writing a name replaces any entry of that name.
 */
module Storage {
  import opened Text
  import Tasks
  import Files

  import opened Wrappers

  datatype FileEntry = FileEntry(name: string, mtime: real, size: int)

  type Folder = seq<FileEntry>

  /** The names, in listing order. */
  function Names(f: Folder): (r: seq<string>)
    ensures |r| == |f| && forall i :: 0 <= i < |f| ==> r[i] == f[i].name
  {
    seq(|f|, i requires 0 <= i < |f| => f[i].name)
  }

  function NameSet(f: Folder): set<string> {
    set e | e in f :: e.name
  }

  predicate HasName(f: Folder, n: string) {
    exists e :: e in f && e.name == n
  }

  /** The listing and the name set describe the same folder. */
  lemma NamesList(f: Folder)
    ensures Files.Lists(Names(f), NameSet(f))
  {
    var l := Names(f);
    forall n ensures n in l <==> n in NameSet(f) {
      if n in l {
        var i :| 0 <= i < |l| && l[i] == n;
        assert f[i] in f;
      }
      if n in NameSet(f) {
        var e :| e in f && e.name == n;
        var i :| 0 <= i < |f| && f[i] == e;
        assert l[i] == n;
      }
    }
  }

  /** `os.path.getsize` of the first entry named `n`, if any. */
  function SizeOf(f: Folder, n: string): (r: Option<int>)
    ensures r.Some? <==> HasName(f, n)
  {
    if |f| == 0 then None
    else if f[0].name == n then Some(f[0].size)
    else
      assert forall e :: e in f && e.name == n ==> e in f[1..];
      SizeOf(f[1..], n)
  }

  /** `os.remove` of name `n` (a no-op when it is absent). */
  function Without(f: Folder, n: string): (r: Folder)
    ensures forall e {:trigger e in r} {:trigger e in f} :: e in r <==> e in f && e.name != n
    ensures !HasName(r, n)
  {
    if |f| == 0 then []
    else
      assert f == [f[0]] + f[1..];
      (if f[0].name == n then [] else [f[0]]) + Without(f[1..], n)
  }

  /** Writing a whole file: the new entry replaces any entry of that name. */
  function Put(f: Folder, e: FileEntry): (r: Folder)
    ensures forall x {:trigger x in r} {:trigger x in f} :: x in r <==> (x in f && x.name != e.name) || x == e
    ensures SizeOf(r, e.name) == Some(e.size)
  {
    var rest := Without(f, e.name);
    SizeOfLast(rest, e);
    rest + [e]
  }

  lemma {:induction false} SizeOfLast(f: Folder, e: FileEntry)
    requires !HasName(f, e.name)
    ensures SizeOf(f + [e], e.name) == Some(e.size)
    decreases |f|
  {
    if |f| == 0 {
      assert f + [e] == [e];
    } else {
      assert f[0] in f;
      assert (f + [e])[1..] == f[1..] + [e];
      assert !HasName(f[1..], e.name) by {
        forall x | x in f[1..] ensures x.name != e.name {
          assert x in f;
        }
      }
      SizeOfLast(f[1..], e);
    }
  }

  /** Every entry named `source` takes the name `target`, listing order kept. */
  function Relabel(f: Folder, source: string, target: string): (r: Folder)
    ensures |r| == |f|
    ensures forall x: FileEntry {:trigger x in r} {:trigger x in f} :: x.name != source && x.name != target ==> (x in r <==> x in f)
    ensures source != target ==> !HasName(r, source)
  {
    if |f| == 0 then []
    else
      assert f == [f[0]] + f[1..];
      [if f[0].name == source then f[0].(name := target) else f[0]] + Relabel(f[1..], source, target)
  }

  /** `os.rename(source, target)`: any file named `target` is replaced, the entries named `source` take the name `target`. */
  function Rename(f: Folder, source: string, target: string): (r: Folder)
    ensures forall x: FileEntry {:trigger x in r} {:trigger x in f} :: x.name != source && x.name != target ==> (x in r <==> x in f)
    ensures !HasName(r, source) || source == target
  {
    Relabel(Without(f, target), source, target)
  }

  /** Removing one name leaves the size read under another name alone. */
  lemma {:induction false} SizeOfWithout(f: Folder, m: string, n: string)
    requires m != n
    ensures SizeOf(Without(f, m), n) == SizeOf(f, n)
    decreases |f|
  {
    if |f| > 0 {
      SizeOfWithout(f[1..], m, n);
      if f[0].name == m {
        assert Without(f, m) == Without(f[1..], m);
      } else {
        assert Without(f, m) == [f[0]] + Without(f[1..], m);
      }
    }
  }

  /** After renaming, the new name reads the size the old name had. */
  lemma {:induction false} SizeOfRelabel(f: Folder, source: string, target: string)
    requires !HasName(f, target)
    ensures SizeOf(Relabel(f, source, target), target) == SizeOf(f, source)
    decreases |f|
  {
    if |f| > 0 {
      assert f[0] in f;
      assert !HasName(f[1..], target) by {
        forall x | x in f[1..] ensures x.name != target {
          assert x in f;
        }
      }
      SizeOfRelabel(f[1..], source, target);
    }
  }

  /** A rename moves the size from the old name to the new one. */
  lemma SizeOfRename(f: Folder, source: string, target: string)
    requires source != target
    ensures SizeOf(Rename(f, source, target), target) == SizeOf(f, source)
  {
    SizeOfRelabel(Without(f, target), source, target);
    SizeOfWithout(f, target, source);
  }

  /** Several files written one after another. */
  function PutAll(f: Folder, es: seq<FileEntry>): (r: Folder)
    ensures forall x :: x in r ==> x in f || x in es
    ensures forall x :: x in f && (forall e :: e in es ==> e.name != x.name) ==> x in r
    decreases |es|
  {
    if |es| == 0 then f
    else PutAll(Put(f, es[0]), es[1..])
  }

  /** The name starts with none of the prefixes. */
  predicate Unprefixed(n: string, ps: set<string>) {
    forall p :: p in ps ==> !StartsWith(n, p)
  }

  /** The folder after every file whose name starts with one of `ps` is deleted, listing order kept. */
  function KeepUnprefixed(f: Folder, ps: set<string>): (r: Folder)
    ensures |r| <= |f|
  {
    if |f| == 0 then []
    else (if Unprefixed(f[0].name, ps) then [f[0]] else []) + KeepUnprefixed(f[1..], ps)
  }

  /** The entries kept are exactly those whose name carries none of the prefixes. */
  lemma {:induction false} KeepUnprefixedMembers(f: Folder, ps: set<string>)
    ensures forall e :: e in KeepUnprefixed(f, ps) <==> e in f && Unprefixed(e.name, ps)
    decreases |f|
  {
    if |f| > 0 {
      KeepUnprefixedMembers(f[1..], ps);
      assert f == [f[0]] + f[1..];
    }
  }

  /** Deleting by one set of prefixes and then by another is deleting by both at once. */
  lemma {:induction false} KeepUnprefixedCompose(f: Folder, s: set<string>, t: set<string>)
    ensures KeepUnprefixed(KeepUnprefixed(f, s), t) == KeepUnprefixed(f, s + t)
    decreases |f|
  {
    if |f| > 0 {
      KeepUnprefixedCompose(f[1..], s, t);
      var once := KeepUnprefixed(f, s);
      if Unprefixed(f[0].name, s) {
        assert once[0] == f[0] && once[1..] == KeepUnprefixed(f[1..], s);
      } else {
        assert once == KeepUnprefixed(f[1..], s);
      }
    }
  }

  /** Deleting by no prefix at all keeps the folder as it is. */
  lemma {:induction false} KeepUnprefixedNone(f: Folder)
    ensures KeepUnprefixed(f, {}) == f
    decreases |f|
  {
    if |f| > 0 {
      KeepUnprefixedNone(f[1..]);
      assert f == [f[0]] + f[1..];
    }
  }

  /** A second sweep for the same prefixes deletes nothing more. */
  lemma KeepUnprefixedIdempotent(f: Folder, s: set<string>)
    ensures KeepUnprefixed(KeepUnprefixed(f, s), s) == KeepUnprefixed(f, s)
  {
    KeepUnprefixedCompose(f, s, s);
    assert s + s == s;
  }

  /** Every name starts with the empty prefix, so deleting by it empties the folder. */
  lemma {:induction false} KeepUnprefixedEmpty(f: Folder)
    ensures KeepUnprefixed(f, {""}) == []
    decreases |f|
  {
    if |f| > 0 {
      assert StartsWith(f[0].name, "");
      KeepUnprefixedEmpty(f[1..]);
    }
  }

  /** Deleting by prefix distributes over concatenation. */
  lemma {:induction false} KeepUnprefixedAppend(a: Folder, b: Folder, ps: set<string>)
    ensures KeepUnprefixed(a + b, ps) == KeepUnprefixed(a, ps) + KeepUnprefixed(b, ps)
    decreases |a|
  {
    if |a| > 0 {
      KeepUnprefixedAppend(a[1..], b, ps);
      assert (a + b)[1..] == a[1..] + b;
    } else {
      assert a + b == b;
    }
  }

  /** Removing a prefixed name is invisible once the prefixed names are deleted. */
  lemma {:induction false} KeepUnprefixedWithout(f: Folder, n: string, ps: set<string>)
    requires !Unprefixed(n, ps)
    ensures KeepUnprefixed(Without(f, n), ps) == KeepUnprefixed(f, ps)
    decreases |f|
  {
    if |f| > 0 {
      KeepUnprefixedWithout(f[1..], n, ps);
      KeepUnprefixedAppend(if f[0].name == n then [] else [f[0]], Without(f[1..], n), ps);
    }
  }

  /** So is writing a prefixed name. */
  lemma KeepUnprefixedPut(f: Folder, e: FileEntry, ps: set<string>)
    requires !Unprefixed(e.name, ps)
    ensures KeepUnprefixed(Put(f, e), ps) == KeepUnprefixed(f, ps)
  {
    KeepUnprefixedWithout(f, e.name, ps);
    KeepUnprefixedAppend(Without(f, e.name), [e], ps);
  }

  /** And renaming between two prefixed names. */
  lemma {:induction false} KeepUnprefixedRelabel(f: Folder, source: string, target: string, ps: set<string>)
    requires !Unprefixed(source, ps) && !Unprefixed(target, ps)
    ensures KeepUnprefixed(Relabel(f, source, target), ps) == KeepUnprefixed(f, ps)
    decreases |f|
  {
    if |f| > 0 {
      KeepUnprefixedRelabel(f[1..], source, target, ps);
      var h := if f[0].name == source then f[0].(name := target) else f[0];
      KeepUnprefixedAppend([h], Relabel(f[1..], source, target), ps);
    }
  }

  lemma KeepUnprefixedRename(f: Folder, source: string, target: string, ps: set<string>)
    requires !Unprefixed(source, ps) && !Unprefixed(target, ps)
    ensures KeepUnprefixed(Rename(f, source, target), ps) == KeepUnprefixed(f, ps)
  {
    KeepUnprefixedWithout(f, target, ps);
    KeepUnprefixedRelabel(Without(f, target), source, target, ps);
  }

  lemma {:induction false} KeepUnprefixedPutAll(f: Folder, es: seq<FileEntry>, ps: set<string>)
    requires forall e :: e in es ==> !Unprefixed(e.name, ps)
    ensures KeepUnprefixed(PutAll(f, es), ps) == KeepUnprefixed(f, ps)
    decreases |es|
  {
    if |es| > 0 {
      assert es[0] in es;
      KeepUnprefixedPut(f, es[0], ps);
      assert forall e :: e in es[1..] ==> e in es;
      KeepUnprefixedPutAll(Put(f, es[0]), es[1..], ps);
    }
  }

  /**
   * The loop of the stall scan, the cancel route and the failure path: list
   * the folder and delete each name that starts with `prefix`.
   */
  method RemovePrefixed(f: Folder, prefix: string) returns (kept: Folder)
    ensures kept == KeepUnprefixed(f, {prefix})
  {
    kept := [];
    var i := 0;
    while i < |f|
      invariant 0 <= i <= |f|
      invariant kept + KeepUnprefixed(f[i..], {prefix}) == KeepUnprefixed(f, {prefix})
    {
      assert f[i..][1..] == f[i + 1..];
      if !StartsWith(f[i].name, prefix) {
        kept := kept + [f[i]];
      }
      i := i + 1;
    }
    assert f[i..] == [];
  }

  /** The folder after the janitor's pass at `now`, listing order kept. */
  function KeepSwept(f: Folder, progress: map<Tasks.TaskId, Tasks.TaskRecord>, now: real): Folder
  {
    if |f| == 0 then []
    else (if Tasks.JanitorDeletes(progress, f[0].name, f[0].mtime, now) then [] else [f[0]]) + KeepSwept(f[1..], progress, now)
  }

  /** The janitor keeps exactly the entries its rule does not delete. */
  lemma {:induction false} KeepSweptMembers(f: Folder, progress: map<Tasks.TaskId, Tasks.TaskRecord>, now: real)
    ensures forall e :: e in KeepSwept(f, progress, now) <==> e in f && !Tasks.JanitorDeletes(progress, e.name, e.mtime, now)
    decreases |f|
  {
    if |f| > 0 {
      KeepSweptMembers(f[1..], progress, now);
      assert f == [f[0]] + f[1..];
    }
  }

  lemma KeepSweptStep(f: Folder, i: nat, progress: map<Tasks.TaskId, Tasks.TaskRecord>, now: real)
    requires i < |f|
    ensures KeepSwept(f[i..], progress, now)
      == (if Tasks.JanitorDeletes(progress, f[i].name, f[i].mtime, now) then [] else [f[i]]) + KeepSwept(f[i + 1..], progress, now)
  {
    assert f[i..][1..] == f[i + 1..];
  }

  /** The janitor's loop over one folder. */
  method Sweep(f: Folder, progress: map<Tasks.TaskId, Tasks.TaskRecord>, now: real) returns (kept: Folder)
    ensures kept == KeepSwept(f, progress, now)
  {
    kept := [];
    var i := 0;
    assert f[0..] == f;
    while i < |f|
      invariant 0 <= i <= |f|
      invariant kept + KeepSwept(f[i..], progress, now) == KeepSwept(f, progress, now)
    {
      var e := f[i];
      ghost var rest := KeepSwept(f[i + 1..], progress, now);
      KeepSweptStep(f, i, progress, now);
      if !Tasks.JanitorDeletes(progress, e.name, e.mtime, now) {
        assert kept + [e] + rest == kept + ([e] + rest);
        kept := kept + [e];
      } else {
        assert [] + rest == rest;
      }
      i := i + 1;
    }
    assert f[i..] == [];
  }

  /** Files younger than the cleanup age survive the janitor whoever owns them. */
  lemma SweepKeepsRecent(f: Folder, progress: map<Tasks.TaskId, Tasks.TaskRecord>, now: real, e: FileEntry)
    requires e in f && now - e.mtime <= Tasks.CleanupAge
    ensures e in KeepSwept(f, progress, now)
  {
    KeepSweptMembers(f, progress, now);
  }
}
