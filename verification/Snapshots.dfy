/**
 * The local work of one document write: the whole bundle is read as a list of
 * files, one entry of it is changed, and the list is sent back sorted by path.
 */
module Snapshots {
  import opened Text
  import Sorting

  type Bytes = string

  const MAX_SNAPSHOT_FILES: nat := 5_000
  const MAX_SNAPSHOT_BYTES: nat := 64 * 1024 * 1024

  /** One file of a snapshot. */
  datatype File = File(path: string, bytes: Bytes)

  /** One row of the snapshot query; the bytes are missing when the catalog does not keep them. */
  datatype Row = Row(path: string, bytes: Option<Bytes>)

  // ----- A list of files as a mapping -----

  function MapOf(files: seq<File>): (m: map<string, Bytes>)
    ensures forall p :: p in m <==> exists f :: f in files && f.path == p
  {
    if files == [] then map[]
    else
      var last := files[|files| - 1];
      assert files == files[..|files| - 1] + [last];
      MapOf(files[..|files| - 1])[last.path := last.bytes]
  }

  ghost predicate DistinctPaths(files: seq<File>) {
    forall i, j :: 0 <= i < j < |files| ==> files[i].path != files[j].path
  }

  predicate PathLe(a: File, b: File) {
    LexLe(a.path, b.path)
  }

  lemma PathLeIsTotal()
    ensures Sorting.TotalPreorder(PathLe)
  {
    forall a, b ensures PathLe(a, b) || PathLe(b, a) {
      LexTotal(a.path, b.path);
    }
    forall a, b, c | PathLe(a, b) && PathLe(b, c) ensures PathLe(a, c) {
      LexTransitive(a.path, b.path, c.path);
    }
  }

  /** With distinct paths the mapping is just what is listed. */
  lemma {:induction false} MapOfListed(files: seq<File>, f: File)
    requires DistinctPaths(files) && f in files
    ensures f.path in MapOf(files) && MapOf(files)[f.path] == f.bytes
  {
    var init, last := files[..|files| - 1], files[|files| - 1];
    assert files == init + [last];
    if f != last {
      assert f in init;
      MapOfListed(init, f);
    }
  }

  lemma MapOfIgnoresOrder(a: seq<File>, b: seq<File>)
    requires DistinctPaths(a) && DistinctPaths(b) && multiset(a) == multiset(b)
    ensures MapOf(a) == MapOf(b)
  {
    assert forall f :: f in a <==> f in multiset(a);
    assert forall f :: f in b <==> f in multiset(b);
    forall p | p in MapOf(a) ensures MapOf(b)[p] == MapOf(a)[p] {
      var f :| f in a && f.path == p;
      MapOfListed(a, f);
      MapOfListed(b, f);
    }
  }

  /** A permutation of a list with distinct paths has distinct paths. */
  lemma DistinctIgnoresOrder(a: seq<File>, b: seq<File>)
    requires DistinctPaths(a) && multiset(a) == multiset(b)
    ensures DistinctPaths(b)
  {
    forall i, j | 0 <= i < j < |b| ensures b[i].path != b[j].path {
      assert b[i] in multiset(a) && b[j] in multiset(a);
      var k :| 0 <= k < |a| && a[k] == b[i];
      var l :| 0 <= l < |a| && a[l] == b[j];
      if k == l {
        Twice(b, i, j);
        Once(a, k);
      }
    }
  }

  lemma Twice(s: seq<File>, i: nat, j: nat)
    requires i < j < |s| && s[i] == s[j]
    ensures multiset(s)[s[i]] >= 2
  {
    assert s == s[..i] + [s[i]] + s[i + 1..j] + [s[j]] + s[j + 1..];
    assert multiset(s) == multiset(s[..i]) + multiset{s[i]} + multiset(s[i + 1..j]) + multiset{s[j]} + multiset(s[j + 1..]);
  }

  lemma Once(s: seq<File>, k: nat)
    requires k < |s| && DistinctPaths(s)
    ensures multiset(s)[s[k]] == 1
  {
    assert s == s[..k] + [s[k]] + s[k + 1..];
    assert multiset(s) == multiset(s[..k]) + multiset{s[k]} + multiset(s[k + 1..]);
    assert s[k] !in s[..k] && s[k] !in s[k + 1..];
  }

  // ----- The local work of one write -----

  function SizeOf(rows: seq<Row>): nat {
    if rows == [] then 0
    else SizeOf(rows[..|rows| - 1]) + (match rows[|rows| - 1].bytes case Some(b) => |b| case None => 0)
  }

  /** The bundle can be sent back: every file's bytes are kept, and they fit. */
  predicate CanCarry(rows: seq<Row>) {
    (forall r :: r in rows ==> r.bytes.Some?) && SizeOf(rows) <= MAX_SNAPSHOT_BYTES
  }

  function FilesOf(rows: seq<Row>): (files: seq<File>)
    requires forall r :: r in rows ==> r.bytes.Some?
    ensures |files| == |rows|
    ensures forall i :: 0 <= i < |rows| ==> files[i] == File(rows[i].path, rows[i].bytes.value)
  {
    seq(|rows|, i requires 0 <= i < |rows| => File(rows[i].path, rows[i].bytes.value))
  }

  lemma {:induction false} PrefixSize(rows: seq<Row>, n: nat)
    requires n <= |rows|
    ensures SizeOf(rows[..n]) <= SizeOf(rows)
    decreases |rows| - n
  {
    if n < |rows| {
      PrefixSize(rows, n + 1);
      assert rows[..n + 1][..n] == rows[..n];
    } else {
      assert rows[..n] == rows;
    }
  }

  /** `snapshot`: every file as it stands, or nothing when one cannot be carried. */
  method Snapshot(rows: seq<Row>) returns (files: Option<seq<File>>)
    ensures files.Some? <==> CanCarry(rows)
    ensures files.Some? ==> files.value == FilesOf(rows)
  {
    if SizeOf(rows) > MAX_SNAPSHOT_BYTES {
      return None;
    }
    var carried := 0;
    var taken: seq<File> := [];
    for n := 0 to |rows|
      invariant forall r :: r in rows[..n] ==> r.bytes.Some?
      invariant taken == FilesOf(rows[..n])
      invariant carried == SizeOf(rows[..n])
    {
      assert rows[n] in rows;
      assert rows[..n + 1] == rows[..n] + [rows[n]];
      if rows[n].bytes.None? {
        return None;
      }
      carried := carried + |rows[n].bytes.value|;
      PrefixSize(rows, n + 1);
      if carried > MAX_SNAPSHOT_BYTES {
        return None;
      }
      taken := taken + [File(rows[n].path, rows[n].bytes.value)];
    }
    assert rows[..|rows|] == rows;
    return Some(taken);
  }

  /** What the contributed document becomes, from what is stored at its path. */
  type Contribution = Option<Bytes> -> Option<Bytes>

  function Lookup(files: map<string, Bytes>, path: string): Option<Bytes> {
    if path in files then Some(files[path]) else None
  }

  /**
   * The work of `put_document` on the snapshot: find the path, build the
   * document from what is stored there, replace or add it, and sort.
   */
  method PutInto(files: seq<File>, path: string, contribute: Contribution) returns (changed: Option<seq<File>>)
    requires DistinctPaths(files)
    ensures changed.Some? <==> contribute(Lookup(MapOf(files), path)).Some?
    ensures changed.Some? ==>
              && DistinctPaths(changed.value) && Sorting.SortedBy(changed.value, PathLe)
              && MapOf(changed.value) == MapOf(files)[path := contribute(Lookup(MapOf(files), path)).value]
  {
    var existing := 0;
    while existing < |files| && files[existing].path != path
      invariant 0 <= existing <= |files|
      invariant forall i :: 0 <= i < existing ==> files[i].path != path
    {
      existing := existing + 1;
    }
    if existing < |files| {
      MapOfListed(files, files[existing]);
    }
    var bytes := contribute(if existing < |files| then Some(files[existing].bytes) else None);
    if bytes.None? {
      return None;
    }
    var edited := if existing < |files| then files[existing := File(path, bytes.value)]
                  else files + [File(path, bytes.value)];
    EditedMap(files, path, bytes.value, existing, edited);
    PathLeIsTotal();
    var sorted := Sorting.Sort(edited, PathLe);
    DistinctIgnoresOrder(edited, sorted);
    MapOfIgnoresOrder(edited, sorted);
    return Some(sorted);
  }

  lemma EditedDistinct(files: seq<File>, path: string, bytes: Bytes, at: nat, edited: seq<File>)
    requires DistinctPaths(files) && at <= |files| && forall i :: 0 <= i < at ==> files[i].path != path
    requires at < |files| ==> files[at].path == path
    requires edited == if at < |files| then files[at := File(path, bytes)] else files + [File(path, bytes)]
    ensures DistinctPaths(edited)
    ensures forall i :: 0 <= i < |files| && i != at ==> files[i].path != path
  {
  }

  lemma EditedMap(files: seq<File>, path: string, bytes: Bytes, at: nat, edited: seq<File>)
    requires DistinctPaths(files) && at <= |files| && forall i :: 0 <= i < at ==> files[i].path != path
    requires at < |files| ==> files[at].path == path
    requires edited == if at < |files| then files[at := File(path, bytes)] else files + [File(path, bytes)]
    ensures DistinctPaths(edited) && MapOf(edited) == MapOf(files)[path := bytes]
  {
    hide MapOf;
    EditedDistinct(files, path, bytes, at, edited);
    hide DistinctPaths;
    var changed := MapOf(files)[path := bytes];
    assert edited[at] == File(path, bytes);
    forall f | f in edited ensures f.path in changed && changed[f.path] == f.bytes {
      var i :| 0 <= i < |edited| && edited[i] == f;
      if i != at {
        assert files[i] in files;
        MapOfListed(files, files[i]);
      }
    }
    forall p | p in changed ensures exists f :: f in edited && f.path == p {
      if p == path {
        assert edited[at] in edited;
      } else {
        var f :| f in files && f.path == p;
        var i :| 0 <= i < |files| && files[i] == f;
        assert edited[i] == f;
      }
    }
    forall p | p in MapOf(edited) ensures MapOf(edited)[p] == changed[p] {
      var f :| f in edited && f.path == p;
      MapOfListed(edited, f);
    }
  }

  /** The work of `delete_document`: keep every other file; refuse when the path is not there. */
  method DeleteFrom(files: seq<File>, path: string) returns (changed: Option<seq<File>>)
    requires DistinctPaths(files)
    ensures changed.Some? <==> path in MapOf(files)
    ensures changed.Some? ==> DistinctPaths(changed.value) && MapOf(changed.value) == MapOf(files) - {path}
    ensures changed.Some? && Sorting.SortedBy(files, PathLe) ==> Sorting.SortedBy(changed.value, PathLe)
  {
    var kept: seq<File> := [];
    ghost var from: seq<nat> := [];
    for n := 0 to |files|
      invariant |from| == |kept|
      invariant forall i :: 0 <= i < |kept| ==> from[i] < n && kept[i] == files[from[i]] && kept[i].path != path
      invariant forall i, j :: 0 <= i < j < |kept| ==> from[i] < from[j]
      invariant forall i :: 0 <= i < n && files[i].path != path ==> files[i] in kept
      invariant |kept| < n <==> exists i :: 0 <= i < n && files[i].path == path
      invariant |kept| <= n
    {
      if files[n].path != path {
        kept := kept + [files[n]];
        from := from + [n];
      }
    }
    if |kept| == |files| {
      return None;
    }
    RetainedMap(files, path, kept);
    return Some(kept);
  }

  lemma RetainedMap(files: seq<File>, path: string, kept: seq<File>)
    requires DistinctPaths(files) && DistinctPaths(kept)
    requires forall f :: f in kept <==> f in files && f.path != path
    ensures MapOf(kept) == MapOf(files) - {path}
  {
    hide MapOf, DistinctPaths;
    forall p | p in MapOf(kept) ensures p in MapOf(files) && MapOf(kept)[p] == MapOf(files)[p] {
      var f :| f in kept && f.path == p;
      MapOfListed(kept, f);
      MapOfListed(files, f);
    }
    forall p | p in MapOf(files) && p != path ensures p in MapOf(kept) {
      var f :| f in files && f.path == p;
      assert f in kept;
    }
  }
}
