/** Which runtime trees are packed, in terms of their entries alone, and what stands in the
    headers of a packed archive. */
module RuntimeTree {
  import opened J = Json
  import Pointers
  import opened Hashing
  import opened RuntimeArchive

  // ----- files of a tree -----

  /** The bytes of the regular files. */
  function FileBytes(entries: seq<TreeEntry>): nat {
    if entries == [] then 0
    else (match entries[0].kind case Regular(n) => n case _ => 0) + FileBytes(entries[1..])
  }

  function Files(entries: seq<TreeEntry>): set<int> {
    set i | 0 <= i < |entries| && entries[i].kind.Regular?
  }

  lemma {:induction false} FileBytesNext(entries: seq<TreeEntry>, e: TreeEntry)
    ensures FileBytes(entries + [e]) == FileBytes(entries) + match e.kind case Regular(n) => n case _ => 0
  {
    if entries != [] {
      FileBytesNext(entries[1..], e);
      assert (entries + [e])[1..] == entries[1..] + [e];
    } else {
      assert [e][1..] == [];
    }
  }

  lemma {:induction false} SizeIsFileBytes(entries: seq<TreeEntry>)
    ensures TotalSize(entries) == FileBytes(entries)
    decreases |entries|
  {
    if entries != [] {
      var front, last := entries[..|entries| - 1], entries[|entries| - 1];
      SizeIsFileBytes(front);
      FileBytesNext(front, last);
      assert entries == front + [last];
    }
  }

  lemma {:induction false} PathsAreFiles(entries: seq<TreeEntry>)
    ensures |RegularPaths(entries)| == |Files(entries)|
    ensures forall p :: p in RegularPaths(entries) <==> exists e :: e in entries && e.kind.Regular? && e.path == p
    decreases |entries|
  {
    if entries != [] {
      var n := |entries| - 1;
      var front, last := entries[..n], entries[n];
      PathsAreFiles(front);
      assert entries == front + [last];
      assert Files(entries) == Files(front) + if last.kind.Regular? then {n} else {};
    }
  }

  /** No two regular files are alike under case folding. */
  predicate NoAlias(fold: string -> string, entries: seq<TreeEntry>) {
    forall i, j :: 0 <= i < j < |entries| && entries[i].kind.Regular? && entries[j].kind.Regular? ==>
      fold(entries[i].path) != fold(entries[j].path)
  }

  lemma NoAliasNext(fold: string -> string, entries: seq<TreeEntry>, e: TreeEntry)
    ensures NoAlias(fold, entries + [e]) <==>
      NoAlias(fold, entries) && (e.kind.Regular? ==> forall x :: x in entries && x.kind.Regular? ==> fold(x.path) != fold(e.path))
  {
    var now := entries + [e];
    assert now[|entries|] == e && forall i :: 0 <= i < |entries| ==> now[i] == entries[i];
    if NoAlias(fold, now) && e.kind.Regular? {
      forall x | x in entries && x.kind.Regular? ensures fold(x.path) != fold(e.path) {
        var i :| 0 <= i < |entries| && entries[i] == x;
        assert now[i] == x;
      }
    }
  }

  lemma AliasOfFile(fold: string -> string, entries: seq<TreeEntry>, path: string)
    ensures fold(path) in Aliases(fold, RegularPaths(entries)) <==>
      exists x :: x in entries && x.kind.Regular? && fold(x.path) == fold(path)
  {
    PathsAreFiles(entries);
    var paths := RegularPaths(entries);
    if fold(path) in Aliases(fold, paths) {
      var k :| 0 <= k < |paths| && fold(paths[k]) == fold(path);
      assert paths[k] in paths;
    }
    forall x | x in entries && x.kind.Regular? && fold(x.path) == fold(path) ensures fold(path) in Aliases(fold, paths) {
      assert x.path in paths;
    }
  }

  lemma {:induction false} DistinctIsNoAlias(fold: string -> string, entries: seq<TreeEntry>)
    ensures FoldDistinct(fold, RegularPaths(entries)) <==> NoAlias(fold, entries)
    decreases |entries|
  {
    if entries != [] {
      var front, last := entries[..|entries| - 1], entries[|entries| - 1];
      assert entries == front + [last];
      DistinctIsNoAlias(fold, front);
      NoAliasNext(fold, front, last);
      var paths := RegularPaths(front);
      AliasesNext(fold, paths, last.path);
      AliasOfFile(fold, front, last.path);
      assert RegularPaths(entries) == if last.kind.Regular? then paths + [last.path] else paths by { TreeNext(front, last); }
    }
  }

  // ----- paths -----

  lemma {:induction false} KeptExactly(words: seq<string>)
    ensures forall w :: w in Kept(words) <==> w in words && w != "" && w != "."
  {
    if words != [] {
      KeptExactly(words[1..]);
    }
  }

  /** A path that can be written: relative, never stepping up, naming something, and leaving
      the manifest's name alone. */
  ghost predicate Writable(path: string) {
    && (path == "" || path[0] != '/')
    && ".." !in Pointers.Split(path, '/')
    && (exists w :: w in Pointers.Split(path, '/') && w != "" && w != ".")
    && path != "runtime-manifest.json"
  }

  lemma WritableExactly(path: string)
    ensures Writable(path) <==> SafeRelative(path) && SafeMemberName(path) && path != MANIFEST
  {
    KeptExactly(Pointers.Split(path, '/'));
    assert Parts(path) != [] <==> exists w :: w in Parts(path) by {
      if Parts(path) != [] { assert Parts(path)[0] in Parts(path); }
    }
  }

  // ----- packing -----

  ghost predicate HasFile(entries: seq<TreeEntry>, path: string) {
    exists e :: e in entries && e.kind.Regular? && e.path == path
  }

  /** Nothing but directories and files with writable paths. */
  ghost predicate AllWritable(entries: seq<TreeEntry>) {
    && (forall e :: e in entries ==> e.kind != Symlink && e.kind != Special)
    && (forall e :: e in entries && e.kind.Regular? ==> Writable(e.path))
  }

  lemma AllWritableExactly(entries: seq<TreeEntry>)
    ensures AllWritable(entries) <==>
      EntriesAdmissible(entries) && AllSafe(RegularPaths(entries)) && MANIFEST !in RegularPaths(entries)
  {
    PathsAreFiles(entries);
    forall e | e in entries && e.kind.Regular?
      ensures e.path in RegularPaths(entries)
      ensures Writable(e.path) <==> SafeRelative(e.path) && SafeMemberName(e.path) && e.path != MANIFEST
    {
      WritableExactly(e.path);
    }
    assert EntriesAdmissible(entries) ==> forall e :: e in entries ==> EntryAdmissible(e);
  }

  ghost predicate HasRequired(entries: seq<TreeEntry>) {
    && HasFile(entries, "browser/camoufox.exe")
    && HasFile(entries, "camouhost/real.py")
    && HasFile(entries, "camouhost/resolved-runtime.json")
    && HasFile(entries, "camouhost/runtime-lock.json")
    && HasFile(entries, "python/python.exe")
  }

  lemma HasRequiredExactly(entries: seq<TreeEntry>)
    ensures HasRequired(entries) <==> HoldsRequired(RegularPaths(entries))
  {
    PathsAreFiles(entries);
    assert forall p :: p in RegularPaths(entries) <==> HasFile(entries, p);
  }

  lemma Assembled(fold: string -> string, entries: seq<TreeEntry>, writable: bool, apart: bool, required: bool, bytes: nat, count: nat)
    requires writable <==> EntriesAdmissible(entries) && AllSafe(RegularPaths(entries)) && MANIFEST !in RegularPaths(entries)
    requires apart <==> FoldDistinct(fold, RegularPaths(entries))
    requires required <==> HoldsRequired(RegularPaths(entries))
    requires bytes == TotalSize(entries) && count == |RegularPaths(entries)|
    ensures Packable(fold, entries) <==> writable && apart && required && bytes <= 4_294_967_296 && count <= 500_000
  {
  }

  /** A tree is packed exactly when nothing in it is a symbolic link or a special entry, each
      of its files has a writable path, no two are alike under case folding, they are at most
      half a million and four gibibytes, and the five required ones are among them. */
  lemma PackableExactly(fold: string -> string, entries: seq<TreeEntry>)
    ensures Packable(fold, entries) <==>
      && AllWritable(entries) && NoAlias(fold, entries) && HasRequired(entries)
      && FileBytes(entries) <= 4_294_967_296 && |Files(entries)| <= 500_000
  {
    SizeIsFileBytes(entries);
    assert |RegularPaths(entries)| == |Files(entries)| by { PathsAreFiles(entries); }
    DistinctIsNoAlias(fold, entries);
    AllWritableExactly(entries);
    HasRequiredExactly(entries);
    Assembled(fold, entries, AllWritable(entries), NoAlias(fold, entries), HasRequired(entries), FileBytes(entries), |Files(entries)|);
  }

  // ----- the headers of a packed archive -----

  /** Every member of an accepted archive is a regular file of mode 0644 without owner or
      time, its payload hashes to what the inventory or the manifest says, and the members
      stand in strictly ascending order of their names. */
  lemma AcceptedHeaders(h: Hasher, parse: Bytes -> Option<seq<Row>>, archive: Archive, manifest: Bytes, i: nat)
    requires Accepted(h, parse, archive, manifest) && i < |archive.members|
    ensures var m := archive.members[i];
      && m.regular && m.mode == 420 && m.uid == 0 && m.gid == 0 && m.mtime == 0 && m.uname == "" && m.gname == ""
      && |m.payload| >= m.size
  {
    assert MemberMatches(h, archive.members[i], Expected(h, parse(manifest).value, manifest)[i]);
  }
}
