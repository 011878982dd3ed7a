/** The runtime archive: listing the tree, writing its members, and the streaming
    verifier that must agree with the writer. */
module RuntimeArchive {
  import opened J = Json
  import Pointers
  import opened Sorting
  import opened Hashing

  const MAX_RUNTIME_FILES := 500_000
  const MAX_RUNTIME_BYTES := 4 * 1024 * 1024 * 1024
  const BLOCK := 1024 * 1024
  const MANIFEST := "runtime-manifest.json"
  const REQUIRED_RUNTIME_PATHS := {
    "browser/camoufox.exe", "camouhost/real.py", "camouhost/resolved-runtime.json",
    "camouhost/runtime-lock.json", "python/python.exe"}

  // ----- listing the tree -----

  datatype Kind = Symlink | Directory | Regular(size: nat) | Special
  datatype TreeEntry = TreeEntry(path: string, kind: Kind)

  /** The parts of a pure POSIX path: empty ones and "." collapse. */
  function Parts(path: string): seq<string> {
    Kept(Pointers.Split(path, '/'))
  }

  function Kept(words: seq<string>): seq<string> {
    if words == [] then []
    else if words[0] == "" || words[0] == "." then Kept(words[1..])
    else [words[0]] + Kept(words[1..])
  }

  predicate SafeRelative(path: string) {
    !("/" <= path) && ".." !in Parts(path)
  }

  function RegularSize(e: TreeEntry): nat {
    if e.kind.Regular? then e.kind.size else 0
  }

  function TotalSize(entries: seq<TreeEntry>): nat {
    if entries == [] then 0 else TotalSize(entries[..|entries| - 1]) + RegularSize(entries[|entries| - 1])
  }

  function RegularPaths(entries: seq<TreeEntry>): seq<string> {
    if entries == [] then []
    else
      var e := entries[|entries| - 1];
      RegularPaths(entries[..|entries| - 1]) + if e.kind.Regular? then [e.path] else []
  }

  /** No two paths are alike under case folding. */
  predicate FoldDistinct(fold: string -> string, paths: seq<string>) {
    forall i, j :: 0 <= i < j < |paths| ==> fold(paths[i]) != fold(paths[j])
  }

  predicate EntryAdmissible(e: TreeEntry) {
    !e.kind.Symlink? && !e.kind.Special? && (e.kind.Regular? ==> SafeRelative(e.path))
  }

  predicate EntriesAdmissible(entries: seq<TreeEntry>) {
    forall i :: 0 <= i < |entries| ==> EntryAdmissible(entries[i])
  }

  predicate HoldsRequired(paths: seq<string>) {
    forall p :: p in REQUIRED_RUNTIME_PATHS ==> p in paths
  }

  predicate TreeAdmissible(fold: string -> string, entries: seq<TreeEntry>) {
    && EntriesAdmissible(entries)
    && FoldDistinct(fold, RegularPaths(entries))
    && TotalSize(entries) <= MAX_RUNTIME_BYTES
    && |RegularPaths(entries)| <= MAX_RUNTIME_FILES
  }

  lemma {:induction false} TreePrefix(fold: string -> string, entries: seq<TreeEntry>, k: nat)
    requires k <= |entries| && TreeAdmissible(fold, entries)
    ensures TreeAdmissible(fold, entries[..k])
    decreases |entries|
  {
    if k < |entries| {
      var n := |entries| - 1;
      assert RegularPaths(entries[..n]) <= RegularPaths(entries);
      assert entries[..n][..k] == entries[..k];
      TreePrefix(fold, entries[..n], k);
    } else {
      assert entries[..k] == entries;
    }
  }

  /** `register_casefold_unique_path`: refuses exactly a path alike under folding to an
      earlier one. */
  method RegisterCasefoldUniquePath(fold: string -> string, relative: string, observed: set<string>, ghost files: seq<string>)
    returns (ok: bool, extended: set<string>)
    requires FoldDistinct(fold, files) && observed == Aliases(fold, files)
    ensures ok <==> FoldDistinct(fold, files + [relative])
    ensures ok ==> extended == Aliases(fold, files + [relative])
  {
    AliasesNext(fold, files, relative);
    var alias := fold(relative);
    if alias in observed {
      return false, observed;
    }
    return true, observed + {alias};
  }

  function Aliases(fold: string -> string, files: seq<string>): set<string> {
    set k | 0 <= k < |files| :: fold(files[k])
  }

  lemma AliasesNext(fold: string -> string, files: seq<string>, path: string)
    ensures Aliases(fold, files + [path]) == Aliases(fold, files) + {fold(path)}
    ensures FoldDistinct(fold, files + [path]) <==> FoldDistinct(fold, files) && fold(path) !in Aliases(fold, files)
  {
    var now := files + [path];
    assert now[|files|] == path && forall k :: 0 <= k < |files| ==> now[k] == files[k];
  }

  /** What one more entry adds. */
  lemma TreeNext(entries: seq<TreeEntry>, e: TreeEntry)
    ensures RegularPaths(entries + [e]) == RegularPaths(entries) + if e.kind.Regular? then [e.path] else []
    ensures TotalSize(entries + [e]) == TotalSize(entries) + RegularSize(e)
    ensures EntriesAdmissible(entries + [e]) <==> EntriesAdmissible(entries) && EntryAdmissible(e)
  {
    var now := entries + [e];
    assert now[..|entries|] == entries && now[|entries|] == e;
    assert forall i :: 0 <= i < |entries| ==> now[i] == entries[i];
  }

  lemma RefusedPrefix(fold: string -> string, entries: seq<TreeEntry>, k: nat)
    requires k <= |entries| && !TreeAdmissible(fold, entries[..k])
    ensures !TreeAdmissible(fold, entries)
  {
    if TreeAdmissible(fold, entries) {
      TreePrefix(fold, entries, k);
    }
  }

  /** `runtime_tree_files`: succeeds exactly on an admissible tree that holds the
      required paths, and lists its regular files in the order given. */
  method RuntimeTreeFiles(fold: string -> string, entries: seq<TreeEntry>) returns (ok: bool, files: seq<string>)
    ensures ok <==> TreeAdmissible(fold, entries) && HoldsRequired(RegularPaths(entries))
    ensures ok ==> files == RegularPaths(entries)
  {
    files := [];
    var observed: set<string> := {};
    var total := 0;
    for i := 0 to |entries|
      invariant TreeAdmissible(fold, entries[..i])
      invariant files == RegularPaths(entries[..i]) && total == TotalSize(entries[..i])
      invariant observed == Aliases(fold, files)
    {
      var e := entries[i];
      assert entries[..i + 1] == entries[..i] + [e];
      TreeNext(entries[..i], e);
      ok, files, observed, total := TakeEntry(fold, entries[..i], e, files, observed, total);
      if !ok {
        RefusedPrefix(fold, entries, i + 1);
        return;
      }
    }
    assert entries[..|entries|] == entries;
    ok := HoldsRequired(files);
  }

  /** One turn of the loop. */
  method TakeEntry(fold: string -> string, ghost before: seq<TreeEntry>, e: TreeEntry, files: seq<string>, observed: set<string>, total: nat)
    returns (ok: bool, nowFiles: seq<string>, nowObserved: set<string>, nowTotal: nat)
    requires TreeAdmissible(fold, before)
    requires files == RegularPaths(before) && total == TotalSize(before) && observed == Aliases(fold, files)
    ensures ok <==> TreeAdmissible(fold, before + [e])
    ensures ok ==> nowFiles == RegularPaths(before + [e]) && nowTotal == TotalSize(before + [e]) && nowObserved == Aliases(fold, nowFiles)
  {
    TreeNext(before, e);
    nowFiles, nowObserved, nowTotal := files, observed, total;
    if e.kind.Symlink? || e.kind.Special? { return false, nowFiles, nowObserved, nowTotal; }
    if e.kind.Regular? {
      if !SafeRelative(e.path) { return false, nowFiles, nowObserved, nowTotal; }
      var free;
      free, nowObserved := RegisterCasefoldUniquePath(fold, e.path, observed, files);
      nowTotal := total + e.kind.size;
      nowFiles := files + [e.path];
      ok := free && nowTotal <= MAX_RUNTIME_BYTES && |nowFiles| <= MAX_RUNTIME_FILES;
    } else {
      ok := true;
    }
  }

  // ----- members -----

  /** One archive member as a reader meets it: its header, and the payload bytes that
      can actually be read. */
  datatype Member = Member(name: string, regular: bool, size: nat, mode: nat, uid: int, gid: int, mtime: int,
                           uname: string, gname: string, payload: Bytes)

  /** `clean` says that after the last member the TAR stream ends rather than breaks, and
      `footer` that the rest of the gzip stream reads through its checksum. */
  datatype Archive = Archive(members: seq<Member>, clean: bool, footer: bool)

  datatype Item = Item(name: string, data: Bytes)
  datatype Row = Row(path: string, size: nat, sha: string)

  /** `deterministic_member` rejects these names. */
  predicate SafeMemberName(name: string) {
    !("/" <= name) && ".." !in Parts(name) && Parts(name) != []
  }

  /** Mode 0o644, no owner, no time. */
  function CanonicalMember(item: Item): Member {
    Member(item.name, true, |item.data|, 420, 0, 0, 0, "", "", item.data)
  }

  function ItemKey(item: Item): Key { Text(item.name) }
  function RowKey(row: Row): Key { Text(row.path) }

  function ArchiveOf(items: seq<Item>): Archive {
    Archive(Mapped(CanonicalMember, Sorted(items, ItemKey)), true, true)
  }

  method WriteMembers(ordered: seq<Item>) returns (r: Option<seq<Member>>)
    ensures r.Some? <==> forall i :: 0 <= i < |ordered| ==> SafeMemberName(ordered[i].name)
    ensures r.Some? ==> r.value == Mapped(CanonicalMember, ordered)
  {
    var members: seq<Member> := [];
    for i := 0 to |ordered|
      invariant forall k :: 0 <= k < i ==> SafeMemberName(ordered[k].name)
      invariant |members| == i && forall k :: 0 <= k < i ==> members[k] == CanonicalMember(ordered[k])
    {
      if !SafeMemberName(ordered[i].name) {
        return None;
      }
      members := members + [CanonicalMember(ordered[i])];
    }
    assert members == Mapped(CanonicalMember, ordered);
    r := Some(members);
  }

  /** `deterministic_archive`: the manifest and the files, by name. */
  method DeterministicArchive(manifest: Bytes, files: seq<Item>) returns (r: Option<Archive>)
    ensures r.Some? <==> forall item :: item in [Item(MANIFEST, manifest)] + files ==> SafeMemberName(item.name)
    ensures r.Some? ==> r.value == ArchiveOf([Item(MANIFEST, manifest)] + files)
  {
    var items := [Item(MANIFEST, manifest)] + files;
    var ordered := Sorted(items, ItemKey);
    SameElements(items, ordered);
    var members := WriteMembers(ordered);
    if members.None? {
      return None;
    }
    r := Some(Archive(members.value, true, true));
  }

  // ----- the inventory -----

  /** `entries[path] = (size, sha)`. */
  function PutRow(rows: seq<Row>, row: Row): seq<Row> {
    if rows == [] then [row]
    else if rows[0].path == row.path then [row] + rows[1..]
    else [rows[0]] + PutRow(rows[1..], row)
  }

  function RowsDict(rows: seq<Row>): seq<Row> {
    if rows == [] then [] else PutRow(RowsDict(rows[..|rows| - 1]), rows[|rows| - 1])
  }

  function ManifestRow(h: Hasher, manifest: Bytes): Row {
    Row(MANIFEST, |manifest|, Hash(h, manifest))
  }

  /** The inventory in the order the verifier walks it. */
  function Expected(h: Hasher, rows: seq<Row>, manifest: Bytes): seq<Row> {
    Sorted(PutRow(RowsDict(rows), ManifestRow(h, manifest)), RowKey)
  }

  predicate MemberMatches(h: Hasher, member: Member, row: Row) {
    && member.name == row.path && member.regular && member.size == row.size
    && member.uid == 0 && member.gid == 0 && member.mtime == 0 && member.mode == 420
    && member.uname == "" && member.gname == ""
    && |member.payload| >= row.size
    && Hash(h, member.payload[..row.size]) == row.sha
  }

  predicate MembersMatch(h: Hasher, members: seq<Member>, rows: seq<Row>) {
    |members| == |rows| && forall i :: 0 <= i < |members| ==> MemberMatches(h, members[i], rows[i])
  }

  predicate Accepted(h: Hasher, parse: Bytes -> Option<seq<Row>>, archive: Archive, manifest: Bytes) {
    && parse(manifest).Some?
    && MembersMatch(h, archive.members, Expected(h, parse(manifest).value, manifest))
    && archive.clean && archive.footer
  }

  // ----- the streaming verifier -----

  /** `source.read(limit)`: at least one byte and at most `limit`, unless nothing is left. */
  method ReadBlock(payload: Bytes, position: nat, limit: nat) returns (block: Bytes)
    requires position <= |payload| && limit > 0
    ensures block == [] <==> position == |payload|
    ensures |block| <= limit && position + |block| <= |payload|
    ensures block == payload[position..position + |block|]
  {
    if position == |payload| {
      return [];
    }
    var n: nat :| 1 <= n <= limit && position + n <= |payload|;
    block := payload[position..position + n];
  }

  /** The chunked loop: however the blocks fall, the digest is that of the first `size`
      bytes, and a short payload is noticed. */
  method HashPayload(h: Hasher, payload: Bytes, size: nat) returns (ok: bool, digest: string)
    ensures ok <==> |payload| >= size
    ensures ok ==> digest == Hash(h, payload[..size])
  {
    var observed := h.init;
    var remaining: nat := size;
    var position := 0;
    while remaining > 0
      invariant position + remaining == size && position <= |payload|
      invariant observed == Absorb(h, h.init, payload[..position])
      decreases remaining
    {
      var block := ReadBlock(payload, position, if BLOCK < remaining then BLOCK else remaining);
      if block == [] {
        return false, "";
      }
      AbsorbChunks(h, h.init, payload[..position], block);
      assert payload[..position] + block == payload[..position + |block|];
      observed := Absorb(h, observed, block);
      remaining := remaining - |block|;
      position := position + |block|;
    }
    assert position == size;
    return true, h.digest(observed);
  }

  /** One turn of the loop: the header, then the payload. */
  method VerifyMember(h: Hasher, member: Member, row: Row) returns (ok: bool)
    ensures ok <==> MemberMatches(h, member, row)
  {
    if member.name != row.path || !member.regular || member.size != row.size || member.uid != 0 || member.gid != 0
       || member.mtime != 0 || member.mode != 420 || member.uname != "" || member.gname != "" {
      return false;
    }
    var whole, digest := HashPayload(h, member.payload, row.size);
    ok := whole && digest == row.sha;
  }

  /** The loop over the inventory. */
  method VerifyMembers(h: Hasher, members: seq<Member>, expected: seq<Row>) returns (ok: bool)
    ensures ok <==> MembersMatch(h, members, expected)
  {
    for i := 0 to |expected|
      invariant i <= |members|
      invariant forall k :: 0 <= k < i ==> MemberMatches(h, members[k], expected[k])
    {
      if i == |members| {
        return false;
      }
      ok := VerifyMember(h, members[i], expected[i]);
      if !ok {
        return;
      }
    }
    ok := |members| == |expected|;
  }

  method VerifyStagedArchive(h: Hasher, parse: Bytes -> Option<seq<Row>>, archive: Archive, manifest: Bytes) returns (ok: bool)
    ensures ok <==> Accepted(h, parse, archive, manifest)
  {
    var rows := parse(manifest);
    if rows.None? {
      return false;
    }
    var expected := Expected(h, rows.value, manifest);
    ok := VerifyMembers(h, archive.members, expected);
    ok := ok && archive.clean && archive.footer;
  }

  // ----- writer and verifier -----

  function RowOf(h: Hasher): Item -> Row {
    (item: Item) => Row(item.name, |item.data|, Hash(h, item.data))
  }

  predicate DistinctNames(items: seq<Item>) {
    forall i, j :: 0 <= i < j < |items| ==> items[i].name != items[j].name
  }

  predicate NamesManifest(items: seq<Item>) {
    exists i :: 0 <= i < |items| && items[i].name == MANIFEST
  }

  predicate HasPath(rows: seq<Row>, path: string) {
    exists i :: 0 <= i < |rows| && rows[i].path == path
  }

  lemma {:induction false} PutFresh(rows: seq<Row>, row: Row)
    requires !HasPath(rows, row.path)
    ensures PutRow(rows, row) == rows + [row]
  {
    if rows != [] {
      assert rows[0].path != row.path;
      assert forall i :: 0 <= i < |rows[1..]| ==> rows[1..][i] == rows[i + 1];
      PutFresh(rows[1..], row);
      assert rows == [rows[0]] + rows[1..];
    }
  }

  lemma {:induction false} PutKnown(rows: seq<Row>, row: Row)
    requires HasPath(rows, row.path)
    ensures |PutRow(rows, row)| == |rows|
  {
    if rows[0].path != row.path {
      var i :| 0 <= i < |rows| && rows[i].path == row.path;
      assert rows[1..][i - 1].path == row.path;
      PutKnown(rows[1..], row);
    }
  }

  lemma {:induction false} RowsOfDistinct(rows: seq<Row>)
    requires forall i, j :: 0 <= i < j < |rows| ==> rows[i].path != rows[j].path
    ensures RowsDict(rows) == rows
    decreases |rows|
  {
    if rows != [] {
      var n := |rows| - 1;
      RowsOfDistinct(rows[..n]);
      assert !HasPath(rows[..n], rows[n].path);
      PutFresh(rows[..n], rows[n]);
      assert rows == rows[..n] + [rows[n]];
    }
  }

  lemma MappedMatches(h: Hasher, items: seq<Item>)
    ensures MembersMatch(h, Mapped(CanonicalMember, items), Mapped(RowOf(h), items))
  {
    forall i | 0 <= i < |items| ensures MemberMatches(h, CanonicalMember(items[i]), RowOf(h)(items[i])) {
      assert items[i].data[..|items[i].data|] == items[i].data;
    }
  }

  lemma ItemsKeyed(items: seq<Item>)
    requires DistinctNames(items)
    ensures Keyed(items, ItemKey)
  {
    assert DistinctKeys(items, ItemKey);
    DistinctKeyed(items, ItemKey);
  }

  lemma RowsFresh(h: Hasher, listed: seq<Item>, manifest: Bytes)
    requires DistinctNames(listed) && !NamesManifest(listed)
    ensures PutRow(RowsDict(Mapped(RowOf(h), listed)), ManifestRow(h, manifest)) == Mapped(RowOf(h), listed + [Item(MANIFEST, manifest)])
  {
    var rows := Mapped(RowOf(h), listed);
    RowsOfDistinct(rows);
    PutFresh(rows, ManifestRow(h, manifest));
    assert Mapped(RowOf(h), listed + [Item(MANIFEST, manifest)]) == rows + [ManifestRow(h, manifest)];
  }

  lemma DistinctWithManifest(listed: seq<Item>, m: Item)
    requires DistinctNames(listed) && !NamesManifest(listed) && m.name == MANIFEST
    ensures DistinctNames(listed + [m])
  {
    forall i | 0 <= i < |listed| ensures listed[i].name != MANIFEST {
    }
  }

  lemma WrittenOrder(files: seq<Item>, listed: seq<Item>, m: Item)
    requires multiset(listed) == multiset(files) && DistinctNames(listed) && !NamesManifest(listed) && m.name == MANIFEST
    ensures Sorted(listed + [m], ItemKey) == Sorted([m] + files, ItemKey)
  {
    DistinctWithManifest(listed, m);
    ItemsKeyed(listed + [m]);
    assert multiset(listed + [m]) == multiset([m] + files);
    SortedForgetsOrder(listed + [m], [m] + files, ItemKey);
  }

  /** What the verifier expects of a manifest listing these files, in any order, is what
      the writer's items say, in the writer's order. */
  lemma ExpectedIsWritten(h: Hasher, files: seq<Item>, listed: seq<Item>, manifest: Bytes)
    requires DistinctNames(files) && multiset(listed) == multiset(files) && DistinctNames(listed) && !NamesManifest(listed)
    ensures Expected(h, Mapped(RowOf(h), listed), manifest) == Mapped(RowOf(h), Sorted([Item(MANIFEST, manifest)] + files, ItemKey))
  {
    var m := Item(MANIFEST, manifest);
    RowsFresh(h, listed, manifest);
    SortedMapped(RowOf(h), listed + [m], ItemKey, RowKey);
    WrittenOrder(files, listed, m);
  }

  /** The verifier accepts what the writer writes for the same files, in whatever order
      they were listed, exactly when no file has the manifest's own name. */
  lemma WriterVerifierAgree(h: Hasher, parse: Bytes -> Option<seq<Row>>, files: seq<Item>, listed: seq<Item>, manifest: Bytes)
    requires DistinctNames(files) && DistinctNames(listed) && multiset(listed) == multiset(files)
    requires parse(manifest) == Some(Mapped(RowOf(h), listed))
    ensures Accepted(h, parse, ArchiveOf([Item(MANIFEST, manifest)] + files), manifest) <==> !NamesManifest(files)
  {
    var items := [Item(MANIFEST, manifest)] + files;
    SameElements(files, listed);
    if NamesManifest(files) {
      var i :| 0 <= i < |files| && files[i].name == MANIFEST;
      assert files[i] in listed;
      var k :| 0 <= k < |listed| && listed[k] == files[i];
      var rows := Mapped(RowOf(h), listed);
      assert rows[k].path == MANIFEST;
      RowsOfDistinct(rows);
      PutKnown(rows, ManifestRow(h, manifest));
      assert |listed| == |multiset(listed)| == |files|;
    } else {
      forall k | 0 <= k < |listed| ensures listed[k].name != MANIFEST {
        assert listed[k] in listed;
        assert listed[k] in files;
      }
      ExpectedIsWritten(h, files, listed, manifest);
      MappedMatches(h, Sorted(items, ItemKey));
    }
  }

  /** Whatever archive is accepted against the manifest of these files has exactly their
      names and the manifest's, by name, with canonical headers and nothing after them; and
      each decoded payload is the file's, or the two collide. */
  lemma AcceptedIsInventory(h: Hasher, parse: Bytes -> Option<seq<Row>>, files: seq<Item>, archive: Archive, manifest: Bytes)
    requires DistinctNames(files) && !NamesManifest(files)
    requires parse(manifest) == Some(Mapped(RowOf(h), files)) && Accepted(h, parse, archive, manifest)
    ensures var items := Sorted([Item(MANIFEST, manifest)] + files, ItemKey);
      && |archive.members| == |items| && archive.clean && archive.footer
      && forall i :: 0 <= i < |items| ==>
           && archive.members[i].(payload := []) == CanonicalMember(items[i]).(payload := [])
           && |archive.members[i].payload| >= |items[i].data|
           && (items[i].data <= archive.members[i].payload
               || Collide(h, archive.members[i].payload[..|items[i].data|], items[i].data))
  {
    var items := Sorted([Item(MANIFEST, manifest)] + files, ItemKey);
    ExpectedIsWritten(h, files, files, manifest);
    forall i | 0 <= i < |items|
      ensures archive.members[i].(payload := []) == CanonicalMember(items[i]).(payload := [])
      ensures |archive.members[i].payload| >= |items[i].data|
      ensures items[i].data <= archive.members[i].payload
        || Collide(h, archive.members[i].payload[..|items[i].data|], items[i].data)
    {
      var row := RowOf(h)(items[i]);
      assert MemberMatches(h, archive.members[i], row);
      assert Hash(h, archive.members[i].payload[..row.size]) == Hash(h, items[i].data);
    }
  }

  // ----- from the tree to a verified archive -----

  /** The files at these paths, as `read` finds them. */
  function ItemsAt(read: string -> Bytes, paths: seq<string>): (r: seq<Item>)
    ensures |r| == |paths| && forall i :: 0 <= i < |r| ==> r[i] == Item(paths[i], read(paths[i]))
  {
    seq(|paths|, i requires 0 <= i < |paths| => Item(paths[i], read(paths[i])))
  }

  predicate AllSafe(paths: seq<string>) {
    forall p :: p in paths ==> SafeMemberName(p)
  }

  /** A tree that can be listed, and whose paths can all be written beside the manifest. */
  predicate Packable(fold: string -> string, entries: seq<TreeEntry>) {
    && TreeAdmissible(fold, entries)
    && HoldsRequired(RegularPaths(entries))
    && AllSafe(RegularPaths(entries)) && MANIFEST !in RegularPaths(entries)
  }

  lemma ListedDistinct(fold: string -> string, paths: seq<string>, read: string -> Bytes)
    requires FoldDistinct(fold, paths)
    ensures DistinctNames(ItemsAt(read, paths))
    ensures NamesManifest(ItemsAt(read, paths)) <==> MANIFEST in paths
  {
    if MANIFEST in paths {
      var i :| 0 <= i < |paths| && paths[i] == MANIFEST;
      assert ItemsAt(read, paths)[i].name == MANIFEST;
    }
  }

  lemma ManifestNameSafe()
    ensures SafeMemberName(MANIFEST)
  {
    NoSlash(MANIFEST);
    assert Parts(MANIFEST) == Kept([MANIFEST]) == [MANIFEST] + Kept([MANIFEST][1..]);
  }

  lemma NoSlash(name: string)
    requires '/' !in name
    ensures Pointers.Split(name, '/') == [name]
  {
    Pointers.SplitWord(name, '/');
  }

  lemma ItemsSafe(manifest: Bytes, read: string -> Bytes, paths: seq<string>, item: Item)
    requires AllSafe(paths) && item in [Item(MANIFEST, manifest)] + ItemsAt(read, paths)
    ensures SafeMemberName(item.name)
  {
    if item in ItemsAt(read, paths) {
      assert item.name in paths;
    } else {
      ManifestNameSafe();
    }
  }

  lemma ItemUnsafe(manifest: Bytes, read: string -> Bytes, paths: seq<string>, p: string)
    requires p in paths
    ensures Item(p, read(p)) in [Item(MANIFEST, manifest)] + ItemsAt(read, paths)
  {
    var i :| 0 <= i < |paths| && paths[i] == p;
    assert ItemsAt(read, paths)[i] == Item(p, read(p));
  }

  /** Writing the listed files and verifying what was written. */
  method WriteAndVerify(h: Hasher, parse: Bytes -> Option<seq<Row>>, manifest: Bytes, read: string -> Bytes, files: seq<string>)
    returns (ok: bool, archive: Archive)
    requires DistinctNames(ItemsAt(read, files)) && parse(manifest) == Some(Mapped(RowOf(h), ItemsAt(read, files)))
    ensures ok <==> AllSafe(files) && !NamesManifest(ItemsAt(read, files))
    ensures ok ==> archive == ArchiveOf([Item(MANIFEST, manifest)] + ItemsAt(read, files)) && Accepted(h, parse, archive, manifest)
  {
    archive := Archive([], false, false);
    var items := ItemsAt(read, files);
    var written := DeterministicArchive(manifest, items);
    if written.None? {
      if AllSafe(files) {
        forall item | item in [Item(MANIFEST, manifest)] + items ensures SafeMemberName(item.name) {
          ItemsSafe(manifest, read, files, item);
        }
      }
      return false, archive;
    }
    forall p | p in files ensures SafeMemberName(p) {
      ItemUnsafe(manifest, read, files, p);
      assert SafeMemberName(Item(p, read(p)).name);
    }
    archive := written.value;
    WriterVerifierAgree(h, parse, items, items, manifest);
    ok := VerifyStagedArchive(h, parse, archive, manifest);
  }

  /** Listing, writing and verifying in one: it succeeds exactly on packable trees, whatever
      the files hold. `render` and `parse` are the manifest's text and its inventory. */
  method StageArchive(h: Hasher, render: seq<Row> -> Bytes, parse: Bytes -> Option<seq<Row>>, fold: string -> string,
                      entries: seq<TreeEntry>, read: string -> Bytes) returns (ok: bool, archive: Archive, manifest: Bytes)
    requires forall rows :: parse(render(rows)) == Some(rows)
    ensures ok <==> Packable(fold, entries)
    ensures ok ==> archive == ArchiveOf([Item(MANIFEST, manifest)] + ItemsAt(read, RegularPaths(entries)))
    ensures ok ==> Accepted(h, parse, archive, manifest)
  {
    archive, manifest := Archive([], false, false), [];
    var files;
    ok, files := RuntimeTreeFiles(fold, entries);
    if !ok {
      return;
    }
    ListedDistinct(fold, files, read);
    manifest := render(Mapped(RowOf(h), ItemsAt(read, files)));
    ok, archive := WriteAndVerify(h, parse, manifest, read, files);
  }
}
