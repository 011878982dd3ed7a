/** Extracting a ZIP archive below a fresh directory. */
module ZipExtraction {
  import opened J = Json
  import Pointers
  import opened Hashing
  import opened RuntimeArchive

  const MAX_EXTRACTED_BYTES := 4 * 1024 * 1024 * 1024
  const MAX_ARCHIVE_FILES := 500_000
  const WINDOWS_RESERVED := {
    "con", "prn", "aux", "nul",
    "com1", "com2", "com3", "com4", "com5", "com6", "com7", "com8", "com9",
    "lpt1", "lpt2", "lpt3", "lpt4", "lpt5", "lpt6", "lpt7", "lpt8", "lpt9"}

  /** The type bits of a member's Unix mode. */
  datatype FileType = Unset | DirectoryType | RegularType | OtherType

  /** `data` is what decompression delivers, or None where it fails. */
  datatype Info = Info(name: string, encrypted: bool, fileType: FileType, declared: nat, data: Option<Bytes>)

  /** Case folding as Python does it, and as the file system compares names: the identity
      on a case-sensitive one. */
  datatype Folding = Folding(casefold: string -> string, host: string -> string)

  // ----- member names -----

  predicate IsDir(info: Info) {
    info.name != "" && info.name[|info.name| - 1] == '/'
  }

  /** `name.rstrip("/")`. */
  function StripSlashes(name: string): string {
    if name != "" && name[|name| - 1] == '/' then StripSlashes(name[..|name| - 1]) else name
  }

  function BeforeDot(s: string): string {
    if s == "" || s[0] == '.' then "" else [s[0]] + BeforeDot(s[1..])
  }

  predicate PartSafe(w: Folding, part: string) {
    && part != ""
    && part[|part| - 1] != '.' && part[|part| - 1] != ' '
    && w.casefold(BeforeDot(part)) !in WINDOWS_RESERVED
  }

  /** `safe_member_path`, as a check; a part "." has already collapsed in `Parts`. */
  predicate SafeMemberPath(w: Folding, name: string) {
    && name != "" && '\\' !in name && ':' !in name && '\0' !in name
    && !("/" <= name)
    && forall i :: 0 <= i < |Parts(name)| ==> Parts(name)[i] != ".." && PartSafe(w, Parts(name)[i])
  }

  function PlainName(info: Info): string {
    if IsDir(info) then StripSlashes(info.name) else info.name
  }

  function MemberParts(info: Info): seq<string> {
    Parts(PlainName(info))
  }

  /** `pure.as_posix().casefold()`. */
  function Alias(w: Folding, info: Info): string {
    var parts := MemberParts(info);
    w.casefold(if parts == [] then "." else Pointers.Join(parts, '/'))
  }

  // ----- the tree below the destination -----

  type Place = seq<string>

  /** Where the file system puts a path. */
  function PlaceOf(w: Folding, parts: seq<string>): (p: Place)
    ensures |p| == |parts| && forall i :: 0 <= i < |p| ==> p[i] == w.host(parts[i])
  {
    seq(|parts|, i requires 0 <= i < |parts| => w.host(parts[i]))
  }

  datatype Tree = Tree(files: map<Place, Bytes>, dirs: set<Place>, aliases: set<string>, count: nat, total: nat)

  const FreshTree := Tree(map[], {}, {}, 0, 0)

  predicate Taken(t: Tree, p: Place) {
    p == [] || p in t.files || p in t.dirs
  }

  /** Some file stands at `p` or on the way to it. */
  predicate FileOnPath(t: Tree, p: Place) {
    exists n :: 0 < n <= |p| && p[..n] in t.files
  }

  function DirsTo(p: Place): set<Place> {
    set n | 0 < n <= |p| :: p[..n]
  }

  /** `path.mkdir(parents=True, ...)`, where no file is in the way. */
  function WithDirs(t: Tree, p: Place): Tree {
    t.(dirs := t.dirs + DirsTo(p))
  }

  /** Every check one turn of the extraction loop makes, its file operations included. */
  predicate Admitted(w: Folding, t: Tree, info: Info) {
    && SafeMemberPath(w, PlainName(info))
    && Alias(w, info) !in t.aliases && !info.encrypted
    && var place := PlaceOf(w, MemberParts(info));
    if IsDir(info) then
      info.fileType in {Unset, DirectoryType} && !Taken(t, place) && !FileOnPath(t, place)
    else
      && info.fileType in {Unset, RegularType}
      && t.count + 1 <= MAX_ARCHIVE_FILES && t.total + info.declared <= MAX_EXTRACTED_BYTES
      && place != [] && !FileOnPath(t, place[..|place| - 1]) && !Taken(t, place) && info.data.Some?
  }

  function WithFile(t: Tree, place: Place, data: Bytes, declared: nat): Tree
    requires place != []
  {
    var below := WithDirs(t, place[..|place| - 1]);
    below.(files := below.files[place := data], count := t.count + 1, total := t.total + declared)
  }

  /** One turn of the extraction loop; None where it fails. */
  function ApplyMember(w: Folding, t: Tree, info: Info): Option<Tree> {
    if !Admitted(w, t, info) then None
    else
      var place := PlaceOf(w, MemberParts(info));
      var seen := t.(aliases := t.aliases + {Alias(w, info)});
      Some(if IsDir(info) then WithDirs(seen, place) else WithFile(seen, place, info.data.value, info.declared))
  }

  type Turn = (Tree, Info) -> Option<Tree>

  /** One turn after another, until one fails. */
  function InTurn(turn: Turn, infos: seq<Info>): Option<Tree> {
    if infos == [] then Some(FreshTree)
    else
      match InTurn(turn, infos[..|infos| - 1])
      case Some(t) => turn(t, infos[|infos| - 1])
      case None => None
  }

  function TurnOf(w: Folding): Turn {
    (t: Tree, info: Info) => ApplyMember(w, t, info)
  }

  function ApplyAll(w: Folding, infos: seq<Info>): Option<Tree> {
    InTurn(TurnOf(w), infos)
  }

  /** The destination directory, filled in place; after a failure it is left as it is. */
  class Destination {
    var tree: Tree

    constructor ()
      ensures tree == FreshTree
    {
      tree := FreshTree;
    }

    /** `extract_exact_zip`. */
    method ExtractExactZip(w: Folding, infos: seq<Info>) returns (ok: bool)
      requires tree == FreshTree
      modifies this
      ensures ok <==> ApplyAll(w, infos).Some? && ApplyAll(w, infos).value.count > 0
      ensures ok ==> tree == ApplyAll(w, infos).value
    {
      for i := 0 to |infos|
        invariant ApplyAll(w, infos[..i]) == Some(tree)
      {
        assert infos[..i + 1][..i] == infos[..i];
        var next := ApplyMember(w, tree, infos[i]);
        if next.None? {
          FailedPrefix(TurnOf(w), infos, i + 1);
          return false;
        }
        tree := next.value;
      }
      assert infos[..|infos|] == infos;
      ok := tree.count > 0;
    }
  }

  lemma {:induction false} FailedPrefix(turn: Turn, infos: seq<Info>, k: nat)
    requires k <= |infos| && InTurn(turn, infos[..k]).None?
    ensures InTurn(turn, infos).None?
    decreases |infos|
  {
    if k < |infos| {
      assert infos[..|infos| - 1][..k] == infos[..k];
      FailedPrefix(turn, infos[..|infos| - 1], k);
    } else {
      assert infos[..k] == infos;
    }
  }

  /** What holds of the empty tree and is kept by every turn holds at the end. */
  lemma {:induction false} KeptInTurn(turn: Turn, inv: (Tree, seq<Info>) -> bool, infos: seq<Info>)
    requires inv(FreshTree, [])
    requires forall t, front, last :: inv(t, front) && turn(t, last).Some? ==> inv(turn(t, last).value, front + [last])
    requires InTurn(turn, infos).Some?
    ensures inv(InTurn(turn, infos).value, infos)
    decreases |infos|
  {
    if infos != [] {
      var front, last := infos[..|infos| - 1], infos[|infos| - 1];
      KeptInTurn(turn, inv, front);
      assert front + [last] == infos;
    }
  }

  // ----- what an accepted archive leaves behind -----

  /** Files and directories are apart, and everything lies in recorded directories. */
  predicate TreeConsistent(t: Tree) {
    && t.files.Keys !! t.dirs
    && [] !in t.files && [] !in t.dirs
    && (forall p, n :: p in t.files && 0 < n < |p| ==> p[..n] in t.dirs)
    && (forall p, n :: p in t.dirs && 0 < n <= |p| ==> p[..n] in t.dirs)
  }

  lemma DirsKeepConsistent(t: Tree, p: Place)
    requires TreeConsistent(t) && !FileOnPath(t, p)
    ensures TreeConsistent(WithDirs(t, p))
  {
    var r := WithDirs(t, p);
    forall q, n | q in r.dirs && 0 < n <= |q| ensures q[..n] in r.dirs {
      if q in DirsTo(p) {
        var m :| 0 < m <= |p| && q == p[..m];
        assert q[..n] == p[..n];
      }
    }
  }

  lemma MemberKeepsConsistent(w: Folding, t: Tree, info: Info)
    requires TreeConsistent(t) && ApplyMember(w, t, info).Some?
    ensures TreeConsistent(ApplyMember(w, t, info).value)
  {
    var place := PlaceOf(w, MemberParts(info));
    var seen := t.(aliases := t.aliases + {Alias(w, info)});
    if IsDir(info) {
      DirsKeepConsistent(seen, place);
    } else {
      var parent := place[..|place| - 1];
      DirsKeepConsistent(seen, parent);
      var r := ApplyMember(w, t, info).value;
      assert place !in DirsTo(parent) by {
        forall n | 0 < n <= |parent| ensures parent[..n] != place { assert |parent[..n]| < |place|; }
      }
      forall n | 0 < n < |place| ensures place[..n] in r.dirs {
        assert place[..n] == parent[..n];
      }
    }
  }

  /** What member `i` left: a file with its bytes, or a directory. */
  predicate Left(w: Folding, t: Tree, info: Info) {
    var place := PlaceOf(w, MemberParts(info));
    && place != []
    && SafeMemberPath(w, PlainName(info))
    && (IsDir(info) ==> place in t.dirs)
    && (!IsDir(info) ==> place in t.files && info.data == Some(t.files[place]))
  }

  function FileCount(infos: seq<Info>): nat {
    if infos == [] then 0 else FileCount(infos[..|infos| - 1]) + if IsDir(infos[|infos| - 1]) then 0 else 1
  }

  function DeclaredTotal(infos: seq<Info>): nat {
    if infos == [] then 0
    else DeclaredTotal(infos[..|infos| - 1]) + if IsDir(infos[|infos| - 1]) then 0 else infos[|infos| - 1].declared
  }

  ghost predicate AllLeft(w: Folding, t: Tree, infos: seq<Info>) {
    forall info :: info in infos ==> Left(w, t, info) && Alias(w, info) in t.aliases
  }

  predicate AliasesApart(w: Folding, infos: seq<Info>) {
    forall i, j :: 0 <= i < j < |infos| ==> Alias(w, infos[i]) != Alias(w, infos[j])
  }

  ghost predicate NoOtherFiles(w: Folding, t: Tree, infos: seq<Info>) {
    forall p :: p in t.files ==> exists info :: info in infos && !IsDir(info) && PlaceOf(w, MemberParts(info)) == p
  }

  predicate Counted(t: Tree, infos: seq<Info>) {
    && |t.files| == t.count == FileCount(infos) <= MAX_ARCHIVE_FILES
    && t.total == DeclaredTotal(infos) <= MAX_EXTRACTED_BYTES
  }

  ghost predicate Faithful(w: Folding, t: Tree, infos: seq<Info>) {
    && TreeConsistent(t)
    && AllLeft(w, t, infos)
    && AliasesApart(w, infos)
    && NoOtherFiles(w, t, infos)
    && Counted(t, infos)
  }

  lemma MemberLeft(w: Folding, t: Tree, info: Info)
    requires ApplyMember(w, t, info).Some?
    ensures Left(w, ApplyMember(w, t, info).value, info)
  {
    var place := PlaceOf(w, MemberParts(info));
    if IsDir(info) {
      assert place[..|place|] == place;
    }
  }

  /** What earlier members left is still there. */
  lemma MemberDisturbsNothing(w: Folding, t: Tree, info: Info, earlier: Info)
    requires ApplyMember(w, t, info).Some? && Left(w, t, earlier)
    ensures Left(w, ApplyMember(w, t, info).value, earlier)
  {
  }

  lemma FilesAfter(w: Folding, t: Tree, info: Info)
    requires ApplyMember(w, t, info).Some?
    ensures var r := ApplyMember(w, t, info).value;
      if IsDir(info) then r.files == t.files
      else r.files.Keys == t.files.Keys + {PlaceOf(w, MemberParts(info))} && |r.files| == |t.files| + 1
  {
  }

  lemma AllStillLeft(w: Folding, t: Tree, front: seq<Info>, last: Info)
    requires AllLeft(w, t, front) && ApplyMember(w, t, last).Some?
    ensures AllLeft(w, ApplyMember(w, t, last).value, front + [last])
  {
    var r := ApplyMember(w, t, last).value;
    MemberLeft(w, t, last);
    forall info | info in front + [last] ensures Left(w, r, info) && Alias(w, info) in r.aliases {
      if info in front {
        MemberDisturbsNothing(w, t, last, info);
      }
    }
  }

  lemma AliasesStayApart(w: Folding, t: Tree, front: seq<Info>, last: Info)
    requires AllLeft(w, t, front) && AliasesApart(w, front) && ApplyMember(w, t, last).Some?
    ensures AliasesApart(w, front + [last])
  {
    assert Alias(w, last) !in t.aliases;
    forall i | 0 <= i < |front| ensures Alias(w, front[i]) != Alias(w, last) {
      assert front[i] in front;
    }
  }

  lemma StillNoOtherFiles(w: Folding, t: Tree, front: seq<Info>, last: Info)
    requires NoOtherFiles(w, t, front) && ApplyMember(w, t, last).Some?
    ensures NoOtherFiles(w, ApplyMember(w, t, last).value, front + [last])
  {
    FilesAfter(w, t, last);
    forall p | p in ApplyMember(w, t, last).value.files
      ensures exists info :: info in front + [last] && !IsDir(info) && PlaceOf(w, MemberParts(info)) == p
    {
      if p in t.files {
        var info :| info in front && !IsDir(info) && PlaceOf(w, MemberParts(info)) == p;
        assert info in front + [last];
      } else {
        assert last in front + [last];
      }
    }
  }

  lemma CountsAfter(w: Folding, t: Tree, last: Info)
    requires ApplyMember(w, t, last).Some?
    ensures var r := ApplyMember(w, t, last).value;
      && r.count == t.count + (if IsDir(last) then 0 else 1)
      && r.total == t.total + (if IsDir(last) then 0 else last.declared)
      && (r.count <= MAX_ARCHIVE_FILES || r.count == t.count)
      && (r.total <= MAX_EXTRACTED_BYTES || r.total == t.total)
  {
  }

  lemma CountedStep(w: Folding, t: Tree, front: seq<Info>, last: Info)
    requires Counted(t, front) && ApplyMember(w, t, last).Some?
    ensures Counted(ApplyMember(w, t, last).value, front + [last])
  {
    FilesAfter(w, t, last);
    CountsAfter(w, t, last);
    assert (front + [last])[..|front|] == front;
  }

  lemma ApplyConsistent(w: Folding, infos: seq<Info>)
    requires ApplyAll(w, infos).Some?
    ensures TreeConsistent(ApplyAll(w, infos).value)
  {
    ghost var inv := (t: Tree, infos: seq<Info>) => TreeConsistent(t);
    forall t, front: seq<Info>, last | inv(t, front) && TurnOf(w)(t, last).Some? ensures inv(TurnOf(w)(t, last).value, front + [last]) {
      MemberKeepsConsistent(w, t, last);
    }
    KeptInTurn(TurnOf(w), inv, infos);
  }

  ghost predicate LeftApart(w: Folding, t: Tree, infos: seq<Info>) {
    AllLeft(w, t, infos) && AliasesApart(w, infos)
  }

  lemma ApplyLeft(w: Folding, infos: seq<Info>)
    requires ApplyAll(w, infos).Some?
    ensures AllLeft(w, ApplyAll(w, infos).value, infos) && AliasesApart(w, infos)
  {
    ghost var inv := (t: Tree, infos: seq<Info>) => LeftApart(w, t, infos);
    forall t, front: seq<Info>, last | inv(t, front) && TurnOf(w)(t, last).Some? ensures inv(TurnOf(w)(t, last).value, front + [last]) {
      AllStillLeft(w, t, front, last);
      AliasesStayApart(w, t, front, last);
    }
    KeptInTurn(TurnOf(w), inv, infos);
  }

  lemma ApplyNoOther(w: Folding, infos: seq<Info>)
    requires ApplyAll(w, infos).Some?
    ensures NoOtherFiles(w, ApplyAll(w, infos).value, infos)
  {
    ghost var inv := (t: Tree, infos: seq<Info>) => NoOtherFiles(w, t, infos);
    forall t, front: seq<Info>, last | inv(t, front) && TurnOf(w)(t, last).Some? ensures inv(TurnOf(w)(t, last).value, front + [last]) {
      StillNoOtherFiles(w, t, front, last);
    }
    KeptInTurn(TurnOf(w), inv, infos);
  }

  lemma ApplyCounts(w: Folding, infos: seq<Info>)
    requires ApplyAll(w, infos).Some?
    ensures Counted(ApplyAll(w, infos).value, infos)
  {
    ghost var inv := (t: Tree, infos: seq<Info>) => Counted(t, infos);
    forall t, front: seq<Info>, last | inv(t, front) && TurnOf(w)(t, last).Some? ensures inv(TurnOf(w)(t, last).value, front + [last]) {
      CountedStep(w, t, front, last);
    }
    KeptInTurn(TurnOf(w), inv, infos);
  }

  /** An accepted archive leaves exactly one file per file member, with the member's
      bytes, strictly below the destination; no two members are alike under case folding;
      no file lies on the way to another member; and the bounds hold. */
  lemma ExtractionSafe(w: Folding, infos: seq<Info>)
    requires ApplyAll(w, infos).Some?
    ensures Faithful(w, ApplyAll(w, infos).value, infos)
    ensures forall i, j :: 0 <= i < |infos| && 0 <= j < |infos| && i != j ==>
      PlaceOf(w, MemberParts(infos[i])) != PlaceOf(w, MemberParts(infos[j]))
    ensures forall i, j :: 0 <= i < |infos| && 0 <= j < |infos| && !IsDir(infos[i]) ==>
      !(PlaceOf(w, MemberParts(infos[i])) < PlaceOf(w, MemberParts(infos[j])))
    ensures forall i, k :: 0 <= i < |infos| && 0 <= k < |MemberParts(infos[i])| ==>
      MemberParts(infos[i])[k] != "" && MemberParts(infos[i])[k] != "." && MemberParts(infos[i])[k] != ".."
  {
    ApplyConsistent(w, infos);
    ApplyLeft(w, infos);
    ApplyNoOther(w, infos);
    ApplyCounts(w, infos);
    var t := ApplyAll(w, infos).value;
    forall i, j | 0 <= i < |infos| && 0 <= j < |infos| && !IsDir(infos[i])
      ensures !(PlaceOf(w, MemberParts(infos[i])) < PlaceOf(w, MemberParts(infos[j])))
    {
      assert infos[i] in infos && infos[j] in infos;
      NoFileOnTheWay(w, t, infos[i], infos[j]);
    }
    forall i, j | 0 <= i < j < |infos|
      ensures PlaceOf(w, MemberParts(infos[i])) != PlaceOf(w, MemberParts(infos[j]))
    {
      PlacesApart(w, infos, i, j);
    }
    forall i, k | 0 <= i < |infos| && 0 <= k < |MemberParts(infos[i])|
      ensures MemberParts(infos[i])[k] != "" && MemberParts(infos[i])[k] != "." && MemberParts(infos[i])[k] != ".."
    {
      assert infos[i] in infos;
      KeptHasNoDots(Pointers.Split(PlainName(infos[i]), '/'));
    }
  }

  lemma {:induction false} KeptHasNoDots(words: seq<string>)
    ensures forall k :: 0 <= k < |Kept(words)| ==> Kept(words)[k] != "" && Kept(words)[k] != "."
  {
    if words != [] {
      KeptHasNoDots(words[1..]);
    }
  }

  lemma NoFileOnTheWay(w: Folding, t: Tree, a: Info, b: Info)
    requires TreeConsistent(t) && Left(w, t, a) && Left(w, t, b) && !IsDir(a)
    ensures !(PlaceOf(w, MemberParts(a)) < PlaceOf(w, MemberParts(b)))
  {
    var p, q := PlaceOf(w, MemberParts(a)), PlaceOf(w, MemberParts(b));
    assert p !in t.dirs;
    assert forall n :: 0 < n < |q| ==> q[..n] in t.dirs;
    assert 0 < |p|;
    assert |p| < |q| ==> q[..|p|] != p;
  }

  /** A member's place is free until its turn comes. */
  lemma FreeBefore(w: Folding, t: Tree, last: Info, earlier: Info)
    requires ApplyMember(w, t, last).Some? && Left(w, t, earlier)
    ensures PlaceOf(w, MemberParts(earlier)) != PlaceOf(w, MemberParts(last))
  {
    assert !Taken(t, PlaceOf(w, MemberParts(last)));
    assert Taken(t, PlaceOf(w, MemberParts(earlier)));
  }

  lemma LastApart(w: Folding, infos: seq<Info>, i: nat)
    requires ApplyAll(w, infos).Some? && i < |infos| - 1
    ensures PlaceOf(w, MemberParts(infos[i])) != PlaceOf(w, MemberParts(infos[|infos| - 1]))
  {
    var front := infos[..|infos| - 1];
    var t := ApplyAll(w, front).value;
    ApplyLeft(w, front);
    assert front[i] in front;
    FreeBefore(w, t, infos[|infos| - 1], infos[i]);
  }

  /** No two members land on one place. */
  lemma PlacesApart(w: Folding, infos: seq<Info>, i: nat, j: nat)
    requires ApplyAll(w, infos).Some? && i < j < |infos|
    ensures PlaceOf(w, MemberParts(infos[i])) != PlaceOf(w, MemberParts(infos[j]))
  {
    if ApplyAll(w, infos[..j + 1]).None? {
      FailedPrefix(TurnOf(w), infos, j + 1);
    } else {
      LastApart(w, infos[..j + 1], i);
    }
  }

  // ----- exactly which archives are accepted -----

  /** What a member must be, whatever else the archive holds. */
  predicate MemberSound(w: Folding, info: Info) {
    && SafeMemberPath(w, PlainName(info)) && MemberParts(info) != []
    && !info.encrypted
    && (if IsDir(info) then info.fileType in {Unset, DirectoryType} else info.fileType in {Unset, RegularType} && info.data.Some?)
  }

  /** What a member must be beside an earlier one: of another alias, not at or above its
      place, and not at or below it where the earlier one is a file. */
  predicate Fits(w: Folding, earlier: Info, info: Info) {
    var p, q := PlaceOf(w, MemberParts(earlier)), PlaceOf(w, MemberParts(info));
    && Alias(w, earlier) != Alias(w, info)
    && !(q <= p)
    && (!IsDir(earlier) ==> !(p <= q))
  }

  predicate AllSound(w: Folding, infos: seq<Info>) {
    forall info :: info in infos ==> MemberSound(w, info)
  }

  predicate AllFit(w: Folding, infos: seq<Info>) {
    forall i, j :: 0 <= i < j < |infos| ==> Fits(w, infos[i], infos[j])
  }

  predicate Bounded(infos: seq<Info>) {
    FileCount(infos) <= MAX_ARCHIVE_FILES && DeclaredTotal(infos) <= MAX_EXTRACTED_BYTES
  }

  /** Some member of the archive is a file at `p`. */
  ghost predicate HasFile(w: Folding, infos: seq<Info>, p: Place) {
    exists info :: info in infos && !IsDir(info) && PlaceOf(w, MemberParts(info)) == p
  }

  /** Some member of the archive is a directory at `p`, or lies below it. */
  ghost predicate HasDir(w: Folding, infos: seq<Info>, p: Place) {
    exists info :: info in infos && DirFor(w, info, p)
  }

  predicate DirFor(w: Folding, info: Info, p: Place) {
    var q := PlaceOf(w, MemberParts(info));
    p < q || (IsDir(info) && p == q)
  }

  ghost predicate HasAlias(w: Folding, infos: seq<Info>, a: string) {
    exists info :: info in infos && Alias(w, info) == a
  }

  ghost predicate DescribesFiles(w: Folding, t: Tree, infos: seq<Info>) {
    forall p :: p in t.files <==> HasFile(w, infos, p)
  }

  ghost predicate DescribesDirs(w: Folding, t: Tree, infos: seq<Info>) {
    forall p :: p in t.dirs <==> p != [] && HasDir(w, infos, p)
  }

  ghost predicate DescribesAliases(w: Folding, t: Tree, infos: seq<Info>) {
    forall a :: a in t.aliases <==> HasAlias(w, infos, a)
  }

  /** The tree holds what the members call for, and no more. */
  ghost predicate Describes(w: Folding, t: Tree, infos: seq<Info>) {
    && DescribesFiles(w, t, infos)
    && DescribesDirs(w, t, infos)
    && DescribesAliases(w, t, infos)
    && t.count == FileCount(infos) && t.total == DeclaredTotal(infos)
  }

  lemma DirsToBelow(q: Place, p: Place)
    ensures p in DirsTo(q) <==> p != [] && p <= q
  {
    if p != [] && p <= q {
      assert q[..|p|] == p;
    }
  }

  lemma PrefixOfFront(q: Place, p: Place)
    requires q != []
    ensures p <= q[..|q| - 1] <==> p < q
  {
    var front := q[..|q| - 1];
    if p < q {
      assert |p| <= |front|;
    }
    if p <= front {
      assert forall i :: 0 <= i < |p| ==> p[i] == front[i] == q[i];
    }
  }

  lemma MoreMembers(w: Folding, front: seq<Info>, last: Info, p: Place)
    ensures HasFile(w, front + [last], p) <==> HasFile(w, front, p) || (!IsDir(last) && PlaceOf(w, MemberParts(last)) == p)
    ensures HasDir(w, front + [last], p) <==> HasDir(w, front, p) || DirFor(w, last, p)
  {
    assert forall info :: info in front + [last] <==> info in front || info == last;
  }

  lemma FilesDescribed(w: Folding, t: Tree, front: seq<Info>, last: Info, r: Tree)
    requires DescribesFiles(w, t, front) && ApplyMember(w, t, last) == Some(r)
    ensures DescribesFiles(w, r, front + [last])
  {
    FilesAfter(w, t, last);
    forall p ensures p in r.files <==> HasFile(w, front + [last], p) { MoreMembers(w, front, last, p); }
  }

  lemma DirForExactly(w: Folding, last: Info, p: Place)
    requires PlaceOf(w, MemberParts(last)) != []
    ensures var q := PlaceOf(w, MemberParts(last));
      p != [] && DirFor(w, last, p) <==> p in if IsDir(last) then DirsTo(q) else DirsTo(q[..|q| - 1])
  {
    var q := PlaceOf(w, MemberParts(last));
    if IsDir(last) {
      DirsToBelow(q, p);
      assert p <= q <==> p < q || p == q;
    } else {
      DirsToBelow(q[..|q| - 1], p);
      PrefixOfFront(q, p);
    }
  }

  lemma DirsDescribed(w: Folding, t: Tree, front: seq<Info>, last: Info, r: Tree)
    requires DescribesDirs(w, t, front) && ApplyMember(w, t, last) == Some(r)
    ensures DescribesDirs(w, r, front + [last])
  {
    DirsAfter(w, t, last);
    forall p ensures p in r.dirs <==> p != [] && HasDir(w, front + [last], p) {
      MoreMembers(w, front, last, p);
      DirForExactly(w, last, p);
    }
  }

  lemma DirsAfter(w: Folding, t: Tree, last: Info)
    requires ApplyMember(w, t, last).Some?
    ensures var q := PlaceOf(w, MemberParts(last));
      && q != []
      && ApplyMember(w, t, last).value.dirs == t.dirs + (if IsDir(last) then DirsTo(q) else DirsTo(q[..|q| - 1]))
      && ApplyMember(w, t, last).value.aliases == t.aliases + {Alias(w, last)}
  {
  }

  lemma AliasesDescribed(w: Folding, t: Tree, front: seq<Info>, last: Info, r: Tree)
    requires DescribesAliases(w, t, front) && ApplyMember(w, t, last) == Some(r)
    ensures DescribesAliases(w, r, front + [last])
  {
    DirsAfter(w, t, last);
    assert forall info :: info in front + [last] <==> info in front || info == last;
    forall a ensures HasAlias(w, front + [last], a) <==> HasAlias(w, front, a) || a == Alias(w, last) {
    }
  }

  lemma DescribesNext(w: Folding, t: Tree, front: seq<Info>, last: Info, r: Tree)
    requires Describes(w, t, front) && ApplyMember(w, t, last) == Some(r)
    ensures Describes(w, r, front + [last])
  {
    FilesDescribed(w, t, front, last, r);
    DirsDescribed(w, t, front, last, r);
    AliasesDescribed(w, t, front, last, r);
    CountsAfter(w, t, last);
    assert (front + [last])[..|front|] == front;
  }

  lemma ApplyDescribes(w: Folding, infos: seq<Info>)
    requires ApplyAll(w, infos).Some?
    ensures Describes(w, ApplyAll(w, infos).value, infos)
  {
    ghost var inv := (t: Tree, infos: seq<Info>) => Describes(w, t, infos);
    forall t, front: seq<Info>, last | inv(t, front) && TurnOf(w)(t, last).Some? ensures inv(TurnOf(w)(t, last).value, front + [last]) {
      DescribesNext(w, t, front, last, TurnOf(w)(t, last).value);
    }
    KeptInTurn(TurnOf(w), inv, infos);
  }

  /** A place is taken exactly when an earlier member lies at or below it. */
  lemma TakenExactly(w: Folding, t: Tree, front: seq<Info>, p: Place)
    requires Describes(w, t, front) && p != []
    ensures Taken(t, p) <==> exists info :: info in front && p <= PlaceOf(w, MemberParts(info))
  {
    if info :| info in front && p <= PlaceOf(w, MemberParts(info)) {
      if p == PlaceOf(w, MemberParts(info)) && !IsDir(info) {
        assert HasFile(w, front, p);
      } else {
        assert DirFor(w, info, p);
      }
    }
    if p in t.files {
      var info :| info in front && !IsDir(info) && PlaceOf(w, MemberParts(info)) == p;
    } else if p in t.dirs {
      var info :| info in front && DirFor(w, info, p);
    }
  }

  /** A file is on the way exactly when an earlier file lies at or above. */
  lemma FileOnPathExactly(w: Folding, t: Tree, front: seq<Info>, p: Place)
    requires Describes(w, t, front) && forall info :: info in front ==> MemberParts(info) != []
    ensures FileOnPath(t, p) <==> exists info :: info in front && !IsDir(info) && PlaceOf(w, MemberParts(info)) <= p
  {
    if FileOnPath(t, p) {
      var n :| 0 < n <= |p| && p[..n] in t.files;
      var info :| info in front && !IsDir(info) && PlaceOf(w, MemberParts(info)) == p[..n];
    }
    if info :| info in front && !IsDir(info) && PlaceOf(w, MemberParts(info)) <= p {
      var q := PlaceOf(w, MemberParts(info));
      assert HasFile(w, front, q) && p[..|q|] == q;
    }
  }

  lemma AliasTakenExactly(w: Folding, t: Tree, front: seq<Info>, last: Info)
    requires DescribesAliases(w, t, front)
    ensures Alias(w, last) !in t.aliases <==> forall info :: info in front ==> Alias(w, info) != Alias(w, last)
  {
    if Alias(w, last) in t.aliases {
      var info :| info in front && Alias(w, info) == Alias(w, last);
    }
  }

  /** What the file operations of a turn ask of the tree. */
  predicate PlaceFree(w: Folding, t: Tree, info: Info) {
    var place := PlaceOf(w, MemberParts(info));
    && place != [] && !Taken(t, place)
    && !FileOnPath(t, if IsDir(info) then place else place[..|place| - 1])
  }

  lemma PlaceFreeExactly(w: Folding, t: Tree, front: seq<Info>, last: Info)
    requires Describes(w, t, front) && AllSound(w, front) && MemberParts(last) != []
    ensures PlaceFree(w, t, last) <==> forall info :: info in front ==> PlaceFits(w, info, last)
  {
    var q := PlaceOf(w, MemberParts(last));
    TakenExactly(w, t, front, q);
    if IsDir(last) {
      FileOnPathExactly(w, t, front, q);
    } else {
      FileOnPathExactly(w, t, front, q[..|q| - 1]);
      forall info | info in front
        ensures PlaceOf(w, MemberParts(info)) <= q[..|q| - 1] <==> PlaceOf(w, MemberParts(info)) < q
      {
        PrefixOfFront(q, PlaceOf(w, MemberParts(info)));
      }
    }
  }

  predicate PlaceFits(w: Folding, earlier: Info, info: Info) {
    var p, q := PlaceOf(w, MemberParts(earlier)), PlaceOf(w, MemberParts(info));
    !(q <= p) && (!IsDir(earlier) ==> !(p <= q))
  }

  predicate WithinBounds(t: Tree, info: Info) {
    !IsDir(info) ==> t.count + 1 <= MAX_ARCHIVE_FILES && t.total + info.declared <= MAX_EXTRACTED_BYTES
  }

  lemma AdmittedParts(w: Folding, t: Tree, info: Info)
    ensures Admitted(w, t, info) <==>
      MemberSound(w, info) && Alias(w, info) !in t.aliases && PlaceFree(w, t, info) && WithinBounds(t, info)
  {
    assert PlaceOf(w, MemberParts(info)) == [] <==> MemberParts(info) == [];
  }

  lemma AdmittedExactly(w: Folding, t: Tree, front: seq<Info>, last: Info)
    requires Describes(w, t, front) && AllSound(w, front)
    ensures Admitted(w, t, last) <==>
      MemberSound(w, last) && (forall info :: info in front ==> Fits(w, info, last)) && WithinBounds(t, last)
  {
    AdmittedParts(w, t, last);
    AliasTakenExactly(w, t, front, last);
    if MemberSound(w, last) {
      PlaceFreeExactly(w, t, front, last);
    }
    assert forall info :: Fits(w, info, last) <==> Alias(w, info) != Alias(w, last) && PlaceFits(w, info, last);
  }

  lemma FitNext(w: Folding, front: seq<Info>, last: Info)
    ensures AllFit(w, front + [last]) <==> AllFit(w, front) && forall info :: info in front ==> Fits(w, info, last)
    ensures AllSound(w, front + [last]) <==> AllSound(w, front) && MemberSound(w, last)
  {
    var all := front + [last];
    assert all[|front|] == last && forall i :: 0 <= i < |front| ==> all[i] == front[i];
    assert forall info :: info in all <==> info in front || info == last;
    if AllFit(w, all) {
      forall info | info in front ensures Fits(w, info, last) {
        var i :| 0 <= i < |front| && front[i] == info;
        assert Fits(w, all[i], all[|front|]);
      }
      forall i, j | 0 <= i < j < |front| ensures Fits(w, front[i], front[j]) {
        assert Fits(w, all[i], all[j]);
      }
    }
  }

  lemma BoundedNext(front: seq<Info>, last: Info, t: Tree)
    requires t.count == FileCount(front) && t.total == DeclaredTotal(front)
    ensures Bounded(front + [last]) <==> Bounded(front) && WithinBounds(t, last)
  {
    assert (front + [last])[..|front|] == front;
  }

  lemma TurnByTurn(w: Folding, front: seq<Info>, last: Info)
    ensures ApplyAll(w, front + [last]) ==
      match ApplyAll(w, front)
      case Some(t) => ApplyMember(w, t, last)
      case None => None
  {
    assert (front + [last])[..|front|] == front;
  }

  lemma BoundedFront(front: seq<Info>, last: Info)
    ensures Bounded(front + [last]) ==> Bounded(front)
  {
    assert (front + [last])[..|front|] == front;
  }

  /** An archive is accepted exactly when every member is sound, every two of them fit in
      their order, and files and declared sizes stay within bounds. */
  lemma {:induction false} AcceptedExactly(w: Folding, infos: seq<Info>)
    ensures ApplyAll(w, infos).Some? <==> AllSound(w, infos) && AllFit(w, infos) && Bounded(infos)
    decreases |infos|
  {
    if infos != [] {
      var front, last := infos[..|infos| - 1], infos[|infos| - 1];
      assert front + [last] == infos;
      AcceptedExactly(w, front);
      TurnByTurn(w, front, last);
      FitNext(w, front, last);
      BoundedFront(front, last);
      if ApplyAll(w, front).Some? {
        NextAccepted(w, front, last);
      }
    }
  }

  lemma NextAccepted(w: Folding, front: seq<Info>, last: Info)
    requires ApplyAll(w, front).Some? && AllSound(w, front) && Bounded(front)
    ensures ApplyMember(w, ApplyAll(w, front).value, last).Some? <==>
      && MemberSound(w, last) && (forall info :: info in front ==> Fits(w, info, last)) && Bounded(front + [last])
  {
    var t := ApplyAll(w, front).value;
    ApplyDescribes(w, front);
    AdmittedExactly(w, t, front, last);
    BoundedNext(front, last, t);
  }

  // ----- what an accepted member is called -----

  /** `base` is what stands before the first dot. */
  predicate IsBase(part: string, base: string) {
    base <= part && '.' !in base && (|base| < |part| ==> part[|base|] == '.')
  }

  lemma {:induction false} BeforeDotExactly(part: string, base: string)
    ensures IsBase(part, base) <==> base == BeforeDot(part)
    decreases |part|
  {
    if part == "" || part[0] == '.' {
      assert base != "" && base <= part ==> part[0] in base;
    } else {
      BeforeDotExactly(part[1..], if base == "" then "" else base[1..]);
      if base != "" && base[0] == part[0] {
        assert base == [base[0]] + base[1..];
        assert '.' in base <==> '.' in base[1..];
        assert base <= part <==> base[1..] <= part[1..];
      }
    }
  }

  /** No file system reads the part as another: it is no step up or down, does not end in a
      dot or blank, and is no device name before its first dot, in any case. */
  ghost predicate PlainPart(w: Folding, part: string) {
    && part !in {"", ".", ".."}
    && part[|part| - 1] !in {'.', ' '}
    && forall base :: IsBase(part, base) ==> w.casefold(base) !in WINDOWS_RESERVED
  }

  ghost predicate PlainPath(w: Folding, name: string) {
    && name != "" && name[0] != '/'
    && (forall ch :: ch in name ==> ch !in {'\\', ':', '\0'})
    && forall part :: part in Parts(name) ==> PlainPart(w, part)
  }

  lemma PartExactly(w: Folding, part: string)
    requires part != "."
    ensures part != ".." && PartSafe(w, part) <==> PlainPart(w, part)
  {
    forall base ensures IsBase(part, base) <==> base == BeforeDot(part) { BeforeDotExactly(part, base); }
    assert IsBase(part, BeforeDot(part));
  }

  /** The checks of `safe_member_path`, said of the name. */
  lemma SafeExactly(w: Folding, name: string)
    ensures SafeMemberPath(w, name) <==> PlainPath(w, name)
  {
    var parts := Parts(name);
    KeptHasNoDots(Pointers.Split(name, '/'));
    forall i | 0 <= i < |parts| ensures parts[i] != ".." && PartSafe(w, parts[i]) <==> PlainPart(w, parts[i]) {
      PartExactly(w, parts[i]);
    }
    assert (forall part :: part in parts ==> PlainPart(w, part)) <==> forall i :: 0 <= i < |parts| ==> PlainPart(w, parts[i]);
    assert "/" <= name <==> name != "" && name[0] == '/';
  }

  /** Every member of an accepted archive has a plain name, is not encrypted, and is marked
      as a file or a directory as its name says, or not at all. */
  lemma AcceptedMembers(w: Folding, infos: seq<Info>, info: Info)
    requires ApplyAll(w, infos).Some? && info in infos
    ensures PlainPath(w, PlainName(info)) && !info.encrypted
    ensures info.fileType in if IsDir(info) then {Unset, DirectoryType} else {Unset, RegularType}
  {
    AcceptedExactly(w, infos);
    assert MemberSound(w, info);
    SafeExactly(w, PlainName(info));
  }
}
