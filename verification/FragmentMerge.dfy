/** Merging the API document with its fragments, in place. */
module FragmentMerge {
  import opened Json

  const FRAGMENT_COMPONENTS := {"schemas", "parameters", "responses", "requestBodies", "headers", "securitySchemes"}
  const FRAGMENT_KEYS := {"paths", "components"}

  // ----- one fragment -----

  /** `mapping.setdefault(key, {})`, then the value found if it is an object. */
  function Section(document: map<string, Json>, key: string): Option<map<string, Json>> {
    if key !in document then Some(map[])
    else if document[key].Obj? then Some(document[key].members)
    else None
  }

  /** A route of the document is free to take a fragment's item when it is absent, when
      it is an explicit null, or when it is an object sharing no key with it. */
  predicate RouteMergeable(paths: map<string, Json>, route: string, item: Json) {
    && item.Obj?
    && (route in paths && paths[route] != Null ==>
          paths[route].Obj? && paths[route].members.Keys !! item.members.Keys)
  }

  function MergedRoute(paths: map<string, Json>, route: string, item: Json): Json
    requires RouteMergeable(paths, route, item)
  {
    if route in paths && paths[route] != Null then Obj(paths[route].members + item.members) else item
  }

  predicate PathsMergeable(paths: map<string, Json>, added: map<string, Json>) {
    forall route :: route in added ==> RouteMergeable(paths, route, added[route])
  }

  function MergedPaths(paths: map<string, Json>, added: map<string, Json>): map<string, Json>
    requires PathsMergeable(paths, added)
  {
    map route | route in paths.Keys + added.Keys ::
      if route in added then MergedRoute(paths, route, added[route]) else paths[route]
  }

  /** A section of the components; here an explicit null in the document is an error. */
  predicate SectionMergeable(components: map<string, Json>, name: string, entries: Json) {
    && entries.Obj?
    && Section(components, name).Some?
    && Section(components, name).value.Keys !! entries.members.Keys
  }

  predicate SectionsMergeable(components: map<string, Json>, added: map<string, Json>) {
    forall name :: name in added ==> SectionMergeable(components, name, added[name])
  }

  predicate ComponentsMergeable(components: map<string, Json>, added: map<string, Json>) {
    added.Keys <= FRAGMENT_COMPONENTS && SectionsMergeable(components, added)
  }

  function MergedSection(components: map<string, Json>, name: string, entries: Json): Json
    requires SectionMergeable(components, name, entries)
  {
    Obj(Section(components, name).value + entries.members)
  }

  function MergedComponents(components: map<string, Json>, added: map<string, Json>): map<string, Json>
    requires SectionsMergeable(components, added)
  {
    map name | name in components.Keys + added.Keys ::
      if name in added then MergedSection(components, name, added[name]) else components[name]
  }

  predicate Mergeable(document: map<string, Json>, fragment: map<string, Json>) {
    && fragment.Keys <= FRAGMENT_KEYS
    && Section(fragment, "paths").Some? && Section(document, "paths").Some?
    && PathsMergeable(Section(document, "paths").value, Section(fragment, "paths").value)
    && Section(fragment, "components").Some? && Section(document, "components").Some?
    && ComponentsMergeable(Section(document, "components").value, Section(fragment, "components").value)
  }

  function Merged(document: map<string, Json>, fragment: map<string, Json>): map<string, Json>
    requires Mergeable(document, fragment)
  {
    document["paths" := Obj(MergedPaths(Section(document, "paths").value, Section(fragment, "paths").value))]
            ["components" := Obj(MergedComponents(Section(document, "components").value, Section(fragment, "components").value))]
  }

  /** `target[name] = value` for every entry, refusing a name already there. */
  method MergeUniqueMap(target: map<string, Json>, source: map<string, Json>) returns (ok: bool, merged: map<string, Json>)
    ensures ok <==> target.Keys !! source.Keys
    ensures ok ==> merged == target + source
  {
    merged := target;
    var names := source.Keys;
    while names != {}
      invariant names <= source.Keys
      invariant forall n :: n in source.Keys - names ==> n !in target
      invariant merged.Keys == target.Keys + (source.Keys - names)
      invariant forall n :: n in merged ==> merged[n] == if n in target then target[n] else source[n]
      decreases names
    {
      var name :| name in names;
      if name in merged {
        assert name in target && name in source;
        return false, merged;
      }
      names := names - {name};
      merged := merged[name := source[name]];
    }
    ok := true;
  }

  method MergeRoute(paths: map<string, Json>, route: string, item: Json) returns (ok: bool, merged: Json)
    ensures ok <==> RouteMergeable(paths, route, item)
    ensures ok ==> merged == MergedRoute(paths, route, item)
  {
    merged := item;
    if !item.Obj? {
      return false, merged;
    }
    if route in paths && paths[route] != Null {
      if !paths[route].Obj? {
        return false, merged;
      }
      var free, members := MergeUniqueMap(paths[route].members, item.members);
      return free, Obj(members);
    }
    ok := true;
  }

  method MergeOpenapiPaths(documentPaths: map<string, Json>, added: map<string, Json>)
    returns (ok: bool, paths: map<string, Json>)
    ensures ok <==> PathsMergeable(documentPaths, added)
    ensures ok ==> paths == MergedPaths(documentPaths, added)
  {
    paths := documentPaths;
    var routes := added.Keys;
    ghost var done: set<string> := {};
    while routes != {}
      invariant done + routes == added.Keys && done !! routes
      invariant forall r :: r in done ==> RouteMergeable(documentPaths, r, added[r])
      invariant paths.Keys == documentPaths.Keys + done
      invariant forall r :: r in done ==> paths[r] == MergedRoute(documentPaths, r, added[r])
      invariant forall r :: r in documentPaths && r !in done ==> paths[r] == documentPaths[r]
      decreases routes
    {
      var route :| route in routes;
      var merged;
      ok, merged := MergeRoute(paths, route, added[route]);
      if !ok {
        assert !RouteMergeable(documentPaths, route, added[route]);
        return;
      }
      routes := routes - {route};
      done := done + {route};
      paths := paths[route := merged];
    }
    ok := true;
    assert done == added.Keys;
    assert paths == MergedPaths(documentPaths, added);
  }

  method MergeSection(components: map<string, Json>, name: string, entries: Json) returns (ok: bool, merged: Json)
    ensures ok <==> SectionMergeable(components, name, entries)
    ensures ok ==> merged == MergedSection(components, name, entries)
  {
    if !entries.Obj? || Section(components, name).None? {
      return false, entries;
    }
    var members;
    ok, members := MergeUniqueMap(Section(components, name).value, entries.members);
    merged := Obj(members);
  }

  lemma SectionUntouched(before: map<string, Json>, now: map<string, Json>, name: string, entries: Json)
    requires name in before <==> name in now
    requires name in before ==> now[name] == before[name]
    ensures SectionMergeable(now, name, entries) <==> SectionMergeable(before, name, entries)
    ensures SectionMergeable(now, name, entries) ==> MergedSection(now, name, entries) == MergedSection(before, name, entries)
  {
  }

  /** The components once the sections in `done` are merged. */
  ghost predicate SectionsDone(before: map<string, Json>, added: map<string, Json>, done: set<string>, now: map<string, Json>) {
    && done <= added.Keys
    && (forall n :: n in done ==> SectionMergeable(before, n, added[n]))
    && now.Keys == before.Keys + done
    && (forall n :: n in now ==> now[n] == if n in done then MergedSection(before, n, added[n]) else before[n])
  }

  lemma SectionDone(before: map<string, Json>, added: map<string, Json>, done: set<string>, now: map<string, Json>, name: string)
    requires SectionsDone(before, added, done, now) && name in added && name !in done
    ensures SectionMergeable(now, name, added[name]) <==> SectionMergeable(before, name, added[name])
    ensures SectionMergeable(now, name, added[name]) ==>
      SectionsDone(before, added, done + {name}, now[name := MergedSection(now, name, added[name])])
  {
    SectionUntouched(before, now, name, added[name]);
  }

  lemma AllSectionsDone(before: map<string, Json>, added: map<string, Json>, now: map<string, Json>)
    requires SectionsDone(before, added, added.Keys, now)
    ensures SectionsMergeable(before, added) && now == MergedComponents(before, added)
  {
  }

  method MergeSections(documentComponents: map<string, Json>, added: map<string, Json>)
    returns (ok: bool, components: map<string, Json>)
    ensures ok <==> SectionsMergeable(documentComponents, added)
    ensures ok ==> components == MergedComponents(documentComponents, added)
  {
    components := documentComponents;
    var names := added.Keys;
    ghost var done: set<string> := {};
    while names != {}
      invariant done + names == added.Keys && done !! names
      invariant SectionsDone(documentComponents, added, done, components)
      decreases names
    {
      var name :| name in names;
      SectionDone(documentComponents, added, done, components, name);
      var entries;
      ok, entries := MergeSection(components, name, added[name]);
      if !ok {
        return;
      }
      names := names - {name};
      done := done + {name};
      components := components[name := entries];
    }
    assert done == added.Keys;
    AllSectionsDone(documentComponents, added, components);
    ok := true;
  }

  /** The document being assembled; merging updates it in place, and on an error leaves
      it half-merged for the caller to discard. */
  class OpenApiDocument {
    var root: map<string, Json>

    constructor (root: map<string, Json>)
      ensures this.root == root
    {
      this.root := root;
    }

    method MergeFragment(fragment: map<string, Json>) returns (ok: bool)
      modifies this
      ensures ok <==> Mergeable(old(root), fragment)
      ensures ok ==> root == Merged(old(root), fragment)
    {
      ghost var before := root;
      if !(fragment.Keys <= FRAGMENT_KEYS) || Section(fragment, "paths").None? || Section(root, "paths").None? {
        return false;
      }
      var paths, components;
      ok, paths := MergeOpenapiPaths(Section(root, "paths").value, Section(fragment, "paths").value);
      if !ok {
        return;
      }
      root := root["paths" := Obj(paths)];
      assert Section(root, "components") == Section(before, "components");
      if Section(fragment, "components").None? || Section(root, "components").None? ||
         !(Section(fragment, "components").value.Keys <= FRAGMENT_COMPONENTS) {
        return false;
      }
      ok, components := MergeSections(Section(root, "components").value, Section(fragment, "components").value);
      if ok {
        root := root["components" := Obj(components)];
      }
    }

    /** All fragments, in file-name order. */
    method MergeFragments(fragments: seq<map<string, Json>>) returns (ok: bool)
      modifies this
      ensures ok <==> MergeAll(old(root), fragments).Some?
      ensures ok ==> MergeAll(old(root), fragments) == Some(root)
    {
      for i := 0 to |fragments|
        invariant MergeAll(old(root), fragments) == MergeAll(root, fragments[i..])
      {
        assert fragments[i..][0] == fragments[i] && fragments[i..][1..] == fragments[i + 1..];
        ok := MergeFragment(fragments[i]);
        if !ok {
          return;
        }
      }
      ok := true;
    }
  }

  function MergeAll(document: map<string, Json>, fragments: seq<map<string, Json>>): Option<map<string, Json>>
    decreases |fragments|
  {
    if fragments == [] then Some(document)
    else if Mergeable(document, fragments[0]) then MergeAll(Merged(document, fragments[0]), fragments[1..])
    else None
  }

  // ----- the merge is a disjoint union -----

  /** The object sections of a document; anything else counts as no section. */
  function Part(document: map<string, Json>, key: string): map<string, Json> {
    if key in document && document[key].Obj? then document[key].members else map[]
  }

  predicate WellShaped(document: map<string, Json>) {
    forall key :: key in FRAGMENT_KEYS && key in document ==>
      && document[key].Obj?
      && forall outer :: outer in document[key].members ==> document[key].members[outer].Obj?
  }

  predicate WellShapedFragment(fragment: map<string, Json>) {
    && WellShaped(fragment)
    && fragment.Keys <= FRAGMENT_KEYS
    && Part(fragment, "components").Keys <= FRAGMENT_COMPONENTS
  }

  /** The entry contributed at a (route, key), respectively a (section, name). */
  function Entry(document: map<string, Json>, key: string, outer: string, name: string): Option<Json> {
    if outer in Part(document, key) && Part(document, key)[outer].Obj? && name in Part(document, key)[outer].members
    then Some(Part(document, key)[outer].members[name]) else None
  }

  ghost predicate Disjoint(a: map<string, Json>, b: map<string, Json>) {
    forall key, outer, name :: key in FRAGMENT_KEYS ==> Entry(a, key, outer, name).None? || Entry(b, key, outer, name).None?
  }

  lemma DisjointParts(a: map<string, Json>, b: map<string, Json>, key: string, outer: string)
    requires WellShaped(a) && WellShaped(b) && Disjoint(a, b) && key in FRAGMENT_KEYS
    requires outer in Part(a, key) && outer in Part(b, key)
    ensures Part(a, key)[outer].members.Keys !! Part(b, key)[outer].members.Keys
  {
    forall name | name in Part(a, key)[outer].members ensures name !in Part(b, key)[outer].members {
      assert Entry(a, key, outer, name).Some?;
    }
  }

  lemma PartIsSection(document: map<string, Json>, key: string)
    requires WellShaped(document) && key in FRAGMENT_KEYS
    ensures Section(document, key) == Some(Part(document, key))
  {
  }

  lemma DisjointMerges(document: map<string, Json>, fragment: map<string, Json>)
    requires WellShaped(document) && WellShapedFragment(fragment) && Disjoint(document, fragment)
    ensures PathsMergeable(Part(document, "paths"), Part(fragment, "paths"))
    ensures ComponentsMergeable(Part(document, "components"), Part(fragment, "components"))
  {
    forall outer | outer in Part(fragment, "paths") ensures RouteMergeable(Part(document, "paths"), outer, Part(fragment, "paths")[outer]) {
      if outer in Part(document, "paths") { DisjointParts(document, fragment, "paths", outer); }
    }
    forall outer | outer in Part(fragment, "components")
      ensures SectionMergeable(Part(document, "components"), outer, Part(fragment, "components")[outer])
    {
      if outer in Part(document, "components") { DisjointParts(document, fragment, "components", outer); }
    }
  }

  lemma MergesDisjoint(document: map<string, Json>, fragment: map<string, Json>)
    requires WellShaped(document) && WellShapedFragment(fragment)
    requires PathsMergeable(Part(document, "paths"), Part(fragment, "paths"))
    requires ComponentsMergeable(Part(document, "components"), Part(fragment, "components"))
    ensures Disjoint(document, fragment)
  {
    forall key, outer, name | key in FRAGMENT_KEYS && Entry(fragment, key, outer, name).Some?
      ensures Entry(document, key, outer, name).None?
    {
      if key == "paths" {
        assert RouteMergeable(Part(document, "paths"), outer, Part(fragment, "paths")[outer]);
      } else {
        assert SectionMergeable(Part(document, "components"), outer, Part(fragment, "components")[outer]);
      }
    }
  }

  /** A well-shaped fragment merges exactly when it shares no entry with the document. */
  lemma MergeableExactly(document: map<string, Json>, fragment: map<string, Json>)
    requires WellShaped(document) && WellShapedFragment(fragment)
    ensures Mergeable(document, fragment) <==> Disjoint(document, fragment)
  {
    PartIsSection(document, "paths");
    PartIsSection(document, "components");
    PartIsSection(fragment, "paths");
    PartIsSection(fragment, "components");
    if Disjoint(document, fragment) {
      DisjointMerges(document, fragment);
    } else if Mergeable(document, fragment) {
      MergesDisjoint(document, fragment);
    }
  }

  /** Nothing ill-shaped is ever merged: every merged fragment has the two known keys at most,
      objects of objects under both, and known component sections alone. */
  lemma OnlyWellShapedMerges(document: map<string, Json>, fragment: map<string, Json>)
    requires Mergeable(document, fragment)
    ensures WellShapedFragment(fragment)
  {
    forall key, outer | key in FRAGMENT_KEYS && key in fragment && outer in Part(fragment, key) ensures Part(fragment, key)[outer].Obj? {
      if key == "paths" {
        assert RouteMergeable(Section(document, "paths").value, outer, Part(fragment, key)[outer]);
      } else {
        assert SectionMergeable(Section(document, "components").value, outer, Part(fragment, key)[outer]);
      }
    }
  }

  lemma MergedEntries(document: map<string, Json>, fragment: map<string, Json>)
    requires WellShaped(document) && WellShapedFragment(fragment) && Mergeable(document, fragment)
    ensures var r := Merged(document, fragment);
      && WellShaped(r) && FRAGMENT_KEYS <= r.Keys
      && (forall key :: key in FRAGMENT_KEYS ==> Part(r, key).Keys == Part(document, key).Keys + Part(fragment, key).Keys)
      && (forall key :: key !in FRAGMENT_KEYS ==> (key in r <==> key in document) && (key in r ==> r[key] == document[key]))
  {
  }

  lemma MergedPathEntry(document: map<string, Json>, fragment: map<string, Json>, outer: string, name: string)
    requires WellShaped(document) && WellShapedFragment(fragment) && Mergeable(document, fragment)
    ensures Entry(Merged(document, fragment), "paths", outer, name) ==
      if Entry(document, "paths", outer, name).Some? then Entry(document, "paths", outer, name) else Entry(fragment, "paths", outer, name)
  {
    var before, added := Part(document, "paths"), Part(fragment, "paths");
    assert Part(Merged(document, fragment), "paths") == MergedPaths(before, added);
    if outer in added {
      assert RouteMergeable(before, outer, added[outer]);
    }
  }

  lemma MergedComponentEntry(document: map<string, Json>, fragment: map<string, Json>, outer: string, name: string)
    requires WellShaped(document) && WellShapedFragment(fragment) && Mergeable(document, fragment)
    ensures Entry(Merged(document, fragment), "components", outer, name) ==
      if Entry(document, "components", outer, name).Some? then Entry(document, "components", outer, name)
      else Entry(fragment, "components", outer, name)
  {
    var before, added := Part(document, "components"), Part(fragment, "components");
    assert Part(Merged(document, fragment), "components") == MergedComponents(before, added);
    if outer in added {
      assert SectionMergeable(before, outer, added[outer]);
    }
  }

  lemma MergedEntry(document: map<string, Json>, fragment: map<string, Json>, key: string, outer: string, name: string)
    requires WellShaped(document) && WellShapedFragment(fragment) && Mergeable(document, fragment) && key in FRAGMENT_KEYS
    ensures Entry(Merged(document, fragment), key, outer, name) ==
      if Entry(document, key, outer, name).Some? then Entry(document, key, outer, name) else Entry(fragment, key, outer, name)
  {
    if key == "paths" {
      MergedPathEntry(document, fragment, outer, name);
    } else {
      MergedComponentEntry(document, fragment, outer, name);
    }
  }

  // ----- a list of fragments -----

  ghost predicate AllDisjoint(document: map<string, Json>, fragments: seq<map<string, Json>>) {
    && (forall i :: 0 <= i < |fragments| ==> Disjoint(document, fragments[i]))
    && (forall i, j :: 0 <= i < j < |fragments| ==> Disjoint(fragments[i], fragments[j]))
  }

  ghost predicate AllWellShaped(document: map<string, Json>, fragments: seq<map<string, Json>>) {
    WellShaped(document) && forall i :: 0 <= i < |fragments| ==> WellShapedFragment(fragments[i])
  }

  lemma DisjointFromMerged(document: map<string, Json>, fragment: map<string, Json>, other: map<string, Json>)
    requires WellShaped(document) && WellShapedFragment(fragment) && Mergeable(document, fragment)
    ensures Disjoint(Merged(document, fragment), other) <==> Disjoint(document, other) && Disjoint(fragment, other)
  {
    MergeableExactly(document, fragment);
    forall key, outer, name | key in FRAGMENT_KEYS
      ensures Entry(Merged(document, fragment), key, outer, name).Some? <==>
        Entry(document, key, outer, name).Some? || Entry(fragment, key, outer, name).Some?
    {
      MergedEntry(document, fragment, key, outer, name);
    }
  }

  lemma DisjointOnwards(document: map<string, Json>, fragments: seq<map<string, Json>>)
    requires AllWellShaped(document, fragments) && fragments != [] && Mergeable(document, fragments[0])
    ensures AllDisjoint(document, fragments) <==>
      Disjoint(document, fragments[0]) && AllDisjoint(Merged(document, fragments[0]), fragments[1..])
  {
    var first, next, rest := fragments[0], Merged(document, fragments[0]), fragments[1..];
    forall i | 0 <= i < |rest| ensures Disjoint(next, rest[i]) <==> Disjoint(document, rest[i]) && Disjoint(first, rest[i]) {
      DisjointFromMerged(document, first, rest[i]);
    }
    if Disjoint(document, first) && AllDisjoint(next, rest) {
      forall i, j | 0 <= i < j < |fragments| ensures Disjoint(fragments[i], fragments[j]) {
        if i > 0 { assert Disjoint(rest[i - 1], rest[j - 1]); } else { assert fragments[j] == rest[j - 1]; }
      }
      forall i | 0 <= i < |fragments| ensures Disjoint(document, fragments[i]) {
        if i > 0 { assert fragments[i] == rest[i - 1]; }
      }
    }
  }

  /** Merging succeeds exactly when no two contributions share an entry. */
  lemma {:induction false} MergeAllSucceeds(document: map<string, Json>, fragments: seq<map<string, Json>>)
    requires AllWellShaped(document, fragments)
    ensures MergeAll(document, fragments).Some? <==> AllDisjoint(document, fragments)
    decreases |fragments|
  {
    if fragments != [] {
      MergeableExactly(document, fragments[0]);
      if Mergeable(document, fragments[0]) {
        MergedEntries(document, fragments[0]);
        MergeAllSucceeds(Merged(document, fragments[0]), fragments[1..]);
        DisjointOnwards(document, fragments);
      }
    }
  }

  lemma {:induction false} AllMergedWellShaped(document: map<string, Json>, fragments: seq<map<string, Json>>)
    requires WellShaped(document) && MergeAll(document, fragments).Some?
    ensures AllWellShaped(document, fragments)
    decreases |fragments|
  {
    if fragments != [] {
      OnlyWellShapedMerges(document, fragments[0]);
      MergedEntries(document, fragments[0]);
      AllMergedWellShaped(Merged(document, fragments[0]), fragments[1..]);
      forall i | 0 <= i < |fragments| ensures WellShapedFragment(fragments[i]) {
        if i > 0 { assert fragments[i] == fragments[1..][i - 1]; }
      }
    }
  }

  /** A well-shaped document takes in a list of fragments, whatever they are, exactly when all
      of them are well-shaped and no two contributions share an entry. */
  lemma MergesExactly(document: map<string, Json>, fragments: seq<map<string, Json>>)
    requires WellShaped(document)
    ensures MergeAll(document, fragments).Some? <==> AllWellShaped(document, fragments) && AllDisjoint(document, fragments)
  {
    if MergeAll(document, fragments).Some? {
      AllMergedWellShaped(document, fragments);
    }
    if AllWellShaped(document, fragments) {
      MergeAllSucceeds(document, fragments);
    }
  }

  ghost predicate SomeEntry(fragments: seq<map<string, Json>>, key: string, outer: string, name: string, value: Json) {
    exists i :: 0 <= i < |fragments| && Entry(fragments[i], key, outer, name) == Some(value)
  }

  ghost predicate SomePart(fragments: seq<map<string, Json>>, key: string, outer: string) {
    exists i :: 0 <= i < |fragments| && outer in Part(fragments[i], key)
  }

  lemma SomeEntryFirst(fragments: seq<map<string, Json>>, key: string, outer: string, name: string, value: Json)
    requires fragments != []
    ensures SomeEntry(fragments, key, outer, name, value) <==>
      Entry(fragments[0], key, outer, name) == Some(value) || SomeEntry(fragments[1..], key, outer, name, value)
  {
    var rest := fragments[1..];
    if SomeEntry(fragments, key, outer, name, value) {
      var i :| 0 <= i < |fragments| && Entry(fragments[i], key, outer, name) == Some(value);
      if i > 0 { assert rest[i - 1] == fragments[i]; }
    }
    if SomeEntry(rest, key, outer, name, value) {
      var i :| 0 <= i < |rest| && Entry(rest[i], key, outer, name) == Some(value);
      assert fragments[i + 1] == rest[i];
    }
  }

  /** Every contributed entry is in the result, once and unchanged, and nothing else is. */
  lemma {:induction false} MergeAllEntry(document: map<string, Json>, fragments: seq<map<string, Json>>,
                                         key: string, outer: string, name: string, value: Json)
    requires AllWellShaped(document, fragments) && MergeAll(document, fragments).Some? && key in FRAGMENT_KEYS
    ensures Entry(MergeAll(document, fragments).value, key, outer, name) == Some(value) <==>
      Entry(document, key, outer, name) == Some(value) || SomeEntry(fragments, key, outer, name, value)
    decreases |fragments|
  {
    if fragments != [] {
      var next, rest := Merged(document, fragments[0]), fragments[1..];
      MergedEntries(document, fragments[0]);
      MergedEntry(document, fragments[0], key, outer, name);
      MergeableExactly(document, fragments[0]);
      assert Entry(document, key, outer, name).None? || Entry(fragments[0], key, outer, name).None?;
      MergeAllEntry(next, rest, key, outer, name, value);
      SomeEntryFirst(fragments, key, outer, name, value);
    }
  }

  lemma {:induction false} MergeAllShape(document: map<string, Json>, fragments: seq<map<string, Json>>)
    requires AllWellShaped(document, fragments) && MergeAll(document, fragments).Some?
    ensures var r := MergeAll(document, fragments).value;
      && WellShaped(r)
      && (fragments != [] ==> FRAGMENT_KEYS <= r.Keys)
      && (forall key :: key !in FRAGMENT_KEYS ==> (key in r <==> key in document) && (key in r ==> r[key] == document[key]))
    decreases |fragments|
  {
    if fragments != [] {
      MergedEntries(document, fragments[0]);
      MergeAllShape(Merged(document, fragments[0]), fragments[1..]);
    }
  }

  lemma {:induction false} MergeAllPart(document: map<string, Json>, fragments: seq<map<string, Json>>, key: string, outer: string)
    requires AllWellShaped(document, fragments) && MergeAll(document, fragments).Some? && key in FRAGMENT_KEYS
    ensures outer in Part(MergeAll(document, fragments).value, key) <==>
      outer in Part(document, key) || SomePart(fragments, key, outer)
    decreases |fragments|
  {
    if fragments != [] {
      var next, rest := Merged(document, fragments[0]), fragments[1..];
      MergedEntries(document, fragments[0]);
      MergeAllPart(next, rest, key, outer);
      if SomePart(fragments, key, outer) {
        var i :| 0 <= i < |fragments| && outer in Part(fragments[i], key);
        if i > 0 { assert outer in Part(rest[i - 1], key); }
      }
      if SomePart(rest, key, outer) {
        var i :| 0 <= i < |rest| && outer in Part(rest[i], key);
        assert outer in Part(fragments[i + 1], key);
      }
      assert outer in Part(fragments[0], key) ==> SomePart(fragments, key, outer);
    }
  }

  // ----- order does not matter -----

  lemma {:induction false} TwiceMeansTwoPlaces<T>(s: seq<T>, x: T)
    requires multiset(s)[x] > 1
    ensures exists i, j :: 0 <= i < j < |s| && s[i] == x && s[j] == x
  {
    var t := s[1..];
    assert s == [s[0]] + t;
    if s[0] == x {
      assert x in multiset(t);
      var j :| 0 <= j < |t| && t[j] == x;
      assert s[0] == x && s[j + 1] == x;
    } else {
      TwiceMeansTwoPlaces(t, x);
      var i, j :| 0 <= i < j < |t| && t[i] == x && t[j] == x;
      assert s[i + 1] == x && s[j + 1] == x;
    }
  }

  lemma TwoPlacesMeanTwice<T>(s: seq<T>, i: nat, j: nat)
    requires i < j < |s| && s[i] == s[j]
    ensures multiset(s)[s[i]] > 1
  {
    assert s == s[..j] + s[j..];
    assert s[i] in multiset(s[..j]) by { assert s[..j][i] == s[i]; }
    assert s[j] in multiset(s[j..]) by { assert s[j..][0] == s[j]; }
  }

  lemma AllDisjointShuffled(document: map<string, Json>, fs: seq<map<string, Json>>, gs: seq<map<string, Json>>)
    requires multiset(fs) == multiset(gs) && AllDisjoint(document, fs)
    ensures AllDisjoint(document, gs)
  {
    forall i | 0 <= i < |gs| ensures Disjoint(document, gs[i]) {
      assert gs[i] in multiset(fs);
      var k :| 0 <= k < |fs| && fs[k] == gs[i];
    }
    forall i, j | 0 <= i < j < |gs| ensures Disjoint(gs[i], gs[j]) {
      if gs[i] == gs[j] {
        TwoPlacesMeanTwice(gs, i, j);
        TwiceMeansTwoPlaces(fs, gs[i]);
        var a, b :| 0 <= a < b < |fs| && fs[a] == gs[i] && fs[b] == gs[i];
        assert Disjoint(fs[a], fs[b]);
      } else {
        assert gs[i] in multiset(fs) && gs[j] in multiset(fs);
        var a :| 0 <= a < |fs| && fs[a] == gs[i];
        var b :| 0 <= b < |fs| && fs[b] == gs[j];
        assert a < b ==> Disjoint(fs[a], fs[b]);
        assert b < a ==> Disjoint(fs[b], fs[a]);
      }
    }
  }

  lemma SomeEntryShuffled(fs: seq<map<string, Json>>, gs: seq<map<string, Json>>, key: string, outer: string, name: string, value: Json)
    requires multiset(fs) == multiset(gs) && SomeEntry(fs, key, outer, name, value)
    ensures SomeEntry(gs, key, outer, name, value)
  {
    var i :| 0 <= i < |fs| && Entry(fs[i], key, outer, name) == Some(value);
    assert fs[i] in multiset(gs);
  }

  lemma SomePartShuffled(fs: seq<map<string, Json>>, gs: seq<map<string, Json>>, key: string, outer: string)
    requires multiset(fs) == multiset(gs) && SomePart(fs, key, outer)
    ensures SomePart(gs, key, outer)
  {
    var i :| 0 <= i < |fs| && outer in Part(fs[i], key);
    assert fs[i] in multiset(gs);
  }

  /** Two well-shaped documents with the same entries, sections and other keys are equal. */
  lemma SameDocument(a: map<string, Json>, b: map<string, Json>)
    requires WellShaped(a) && WellShaped(b) && a.Keys == b.Keys
    requires forall key :: key !in FRAGMENT_KEYS && key in a ==> a[key] == b[key]
    requires forall key :: key in FRAGMENT_KEYS ==> Part(a, key).Keys == Part(b, key).Keys
    requires forall key, outer, name :: key in FRAGMENT_KEYS ==> Entry(a, key, outer, name) == Entry(b, key, outer, name)
    ensures a == b
  {
    forall key | key in a ensures a[key] == b[key] {
      if key in FRAGMENT_KEYS {
        forall outer | outer in Part(a, key) ensures Part(a, key)[outer] == Part(b, key)[outer] {
          var x, y := Part(a, key)[outer].members, Part(b, key)[outer].members;
          forall name ensures (name in x <==> name in y) && (name in x ==> x[name] == y[name]) {
            assert Entry(a, key, outer, name) == Entry(b, key, outer, name);
          }
          assert x == y;
        }
        assert Part(a, key) == Part(b, key);
      }
    }
  }

  /** Neither success nor the merged document depends on the order of the fragments. */
  lemma OrderIndependent(document: map<string, Json>, fs: seq<map<string, Json>>, gs: seq<map<string, Json>>)
    requires AllWellShaped(document, fs) && AllWellShaped(document, gs) && multiset(fs) == multiset(gs)
    ensures MergeAll(document, fs) == MergeAll(document, gs)
  {
    assert |fs| == |multiset(fs)| == |multiset(gs)| == |gs|;
    MergeAllSucceeds(document, fs);
    MergeAllSucceeds(document, gs);
    if AllDisjoint(document, fs) {
      AllDisjointShuffled(document, fs, gs);
      var a, b := MergeAll(document, fs).value, MergeAll(document, gs).value;
      MergeAllShape(document, fs);
      MergeAllShape(document, gs);
      forall key, outer | key in FRAGMENT_KEYS ensures outer in Part(a, key) <==> outer in Part(b, key) {
        MergeAllPart(document, fs, key, outer);
        MergeAllPart(document, gs, key, outer);
        if SomePart(fs, key, outer) { SomePartShuffled(fs, gs, key, outer); }
        if SomePart(gs, key, outer) { SomePartShuffled(gs, fs, key, outer); }
      }
      forall key, outer, name | key in FRAGMENT_KEYS ensures Entry(a, key, outer, name) == Entry(b, key, outer, name) {
        SameEntry(document, fs, gs, key, outer, name);
        SameEntry(document, gs, fs, key, outer, name);
      }
      SameDocument(a, b);
    } else if AllDisjoint(document, gs) {
      AllDisjointShuffled(document, gs, fs);
    }
  }

  lemma SameEntry(document: map<string, Json>, fs: seq<map<string, Json>>, gs: seq<map<string, Json>>, key: string, outer: string, name: string)
    requires AllWellShaped(document, fs) && AllWellShaped(document, gs) && multiset(fs) == multiset(gs)
    requires MergeAll(document, fs).Some? && MergeAll(document, gs).Some? && key in FRAGMENT_KEYS
    ensures var e := Entry(MergeAll(document, fs).value, key, outer, name);
      e.Some? ==> Entry(MergeAll(document, gs).value, key, outer, name) == e
  {
    var e := Entry(MergeAll(document, fs).value, key, outer, name);
    if e.Some? {
      MergeAllEntry(document, fs, key, outer, name, e.value);
      MergeAllEntry(document, gs, key, outer, name, e.value);
      if SomeEntry(fs, key, outer, name, e.value) {
        SomeEntryShuffled(fs, gs, key, outer, name, e.value);
      }
    }
  }
}
