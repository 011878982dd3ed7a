/** Which named schemas occur in request bodies and which in responses: the traversal
    of a document through nested values and local references, cycles included. */
module SchemaRoles {
  import opened Json
  import opened Pointers

  datatype Role = Request | Response

  const SCHEMA_PREFIX := "#/components/schemas/"
  const HTTP_METHODS := {"get", "put", "post", "delete", "patch", "options", "head", "trace"}

  /** The name a reference into the schema section is counted under. */
  function SchemaName(reference: string): Option<string> {
    if SCHEMA_PREFIX <= reference then Some(Unescape(reference[|SCHEMA_PREFIX|..])) else None
  }

  // ----- the reference graph -----

  function OwnRef(node: Json): set<string> {
    if node.Obj? && "$ref" in node.members && node.members["$ref"].Str? then {node.members["$ref"].s} else {}
  }

  /** References met in `node` without following any: the value under a "$ref" key is
      never looked into. */
  function TreeRefs(node: Json): set<string> {
    match node
    case Arr(xs) => set i, r | 0 <= i < |xs| && r in TreeRefs(xs[i]) :: r
    case Obj(m) => OwnRef(node) + set k, r | k in m && k != "$ref" && r in TreeRefs(m[k]) :: r
    case _ => {}
  }

  /** Every reference string anywhere in `node`. */
  function AllRefs(node: Json): set<string> {
    match node
    case Arr(xs) => set i, r | 0 <= i < |xs| && r in AllRefs(xs[i]) :: r
    case Obj(m) => OwnRef(node) + set k, r | k in m && r in AllRefs(m[k]) :: r
    case _ => {}
  }

  /** References met in what `reference` denotes. */
  function NextRefs(document: Json, reference: string): set<string> {
    var target := Target(document, reference);
    if target.Some? then TreeRefs(target.value) else {}
  }

  ghost predicate RefPath(document: Json, root: Json, p: seq<string>) {
    && |p| > 0
    && p[0] in TreeRefs(root)
    && forall i :: 0 < i < |p| ==> p[i] in NextRefs(document, p[i - 1])
  }

  /** `reference` is met from `root` after following any number of references. */
  ghost predicate Reaches(document: Json, root: Json, reference: string) {
    exists p :: RefPath(document, root, p) && p[|p| - 1] == reference
  }

  // ----- what uses a schema -----

  function Member(j: Json, key: string): Option<Json> {
    if j.Obj? && key in j.members then Some(j.members[key]) else None
  }

  function Operation(document: Json, route: string, verb: string): Option<Json> {
    match Member(document, "paths")
    case None => None
    case Some(paths) =>
      match Member(paths, route)
      case None => None
      case Some(item) =>
        match Member(item, verb)
        case Some(operation) => if verb in HTTP_METHODS && operation.Obj? then Some(operation) else None
        case None => None
  }

  /** The part of an operation a role is collected from.  An explicit null under
      "responses" counts as absent; under "requestBody" it is traversed, to no effect. */
  function RoleRoot(operation: Json, role: Role): Option<Json> {
    match role
    case Request => Member(operation, "requestBody")
    case Response => match Member(operation, "responses") case Some(Null) => None case other => other
  }

  ghost predicate UsedBy(document: Json, route: string, verb: string, role: Role, reference: string) {
    var operation := Operation(document, route, verb);
    && operation.Some?
    && RoleRoot(operation.value, role).Some?
    && Reaches(document, RoleRoot(operation.value, role).value, reference)
  }

  /** `reference` is met from some request body, respectively some responses. */
  ghost predicate UsedRef(document: Json, role: Role, reference: string) {
    exists route, verb :: UsedBy(document, route, verb, role, reference)
  }

  /** Some reference counted under `name` is met in that role. */
  ghost predicate Used(document: Json, role: Role, name: string) {
    exists r :: UsedRef(document, role, r) && SchemaName(r) == Some(name)
  }

  type RoleMap = map<string, set<Role>>

  predicate HasRole(roles: RoleMap, name: string, role: Role) {
    name in roles && role in roles[name]
  }

  // ----- facts about the graph -----

  lemma {:induction false} TreeRefsAmongAll(node: Json)
    ensures TreeRefs(node) <= AllRefs(node)
  {
    match node
    case Arr(xs) =>
      forall i | 0 <= i < |xs| ensures TreeRefs(xs[i]) <= AllRefs(xs[i]) { TreeRefsAmongAll(xs[i]); }
    case Obj(m) =>
      forall k | k in m ensures TreeRefs(m[k]) <= AllRefs(m[k]) { TreeRefsAmongAll(m[k]); }
    case _ =>
  }

  lemma {:induction false} WalkStaysInside(node: Json, path: seq<string>)
    ensures var r := Walk(node, path); r.Some? ==> AllRefs(r.value) <= AllRefs(node)
    decreases |path|
  {
    if path != [] && node.Obj? && path[0] in node.members {
      WalkStaysInside(node.members[path[0]], path[1..]);
    }
  }

  lemma NextRefsInside(document: Json, reference: string)
    ensures NextRefs(document, reference) <= AllRefs(document)
  {
    var target := Target(document, reference);
    if target.Some? {
      TreeRefsAmongAll(target.value);
      WalkStaysInside(document, UnescapeAll(Split(reference[2..], '/')));
    }
  }

  lemma RootReaches(document: Json, root: Json, reference: string)
    requires reference in TreeRefs(root)
    ensures Reaches(document, root, reference)
  {
    assert RefPath(document, root, [reference]);
  }

  lemma ReachesNext(document: Json, root: Json, via: string, reference: string)
    requires Reaches(document, root, via) && reference in NextRefs(document, via)
    ensures Reaches(document, root, reference)
  {
    var p :| RefPath(document, root, p) && p[|p| - 1] == via;
    assert RefPath(document, root, p + [reference]);
  }

  /** A set of references that holds the root's and is closed under following holds
      everything reachable. */
  lemma {:induction false} ClosedHoldsPath(document: Json, root: Json, held: set<string>, p: seq<string>)
    requires TreeRefs(root) <= held
    requires forall r :: r in held ==> NextRefs(document, r) <= held
    requires RefPath(document, root, p)
    ensures p[|p| - 1] in held
    decreases |p|
  {
    if |p| > 1 {
      assert RefPath(document, root, p[..|p| - 1]);
      ClosedHoldsPath(document, root, held, p[..|p| - 1]);
      var via := p[|p| - 2];
      assert p[|p| - 1] in NextRefs(document, via);
    }
  }

  // ----- the traversal -----

  /** The role map holds exactly the names of the counted references. */
  ghost predicate Tallies(roles: RoleMap, counted: set<(Role, string)>) {
    forall name, role :: HasRole(roles, name, role) <==>
      exists r :: (role, r) in counted && SchemaName(r) == Some(name)
  }

  function WithRole(roles: RoleMap, name: string, role: Role): RoleMap {
    roles[name := (if name in roles then roles[name] else {}) + {role}]
  }

  lemma TallyOne(roles: RoleMap, counted: set<(Role, string)>, role: Role, reference: string)
    requires Tallies(roles, counted)
    ensures Tallies(match SchemaName(reference) case Some(name) => WithRole(roles, name, role) case None => roles,
                    counted + {(role, reference)})
  {
    var now := match SchemaName(reference) case Some(name) => WithRole(roles, name, role) case None => roles;
    var all := counted + {(role, reference)};
    forall name, ro
      ensures HasRole(now, name, ro) <==> exists r :: (ro, r) in all && SchemaName(r) == Some(name)
    {
      if HasRole(roles, name, ro) {
        var r :| (ro, r) in counted && SchemaName(r) == Some(name);
        assert (ro, r) in all;
      }
      if ro == role && SchemaName(reference) == Some(name) {
        assert (ro, reference) in all;
      }
    }
  }

  /** What a traversal in one role may add to the visited references: reachable ones,
      each with everything it leads to. */
  ghost predicate Grows(document: Json, root: Json, role: Role, before: set<(Role, string)>, after: set<(Role, string)>) {
    && before <= after
    && forall x :: x in after && x !in before ==>
      x.0 == role && Reaches(document, root, x.1) && Led(document, role, x.1, after)
  }

  ghost predicate Led(document: Json, role: Role, reference: string, visited: set<(Role, string)>) {
    forall s :: s in NextRefs(document, reference) ==> (role, s) in visited
  }

  ghost predicate Adds(document: Json, root: Json, role: Role, before: set<(Role, string)>, after: set<(Role, string)>) {
    && before <= after
    && forall x :: x in after && x !in before ==> x.0 == role && Reaches(document, root, x.1)
  }

  /** Every reference of `node` has been visited in this role. */
  ghost predicate Covers(visited: set<(Role, string)>, role: Role, node: Json) {
    forall r :: r in TreeRefs(node) ==> (role, r) in visited
  }

  /** The references of `node` are reachable and within the finite universe `u`. */
  ghost predicate Within(document: Json, root: Json, role: Role, node: Json, u: set<(Role, string)>) {
    forall r :: r in TreeRefs(node) ==> (role, r) in u && Reaches(document, root, r)
  }

  lemma GrowsOn(document: Json, root: Json, role: Role,
                first: set<(Role, string)>, second: set<(Role, string)>, third: set<(Role, string)>)
    requires Grows(document, root, role, first, second) && Grows(document, root, role, second, third)
    ensures Grows(document, root, role, first, third)
  {
  }

  lemma ItemRefs(node: Json, i: nat)
    requires node.Arr? && i < |node.items|
    ensures TreeRefs(node.items[i]) <= TreeRefs(node)
  {
  }

  lemma MemberRefs(node: Json, k: string)
    requires node.Obj? && k in node.members && k != "$ref"
    ensures TreeRefs(node.members[k]) <= TreeRefs(node)
  {
  }

  class RoleCollector {
    const document: Json
    var roles: RoleMap
    var visited: set<(Role, string)>
    /** References counted so far, over all traversals. */
    ghost var counted: set<(Role, string)>

    constructor (document: Json)
      ensures this.document == document && Valid() && roles == map[] && visited == {} && counted == {}
    {
      this.document := document;
      roles, visited, counted := map[], {}, {};
    }

    ghost predicate Valid()
      reads this
    {
      Tallies(roles, counted) && visited <= counted
    }

    ghost predicate Finite(role: Role, u: set<(Role, string)>) {
      forall r :: r in AllRefs(document) ==> (role, r) in u
    }

    /** One traversal from `node`; `root` is where the operation's traversal began and
        `u` bounds the references it can meet. */
    method Collect(node: Json, role: Role, ghost root: Json, ghost u: set<(Role, string)>)
      requires Valid() && Finite(role, u) && Within(document, root, role, node, u)
      modifies this`roles, this`visited, this`counted
      ensures Valid()
      ensures Grows(document, root, role, old(visited), visited)
      ensures Adds(document, root, role, old(counted), counted)
      ensures Covers(visited, role, node)
      decreases u - visited, node, 1
    {
      if node.Arr? {
        CollectItems(node, role, root, u);
      } else if node.Obj? {
        CollectOwn(node, role, root, u);
        label own:
        CollectMembers(node, role, root, u);
        GrowsOn(document, root, role, old(visited), old@own(visited), visited);
      }
    }

    method CollectItems(node: Json, role: Role, ghost root: Json, ghost u: set<(Role, string)>)
      requires node.Arr?
      requires Valid() && Finite(role, u) && Within(document, root, role, node, u)
      modifies this`roles, this`visited, this`counted
      ensures Valid()
      ensures Grows(document, root, role, old(visited), visited)
      ensures Adds(document, root, role, old(counted), counted)
      ensures Covers(visited, role, node)
      decreases u - visited, node, 0
    {
      ghost var done: set<string> := {};
      for i := 0 to |node.items|
        invariant Valid()
        invariant Grows(document, root, role, old(visited), visited)
        invariant Adds(document, root, role, old(counted), counted)
        invariant forall j, r :: 0 <= j < i && r in TreeRefs(node.items[j]) ==> r in done
        invariant forall r :: r in done ==> (role, r) in visited
      {
        label step:
        ItemRefs(node, i);
        Collect(node.items[i], role, root, u);
        GrowsOn(document, root, role, old(visited), old@step(visited), visited);
        done := done + TreeRefs(node.items[i]);
      }
    }

    method CollectMembers(node: Json, role: Role, ghost root: Json, ghost u: set<(Role, string)>)
      requires node.Obj?
      requires Valid() && Finite(role, u) && Within(document, root, role, node, u)
      modifies this`roles, this`visited, this`counted
      ensures Valid()
      ensures Grows(document, root, role, old(visited), visited)
      ensures Adds(document, root, role, old(counted), counted)
      ensures forall r :: r in TreeRefs(node) - OwnRef(node) ==> (role, r) in visited
      decreases u - visited, node, 0
    {
      var keys := node.members.Keys - {"$ref"};
      ghost var done: set<string> := {};
      while keys != {}
        invariant keys <= node.members.Keys - {"$ref"}
        invariant Valid()
        invariant Grows(document, root, role, old(visited), visited)
        invariant Adds(document, root, role, old(counted), counted)
        invariant forall k, r :: k in node.members.Keys - {"$ref"} - keys && r in TreeRefs(node.members[k]) ==> r in done
        invariant forall r :: r in done ==> (role, r) in visited
        decreases keys
      {
        var k :| k in keys;
        label step:
        MemberRefs(node, k);
        Collect(node.members[k], role, root, u);
        GrowsOn(document, root, role, old(visited), old@step(visited), visited);
        done := done + TreeRefs(node.members[k]);
        keys := keys - {k};
      }
    }

    lemma TargetWithin(role: Role, root: Json, reference: string, target: Json, u: set<(Role, string)>)
      requires Finite(role, u) && Reaches(document, root, reference) && Target(document, reference) == Some(target)
      ensures Within(document, root, role, target, u)
    {
      NextRefsInside(document, reference);
      forall r | r in TreeRefs(target) ensures (role, r) in u && Reaches(document, root, r) {
        ReachesNext(document, root, reference, r);
      }
    }

    /** The reference an object itself carries: count its name, and on the first visit
        of the traversal follow it. */
    method CollectOwn(node: Json, role: Role, ghost root: Json, ghost u: set<(Role, string)>)
      requires node.Obj?
      requires Valid() && Finite(role, u) && Within(document, root, role, node, u)
      modifies this`roles, this`visited, this`counted
      ensures Valid()
      ensures Grows(document, root, role, old(visited), visited)
      ensures Adds(document, root, role, old(counted), counted)
      ensures forall r :: r in OwnRef(node) ==> (role, r) in visited
      decreases u - visited, node, 0
    {
      if "$ref" !in node.members || !node.members["$ref"].Str? {
        return;
      }
      var reference := node.members["$ref"].s;
      var key := (role, reference);
      assert reference in TreeRefs(node);
      TallyOne(roles, counted, role, reference);
      var name := SchemaName(reference);
      if name.Some? {
        roles := WithRole(roles, name.value, role);
      }
      counted := counted + {key};
      if key !in visited {
        visited := visited + {key};
        var target := ResolveLocalRef(document, reference);
        if target.Some? {
          TargetWithin(role, root, reference, target.value, u);
          Collect(target.value, role, root, u);
        }
      }
    }

    /** The whole traversal from one request body or one responses object. */
    method CollectRoot(node: Json, role: Role)
      requires Valid()
      modifies this
      ensures Valid()
      ensures forall ro, r :: (ro, r) in counted <==>
        (ro, r) in old(counted) || (ro == role && Reaches(document, node, r))
    {
      visited := {};
      ghost var u := set r | r in AllRefs(document) + TreeRefs(node) :: (role, r);
      forall r | r in TreeRefs(node) ensures Reaches(document, node, r) { RootReaches(document, node, r); }
      Collect(node, role, node, u);
      forall r | Reaches(document, node, r) ensures (role, r) in visited {
        ReachedIsVisited(document, node, role, visited, r);
      }
    }

    method CountOperation(operation: Json)
      requires operation.Obj? && Valid()
      modifies this
      ensures Valid()
      ensures forall role, r :: (role, r) in counted <==>
        (role, r) in old(counted) ||
        (RoleRoot(operation, role).Some? && Reaches(document, RoleRoot(operation, role).value, r))
    {
      if "requestBody" in operation.members {
        CollectRoot(operation.members["requestBody"], Request);
      }
      var responses := Get(operation, "responses");
      if responses != Null {
        CollectRoot(responses, Response);
      }
    }
  }

  lemma ReachedIsVisited(document: Json, root: Json, role: Role, visited: set<(Role, string)>, reference: string)
    requires Grows(document, root, role, {}, visited) && Covers(visited, role, root)
    requires Reaches(document, root, reference)
    ensures (role, reference) in visited
  {
    var held := set x | x in visited :: x.1;
    forall r | r in held ensures NextRefs(document, r) <= held {
      assert (role, r) in visited;
      assert Led(document, role, r, visited);
      forall s | s in NextRefs(document, r) ensures s in held { assert (role, s) in visited; }
    }
    forall r | r in TreeRefs(root) ensures r in held { assert (role, r) in visited; }
    var p :| RefPath(document, root, p) && p[|p| - 1] == reference;
    ClosedHoldsPath(document, root, held, p);
  }

  /** The references counted after the operations in `done`. */
  ghost predicate CountedFrom(document: Json, counted: set<(Role, string)>, done: set<(string, string)>) {
    forall role, r :: (role, r) in counted <==>
      exists route, verb :: (route, verb) in done && UsedBy(document, route, verb, role, r)
  }

  lemma CountOne(document: Json, counted: set<(Role, string)>, done: set<(string, string)>,
                 route: string, verb: string, after: set<(Role, string)>)
    requires CountedFrom(document, counted, done)
    requires forall role, r :: (role, r) in after <==> (role, r) in counted || UsedBy(document, route, verb, role, r)
    ensures CountedFrom(document, after, done + {(route, verb)})
  {
    var now := done + {(route, verb)};
    forall role, r
      ensures (role, r) in after <==> exists ro, ve :: (ro, ve) in now && UsedBy(document, ro, ve, role, r)
    {
      if (role, r) in counted {
        var ro, ve :| (ro, ve) in done && UsedBy(document, ro, ve, role, r);
        assert (ro, ve) in now;
      }
      if UsedBy(document, route, verb, role, r) {
        assert (route, verb) in now;
      }
    }
  }

  /** A component name has a role exactly when a reference counted under it is met from
      some request body, respectively some responses object.  Terminates on cyclic
      documents. */
  method SchemaUsageRoles(document: Json) returns (roles: RoleMap)
    requires document.Obj?
    ensures forall name, role :: HasRole(roles, name, role) <==> Used(document, role, name)
  {
    var collector := new RoleCollector(document);
    ghost var done: set<(string, string)> := {};
    var paths := GetOr(document, "paths", Obj(map[]));
    if paths.Obj? {
      var routes := paths.members.Keys;
      while routes != {}
        invariant routes <= paths.members.Keys
        invariant collector.document == document && collector.Valid() && fresh(collector)
        invariant CountedFrom(document, collector.counted, done)
        invariant forall route, verb :: route !in routes && Operation(document, route, verb).Some? ==> (route, verb) in done
        decreases routes
      {
        var route :| route in routes;
        routes := routes - {route};
        var item := paths.members[route];
        if item.Obj? {
          var verbs := item.members.Keys;
          while verbs != {}
            invariant verbs <= item.members.Keys
            invariant collector.document == document && collector.Valid() && fresh(collector)
            invariant CountedFrom(document, collector.counted, done)
            invariant forall ro, verb :: ro !in routes && ro != route && Operation(document, ro, verb).Some? ==> (ro, verb) in done
            invariant forall verb :: verb !in verbs && Operation(document, route, verb).Some? ==> (route, verb) in done
            decreases verbs
          {
            var verb :| verb in verbs;
            verbs := verbs - {verb};
            var operation := item.members[verb];
            if verb in HTTP_METHODS && operation.Obj? {
              assert Operation(document, route, verb) == Some(operation);
              ghost var before := collector.counted;
              collector.CountOperation(operation);
              CountOne(document, before, done, route, verb, collector.counted);
              done := done + {(route, verb)};
            }
          }
        }
      }
    }
    roles := collector.roles;
    AllCounted(document, collector.counted, done, roles);
  }

  lemma AllCounted(document: Json, counted: set<(Role, string)>, done: set<(string, string)>, roles: RoleMap)
    requires CountedFrom(document, counted, done) && Tallies(roles, counted)
    requires forall route, verb :: Operation(document, route, verb).Some? ==> (route, verb) in done
    ensures forall name, role :: HasRole(roles, name, role) <==> Used(document, role, name)
  {
    forall role, r ensures (role, r) in counted <==> UsedRef(document, role, r) {
      if UsedRef(document, role, r) {
        var route, verb :| UsedBy(document, route, verb, role, r);
        assert (route, verb) in done;
      }
    }
    forall name, role ensures HasRole(roles, name, role) <==> Used(document, role, name) {
      if HasRole(roles, name, role) {
        var r :| (role, r) in counted && SchemaName(r) == Some(name);
        assert UsedRef(document, role, r);
      }
      if Used(document, role, name) {
        var r :| UsedRef(document, role, r) && SchemaName(r) == Some(name);
        assert (role, r) in counted;
      }
    }
  }
}
