/**
 * The consistency test run over every diagnostic template: node ids are unique,
 * the root is a node, every `yes`/`no` reference other than the END marker names
 * a node, and a depth-first search from the root reaches every node.
 */
module TemplateConsistency {
  import opened Wrappers
  import opened Collections

  /** The END marker, exempt from the reference check and from the search. */
  const EndRef := "END"

  /** The slice of a template the test reads. */
  datatype TestNode = TestNode(id: string, yes: Option<string>, no: Option<string>)

  datatype TestTree = TestTree(root: string, nodes: seq<TestNode>)

  /** Why a template fails; the first failing check is reported. */
  datatype TemplateError =
    | DuplicateNodeIds
    | RootNotFound(root: string)
    | ReferenceNotFound(ref: string)
    | UnreachableNodes(ids: set<string>)

  /** Why the whole test fails: no templates directory, no template in it, or the first bad template (by position). */
  datatype SuiteError = DirectoryNotFound | NoTemplates | BadTemplate(index: nat, error: TemplateError)

  /** `nodes.map { it.id }`: duplicate-free exactly when no two nodes share an id. */
  function Ids(nodes: seq<TestNode>): (ids: seq<string>)
    ensures |ids| == |nodes| && forall i :: 0 <= i < |nodes| ==> ids[i] == nodes[i].id
    ensures Distinct(ids) <==> forall i, j :: 0 <= i < j < |nodes| ==> nodes[i].id != nodes[j].id
  {
    seq(|nodes|, i requires 0 <= i < |nodes| => nodes[i].id)
  }

  /** `nodes.associateBy { it.id }`. */
  function NodeMap(nodes: seq<TestNode>): (m: map<string, TestNode>)
    ensures forall i :: 0 <= i < |nodes| ==> nodes[i].id in m
    ensures forall id :: id in m ==> m[id].id == id
  {
    IndexBy(nodes, (n: TestNode) => n.id)
  }

  /** `listOf(yes, no).filterNotNull()`. */
  function Refs(n: TestNode): (refs: seq<string>)
    ensures forall x :: x in refs <==> n.yes == Some(x) || n.no == Some(x)
  {
    (if n.yes.Some? then [n.yes.value] else []) + (if n.no.Some? then [n.no.value] else [])
  }

  // ---- Reachability ----

  /** The ids the search goes on to from `id`: its references except END; none for an unknown id. */
  ghost function Succ(nodeMap: map<string, TestNode>, id: string): set<string> {
    if id in nodeMap then set x | x in Refs(nodeMap[id]) && x != EndRef else {}
  }

  /** A walk along non-END `yes`/`no` edges. */
  ghost predicate IsPath(nodeMap: map<string, TestNode>, p: seq<string>) {
    |p| >= 1 && forall i :: 0 <= i < |p| - 1 ==> p[i + 1] in Succ(nodeMap, p[i])
  }

  ghost predicate Reachable(nodeMap: map<string, TestNode>, a: string, b: string) {
    exists p :: IsPath(nodeMap, p) && p[0] == a && p[|p| - 1] == b
  }

  /** Every id the search can meet: the nodes and their non-END references. */
  ghost function Universe(nodeMap: map<string, TestNode>): set<string> {
    nodeMap.Keys + set k, x | k in nodeMap && x in Refs(nodeMap[k]) && x != EndRef :: x
  }

  lemma ReachableFromItself(nodeMap: map<string, TestNode>, a: string)
    ensures Reachable(nodeMap, a, a)
  {
    assert IsPath(nodeMap, [a]);
  }

  lemma ReachableByEdge(nodeMap: map<string, TestNode>, a: string, b: string, c: string)
    requires b in Succ(nodeMap, a) && Reachable(nodeMap, b, c)
    ensures Reachable(nodeMap, a, c)
  {
    var p :| IsPath(nodeMap, p) && p[0] == b && p[|p| - 1] == c;
    var q := [a] + p;
    assert forall i :: 0 < i < |q| ==> q[i] == p[i - 1];
    assert IsPath(nodeMap, q);
  }

  /** A set that holds `a` and all successors of its members holds everything reachable from `a`. */
  lemma {:induction false} ClosedSetHoldsReachable(nodeMap: map<string, TestNode>, s: set<string>, a: string, b: string)
    requires a in s
    requires forall x :: x in s ==> Succ(nodeMap, x) <= s
    requires Reachable(nodeMap, a, b)
    ensures b in s
  {
    var p :| IsPath(nodeMap, p) && p[0] == a && p[|p| - 1] == b;
    var k := 0;
    while k < |p| - 1
      invariant 0 <= k <= |p| - 1
      invariant p[k] in s
    {
      assert p[k + 1] in Succ(nodeMap, p[k]);
      k := k + 1;
    }
  }

  lemma SuccInUniverse(nodeMap: map<string, TestNode>, id: string, x: string)
    requires x in Succ(nodeMap, id)
    ensures x in Universe(nodeMap)
  {
  }

  lemma {:induction false} SubsetSize(a: set<string>, b: set<string>)
    requires a <= b
    ensures |a| <= |b|
    decreases |b|
  {
    if a != {} {
      var x :| x in a;
      SubsetSize(a - {x}, b - {x});
    }
  }

  /** Marking `id` before searching from a successor shrinks the set of unmarked ids. */
  lemma SearchShrinks(u: set<string>, id: string, next: string, visited: set<string>, r: set<string>)
    requires next in u && id !in visited && visited + {id} <= r
    ensures |(u + {next}) - r| < |(u + {id}) - visited|
  {
    var big := (u + {id}) - visited;
    SubsetSize((u + {next}) - r, big - {id});
  }

  /**
   * The recursive `visit`: marks `id`, then searches from its non-END references
   * in `yes`, `no` order. An id already marked or unknown ends the branch, so
   * each id is marked once and the search terminates on cyclic templates. What
   * it marks is reachable from `id`, and every id it marks has all its
   * successors marked.
   */
  method Visit(nodeMap: map<string, TestNode>, id: string, visited: set<string>) returns (r: set<string>)
    ensures visited + {id} <= r
    ensures forall x :: x in r && x !in visited ==> Reachable(nodeMap, id, x)
    ensures forall x :: x in r && x !in visited ==> Succ(nodeMap, x) <= r
    decreases |(Universe(nodeMap) + {id}) - visited|
  {
    if id in visited {
      return visited;
    }
    r := visited + {id};
    ReachableFromItself(nodeMap, id);
    if id !in nodeMap {
      return;
    }
    var refs := Refs(nodeMap[id]);
    for i := 0 to |refs|
      invariant visited + {id} <= r
      invariant forall x :: x in r && x !in visited ==> Reachable(nodeMap, id, x)
      invariant forall x :: x in r && x !in visited && x != id ==> Succ(nodeMap, x) <= r
      invariant forall j :: 0 <= j < i && refs[j] != EndRef ==> refs[j] in r
    {
      var next := refs[i];
      if next != EndRef {
        assert next in Succ(nodeMap, id);
        SuccInUniverse(nodeMap, id, next);
        SearchShrinks(Universe(nodeMap), id, next, visited, r);
        var before := r;
        r := Visit(nodeMap, next, r);
        forall x | x in r && x !in before
          ensures Reachable(nodeMap, id, x)
        {
          ReachableByEdge(nodeMap, id, next, x);
        }
      }
    }
  }

  // ---- The checks ----

  /** Every node's references, in node order and `yes` before `no`: the order the test checks them in. */
  function AllRefs(nodes: seq<TestNode>): seq<string> {
    if nodes == [] then [] else Refs(nodes[0]) + AllRefs(nodes[1..])
  }

  /** The reference is END or names an id, so the reference check lets it through. */
  predicate Resolves(x: string, idSet: set<string>) {
    x == EndRef || x in idSet
  }

  /** The first reference, in node order and `yes` before `no`, that is neither END nor an id. */
  function FirstDanglingRef(nodes: seq<TestNode>, idSet: set<string>): (r: Option<string>)
    ensures r.None? <==> forall i, x :: 0 <= i < |nodes| && x in Refs(nodes[i]) && x != EndRef ==> x in idSet
    ensures r.Some? ==> r.value != EndRef && r.value !in idSet
    ensures r.Some? ==> exists i :: 0 <= i < |nodes| && r.value in Refs(nodes[i])
    ensures r.Some? ==> exists k :: 0 <= k < |AllRefs(nodes)| && AllRefs(nodes)[k] == r.value
                          && forall j :: 0 <= j < k ==> Resolves(AllRefs(nodes)[j], idSet)
  {
    if nodes == [] then None
    else
      var refs := Refs(nodes[0]);
      var later := AllRefs(nodes[1..]);
      assert AllRefs(nodes) == refs + later;
      assert forall i :: 0 < i < |nodes| ==> nodes[i] == nodes[1..][i - 1];
      if |refs| > 0 && refs[0] != EndRef && refs[0] !in idSet then
        assert AllRefs(nodes)[0] == refs[0];
        Some(refs[0])
      else if |refs| > 1 && refs[1] != EndRef && refs[1] !in idSet then
        assert AllRefs(nodes)[1] == refs[1] && Resolves(AllRefs(nodes)[0], idSet);
        Some(refs[1])
      else
        var r := FirstDanglingRef(nodes[1..], idSet);
        assert |refs| <= 2;
        assert forall j :: 0 <= j < |refs| ==> Resolves(refs[j], idSet);
        if r.Some? then FirstAfterResolved(refs, later, idSet, r.value); r else r
  }

  /** A first unresolved entry of `later` stays the first one behind entries that all resolve. */
  lemma FirstAfterResolved(refs: seq<string>, later: seq<string>, idSet: set<string>, x: string)
    requires forall j :: 0 <= j < |refs| ==> Resolves(refs[j], idSet)
    requires exists k :: 0 <= k < |later| && later[k] == x && forall j :: 0 <= j < k ==> Resolves(later[j], idSet)
    ensures exists k :: 0 <= k < |refs + later| && (refs + later)[k] == x
                          && forall j :: 0 <= j < k ==> Resolves((refs + later)[j], idSet)
  {
    var k :| 0 <= k < |later| && later[k] == x && forall j :: 0 <= j < k ==> Resolves(later[j], idSet);
    var all := refs + later;
    assert all[|refs| + k] == x;
    forall j | 0 <= j < |refs| + k
      ensures Resolves(all[j], idSet)
    {
      if j >= |refs| {
        assert all[j] == later[j - |refs|];
      }
    }
  }

  /** No non-END reference is left dangling. */
  ghost predicate RefsResolve(t: TestTree) {
    forall i, x :: 0 <= i < |t.nodes| && x in Refs(t.nodes[i]) && x != EndRef ==> x in Ids(t.nodes)
  }

  /** Every node is reachable from the root. */
  ghost predicate AllReachable(t: TestTree) {
    forall i :: 0 <= i < |t.nodes| ==> Reachable(NodeMap(t.nodes), t.root, t.nodes[i].id)
  }

  /** What the test demands of one template, stated directly. */
  ghost predicate Consistent(t: TestTree) {
    Distinct(Ids(t.nodes)) && t.root in Ids(t.nodes) && RefsResolve(t) && AllReachable(t)
  }

  /** The ids of a node list are exactly the keys of its node map. */
  lemma NodeMapKeys(nodes: seq<TestNode>, id: string)
    ensures id in NodeMap(nodes) <==> id in Ids(nodes)
  {
    if id in NodeMap(nodes) {
      IndexByKeys(nodes, (n: TestNode) => n.id, id);
    }
  }

  /** The ids left unmarked by a search from the root are exactly the unreachable ones. */
  lemma UnmarkedAreUnreachable(t: TestTree, visited: set<string>)
    requires t.root in visited
    requires forall x :: x in visited ==> Reachable(NodeMap(t.nodes), t.root, x)
    requires forall x :: x in visited ==> Succ(NodeMap(t.nodes), x) <= visited
    ensures forall id :: id in ElemSet(Ids(t.nodes)) - visited <==>
      id in Ids(t.nodes) && !Reachable(NodeMap(t.nodes), t.root, id)
  {
    forall id | id in Ids(t.nodes) && Reachable(NodeMap(t.nodes), t.root, id)
      ensures id in visited
    {
      ClosedSetHoldsReachable(NodeMap(t.nodes), visited, t.root, id);
    }
  }

  /** Nothing is left unmarked exactly when every node is reachable. */
  lemma NoneUnmarkedIffAllReachable(t: TestTree, visited: set<string>)
    requires t.root in visited
    requires forall x :: x in visited ==> Reachable(NodeMap(t.nodes), t.root, x)
    requires forall x :: x in visited ==> Succ(NodeMap(t.nodes), x) <= visited
    ensures ElemSet(Ids(t.nodes)) - visited == {} <==> AllReachable(t)
  {
    UnmarkedAreUnreachable(t, visited);
    var ids := Ids(t.nodes);
    if ElemSet(ids) - visited == {} {
      forall i | 0 <= i < |t.nodes|
        ensures Reachable(NodeMap(t.nodes), t.root, t.nodes[i].id)
      {
        assert ids[i] == t.nodes[i].id && ids[i] in ElemSet(ids);
      }
    }
    if AllReachable(t) {
      forall id | id in ElemSet(ids)
        ensures id in visited
      {
        var i :| 0 <= i < |ids| && ids[i] == id;
        assert Reachable(NodeMap(t.nodes), t.root, t.nodes[i].id);
      }
      assert ElemSet(ids) - visited == {};
    }
  }

  /** One template's checks, in the test's order; passes exactly when the template is consistent. */
  method CheckTemplate(t: TestTree) returns (outcome: Outcome<TemplateError>)
    ensures outcome.Pass? <==> Consistent(t)
    ensures !Distinct(Ids(t.nodes)) ==> outcome == Fail(DuplicateNodeIds)
    ensures Distinct(Ids(t.nodes)) && t.root !in Ids(t.nodes) ==> outcome == Fail(RootNotFound(t.root))
    ensures Distinct(Ids(t.nodes)) && t.root in Ids(t.nodes) && !RefsResolve(t) ==>
      outcome == Fail(ReferenceNotFound(FirstDanglingRef(t.nodes, ElemSet(Ids(t.nodes))).value))
    ensures Distinct(Ids(t.nodes)) && t.root in Ids(t.nodes) && RefsResolve(t) && !Consistent(t) ==>
      outcome.Fail? && outcome.error.UnreachableNodes?
    ensures outcome.Fail? && outcome.error.ReferenceNotFound? ==>
      outcome.error.ref != EndRef && outcome.error.ref !in Ids(t.nodes)
    ensures outcome.Fail? && outcome.error.UnreachableNodes? ==> outcome.error.ids != {}
    ensures outcome.Fail? && outcome.error.UnreachableNodes? ==>
      forall id :: id in outcome.error.ids <==> id in Ids(t.nodes) && !Reachable(NodeMap(t.nodes), t.root, id)
  {
    var ids := Ids(t.nodes);
    var idSet := ElemSet(ids);
    DistinctIffSetSize(ids);
    if |ids| != |idSet| {
      return Fail(DuplicateNodeIds);
    }
    var nodeMap := NodeMap(t.nodes);
    NodeMapKeys(t.nodes, t.root);
    if t.root !in nodeMap {
      return Fail(RootNotFound(t.root));
    }
    var dangling := FirstDanglingRef(t.nodes, idSet);
    if dangling.Some? {
      return Fail(ReferenceNotFound(dangling.value));
    }
    assert RefsResolve(t);
    var visited := Visit(nodeMap, t.root, {});
    UnmarkedAreUnreachable(t, visited);
    NoneUnmarkedIffAllReachable(t, visited);
    var unreachable := idSet - visited;
    if unreachable != {} {
      return Fail(UnreachableNodes(unreachable));
    }
    return Pass;
  }

  /**
   * The whole test over the templates directory's JSON files, given in listing
   * order (`None` when the directory does not exist): at least one template,
   * and every template consistent.
   */
  method CheckTemplates(directory: Option<seq<TestTree>>) returns (outcome: Outcome<SuiteError>)
    ensures directory.None? ==> outcome == Fail(DirectoryNotFound)
    ensures directory == Some([]) ==> outcome == Fail(NoTemplates)
    ensures outcome.Pass? <==>
      (directory.Some? && |directory.value| > 0 && forall i :: 0 <= i < |directory.value| ==> Consistent(directory.value[i]))
    ensures outcome.Fail? && outcome.error.BadTemplate? ==>
      (directory.Some? && outcome.error.index < |directory.value| && !Consistent(directory.value[outcome.error.index]))
    ensures outcome.Fail? && outcome.error.BadTemplate? && directory.Some? ==>
      forall j :: 0 <= j < outcome.error.index ==> Consistent(directory.value[j])
  {
    if directory.None? {
      return Fail(DirectoryNotFound);
    }
    var templates := directory.value;
    if |templates| == 0 {
      return Fail(NoTemplates);
    }
    for i := 0 to |templates|
      invariant forall j :: 0 <= j < i ==> Consistent(templates[j])
    {
      var o := CheckTemplate(templates[i]);
      if o.Fail? {
        return Fail(BadTemplate(i, o.error));
      }
    }
    return Pass;
  }
}
