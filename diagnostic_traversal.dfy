/**
 * The traversal engine of the diagnostic screen: a view model holding the loaded
 * tree, a node lookup table, the current node id and the path of visited ids (an
 * undo stack). The literal `"END"` may be pushed onto the path without naming a
 * node; it stands for a synthesized end node that belongs to no template.
 */
module DiagnosticTraversal {
  import opened Wrappers
  import opened KotlinText
  import opened Collections
  import opened DiagnosticModels
  import DiagnosticRepository

  /** The path-only sentinel a `yes`/`no` target uses for "the end". */
  const EndMarker := "END"

  /** The Android string resource the view model reports on a failure. */
  datatype StringRes = DiagnosticErrorLoading

  /** What the screen renders. */
  datatype DiagnosticUiState = DiagnosticUiState(
    machineId: string,
    tree: Option<DiagnosticTree>,
    current: Option<DiagnosticNode>,
    path: seq<string>,
    isLoading: bool,
    errorResId: Option<StringRes>)

  /** `nodes.associateBy { it.id }`: every node's id maps to a node carrying it (the last such node). */
  function NodesById(nodes: seq<DiagnosticNode>): (m: map<string, DiagnosticNode>)
    ensures forall i :: 0 <= i < |nodes| ==> nodes[i].id in m
    ensures forall id :: id in m ==> m[id].id == id
    ensures forall i :: 0 <= i < |nodes| && (forall j :: i < j < |nodes| ==> nodes[j].id != nodes[i].id) ==>
      m[nodes[i].id] == nodes[i]
  {
    IndexBy(nodes, (n: DiagnosticNode) => n.id)
  }

  /** `synthEndNode()`: the END node published for the marker. */
  function SynthEndNode(): (n: DiagnosticNode)
    ensures n.id == "__END__" && n.nodeType == End && n.title == "diagnostic_end_title"
    ensures n.description == Some("diagnostic_end_description")
    ensures n.yes.None? && n.no.None? && n.result.None? && n.parts.None?
    ensures n.providersShortcut.None? && n.mode == YesNo
  {
    NewNode("__END__", End, "diagnostic_end_title").(description := Some("diagnostic_end_description"))
  }

  /**
   * The synthesized node is the node the loader builds from a template END node
   * with that id, title and description and no other field: it cannot be told
   * apart from a loaded end node.
   */
  lemma SynthEndNodeIsLoadedEnd(catalog: map<string, DiagnosticRepository.PartDetailRaw>)
    ensures DiagnosticRepository.MapNode(catalog, DiagnosticRepository.RawNode("__END__", "END", "diagnostic_end_title",
              Some("diagnostic_end_description"), None, None, None, None, None, None)) == Success(SynthEndNode())
  {
  }

  /**
   * `publish(current)`: the UI state showing `current` and a copy of the path,
   * with an error exactly when the node is absent.
   */
  function Published(s: DiagnosticUiState, current: Option<DiagnosticNode>, path: seq<string>): (u: DiagnosticUiState)
    ensures u.current == current && u.path == path
    ensures u.errorResId.Some? <==> current.None?
    ensures u.machineId == s.machineId && u.tree == s.tree && u.isLoading == s.isLoading
  {
    s.(current := current, path := path, errorResId := if current.None? then Some(DiagnosticErrorLoading) else None)
  }

  /**
   * A publish overwrites everything an earlier one set: the screen depends only
   * on the last node published, and the error shown goes with that node alone.
   */
  lemma PublishedLastWins(s: DiagnosticUiState, c1: Option<DiagnosticNode>, p1: seq<string>,
                          c2: Option<DiagnosticNode>, p2: seq<string>)
    ensures Published(Published(s, c1, p1), c2, p2) == Published(s, c2, p2)
    ensures Published(Published(s, c1, p1), c1, p1) == Published(s, c1, p1)
  {
  }

  /** The path with one trailing END marker removed, if it has one. */
  function DropEndMarker(path: seq<string>): (p: seq<string>)
    ensures path == p + (if path != [] && path[|path| - 1] == EndMarker then [EndMarker] else [])
  {
    if path != [] && path[|path| - 1] == EndMarker then path[..|path| - 1] else path
  }

  class DiagnosticViewModel {
    const machineId: string
    var tree: Option<DiagnosticTree>
    var nodesById: map<string, DiagnosticNode>
    var currentNodeId: Option<string>
    var path: seq<string>
    var uiState: DiagnosticUiState

    /**
     * Before a tree is loaded nothing is set. Once it is, the path is never empty,
     * its first entry is the root, and the lookup table is the tree's.
     */
    ghost predicate Valid()
      reads this
    {
      && uiState.machineId == machineId
      && uiState.tree == tree
      && uiState.path == path
      && (tree.None? ==> nodesById == map[] && currentNodeId.None? && path == [] && uiState.current.None?)
      && (tree.Some? ==>
           && nodesById == NodesById(tree.value.nodes) && currentNodeId.Some?
           && |path| >= 1 && path[0] == tree.value.root && !uiState.isLoading)
    }

    /** `nodesById[id]`. */
    function Lookup(id: string): (n: Option<DiagnosticNode>)
      reads this`nodesById
      ensures n.Some? <==> id in nodesById
      ensures n.Some? ==> n.value == nodesById[id]
    {
      if id in nodesById then Some(nodesById[id]) else None
    }

    /** The current node when it resolves to a QUESTION node: the only state in which an answer counts. */
    function CurrentQuestion(): (q: Option<DiagnosticNode>)
      reads this`currentNodeId, this`nodesById
      ensures q.Some? <==> currentNodeId.Some? && currentNodeId.value in nodesById
                           && nodesById[currentNodeId.value].nodeType == Question
      ensures q.Some? ==> q.value == nodesById[currentNodeId.value]
    {
      if currentNodeId.Some? && currentNodeId.value in nodesById && nodesById[currentNodeId.value].nodeType == Question
      then Some(nodesById[currentNodeId.value])
      else None
    }

    /**
     * `canGoBack()`: there is an entry above the root to undo. With nothing to
     * undo, either no tree is loaded or the path is the root alone.
     */
    function CanGoBack(): (b: bool)
      reads this
      ensures b <==> |path| > 1
      ensures Valid() ==> (b <==> tree.Some? && path != [tree.value.root])
      ensures Valid() && !b ==> path == [] || path == [tree.value.root]
    {
      |path| > 1
    }

    /** With a tree loaded, a lookup finds exactly the tree's ids, each to a node of the tree carrying it. */
    lemma LookupFindsTreeNodes(id: string)
      requires Valid() && tree.Some?
      ensures Lookup(id).Some? <==> exists i :: 0 <= i < |tree.value.nodes| && tree.value.nodes[i].id == id
      ensures Lookup(id).Some? ==> Lookup(id).value.id == id && Lookup(id).value in tree.value.nodes
    {
      if id in nodesById {
        IndexByKeys(tree.value.nodes, (n: DiagnosticNode) => n.id, id);
      }
    }

    /**
     * An answer only ever acts on a QUESTION node of the loaded tree, the one
     * carrying the current id; before a load there is none.
     */
    lemma CurrentQuestionIsTreeQuestion()
      requires Valid()
      ensures tree.None? ==> CurrentQuestion().None?
      ensures CurrentQuestion().Some? ==>
        && tree.Some? && CurrentQuestion().value in tree.value.nodes
        && CurrentQuestion().value.nodeType == Question && CurrentQuestion().value.id == currentNodeId.value
    {
      if CurrentQuestion().Some? {
        LookupFindsTreeNodes(currentNodeId.value);
      }
    }

    constructor (machineId: string)
      ensures Valid() && this.machineId == machineId
      ensures tree.None? && nodesById == map[] && currentNodeId.None? && path == []
      ensures uiState == DiagnosticUiState(machineId, None, None, [], true, None)
    {
      this.machineId := machineId;
      tree := None;
      nodesById := map[];
      currentNodeId := None;
      path := [];
      uiState := DiagnosticUiState(machineId, None, None, [], true, None);
    }

    /**
     * The end of the initial load. On success the traversal starts at the root with
     * path [root]; on failure only the loading flag and the error change.
     */
    method Load(outcome: Result<DiagnosticTree, DiagnosticRepository.LoadError>)
      requires Valid()
      modifies this
      ensures Valid()
      ensures outcome.Success? ==>
        var t := outcome.value;
        && tree == Some(t) && nodesById == NodesById(t.nodes)
        && currentNodeId == Some(t.root) && path == [t.root]
        && uiState == old(uiState).(tree := Some(t), current := Lookup(t.root), path := [t.root],
                                    isLoading := false, errorResId := None)
    ensures outcome.Failure? ==>
        && tree == old(tree) && nodesById == old(nodesById)
        && currentNodeId == old(currentNodeId) && path == old(path)
        && uiState == old(uiState).(isLoading := false, errorResId := Some(DiagnosticErrorLoading))
    {
      match outcome
      case Success(loadedTree) =>
        var loadedNodes := NodesById(loadedTree.nodes);
        var rootId := loadedTree.root;
        var rootNode := if rootId in loadedNodes then Some(loadedNodes[rootId]) else None;
        tree := Some(loadedTree);
        nodesById := loadedNodes;
        currentNodeId := Some(rootId);
        path := [rootId];
        uiState := uiState.(tree := Some(loadedTree), current := rootNode, path := path,
                            isLoading := false, errorResId := None);
      case Failure(_) =>
        uiState := uiState.(isLoading := false, errorResId := Some(DiagnosticErrorLoading));
    }

    /**
     * The effect of `goTo(target)`. A null or blank target, or no tree, changes
     * nothing. The END marker is pushed and its synthesized node published while
     * the current id stays. Any other id becomes current; it is pushed only when a
     * node carries it, and otherwise the published node is absent.
     */
    twostate predicate WentTo(target: Option<string>)
      reads this
    {
      && tree == old(tree) && nodesById == old(nodesById)
      && if target.None? || IsBlank(target.value) || old(tree).None? then
           currentNodeId == old(currentNodeId) && path == old(path) && uiState == old(uiState)
         else if target.value == EndMarker then
           && currentNodeId == old(currentNodeId) && path == old(path) + [EndMarker]
           && uiState == Published(old(uiState), Some(SynthEndNode()), path)
         else
           && currentNodeId == target
           && path == (if target.value in nodesById then old(path) + [target.value] else old(path))
           && uiState == Published(old(uiState), Lookup(target.value), path)
    }

    /** `goTo(nextIdOrEnd)`. */
    method GoTo(nextIdOrEnd: Option<string>)
      requires Valid()
      modifies this
      ensures Valid()
      ensures WentTo(nextIdOrEnd)
    {
      if nextIdOrEnd.None? || IsBlank(nextIdOrEnd.value) { return; }
      if tree.None? { return; }
      var target := nextIdOrEnd.value;
      var nextNode := if target == EndMarker then Some(SynthEndNode()) else Lookup(target);
      if target == EndMarker {
        path := path + [EndMarker];
      } else {
        if nextNode.Some? {
          path := path + [nextNode.value.id];
        }
        currentNodeId := Some(target);
      }
      uiState := Published(uiState, nextNode, path);
    }

    /** `answerYes()`: follows the current question's `yes` target; off a question it does nothing. */
    method AnswerYes()
      requires Valid()
      modifies this
      ensures Valid()
      ensures old(CurrentQuestion()).None? ==> unchanged(this)
      ensures old(CurrentQuestion()).Some? ==> WentTo(old(CurrentQuestion()).value.yes)
    {
      if currentNodeId.None? { return; }
      var currentId := currentNodeId.value;
      if currentId !in nodesById { return; }
      var n := nodesById[currentId];
      if n.nodeType != Question { return; }
      GoTo(n.yes);
    }

    /** `answerNo()`: follows the current question's `no` target; off a question it does nothing. */
    method AnswerNo()
      requires Valid()
      modifies this
      ensures Valid()
      ensures old(CurrentQuestion()).None? ==> unchanged(this)
      ensures old(CurrentQuestion()).Some? ==> WentTo(old(CurrentQuestion()).value.no)
    {
      if currentNodeId.None? { return; }
      var currentId := currentNodeId.value;
      if currentId !in nodesById { return; }
      var n := nodesById[currentId];
      if n.nodeType != Question { return; }
      GoTo(n.no);
    }

    /** `restart()`: back to the root with path [root], from any depth; without a tree it does nothing. */
    method Restart()
      requires Valid()
      modifies this
      ensures Valid()
      ensures old(tree).None? ==> unchanged(this)
      ensures old(tree).Some? ==>
        && tree == old(tree) && nodesById == old(nodesById)
        && path == [tree.value.root] && currentNodeId == Some(tree.value.root)
        && uiState == Published(old(uiState), Lookup(tree.value.root), path)
    {
      if tree.None? { return; }
      var localTree := tree.value;
      currentNodeId := Some(localTree.root);
      path := [localTree.root];
      uiState := Published(uiState, Lookup(localTree.root), path);
    }

    /**
     * `goBack()`: with nothing to undo it does nothing. Otherwise a trailing END
     * marker is dropped first; if only the root entry is then left, the root
     * becomes current, and otherwise one more entry is dropped and the new last
     * entry becomes current.
     */
    method GoBack()
      requires Valid()
      modifies this
      ensures Valid()
      ensures tree == old(tree) && nodesById == old(nodesById)
      ensures !old(CanGoBack()) ==> unchanged(this)
      ensures old(CanGoBack()) ==> |path| < |old(path)|
      ensures old(CanGoBack()) ==>
        && tree.Some?
        && var p := DropEndMarker(old(path));
        if |p| <= 1 then
          && path == p && currentNodeId == Some(tree.value.root)
          && uiState == Published(old(uiState), Lookup(tree.value.root), path)
        else
          && path == p[..|p| - 1] && currentNodeId == Some(path[|path| - 1])
          && uiState == Published(old(uiState), Lookup(path[|path| - 1]), path)
    {
      if |path| <= 1 { return; }
      ghost var p := DropEndMarker(path);
      if path[|path| - 1] == EndMarker {
        path := path[..|path| - 1];
      }
      assert path == p;
      if |path| <= 1 {
        var localTree := tree.value;
        currentNodeId := Some(localTree.root);
        uiState := Published(uiState, Lookup(localTree.root), path);
        return;
      }
      path := path[..|path| - 1];
      // the path still holds the root, so `lastOrNull() ?: root` is its last entry
      var previousId := path[|path| - 1];
      currentNodeId := Some(previousId);
      uiState := Published(uiState, Lookup(previousId), path);
    }
  }

  /** The three-node template q1 (yes to q2, no to END), q2 (both answers to end1), end1 (RESOLVED). */
  function ThreeNodeTree(): DiagnosticTree {
    DiagnosticTree("tpl", 1, "es", "q1", [
      NewNode("q1", Question, "q1_title").(yes := Some("q2"), no := Some(EndMarker)),
      NewNode("q2", Question, "q2_title").(yes := Some("end1"), no := Some("end1")),
      NewNode("end1", End, "end1_title").(result := Some(Resolved))])
  }

  /** A view model freshly loaded with `ThreeNodeTree()`. */
  method LoadedThreeNodeWalk() returns (vm: DiagnosticViewModel)
    ensures fresh(vm) && vm.Valid() && vm.tree == Some(ThreeNodeTree())
    ensures vm.path == ["q1"] && vm.currentNodeId == Some("q1") && !vm.CanGoBack()
    ensures vm.nodesById == map["q1" := ThreeNodeTree().nodes[0], "q2" := ThreeNodeTree().nodes[1], "end1" := ThreeNodeTree().nodes[2]]
  {
    var t := ThreeNodeTree();
    var m := NodesById(t.nodes);
    assert t.nodes[0].id == "q1" && t.nodes[1].id == "q2" && t.nodes[2].id == "end1";
    forall id | id in m ensures id == "q1" || id == "q2" || id == "end1" {
      IndexByKeys(t.nodes, (n: DiagnosticNode) => n.id, id);
    }
    assert m == map["q1" := t.nodes[0], "q2" := t.nodes[1], "end1" := t.nodes[2]];
    vm := new DiagnosticViewModel("M1");
    vm.Load(Success(t));
  }

  /** Answering no at q1 reaches the synthesized end; going back returns to q1. */
  method AnswerNoAtRootThenBack() {
    var vm := LoadedThreeNodeWalk();
    var q1 := ThreeNodeTree().nodes[0];
    assert !IsBlank(EndMarker) by { assert !IsWhitespace(EndMarker[0]); }
    vm.AnswerNo();
    assert vm.path == ["q1", EndMarker] && vm.currentNodeId == Some("q1");
    assert vm.uiState.current == Some(SynthEndNode()) && vm.CanGoBack();
    vm.GoBack();
    assert vm.path == ["q1"] && vm.currentNodeId == Some("q1") && vm.uiState.current == Some(q1);
  }

  /** Two yes answers lead from q1 through q2 to end1. */
  method WalkToEnd1() returns (vm: DiagnosticViewModel)
    ensures fresh(vm) && vm.Valid() && vm.tree == Some(ThreeNodeTree())
    ensures vm.nodesById == NodesById(ThreeNodeTree().nodes)
    ensures vm.path == ["q1", "q2", "end1"] && vm.currentNodeId == Some("end1")
    ensures vm.uiState.current == Some(ThreeNodeTree().nodes[2])
  {
    vm := LoadedThreeNodeWalk();
    assert !IsBlank("q2") by { assert !IsWhitespace("q2"[0]); }
    assert !IsBlank("end1") by { assert !IsWhitespace("end1"[0]); }
    vm.AnswerYes();
    assert vm.path == ["q1", "q2"] && vm.currentNodeId == Some("q2");
    vm.AnswerYes();
  }

  /** At an END node an answer does nothing; back returns to q2 and restart to q1. */
  method AtEnd1AnswerThenBackThenRestart() {
    var vm := WalkToEnd1();
    var t := ThreeNodeTree();
    vm.AnswerYes();
    assert vm.path == ["q1", "q2", "end1"];
    vm.GoBack();
    assert vm.path == ["q1", "q2"] && vm.uiState.current == Some(t.nodes[1]);
    vm.Restart();
    assert vm.path == ["q1"] && vm.currentNodeId == Some("q1") && vm.uiState.current == Some(t.nodes[0]);
  }
}
