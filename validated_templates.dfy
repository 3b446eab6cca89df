/**
 * What the template test buys the running app. The loader keeps exactly the
 * parts of a template the test reads, so the test's verdict on an asset is its
 * verdict on the loaded tree; and on a tree that passes, every user action the
 * diagnostic screen offers keeps the traversal on real nodes, so the error
 * state is never published.
 */
module ValidatedTemplates {
  import opened Wrappers
  import opened KotlinText
  import opened Collections
  import opened DiagnosticModels
  import DiagnosticRepository
  import opened TemplateConsistency
  import opened DiagnosticTraversal

  /** The test's reading of a raw template asset. */
  function TestViewOfRaw(raw: DiagnosticRepository.RawTree): TestTree {
    TestTree(raw.root, seq(|raw.nodes|, k requires 0 <= k < |raw.nodes| =>
      TestNode(raw.nodes[k].id, raw.nodes[k].yes, raw.nodes[k].no)))
  }

  /** The same reading of a loaded tree. */
  function TestView(tree: DiagnosticTree): TestTree {
    TestTree(tree.root, seq(|tree.nodes| , k requires 0 <= k < |tree.nodes| =>
      TestNode(tree.nodes[k].id, tree.nodes[k].yes, tree.nodes[k].no)))
  }

  /** Loading a template keeps the test's view of it, so it passes the test exactly when the asset does. */
  lemma LoadKeepsTestView(assets: DiagnosticRepository.Assets, machineId: string, raw: DiagnosticRepository.RawTree)
    requires DiagnosticRepository.GetTreeForMachine(assets, machineId).Success?
    requires assets.machinesIndex.Some?
    requires var m := DiagnosticRepository.FindMachine(assets.machinesIndex.value.machines, machineId);
      m.Some? && DiagnosticRepository.TemplatePath(m.value.templateId) in assets.templates
      && assets.templates[DiagnosticRepository.TemplatePath(m.value.templateId)] == raw
    ensures TestView(DiagnosticRepository.GetTreeForMachine(assets, machineId).value) == TestViewOfRaw(raw)
    ensures Consistent(TestView(DiagnosticRepository.GetTreeForMachine(assets, machineId).value)) <==>
      Consistent(TestViewOfRaw(raw))
  {
    DiagnosticRepository.LoadCopiesIdsAndTargets(assets, machineId, raw);
  }

  /**
   * On a tree that passes the test the lookup table holds the root, maps each
   * node's id to that node, and holds every `yes`/`no` target other than END.
   */
  lemma ConsistentTreeResolves(tree: DiagnosticTree)
    requires Consistent(TestView(tree))
    ensures tree.root in NodesById(tree.nodes)
    ensures forall i :: 0 <= i < |tree.nodes| ==> NodesById(tree.nodes)[tree.nodes[i].id] == tree.nodes[i]
    ensures TargetsResolve(NodesById(tree.nodes))
  {
    var tv := TestView(tree);
    var ids := Ids(tv.nodes);
    var m := NodesById(tree.nodes);
    assert forall i :: 0 <= i < |tree.nodes| ==> ids[i] == tree.nodes[i].id;
    forall i | 0 <= i < |tree.nodes|
      ensures m[tree.nodes[i].id] == tree.nodes[i]
    {
      forall j | i < j < |tree.nodes|
        ensures tree.nodes[j].id != tree.nodes[i].id
      {
        assert ids[i] != ids[j];
      }
    }
    forall id, x | id in m && x != EndMarker && (m[id].yes == Some(x) || m[id].no == Some(x))
      ensures x in m
    {
      IndexByKeys(tree.nodes, (n: DiagnosticNode) => n.id, id);
      var i :| 0 <= i < |tree.nodes| && tree.nodes[i].id == id;
      assert m[id] == tree.nodes[i];
      assert x in Refs(tv.nodes[i]);
      assert x in ids;
    }
  }

  /** Every `yes`/`no` target, other than END, of a node in the table is itself in the table. */
  ghost predicate TargetsResolve(m: map<string, DiagnosticNode>) {
    forall id, x :: id in m && x != EndMarker && (m[id].yes == Some(x) || m[id].no == Some(x)) ==> x in m
  }

  /**
   * The traversal is on track: the targets of the lookup table resolve, no error
   * is shown, every path entry below the top is a node (and, above the root, not
   * named END), and the top is either the current node, shown, or an END marker
   * above the current node, with the synthesized END node shown.
   */
  ghost predicate OnTrackState(m: map<string, DiagnosticNode>, current: Option<string>, path: seq<string>, ui: DiagnosticUiState) {
    && TargetsResolve(m) && |path| >= 1 && ui.errorResId.None?
    && (forall i :: 0 <= i < |path| - 1 ==> path[i] in m)
    && (forall i :: 0 < i < |path| - 1 ==> path[i] != EndMarker)
    && var top := path[|path| - 1];
    if |path| >= 2 && top == EndMarker then
      current == Some(path[|path| - 2]) && ui.current == Some(SynthEndNode())
    else
      top in m && current == Some(top) && ui.current == Some(m[top])
  }

  ghost predicate OnTrack(vm: DiagnosticViewModel)
    reads vm
  {
    vm.Valid() && vm.tree.Some? && OnTrackState(vm.nodesById, vm.currentNodeId, vm.path, vm.uiState)
  }

  /** The screen offers the answer buttons only while a QUESTION node is shown. */
  predicate ShowsQuestion(ui: DiagnosticUiState) {
    ui.current.Some? && ui.current.value.nodeType == Question
  }

  /** `nodesById[id]`, on a table value. */
  function Find(m: map<string, DiagnosticNode>, id: string): (n: Option<DiagnosticNode>)
    ensures n.Some? <==> id in m
    ensures n.Some? ==> n.value == m[id]
  {
    if id in m then Some(m[id]) else None
  }

  /** Answering a shown question, with the effect `goTo` has on its target, stays on track. */
  lemma AnswerStaysOnTrack(m: map<string, DiagnosticNode>, current: Option<string>, path: seq<string>, ui: DiagnosticUiState,
                           target: Option<string>,
                           current': Option<string>, path': seq<string>, ui': DiagnosticUiState)
    requires OnTrackState(m, current, path, ui) && ShowsQuestion(ui)
    requires current.Some? && current.value in m && (target == m[current.value].yes || target == m[current.value].no)
    requires if target.None? || IsBlank(target.value) then current' == current && path' == path && ui' == ui
      else if target.value == EndMarker then
        current' == current && path' == path + [EndMarker] && ui' == Published(ui, Some(SynthEndNode()), path')
      else
        current' == target && path' == (if target.value in m then path + [target.value] else path)
        && ui' == Published(ui, Find(m, target.value), path')
    ensures OnTrackState(m, current', path', ui')
  {
    var top := path[|path| - 1];
    assert !(|path| >= 2 && top == EndMarker);
    assert current == Some(top);
    if target.Some? && !IsBlank(target.value) && target.value != EndMarker {
      assert target.value in m;
    }
  }

  /** Going back with the effect `goBack` has stays on track. */
  lemma BackStaysOnTrack(m: map<string, DiagnosticNode>, root: string, current: Option<string>, path: seq<string>, ui: DiagnosticUiState,
                         current': Option<string>, path': seq<string>, ui': DiagnosticUiState)
    requires OnTrackState(m, current, path, ui) && path[0] == root
    requires |path| <= 1 ==> current' == current && path' == path && ui' == ui
    requires |path| > 1 ==>
      var p := DropEndMarker(path);
      if |p| <= 1 then path' == p && current' == Some(root) && ui' == Published(ui, Find(m, root), path')
      else path' == p[..|p| - 1] && current' == Some(path'[|path'| - 1]) && ui' == Published(ui, Find(m, path'[|path'| - 1]), path')
    ensures OnTrackState(m, current', path', ui')
  {
    if |path| > 1 {
      var p := DropEndMarker(path);
      assert forall i :: 0 <= i < |p| ==> p[i] in m;
      assert forall i :: 0 < i < |p| ==> p[i] != EndMarker;
      if |p| > 1 {
        assert path'[|path'| - 1] == p[|p| - 2];
      }
    }
  }

  /** A successful load of a tree that passes the test puts the traversal on track. */
  method LoadValidated(vm: DiagnosticViewModel, tree: DiagnosticTree)
    requires vm.Valid() && Consistent(TestView(tree))
    modifies vm
    ensures OnTrack(vm) && vm.tree == Some(tree) && vm.path == [tree.root]
  {
    ConsistentTreeResolves(tree);
    vm.Load(Success(tree));
  }

  /** Tapping YES on a shown question keeps the traversal on track. */
  method TapYes(vm: DiagnosticViewModel)
    requires OnTrack(vm) && ShowsQuestion(vm.uiState)
    modifies vm
    ensures OnTrack(vm) && vm.tree == old(vm.tree)
  {
    ghost var m, current, path, ui := vm.nodesById, vm.currentNodeId, vm.path, vm.uiState;
    assert vm.CurrentQuestion() == Some(m[current.value]);
    vm.AnswerYes();
    AnswerStaysOnTrack(m, current, path, ui, m[current.value].yes, vm.currentNodeId, vm.path, vm.uiState);
  }

  /** Tapping NO on a shown question keeps the traversal on track. */
  method TapNo(vm: DiagnosticViewModel)
    requires OnTrack(vm) && ShowsQuestion(vm.uiState)
    modifies vm
    ensures OnTrack(vm) && vm.tree == old(vm.tree)
  {
    ghost var m, current, path, ui := vm.nodesById, vm.currentNodeId, vm.path, vm.uiState;
    assert vm.CurrentQuestion() == Some(m[current.value]);
    vm.AnswerNo();
    AnswerStaysOnTrack(m, current, path, ui, m[current.value].no, vm.currentNodeId, vm.path, vm.uiState);
  }

  /** Going back, from anywhere on track, stays on track. */
  method TapBack(vm: DiagnosticViewModel)
    requires OnTrack(vm)
    modifies vm
    ensures OnTrack(vm) && vm.tree == old(vm.tree)
  {
    ghost var m, current, path, ui := vm.nodesById, vm.currentNodeId, vm.path, vm.uiState;
    vm.GoBack();
    BackStaysOnTrack(m, vm.tree.value.root, current, path, ui, vm.currentNodeId, vm.path, vm.uiState);
  }

  /** Restarting, from anywhere on track, stays on track. */
  method TapRestart(vm: DiagnosticViewModel)
    requires OnTrack(vm)
    modifies vm
    ensures OnTrack(vm) && vm.tree == old(vm.tree) && vm.path == [vm.tree.value.root]
  {
    vm.Restart();
  }
}
