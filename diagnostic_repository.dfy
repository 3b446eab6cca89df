/**
 * The tree loader: looks a machine up in the machines index, reads its template
 * and the parts catalog, and maps every raw node to a domain node. Any unknown
 * node type, question mode, end result or part reference fails the whole load.
 */
module DiagnosticRepository {
  import opened Wrappers
  import opened KotlinText
  import opened Collections
  import opened DiagnosticModels

  // ---- The asset files as parsed from JSON ----

  datatype MachineMap = MachineMap(id: string, templateId: string, name: Option<string>)

  datatype MachinesIndex = MachinesIndex(machines: seq<MachineMap>)

  datatype RawPartRef = RawPartRef(id: string, qty: Option<int>)

  datatype RawNode = RawNode(
    id: string,
    nodeType: string,
    title: string,
    description: Option<string>,
    yes: Option<string>,
    no: Option<string>,
    providersShortcut: Option<bool>,
    result: Option<string>,
    parts: Option<seq<RawPartRef>>,
    mode: Option<string>)

  datatype RawTree = RawTree(templateId: string, version: int, locale: string, root: string, nodes: seq<RawNode>)

  datatype PartDetailRaw = PartDetailRaw(
    id: string,
    product: string,
    code: Option<string>,
    features: Option<string>,
    supplier: Option<string>,
    technicalContacts: Option<string>,
    imageResName: Option<string>,
    nodeRefs: seq<string>)

  datatype PartsCatalog = PartsCatalog(parts: seq<PartDetailRaw>)

  /**
   * What the asset directory holds: the parsed index, the parsed templates keyed
   * by file path, and the parsed catalog. A file that cannot be read is absent.
   */
  datatype Assets = Assets(
    machinesIndex: Option<MachinesIndex>,
    templates: map<string, RawTree>,
    partsCatalog: Option<PartsCatalog>)

  const MachinesPath := "machines.json"
  const PartsPath := "diagnostics/parts.json"

  function TemplatePath(templateId: string): string {
    "diagnostics/templates/" + templateId + ".json"
  }

  /** Why a load fails; the loader throws, and nothing of the tree is returned. */
  datatype LoadError =
    | AssetUnreadable(path: string)
    | MachineNotMapped(machineId: string)
    | UnknownNodeType(nodeType: string)
    | UnknownQuestionMode(mode: string)
    | PartNotInCatalog(partId: string)
    | UnknownEndResult(result: string)

  // ---- Machine lookup ----

  /** `firstOrNull { it.id == machineId }`: the first index entry for the machine. */
  function FindMachine(machines: seq<MachineMap>, machineId: string): (r: Option<MachineMap>)
    ensures r.None? <==> forall i :: 0 <= i < |machines| ==> machines[i].id != machineId
    ensures r.Some? ==> r.value.id == machineId
    ensures r.Some? ==> exists i :: 0 <= i < |machines| && machines[i] == r.value
                          && forall j :: 0 <= j < i ==> machines[j].id != machineId
  {
    if machines == [] then None
    else if machines[0].id == machineId then Some(machines[0])
    else
      var r := FindMachine(machines[1..], machineId);
      assert forall i :: 0 < i < |machines| ==> machines[i] == machines[1..][i - 1];
      r
  }

  // ---- Enum parsing ----

  predicate KnownNodeType(s: string) {
    s == "QUESTION" || s == "END"
  }

  /** Node types are matched exactly, with no case folding. */
  function ParseNodeType(s: string): (r: Result<NodeType, LoadError>)
    ensures r.Success? <==> KnownNodeType(s)
    ensures r.Success? ==> NodeTypeName(r.value) == s
    ensures r.Failure? ==> r.error == UnknownNodeType(s)
  {
    if s == "QUESTION" then Success(Question)
    else if s == "END" then Success(End)
    else Failure(UnknownNodeType(s))
  }

  predicate KnownQuestionMode(m: Option<string>) {
    m.None? || Upper(m.value) == "CONTINUE_ONLY" || Upper(m.value) == "YES_NO"
  }

  /** Modes are matched after `uppercase()`; an absent mode is `YES_NO`. */
  function ParseQuestionMode(m: Option<string>): (r: Result<QuestionMode, LoadError>)
    ensures r.Success? <==> KnownQuestionMode(m)
    ensures m.None? ==> r == Success(YesNo)
    ensures m.Some? && r.Success? ==> QuestionModeName(r.value) == Upper(m.value)
    ensures r.Failure? ==> m.Some? && r.error == UnknownQuestionMode(m.value)
  {
    if m.None? then Success(YesNo)
    else if Upper(m.value) == "CONTINUE_ONLY" then Success(ContinueOnly)
    else if Upper(m.value) == "YES_NO" then Success(YesNo)
    else Failure(UnknownQuestionMode(m.value))
  }

  predicate KnownEndResult(res: Option<string>) {
    res.None? || Upper(res.value) == "RESOLVED" || Upper(res.value) == "NO_ISSUE" || Upper(res.value) == "COMPONENT_FAULT"
  }

  /** Results are matched after `uppercase()`; an absent result stays absent. */
  function ParseEndResult(res: Option<string>): (r: Result<Option<EndResult>, LoadError>)
    ensures r.Success? <==> KnownEndResult(res)
    ensures r.Success? ==> (r.value.None? <==> res.None?)
    ensures r.Success? && res.Some? ==> EndResultName(r.value.value) == Upper(res.value)
    ensures r.Failure? ==> res.Some? && r.error == UnknownEndResult(res.value)
  {
    if res.None? then Success(None)
    else if Upper(res.value) == "RESOLVED" then Success(Some(Resolved))
    else if Upper(res.value) == "NO_ISSUE" then Success(Some(NoIssue))
    else if Upper(res.value) == "COMPONENT_FAULT" then Success(Some(ComponentFault))
    else Failure(UnknownEndResult(res.value))
  }

  /** Parsing a node type's own name gives it back: the parser is the inverse of `name`. */
  lemma ParseNodeTypeName(t: NodeType)
    ensures ParseNodeType(NodeTypeName(t)) == Success(t)
  {
  }

  /** Any spelling whose upper case is a mode's name parses to that mode, and only those do. */
  lemma {:induction false} ParseQuestionModeAnyCase(s: string, q: QuestionMode)
    ensures ParseQuestionMode(Some(s)) == Success(q) <==> Upper(s) == QuestionModeName(q)
  {
    EnumNamesAreDistinct();
  }

  /** Any spelling whose upper case is a result's name parses to that result, and only those do. */
  lemma {:induction false} ParseEndResultAnyCase(s: string, e: EndResult)
    ensures ParseEndResult(Some(s)) == Success(Some(e)) <==> Upper(s) == EndResultName(e)
  {
    EnumNamesAreDistinct();
  }

  // ---- Parts ----

  /** `associateBy { it.id }` over the catalog: with duplicate ids, the later entry wins. */
  function CatalogIndex(catalog: PartsCatalog): (m: map<string, PartDetailRaw>)
    ensures forall i :: 0 <= i < |catalog.parts| ==> catalog.parts[i].id in m
    ensures forall i :: 0 <= i < |catalog.parts| && (forall j :: i < j < |catalog.parts| ==> catalog.parts[j].id != catalog.parts[i].id) ==>
      m[catalog.parts[i].id] == catalog.parts[i]
    ensures forall id :: id in m ==> m[id].id == id
  {
    IndexBy(catalog.parts, (p: PartDetailRaw) => p.id)
  }

  /** Only ids of catalog entries are keys of the index. */
  lemma CatalogIndexKeys(catalog: PartsCatalog, id: string)
    requires id in CatalogIndex(catalog)
    ensures exists i :: 0 <= i < |catalog.parts| && catalog.parts[i].id == id
  {
    IndexByKeys(catalog.parts, (p: PartDetailRaw) => p.id, id);
  }

  /** The catalog entry without its `nodeRefs`, which nothing reads. */
  /** A catalog entry as the domain sees it: every field copied except `nodeRefs`. */
  function ToDetail(p: PartDetailRaw): (d: PartDetail)
    ensures d.id == p.id && d.product == p.product && d.code == p.code && d.features == p.features
    ensures d.supplier == p.supplier && d.technicalContacts == p.technicalContacts && d.imageResName == p.imageResName
  {
    PartDetail(p.id, p.product, p.code, p.features, p.supplier, p.technicalContacts, p.imageResName)
  }

  /** Two entries give the same detail exactly when they differ at most in `nodeRefs`. */
  lemma ToDetailDropsOnlyNodeRefs(p: PartDetailRaw, q: PartDetailRaw)
    ensures ToDetail(p) == ToDetail(q) <==> p.(nodeRefs := q.nodeRefs) == q
  {
  }

  predicate InCatalog(catalog: map<string, PartDetailRaw>, refs: seq<RawPartRef>) {
    forall i :: 0 <= i < |refs| ==> refs[i].id in catalog
  }

  /** Each reference, in order, becomes its catalog entry with its quantity; the first unknown id fails. */
  function ResolveParts(catalog: map<string, PartDetailRaw>, refs: seq<RawPartRef>): (r: Result<seq<PartRefResolved>, LoadError>)
    ensures r.Success? <==> InCatalog(catalog, refs)
    ensures r.Success? ==> |r.value| == |refs| && forall i :: 0 <= i < |refs| ==>
      r.value[i] == PartRefResolved(ToDetail(catalog[refs[i].id]), refs[i].qty)
    ensures r.Failure? ==> exists i :: 0 <= i < |refs| && refs[i].id !in catalog && r.error == PartNotInCatalog(refs[i].id)
                             && forall j :: 0 <= j < i ==> refs[j].id in catalog
  {
    if refs == [] then Success([])
    else if refs[0].id !in catalog then Failure(PartNotInCatalog(refs[0].id))
    else
      var head := PartRefResolved(ToDetail(catalog[refs[0].id]), refs[0].qty);
      assert forall i :: 0 < i < |refs| ==> refs[i] == refs[1..][i - 1];
      match ResolveParts(catalog, refs[1..])
      case Failure(e) => Failure(e)
      case Success(rest) => Success([head] + rest)
  }

  // ---- Nodes ----

  predicate PartsKnown(catalog: map<string, PartDetailRaw>, parts: Option<seq<RawPartRef>>) {
    parts.None? || InCatalog(catalog, parts.value)
  }

  /**
   * One raw node to a domain node. The checks run in the order the lambda in
   * `getTreeForMachine` makes them (type, mode, parts, result), so the first
   * failing one names the error.
   */
  function MapNode(catalog: map<string, PartDetailRaw>, rn: RawNode): (r: Result<DiagnosticNode, LoadError>)
    ensures r.Success? <==>
      KnownNodeType(rn.nodeType) && KnownQuestionMode(rn.mode) && PartsKnown(catalog, rn.parts) && KnownEndResult(rn.result)
    ensures !KnownNodeType(rn.nodeType) ==> r == Failure(UnknownNodeType(rn.nodeType))
    ensures KnownNodeType(rn.nodeType) && !KnownQuestionMode(rn.mode) ==> r == Failure(UnknownQuestionMode(rn.mode.value))
    ensures KnownNodeType(rn.nodeType) && KnownQuestionMode(rn.mode) && !PartsKnown(catalog, rn.parts) ==>
      r == Failure(ResolveParts(catalog, rn.parts.value).error)
    ensures KnownNodeType(rn.nodeType) && KnownQuestionMode(rn.mode) && PartsKnown(catalog, rn.parts) && !KnownEndResult(rn.result) ==>
      r == Failure(UnknownEndResult(rn.result.value))
    ensures r.Success? ==>
      var n := r.value;
      && n.id == rn.id && n.title == rn.title && n.description == rn.description
      && n.yes == rn.yes && n.no == rn.no && n.providersShortcut == rn.providersShortcut
      && NodeTypeName(n.nodeType) == rn.nodeType
      && (rn.mode.None? ==> n.mode == YesNo)
      && (rn.mode.Some? ==> QuestionModeName(n.mode) == Upper(rn.mode.value))
      && (n.result.None? <==> rn.result.None?)
      && (rn.result.Some? ==> EndResultName(n.result.value) == Upper(rn.result.value))
      && (n.parts.None? <==> rn.parts.None?)
      && (rn.parts.Some? ==> |n.parts.value| == |rn.parts.value| && forall i :: 0 <= i < |rn.parts.value| ==>
            n.parts.value[i] == PartRefResolved(ToDetail(catalog[rn.parts.value[i].id]), rn.parts.value[i].qty))
  {
    match ParseNodeType(rn.nodeType)
    case Failure(e) => Failure(e)
    case Success(nodeType) =>
      match ParseQuestionMode(rn.mode)
      case Failure(e) => Failure(e)
      case Success(mode) =>
        var parts: Result<Option<seq<PartRefResolved>>, LoadError> :=
          if rn.parts.None? then Success(None)
          else match ResolveParts(catalog, rn.parts.value)
            case Failure(e) => Failure(e)
            case Success(ps) => Success(Some(ps));
        match parts
        case Failure(e) => Failure(e)
        case Success(resolved) =>
          match ParseEndResult(rn.result)
          case Failure(e) => Failure(e)
          case Success(result) =>
            Success(DiagnosticNode(rn.id, nodeType, rn.title, rn.description, rn.yes, rn.no,
              rn.providersShortcut, result, resolved, mode))
  }

  /** `raw.nodes.map { … }`: same length and order; the first node that fails fails the list. */
  function MapNodes(catalog: map<string, PartDetailRaw>, raws: seq<RawNode>): (r: Result<seq<DiagnosticNode>, LoadError>)
    ensures r.Success? <==> forall i :: 0 <= i < |raws| ==> MapNode(catalog, raws[i]).Success?
    ensures r.Success? ==> |r.value| == |raws| && forall i :: 0 <= i < |raws| ==> MapNode(catalog, raws[i]) == Success(r.value[i])
    ensures r.Failure? ==> exists i :: 0 <= i < |raws| && MapNode(catalog, raws[i]) == Failure(r.error)
                             && forall j :: 0 <= j < i ==> MapNode(catalog, raws[j]).Success?
  {
    if raws == [] then Success([])
    else
      var tail := raws[1..];
      assert forall i :: 0 < i < |raws| ==> raws[i] == tail[i - 1];
      var head := MapNode(catalog, raws[0]);
      if head.Failure? then Failure(head.error)
      else
        var rest := MapNodes(catalog, tail);
        if rest.Failure? then Failure(rest.error)
        else
          var nodes := [head.value] + rest.value;
          assert forall i :: 0 < i < |raws| ==> nodes[i] == rest.value[i - 1];
          Success(nodes)
  }

  // ---- The loader ----

  /** The template file of the machine, when the index is readable and maps the machine. */
  function TemplateOf(assets: Assets, machineId: string): Option<string> {
    if assets.machinesIndex.None? then None
    else
      var found := FindMachine(assets.machinesIndex.value.machines, machineId);
      if found.None? then None else Some(TemplatePath(found.value.templateId))
  }

  /**
   * What a load needs: the machine mapped by a readable index, its template and
   * the parts catalog readable, and every node of the template mappable. The
   * root and the `yes`/`no` targets play no part.
   */
  predicate Loadable(assets: Assets, machineId: string) {
    && TemplateOf(assets, machineId).Some?
    && TemplateOf(assets, machineId).value in assets.templates
    && assets.partsCatalog.Some?
    && var raw := assets.templates[TemplateOf(assets, machineId).value];
    forall k :: 0 <= k < |raw.nodes| ==> MapNode(CatalogIndex(assets.partsCatalog.value), raw.nodes[k]).Success?
  }

  /**
   * `getTreeForMachine`: the tree for a machine, or the reason it cannot be
   * loaded. Each step fails with its own error, in the order the steps run.
   */
  function GetTreeForMachine(assets: Assets, machineId: string): (r: Result<DiagnosticTree, LoadError>)
    ensures r.Success? <==> Loadable(assets, machineId)
    ensures assets.machinesIndex.None? ==> r == Failure(AssetUnreadable(MachinesPath))
    ensures assets.machinesIndex.Some? ==>
      var machines := assets.machinesIndex.value.machines;
      (forall i :: 0 <= i < |machines| ==> machines[i].id != machineId) ==> r == Failure(MachineNotMapped(machineId))
    ensures TemplateOf(assets, machineId).Some? && TemplateOf(assets, machineId).value !in assets.templates ==>
      r == Failure(AssetUnreadable(TemplateOf(assets, machineId).value))
    ensures (TemplateOf(assets, machineId).Some? && TemplateOf(assets, machineId).value in assets.templates
             && assets.partsCatalog.None?) ==> r == Failure(AssetUnreadable(PartsPath))
    ensures (TemplateOf(assets, machineId).Some? && TemplateOf(assets, machineId).value in assets.templates
             && assets.partsCatalog.Some? && r.Failure?) ==>
      var raw := assets.templates[TemplateOf(assets, machineId).value];
      exists k :: 0 <= k < |raw.nodes| && MapNode(CatalogIndex(assets.partsCatalog.value), raw.nodes[k]) == Failure(r.error)
        && forall j :: 0 <= j < k ==> MapNode(CatalogIndex(assets.partsCatalog.value), raw.nodes[j]).Success?
    ensures r.Success? ==>
      && assets.machinesIndex.Some? && assets.partsCatalog.Some?
      && var machines := assets.machinesIndex.value.machines;
      exists i :: 0 <= i < |machines| && machines[i].id == machineId
        && (forall j :: 0 <= j < i ==> machines[j].id != machineId)
        && TemplatePath(machines[i].templateId) in assets.templates
        && var raw := assets.templates[TemplatePath(machines[i].templateId)];
        && r.value.templateId == raw.templateId && r.value.version == raw.version
        && r.value.locale == raw.locale && r.value.root == raw.root
        && |r.value.nodes| == |raw.nodes|
        && forall k :: 0 <= k < |raw.nodes| ==>
             MapNode(CatalogIndex(assets.partsCatalog.value), raw.nodes[k]) == Success(r.value.nodes[k])
  {
    match assets.machinesIndex
    case None => Failure(AssetUnreadable(MachinesPath))
    case Some(index) =>
      match FindMachine(index.machines, machineId)
      case None => Failure(MachineNotMapped(machineId))
      case Some(mapping) =>
        var path := TemplatePath(mapping.templateId);
        if path !in assets.templates then Failure(AssetUnreadable(path))
        else
          var raw := assets.templates[path];
          match assets.partsCatalog
          case None => Failure(AssetUnreadable(PartsPath))
          case Some(parts) =>
            match MapNodes(CatalogIndex(parts), raw.nodes)
            case Failure(e) => Failure(e)
            case Success(nodes) => Success(DiagnosticTree(raw.templateId, raw.version, raw.locale, raw.root, nodes))
  }

  /** A successful load copies each raw node's id and yes/no targets unchanged, in order. */
  lemma LoadCopiesIdsAndTargets(assets: Assets, machineId: string, raw: RawTree)
    requires GetTreeForMachine(assets, machineId).Success?
    requires assets.machinesIndex.Some?
    requires var m := FindMachine(assets.machinesIndex.value.machines, machineId);
      m.Some? && TemplatePath(m.value.templateId) in assets.templates && assets.templates[TemplatePath(m.value.templateId)] == raw
    ensures var t := GetTreeForMachine(assets, machineId).value;
      t.root == raw.root && |t.nodes| == |raw.nodes| && forall k :: 0 <= k < |raw.nodes| ==>
        t.nodes[k].id == raw.nodes[k].id && t.nodes[k].yes == raw.nodes[k].yes && t.nodes[k].no == raw.nodes[k].no
  {
    var t := GetTreeForMachine(assets, machineId).value;
    var catalog := CatalogIndex(assets.partsCatalog.value);
    forall k | 0 <= k < |raw.nodes|
      ensures t.nodes[k].id == raw.nodes[k].id && t.nodes[k].yes == raw.nodes[k].yes && t.nodes[k].no == raw.nodes[k].no
    {
      assert MapNode(catalog, raw.nodes[k]) == Success(t.nodes[k]);
    }
  }

  /**
   * The loader never looks the root up: changing a template's root changes
   * neither whether the load succeeds nor the nodes it yields.
   */
  lemma LoadDoesNotCheckRoot(assets: Assets, machineId: string, path: string, root: string)
    requires path in assets.templates
    ensures var changed := assets.(templates := assets.templates[path := assets.templates[path].(root := root)]);
      && (Loadable(changed, machineId) <==> Loadable(assets, machineId))
      && (Loadable(assets, machineId) ==>
            GetTreeForMachine(changed, machineId).value.nodes == GetTreeForMachine(assets, machineId).value.nodes)
  {
    var changed := assets.(templates := assets.templates[path := assets.templates[path].(root := root)]);
    assert TemplateOf(changed, machineId) == TemplateOf(assets, machineId);
  }

  /**
   * Nor does it look the targets up: giving a node any other `yes` and `no`
   * leaves the load's success unchanged.
   */
  lemma LoadDoesNotCheckTargets(assets: Assets, machineId: string, path: string, k: nat, yes: Option<string>, no: Option<string>)
    requires path in assets.templates && k < |assets.templates[path].nodes|
    ensures var raw := assets.templates[path];
      var changed := assets.(templates := assets.templates[path := raw.(nodes := raw.nodes[k := raw.nodes[k].(yes := yes, no := no)])]);
      Loadable(changed, machineId) <==> Loadable(assets, machineId)
  {
    var raw := assets.templates[path];
    var nodes := raw.nodes[k := raw.nodes[k].(yes := yes, no := no)];
    var changed := assets.(templates := assets.templates[path := raw.(nodes := nodes)]);
    assert TemplateOf(changed, machineId) == TemplateOf(assets, machineId);
    if assets.partsCatalog.Some? {
      var catalog := CatalogIndex(assets.partsCatalog.value);
      assert forall j :: 0 <= j < |nodes| ==> (MapNode(catalog, nodes[j]).Success? <==> MapNode(catalog, raw.nodes[j]).Success?);
    }
  }

  /** A template whose root names no node, because it has no nodes at all, loads. */
  lemma RootlessTemplateLoads()
    ensures var assets := Assets(
        Some(MachinesIndex([MachineMap("M1", "tpl", None)])),
        map[TemplatePath("tpl") := RawTree("tpl", 1, "es", "q1", [])],
        Some(PartsCatalog([])));
      GetTreeForMachine(assets, "M1") == Success(DiagnosticTree("tpl", 1, "es", "q1", []))
  {
  }

  /**
   * A raw node that gives only an id, a type and a title maps to the domain node
   * with every other field at the data class's default.
   */
  lemma MapBareNode(catalog: map<string, PartDetailRaw>, id: string, t: NodeType, title: string)
    ensures MapNode(catalog, RawNode(id, NodeTypeName(t), title, None, None, None, None, None, None, None))
            == Success(NewNode(id, t, title))
  {
    ParseNodeTypeName(t);
  }
}
