/** The domain model of a diagnostic decision tree. */
module DiagnosticModels {
  import opened Wrappers

  /** A spare part as listed in the parts catalog: id and product name, everything else optional. */
  datatype PartDetail = PartDetail(
    id: string,
    product: string,
    code: Option<string>,
    features: Option<string>,
    supplier: Option<string>,
    technicalContacts: Option<string>,
    imageResName: Option<string>)

  /** A part suggested by an END node: the catalog entry and an optional quantity. */
  datatype PartRefResolved = PartRefResolved(detail: PartDetail, qty: Option<int>)

  /**
   * A loaded template. `root` is a plain id: nothing in the type says that some
   * node in `nodes` carries it.
   */
  datatype DiagnosticTree = DiagnosticTree(
    templateId: string,
    version: int,
    locale: string,
    root: string,
    nodes: seq<DiagnosticNode>)

  /** One node: a question with `yes`/`no` targets or an end with a result and parts. */
  datatype DiagnosticNode = DiagnosticNode(
    id: string,
    nodeType: NodeType,
    title: string,
    description: Option<string>,
    yes: Option<string>,
    no: Option<string>,
    providersShortcut: Option<bool>,
    result: Option<EndResult>,
    parts: Option<seq<PartRefResolved>>,
    mode: QuestionMode)

  datatype NodeType = Question | End

  datatype EndResult = Resolved | NoIssue | ComponentFault

  datatype QuestionMode = YesNo | ContinueOnly

  /** A node built from its three required arguments, every other argument left at its default. */
  function NewNode(id: string, nodeType: NodeType, title: string): (n: DiagnosticNode)
    ensures n.id == id && n.nodeType == nodeType && n.title == title
    ensures n.description.None? && n.yes.None? && n.no.None? && n.providersShortcut.None?
    ensures n.result.None? && n.parts.None? && n.mode == YesNo
  {
    DiagnosticNode(id, nodeType, title, None, None, None, None, None, None, YesNo)
  }

  /** The enum constant's `name`. */
  function NodeTypeName(t: NodeType): string {
    match t
    case Question => "QUESTION"
    case End => "END"
  }

  function EndResultName(r: EndResult): string {
    match r
    case Resolved => "RESOLVED"
    case NoIssue => "NO_ISSUE"
    case ComponentFault => "COMPONENT_FAULT"
  }

  function QuestionModeName(m: QuestionMode): string {
    match m
    case YesNo => "YES_NO"
    case ContinueOnly => "CONTINUE_ONLY"
  }

  /** Distinct constants have distinct names, so a name determines its constant. */
  lemma EnumNamesAreDistinct()
    ensures forall a: NodeType, b: NodeType :: NodeTypeName(a) == NodeTypeName(b) ==> a == b
    ensures forall a: EndResult, b: EndResult :: EndResultName(a) == EndResultName(b) ==> a == b
    ensures forall a: QuestionMode, b: QuestionMode :: QuestionModeName(a) == QuestionModeName(b) ==> a == b
  {
    assert NodeTypeName(Question)[0] != NodeTypeName(End)[0];
    assert EndResultName(Resolved)[0] != EndResultName(NoIssue)[0];
    assert EndResultName(Resolved)[0] != EndResultName(ComponentFault)[0];
    assert EndResultName(NoIssue)[0] != EndResultName(ComponentFault)[0];
    assert QuestionModeName(YesNo)[0] != QuestionModeName(ContinueOnly)[0];
  }
}
