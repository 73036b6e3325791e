/**
 * The cell tree as values.  A cell pointer list (cells linked by `m_next`) is
 * a `Chain`; the null pointer is the empty chain.  Cell classes whose source is
 * not part of this model (TextCell, FracCell, SumCell, IntCell, MatrCell,
 * DiffCell, EditorCell, GroupCell, VisiblyInvalidCell) appear only as the
 * fields the parser sets on them.
 */
module Cells {
  import opened Wrappers

  /** The XML attribute the cell writers add for a forced line break. */
  const BreakLineAttr: string := " breakline=\"true\""

  /** `TextStyle` (TS_...) */
  datatype TextStyle = Default | Variable | Function | Error | Warning | Label | UserLabel

  /** `CellType` (MC_TYPE_...) */
  datatype CellType =
    | TypeDefault | TypeError | TypeWarning | TypeLabel | TypeInput | TypeText | TypeTitle
    | TypeSection | TypeSubsection | TypeSubsubsection | TypeHeading5 | TypeHeading6

  /** `GroupType` (GC_TYPE_...) */
  datatype GroupType = GroupCode | GroupImage | GroupSubsection | GroupSubsubsection | GroupHeading5 | GroupHeading6

  /** `FracCell::FracType` */
  datatype FracStyle = FracNormal | FracChoose | FracDiff

  /** `SumCell`'s style */
  datatype SumStyle = SumSum | SumProd

  /** The four optional script roles of a SubSupCell. */
  datatype Role = PreSub | PreSup | PostSub | PostSup

  /** The data every cell carries, as far as the parser sets it. */
  datatype Common = Common(
    cellType: CellType,
    style: TextStyle,
    highlight: bool,
    forceBreak: bool,
    toolTip: string,
    altCopy: string,
    exponent: bool)

  /** A freshly constructed cell. */
  const Fresh: Common := Common(TypeDefault, Default, false, false, "", "", false)

  datatype Cell = Cell(common: Common, body: Body)

  type Chain = seq<Cell>

  /** What a SubSupCell holds: a base, four optional roles and the ordered `m_scriptCells`. */
  datatype Scripts = Scripts(
    base: Chain,
    preSub: Chain,
    preSup: Chain,
    postSub: Chain,
    postSup: Chain,
    order: seq<Role>)
  {
    function Get(r: Role): Chain
    {
      match r
      case PreSub => preSub
      case PreSup => preSup
      case PostSub => postSub
      case PostSup => postSup
    }
  }

  datatype Body =
    | TextBody(value: string)
    | Invalid
    | Frac(num: Chain, denom: Chain, fracStyle: FracStyle)
    | Sub(base: Chain, index: Chain)
    | Diff(diff: Chain, base: Chain)
    | Sum(sumStyle: SumStyle, under: Chain, over: Chain, base: Chain)
    | Integral(definite: bool, under: Chain, over: Chain, base: Chain, variable: Chain)
    | Limit(name: Chain, under: Chain, base: Chain)
    | Fun(name: Chain, arg: Chain)
    | SubSup(scripts: Scripts)
    | Matrix(rows: seq<seq<Chain>>, special: bool, inference: bool, colNames: bool, rowNames: bool, roundedParens: bool)
    | Editor(editorType: Option<CellType>, value: string)

  /** A GroupCell as the group-tag builders configure it. */
  datatype Group = Group(
    groupType: GroupType,
    autoAnswer: bool,
    answers: seq<(string, string)>,
    suppressTooltipMarker: bool)

  const MissingContentsText: string := "Bug: Missing contents"

  const MissingContentsToolTip: string :=
    "The xml data from maxima or from the .wxmx file was missing data here.\n"
    + "If you find a way how to reproduce this problem please file a bug "
    + "report against wxMaxima."

  /** The error text cell `HandleNullPointer` puts where data is missing. */
  const MissingContents: Cell :=
    Cell(Fresh.(style := Error, toolTip := MissingContentsToolTip), TextBody(MissingContentsText))

  /** A `VisiblyInvalidCell`, the placeholder the cell classes use for a null child. */
  const InvalidCell: Cell := Cell(Fresh, Invalid)

  /** `MathParser::HandleNullPointer` */
  function HandleNullPointer(c: Chain): (r: Chain)
    ensures r != []
    ensures c != [] ==> r == c
    ensures c == [] ==> r == [MissingContents]
    ensures c == [] ==> r[0].common.style == Error && r[0].common.toolTip == MissingContentsToolTip
    ensures c == [] ==> r[0].body == TextBody(MissingContentsText)
  {
    if c == [] then [MissingContents] else c
  }

  /** `InvalidCellOr`: a null child becomes a visibly invalid cell. */
  function InvalidCellOr(c: Chain): (r: Chain)
    ensures r != []
    ensures c != [] ==> r == c
    ensures c == [] ==> r == [InvalidCell]
  {
    if c == [] then [InvalidCell] else c
  }

  /** `Cell::SetExponentFlag` on the first cell of a chain. */
  function WithExponentFlag(c: Chain): (r: Chain)
    requires c != []
    ensures |r| == |c| && r[1..] == c[1..]
    ensures r[0] == c[0].(common := c[0].common.(exponent := true))
  {
    [c[0].(common := c[0].common.(exponent := true))] + c[1..]
  }

  /** `Cell::SetStyle` on the first cell of a chain. */
  function WithStyle(c: Chain, style: TextStyle): (r: Chain)
    requires c != []
    ensures |r| == |c| && r[1..] == c[1..]
    ensures r[0] == c[0].(common := c[0].common.(style := style))
  {
    [c[0].(common := c[0].common.(style := style))] + c[1..]
  }

  /** The layout values a cell list reports once recalculated at some font size. */
  datatype Metrics = Metrics(fullWidth: int, height: int, center: int, maxDrop: int)

  /**
   * What the cell classes outside this model contribute: the list serialisers
   * (`ListToString`, ...), `Cell::ToString` and `IsCompound` of a single cell,
   * `XMLescape`, and the layout of a list recalculated at a font size.
   */
  datatype Renderer = Renderer(
    listToString: Chain -> string,
    listToMatlab: Chain -> string,
    listToTeX: Chain -> string,
    listToMathML: Chain -> string,
    listToOMML: Chain -> string,
    listToXML: Chain -> string,
    cellToString: Cell -> string,
    isCompound: Cell -> bool,
    xmlEscape: string -> string,
    measure: (Chain, int) -> Metrics)

  /**
   * Where a next-to-draw pointer leads: nowhere yet, to one of the parts of
   * the cell that owns the pointer, or to a cell outside it (named by an
   * opaque number).
   */
  datatype DrawTarget<P> = Unlinked | ToPart(part: P) | Outside(ref: nat)
}
