/**
 * The row and cell structure a date field emits into the two-column form table, driven by the
 * previous field's layout expression and its own (Left, Right or FullWidth).
 */
module Layout {
  import opened Wrappers

  /** OutputExpression: a field takes the left half, the right half or the whole width of a row. */
  datatype Expression = FullWidth | Left | Right

  /** The edit control of a date field; everything about its HTML other than these flags is left out. */
  datatype InputElement = InputElement(id: string, value: string, error: bool, postBack: bool, hidden: bool)

  /** The markup a field appends, one token per Append call; only row and cell boundaries are kept exact. */
  datatype Token =
    | FillerCloseRow        // an empty header and data cell, then the end of the row
    | FillerOpenRow         // the start of a row, then an empty header and data cell
    | OpenRow               // <tr>
    | CloseRow              // </tr>
    | Translation           // what ApplyTranslation appends when inherited data is shown
    | Label(forId: string)  // the header cell with the field's label
    | OpenCell(colspan: bool, valid: bool)
    | OpenBox(wide: bool)
    | Input(element: InputElement)
    | CloseBoxAndCell
    | SimpleText(text: Option<string>)  // the read-only rendering of OutputText

  /** What comes before the label cell: a filler that rebalances the table, then the opening of a row. */
  function RowLead(prev: Expression, expr: Expression, showInheritedData: bool): (r: seq<Token>)
    ensures showInheritedData ==> r == [Translation]
    ensures !showInheritedData ==> |r| <= 2 && (OpenRow in r <==> expr != Right) && CloseRow !in r
  {
    if showInheritedData then [Translation]
    else
      (if prev == Left && (expr == FullWidth || expr == Left) then [FillerCloseRow] else [])
      + (if (prev == FullWidth || prev == Right) && expr == Right then [FillerOpenRow] else [])
      + (if expr == FullWidth || expr == Left then [OpenRow] else [])
  }

  /** The label cell and the data cell holding the control. */
  function CellTokens(id: string, colspan: bool, valid: bool, wide: bool, element: InputElement): (r: seq<Token>)
    ensures |r| == 5 && r[0] == Label(id) && Input(element) in r
    ensures OpenRow !in r && CloseRow !in r && FillerOpenRow !in r && FillerCloseRow !in r
  {
    [Label(id), OpenCell(colspan, valid), OpenBox(wide), Input(element), CloseBoxAndCell]
  }

  /** A FullWidth or Right field ends the row. */
  function RowTail(expr: Expression): (r: seq<Token>)
    ensures |r| <= 1 && (CloseRow in r <==> expr != Left)
  {
    if expr == FullWidth || expr == Right then [CloseRow] else assert expr.Left?; []
  }

  /** The visible wrapper of an editable, uncloaked field. */
  function Wrapper(prev: Expression, expr: Expression, showInheritedData: bool, id: string,
                   colspan: bool, valid: bool, element: InputElement): (r: seq<Token>)
    ensures |r| == |RowLead(prev, expr, showInheritedData)| + 5 + |RowTail(expr)|
  {
    RowLead(prev, expr, showInheritedData) + CellTokens(id, colspan, valid, expr == FullWidth, element) + RowTail(expr)
  }

  /**
   * The row rules of the wrapper: with inherited data hidden, FullWidth and Left open a row and a
   * Right field does not; FullWidth and Right close one and a Left field does not; a previous Left
   * followed by Left or FullWidth gets a row-closing filler, and a previous FullWidth or Right followed
   * by Right gets a row-opening filler. The control and its label are always inside.
   */
  lemma WrapperShape(prev: Expression, expr: Expression, showInheritedData: bool, id: string,
                     colspan: bool, valid: bool, element: InputElement)
    ensures var r := Wrapper(prev, expr, showInheritedData, id, colspan, valid, element);
      && Input(element) in r && Label(id) in r
      && (!showInheritedData ==> (OpenRow in r <==> expr != Right))
      && (CloseRow in r <==> expr != Left)
      && (FillerCloseRow in r <==> !showInheritedData && prev == Left && expr != Right)
      && (FillerOpenRow in r <==> !showInheritedData && prev != Left && expr == Right)
      && (showInheritedData ==> r[0] == Translation && OpenRow !in r)
  {
    var lead := RowLead(prev, expr, showInheritedData);
    var body := CellTokens(id, colspan, valid, expr == FullWidth, element);
    var tail := RowTail(expr);
    assert OpenRow !in body && CloseRow !in body && FillerCloseRow !in body && FillerOpenRow !in body;
    assert CloseRow !in lead && OpenRow !in tail && FillerCloseRow !in tail && FillerOpenRow !in tail;
    assert Input(element) in body && Label(id) in body;
  }

  /** Whether a row is left open by a field with this expression: a Left field waits for its Right partner. */
  function Pending(e: Expression): bool {
    e == Left
  }

  /**
   * The row state after the tokens: Some(open) while every row that is opened was closed before the
   * next one opened and no row was closed that was not open; None once that fails.
   */
  function RowsAfter(open: bool, ts: seq<Token>): Option<bool>
    decreases |ts|
  {
    if ts == [] then Some(open)
    else
      match RowStep(open, ts[0])
      case None => None
      case Some(next) => RowsAfter(next, ts[1..])
  }

  function RowStep(open: bool, t: Token): Option<bool> {
    match t
    case FillerCloseRow => if open then Some(false) else None
    case CloseRow => if open then Some(false) else None
    case FillerOpenRow => if open then None else Some(true)
    case OpenRow => if open then None else Some(true)
    case _ => Some(open)
  }

  lemma {:induction false} RowsAfterAppend(open: bool, a: seq<Token>, b: seq<Token>)
    ensures RowsAfter(open, a + b) == match RowsAfter(open, a) case None => None case Some(o) => RowsAfter(o, b)
    decreases |a|
  {
    if a != [] {
      assert (a + b)[0] == a[0] && (a + b)[1..] == a[1..] + b;
      match RowStep(open, a[0])
      case None =>
      case Some(next) => RowsAfterAppend(next, a[1..], b);
    } else {
      assert a + b == b;
    }
  }

  /** A token that neither opens nor closes a row. */
  predicate Neutral(t: Token) {
    !t.FillerCloseRow? && !t.FillerOpenRow? && !t.OpenRow? && !t.CloseRow?
  }

  lemma {:induction false} NeutralKeepsRows(open: bool, ts: seq<Token>)
    requires forall i :: 0 <= i < |ts| ==> Neutral(ts[i])
    ensures RowsAfter(open, ts) == Some(open)
    decreases |ts|
  {
    if ts != [] {
      NeutralKeepsRows(open, ts[1..]);
    }
  }

  lemma RowsAfterOne(open: bool, t: Token)
    ensures RowsAfter(open, [t]) == RowStep(open, t)
  {
    assert [t][1..] == [];
  }

  /** The row state after the lead: the filler closes a pending row or opens one for a lone Right field. */
  lemma {:induction false} RowLeadRows(prev: Expression, expr: Expression)
    ensures RowsAfter(Pending(prev), RowLead(prev, expr, false)) == Some(true)
  {
    var closeFill: seq<Token> := if prev == Left && (expr == FullWidth || expr == Left) then [FillerCloseRow] else [];
    var openFill: seq<Token> := if (prev == FullWidth || prev == Right) && expr == Right then [FillerOpenRow] else [];
    var open: seq<Token> := if expr == FullWidth || expr == Left then [OpenRow] else [];
    assert RowLead(prev, expr, false) == closeFill + openFill + open;
    RowsAfterAppend(Pending(prev), closeFill + openFill, open);
    RowsAfterAppend(Pending(prev), closeFill, openFill);
    if closeFill != [] { RowsAfterOne(Pending(prev), FillerCloseRow); } else { assert RowsAfter(Pending(prev), closeFill) == Some(Pending(prev)); }
    var s1 := if closeFill != [] then false else Pending(prev);
    if openFill != [] { RowsAfterOne(s1, FillerOpenRow); } else { assert RowsAfter(s1, openFill) == Some(s1); }
    var s2 := if openFill != [] then true else s1;
    if open != [] { RowsAfterOne(s2, OpenRow); } else { assert RowsAfter(s2, open) == Some(s2); }
  }

  /**
   * One field never breaks the table: starting from the row state its predecessor left, its wrapper
   * closes every row it opens, except the one a Left field leaves open for its Right partner.
   */
  lemma WrapperKeepsRows(prev: Expression, expr: Expression, id: string, colspan: bool, valid: bool, element: InputElement)
    ensures RowsAfter(Pending(prev), Wrapper(prev, expr, false, id, colspan, valid, element)) == Some(Pending(expr))
  {
    var lead := RowLead(prev, expr, false);
    var body := CellTokens(id, colspan, valid, expr == FullWidth, element);
    var tail := RowTail(expr);
    RowLeadRows(prev, expr);
    NeutralKeepsRows(true, body);
    RowsAfterAppend(Pending(prev), lead, body);
    RowsAfterAppend(Pending(prev), lead + body, tail);
    if tail != [] { RowsAfterOne(true, CloseRow); } else { assert RowsAfter(true, tail) == Some(true); }
  }

  /** The inputs of one field's wrapper in a render pass. */
  datatype Cell = Cell(expr: Expression, id: string, colspan: bool, valid: bool, element: InputElement)

  /** A render pass: every field is wrapped with the expression of the field before it as `prev`. */
  function Pass(prev: Expression, cells: seq<Cell>): seq<Token>
    decreases |cells|
  {
    if cells == [] then []
    else
      var c := cells[0];
      Wrapper(prev, c.expr, false, c.id, c.colspan, c.valid, c.element) + Pass(c.expr, cells[1..])
  }

  function LastExpression(prev: Expression, cells: seq<Cell>): Expression {
    if cells == [] then prev else cells[|cells| - 1].expr
  }

  /** Over a whole pass the rows nest properly, and only a trailing Left field leaves a row open. */
  lemma {:induction false} PassKeepsRows(prev: Expression, cells: seq<Cell>)
    ensures RowsAfter(Pending(prev), Pass(prev, cells)) == Some(Pending(LastExpression(prev, cells)))
    decreases |cells|
  {
    if cells != [] {
      var c := cells[0];
      var w := Wrapper(prev, c.expr, false, c.id, c.colspan, c.valid, c.element);
      WrapperKeepsRows(prev, c.expr, c.id, c.colspan, c.valid, c.element);
      RowsAfterAppend(Pending(prev), w, Pass(c.expr, cells[1..]));
      PassKeepsRows(c.expr, cells[1..]);
      if |cells| > 1 {
        assert cells[1..][|cells| - 2] == cells[|cells| - 1];
      }
    }
  }
}
