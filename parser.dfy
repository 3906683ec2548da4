/**
 * Structure extraction from the rendered SQL. The SQL grammar's parse tree is an
 * input (the grammar itself is not modelled): each node carries its rule, its
 * text and its children. From it the parser extracts the output columns of every
 * CTE, inferring an alias for unaliased columns, and maps a grammar error in the
 * rendered SQL back to a location in the template source.
 */
module SqlParser {
  import opened Common
  import Jinja

  /** The grammar rules the extraction looks at; the others are `OtherRule`. */
  datatype SqlRule =
    | Query
    | WithClause
    | CteList
    | Cte
    | SetOperation
    | InnerQuery
    | SelectStatement
    | SelectList
    | SelectItem
    | Expression
    | QualifiedIdent
    | StarSelect
    | Alias
    | OtherRule(name: string)

  /** A node of the SQL parse tree: rule, matched text, span in the rendered SQL, children. */
  datatype Node = Node(rule: SqlRule, text: string, span: Span, inner: seq<Node>)

  /** An output column of a select list and the span of its select item. */
  datatype Column = Column(name: string, span: Span)

  datatype ColumnSet = ColumnSet(columns: seq<Column>)

  datatype Cte = Cte(name: string, span: Span, columns: ColumnSet)

  /** The extracted model: its name and its CTEs when the query has a `with` clause. */
  datatype Model = Model(name: string, ctes: Option<seq<Cte>>)

  // ---------------------------------------------------------------------------
  // The tree shapes each extraction step relies on (it panics on any other).

  /**
   * An expression: at least one operand; a single operand has a child, and a
   * qualified identifier there has at least one component.
   */
  predicate ExpressionShaped(e: Node)
  {
    && e.rule == Expression
    && |e.inner| >= 1
    && (|e.inner| == 1 ==>
          && |e.inner[0].inner| >= 1
          && (e.inner[0].inner[0].rule == QualifiedIdent ==> |e.inner[0].inner[0].inner| >= 1))
  }

  /** A select item: an expression, then an alias holding an identifier if there is one. */
  predicate ItemShaped(col: Node)
  {
    && |col.inner| >= 1
    && (col.inner[0].rule != StarSelect ==>
          if |col.inner| >= 2 then |col.inner[1].inner| >= 1 else ExpressionShaped(col.inner[0]))
  }

  predicate SelectShaped(s: Node)
  {
    |s.inner| >= 1 && forall i :: 0 <= i < |s.inner[0].inner| ==> ItemShaped(s.inner[0].inner[i])
  }

  predicate InnerQueryShaped(q: Node)
  {
    q.rule == InnerQuery && |q.inner| >= 1 && SelectShaped(q.inner[0])
  }

  predicate SetOperationShaped(s: Node)
  {
    s.rule == SetOperation && |s.inner| >= 1 && InnerQueryShaped(s.inner[0])
  }

  predicate CteShaped(c: Node)
  {
    c.rule == SqlRule.Cte && |c.inner| >= 2 && SetOperationShaped(c.inner[1])
  }

  predicate WithClauseShaped(w: Node)
  {
    && w.rule == WithClause
    && |w.inner| >= 1
    && forall i :: 0 <= i < |w.inner[0].inner| ==> CteShaped(w.inner[0].inner[i])
  }

  predicate QueryShaped(q: Node)
  {
    && q.rule == Query
    && (|q.inner| > 0 && q.inner[0].rule == WithClause ==> WithClauseShaped(q.inner[0]))
  }

  // ---------------------------------------------------------------------------
  // Alias inference and column extraction.

  /** An expression that is a single operand whose one part is a qualified identifier. */
  predicate IsColumnReference(e: Node)
    requires ExpressionShaped(e)
  {
    |e.inner| == 1 && e.inner[0].inner[0].rule == QualifiedIdent
  }

  /**
   * `parse_expression_alias`: a column reference is named by its column (the
   * second component of `t.col`, the only one of `col`); any other expression is
   * named by its whole text.
   */
  function ParseExpressionAlias(e: Node): (r: string)
    requires ExpressionShaped(e)
    ensures !IsColumnReference(e) ==> r == e.text
    ensures IsColumnReference(e) ==>
              var parts := e.inner[0].inner[0].inner;
              r == (if |parts| >= 2 then parts[1].text else parts[0].text)
  {
    var expressionText := e.text;
    if |e.inner| >= 2 then expressionText
    else
      var x := e.inner[0].inner[0];
      if x.rule != QualifiedIdent then expressionText
      else if |x.inner| >= 2 then x.inner[1].text
      else x.inner[0].text
  }

  /** A select item whose expression is `*`. */
  predicate IsStar(col: Node)
  {
    |col.inner| >= 1 && col.inner[0].rule == StarSelect
  }

  /** The name of a non-star select item: its explicit alias, else the inferred one. */
  function ItemName(col: Node): (r: string)
    requires ItemShaped(col) && !IsStar(col)
    ensures |col.inner| >= 2 ==> r == col.inner[1].inner[0].text
    ensures |col.inner| == 1 && !IsColumnReference(col.inner[0]) ==> r == col.inner[0].text
  {
    if |col.inner| >= 2 then col.inner[1].inner[0].text else ParseExpressionAlias(col.inner[0])
  }

  /** The select items that produce a column (every item but `*`), in order. */
  function NonStarItems(items: seq<Node>): (r: seq<Node>)
    requires forall i :: 0 <= i < |items| ==> ItemShaped(items[i])
    ensures forall i :: 0 <= i < |r| ==> ItemShaped(r[i]) && !IsStar(r[i])
    ensures |r| <= |items|
    ensures (forall i :: 0 <= i < |items| ==> !IsStar(items[i])) ==> r == items
  {
    if items == [] then []
    else if IsStar(items[0]) then NonStarItems(items[1..])
    else [items[0]] + NonStarItems(items[1..])
  }

  /** The `flat_map` over a select list: one column per non-star item, star items skipped. */
  function SelectColumns(items: seq<Node>): (r: seq<Column>)
    requires forall i :: 0 <= i < |items| ==> ItemShaped(items[i])
    ensures |r| == |NonStarItems(items)|
    ensures forall k :: 0 <= k < |r| ==>
              r[k] == Column(ItemName(NonStarItems(items)[k]), NonStarItems(items)[k].span)
  {
    if items == [] then []
    else
      var rest := SelectColumns(items[1..]);
      if IsStar(items[0]) then rest
      else [Column(ItemName(items[0]), items[0].span)] + rest
  }

  /** `parse_select_statement`: the columns of the statement's select list. */
  function ParseSelectStatement(s: Node): (r: ColumnSet)
    requires SelectShaped(s)
    ensures |r.columns| == |NonStarItems(s.inner[0].inner)|
    ensures forall k :: 0 <= k < |r.columns| ==>
              r.columns[k].name == ItemName(NonStarItems(s.inner[0].inner)[k])
  {
    ColumnSet(SelectColumns(s.inner[0].inner))
  }

  /** An explicit alias names its column whatever the expression is. */
  lemma ExplicitAliasWins(items: seq<Node>, i: nat)
    requires forall j :: 0 <= j < |items| ==> ItemShaped(items[j])
    requires i < |items| && !IsStar(items[i]) && |items[i].inner| >= 2
    ensures exists k :: 0 <= k < |SelectColumns(items)| &&
              SelectColumns(items)[k].name == items[i].inner[1].inner[0].text
  {
    var k := NonStarIndex(items, i);
    assert SelectColumns(items)[k].name == ItemName(items[i]);
  }

  /** The position among the columns of the non-star item at position `i`. */
  function NonStarIndex(items: seq<Node>, i: nat): (k: nat)
    requires forall j :: 0 <= j < |items| ==> ItemShaped(items[j])
    requires i < |items| && !IsStar(items[i])
    ensures k < |NonStarItems(items)| && NonStarItems(items)[k] == items[i]
  {
    if i == 0 then 0
    else
      var k := NonStarIndex(items[1..], i - 1);
      if IsStar(items[0]) then k else k + 1
  }

  /**
   * Every kept item comes from a non-star item of the list, the one whose position
   * among the columns it is; with `NonStarIndex` and `SelectColumnsKeepOrder` the
   * kept items are exactly the non-star items, each once, in order.
   */
  lemma {:induction false} NonStarItemsOrigin(items: seq<Node>, k: nat) returns (i: nat)
    requires forall j :: 0 <= j < |items| ==> ItemShaped(items[j])
    requires k < |NonStarItems(items)|
    ensures i < |items| && !IsStar(items[i]) && NonStarIndex(items, i) == k
    ensures NonStarItems(items)[k] == items[i]
  {
    if IsStar(items[0]) {
      var i' := NonStarItemsOrigin(items[1..], k);
      i := i' + 1;
    } else if k == 0 {
      i := 0;
    } else {
      var i' := NonStarItemsOrigin(items[1..], k - 1);
      i := i' + 1;
    }
  }

  /** Columns keep select-list order: an earlier item's column comes before a later item's. */
  lemma {:induction false} SelectColumnsKeepOrder(items: seq<Node>, i: nat, j: nat)
    requires forall m :: 0 <= m < |items| ==> ItemShaped(items[m])
    requires i < j < |items| && !IsStar(items[i]) && !IsStar(items[j])
    ensures NonStarIndex(items, i) < NonStarIndex(items, j)
  {
    if i > 0 {
      SelectColumnsKeepOrder(items[1..], i - 1, j - 1);
    }
  }

  /** A select list of stars only yields no column. */
  lemma {:induction false} StarsOnlyYieldNothing(items: seq<Node>)
    requires forall m :: 0 <= m < |items| ==> ItemShaped(items[m]) && IsStar(items[m])
    ensures SelectColumns(items) == []
  {
    if items != [] {
      StarsOnlyYieldNothing(items[1..]);
    }
  }

  /** `parse_inner_query`: the columns of the inner query's select statement. */
  function ParseInnerQuery(q: Node): (r: ColumnSet)
    requires InnerQueryShaped(q)
    ensures r.columns == SelectColumns(q.inner[0].inner[0].inner)
  {
    ParseSelectStatement(q.inner[0])
  }

  /** `parse_set_operation`: the columns of the first inner query; later operands are not read. */
  function ParseSetOperation(s: Node): (r: ColumnSet)
    requires SetOperationShaped(s)
    ensures r.columns == SelectColumns(s.inner[0].inner[0].inner[0].inner)
  {
    ParseInnerQuery(s.inner[0])
  }

  /** `parse_cte`: the CTE is named by its first child's text and has the set operation's columns. */
  function ParseCte(c: Node): (r: Cte)
    requires CteShaped(c)
    ensures r.name == c.inner[0].text && r.span == c.span
    ensures r.columns == ParseSetOperation(c.inner[1])
  {
    Cte.Cte(c.inner[0].text, c.span, ParseSetOperation(c.inner[1]))
  }

  /** The `map` over the CTE list. */
  function ParseCtes(cs: seq<Node>): (r: seq<Cte>)
    requires forall i :: 0 <= i < |cs| ==> CteShaped(cs[i])
    ensures |r| == |cs|
    ensures forall i :: 0 <= i < |cs| ==> r[i] == ParseCte(cs[i])
  {
    if cs == [] then [] else [ParseCte(cs[0])] + ParseCtes(cs[1..])
  }

  /** `parse_with_clause`: one CTE per child of the CTE list, in order, each named by its first child. */
  function ParseWithClause(w: Node): (r: seq<Cte>)
    requires WithClauseShaped(w)
    ensures |r| == |w.inner[0].inner|
    ensures forall i :: 0 <= i < |r| ==> r[i].name == w.inner[0].inner[i].inner[0].text
  {
    ParseCtes(w.inner[0].inner)
  }

  /** `parse_query`: the model has CTEs exactly when the query starts with a `with` clause. */
  function ParseQuery(q: Node, name: string): (r: Model)
    requires QueryShaped(q)
    ensures r.name == name
    ensures r.ctes.Some? <==> |q.inner| > 0 && q.inner[0].rule == WithClause
    ensures r.ctes.Some? ==> r.ctes.value == ParseWithClause(q.inner[0])
  {
    var ctes :=
      if |q.inner| > 0 && q.inner[0].rule == WithClause then Some(ParseWithClause(q.inner[0]))
      else None;
    Model(name, ctes)
  }

  // ---------------------------------------------------------------------------
  // Error locations.

  /** What the SQL grammar made of the rendered text. */
  datatype SqlGrammarOutcome =
    | SqlParsed(root: Node)
    | ErrorAtPos(pos: nat, message: string)
    | ErrorAtSpan(start: nat, end: nat, message: string)

  /** Where a syntax error is reported in the template source. */
  datatype ErrorLoc = Position(pos: nat) | SpanAt(span: Span) | Unknown

  datatype SqlParseError = SqlParseError(position: ErrorLoc, message: string)

  /** `pest::Span::new` on ASCII text: a span exists for ordered offsets within the text. */
  function SpanNew(src: string, start: nat, end: nat): (r: Option<Span>)
    ensures r.Some? <==> start <= end <= |src|
    ensures r.Some? ==> r.value == Span(start, end)
  {
    if start <= end <= |src| then Some(Span(start, end)) else None
  }

  /**
   * A span error whose two ends are both mapped is reported as a span: the map is
   * monotone and stays within the source, so `Span::new` always accepts the pair.
   */
  lemma SpanErrorKeepsBothEnds(jinjaParse: Jinja.JinjaParser, start: nat, end: nat)
    requires jinjaParse.Valid()
    requires start <= end
    requires jinjaParse.Translation(start).Some? && jinjaParse.Translation(end).Some?
    ensures jinjaParse.Translation(start).value <= jinjaParse.Translation(end).value <= |jinjaParse.src|
  {
    Jinja.TranslateMonotone(jinjaParse.snippets.value, |jinjaParse.outString|, |jinjaParse.src|, start, end);
  }

  /**
   * A span error strictly inside one plain-SQL segment of the rendered text is
   * reported at the same text in the template: both ends shift by the segment's
   * offset.
   */
  lemma SpanErrorInsideSqlSegment(jinjaParse: Jinja.JinjaParser, k: nat, start: nat, end: nat)
    requires jinjaParse.Valid() && jinjaParse.snippets.Some?
    requires k < |jinjaParse.snippets.value| && jinjaParse.snippets.value[k].sectionType == Jinja.Sql
    requires jinjaParse.snippets.value[k].outSpan.start < start <= end < jinjaParse.snippets.value[k].outSpan.end
    ensures var seg := jinjaParse.snippets.value[k];
            && jinjaParse.Translation(start) == Some(seg.inSpan.start + (start - seg.outSpan.start))
            && jinjaParse.Translation(end) == Some(seg.inSpan.start + (end - seg.outSpan.start))
            && jinjaParse.Translation(end).value < seg.inSpan.end <= |jinjaParse.src|
  {
    var segs := jinjaParse.snippets.value;
    Jinja.TranslateInsideSql(segs, |jinjaParse.outString|, |jinjaParse.src|, k, start);
    Jinja.TranslateInsideSql(segs, |jinjaParse.outString|, |jinjaParse.src|, k, end);
  }

  /**
   * `parse_sql`: parses the rendered SQL; a grammar error is reported at its
   * location in the template source when that can be recovered, else at an
   * unknown location.
   */
  method ParseSql(jinjaParse: Jinja.JinjaParser, sql: SqlGrammarOutcome) returns (r: Result<(), SqlParseError>)
    requires sql.SqlParsed? ==> QueryShaped(sql.root)
    ensures sql.SqlParsed? <==> r.Ok?
    ensures sql.ErrorAtPos? ==>
              r == Err(SqlParseError(
                     match jinjaParse.Translation(sql.pos)
                     case Some(p) => Position(p)
                     case None => Unknown,
                     sql.message))
    ensures sql.ErrorAtSpan? ==> r.Err? && r.error.message == sql.message
    ensures sql.ErrorAtSpan? ==>
              (r.error.position.SpanAt? <==>
                 && jinjaParse.Translation(sql.start).Some?
                 && jinjaParse.Translation(sql.end).Some?
                 && jinjaParse.Translation(sql.start).value <= jinjaParse.Translation(sql.end).value
                    <= |jinjaParse.src|)
    ensures sql.ErrorAtSpan? && r.error.position.SpanAt? ==>
              r.error.position.span ==
                Span(jinjaParse.Translation(sql.start).value, jinjaParse.Translation(sql.end).value)
    ensures sql.ErrorAtSpan? && !r.error.position.SpanAt? ==> r.error.position.Unknown?
  {
    match sql {
      case SqlParsed(root) =>
        var _ := ParseQuery(root, "");
        return Ok(());
      case ErrorAtPos(pos, message) =>
        var loc := jinjaParse.Translate(pos);
        if loc.Some? {
          return Err(SqlParseError(Position(loc.value), message));
        } else {
          return Err(SqlParseError(Unknown, message));
        }
      case ErrorAtSpan(start, end, message) =>
        var startLoc := jinjaParse.Translate(start);
        var endLoc := jinjaParse.Translate(end);
        if startLoc.Some? {
          if endLoc.Some? {
            var span := SpanNew(jinjaParse.src, startLoc.value, endLoc.value);
            return Err(SqlParseError(
              match span
              case Some(s) => SpanAt(s)
              case None => Unknown,
              message));
          }
        }
        return Err(SqlParseError(Unknown, message));
    }
  }
}
