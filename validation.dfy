/**
 * Column lineage over a SQL AST. A chain of contexts maps model names to their
 * output columns; a select resolves its FROM tables and projection against that
 * chain, a UNION combines two column lists, and a query registers its CTEs one by
 * one before resolving its body and walking the lineage of the body's first
 * output column back through `Single` sources.
 *
 * Where the source panics (`todo!()`, `unwrap()` on a missing model or column,
 * indexing an empty output) the model returns an explicit error.
 */
module Validation {
  import opened Common

  // ---------------------------------------------------------------------------
  // Columns and models.

  /** The column type; the only type the resolver knows. */
  datatype SqlType = UnknownType

  /** A column `columnName` of the model `modelName`. */
  datatype ModelReference = ModelReference(modelName: string, columnName: string)

  /** Where a column's values come from. */
  datatype ColumnSource =
    | Single(reference: ModelReference)        // copied from one column of another model
    | Disjoint(sources: seq<ColumnSource>)     // different rows from different inputs (a set operation)
    | Aggregate(references: seq<ModelReference>) // combined from several columns (an expression)
    | NoSource                                 // a given: a seed or a source table
    | UnknownSource                            // not yet worked out

  datatype Column = Column(name: string, tipe: SqlType, source: ColumnSource)

  /** Two models agree in shape: same arity and the same type at every position. */
  predicate TypesMatch(a: Model, b: Model)
  {
    |a.columns| == |b.columns| && forall i :: 0 <= i < |a.columns| ==> a.columns[i].tipe == b.columns[i].tipe
  }

  datatype Model = Model(columns: seq<Column>) {
    /** `type_match`: compares arity, then the types position by position. */
    method TypeMatch(other: Model) returns (r: bool)
      ensures r <==> TypesMatch(this, other)
    {
      if |columns| != |other.columns| {
        return false;
      }
      for i := 0 to |columns|
        invariant forall k :: 0 <= k < i ==> columns[k].tipe == other.columns[k].tipe
      {
        if columns[i].tipe != other.columns[i].tipe {
          return false;
        }
      }
      return true;
    }
  }

  /** With a single column type, a type match is exactly an arity match. */
  lemma TypeMatchIsArity(a: Model, b: Model)
    ensures TypesMatch(a, b) <==> |a.columns| == |b.columns|
  {
    if |a.columns| == |b.columns| {
      forall i | 0 <= i < |a.columns|
        ensures a.columns[i].tipe == b.columns[i].tipe
      {
        assert a.columns[i].tipe.UnknownType? && b.columns[i].tipe.UnknownType?;
      }
    }
  }

  // ---------------------------------------------------------------------------
  // Scopes: the chain of model maps, innermost first.

  type Scope = seq<map<string, Model>>

  /** The model a name denotes: the innermost layer that defines it wins. */
  function Lookup(scope: Scope, name: string): Option<Model>
  {
    if scope == [] then None
    else if name in scope[0] then Some(scope[0][name])
    else Lookup(scope[1..], name)
  }

  /** A name is found iff some layer defines it, and then the innermost such layer gives the model. */
  lemma {:induction false} LookupSpec(scope: Scope, name: string)
    ensures Lookup(scope, name).None? <==> forall i :: 0 <= i < |scope| ==> name !in scope[i]
    ensures Lookup(scope, name).Some? ==>
              exists i :: 0 <= i < |scope| && name in scope[i] && Lookup(scope, name).value == scope[i][name] &&
                          forall j :: 0 <= j < i ==> name !in scope[j]
  {
    if scope != [] && name !in scope[0] {
      LookupSpec(scope[1..], name);
      assert forall i :: 1 <= i < |scope| ==> scope[i] == scope[1..][i - 1];
      if Lookup(scope, name).Some? {
        var i :| 0 <= i < |scope[1..]| && name in scope[1..][i] && Lookup(scope, name).value == scope[1..][i][name] &&
                 forall j :: 0 <= j < i ==> name !in scope[1..][j];
        assert name in scope[i + 1] && Lookup(scope, name).value == scope[i + 1][name];
      }
    }
  }

  /** The first column of the list with the given name. */
  function FirstColumnNamed(columns: seq<Column>, name: string): Option<Column>
  {
    if columns == [] then None
    else if columns[0].name == name then Some(columns[0])
    else FirstColumnNamed(columns[1..], name)
  }

  /** A column of the name is found iff the list has one, and then it is the first such column. */
  lemma {:induction false} FirstColumnNamedSpec(columns: seq<Column>, name: string)
    ensures FirstColumnNamed(columns, name).None? <==> forall j :: 0 <= j < |columns| ==> columns[j].name != name
    ensures FirstColumnNamed(columns, name).Some? ==>
              exists j :: 0 <= j < |columns| && columns[j] == FirstColumnNamed(columns, name).value &&
                          columns[j].name == name && forall k :: 0 <= k < j ==> columns[k].name != name
  {
    if columns != [] && columns[0].name != name {
      FirstColumnNamedSpec(columns[1..], name);
      assert forall j :: 1 <= j < |columns| ==> columns[j] == columns[1..][j - 1];
      if FirstColumnNamed(columns, name).Some? {
        var j :| 0 <= j < |columns[1..]| && columns[1..][j] == FirstColumnNamed(columns, name).value &&
                 columns[1..][j].name == name && forall k :: 0 <= k < j ==> columns[1..][k].name != name;
        assert columns[j + 1] == columns[1..][j];
      }
    }
  }

  /** What following a reference finds. */
  datatype Resolution =
    | Resolved(column: Column, model: Model)
    | Unresolved       // no layer defines the model
    | MissingColumn    // the model is found but has no such column

  /** The lookup of `follow_model_reference`: the model by name, then its first column of that name. */
  function FollowIn(scope: Scope, ref: ModelReference): (r: Resolution)
    ensures r.Unresolved? <==> Lookup(scope, ref.modelName).None?
    ensures r.Resolved? ==> r.model == Lookup(scope, ref.modelName).value
  {
    match Lookup(scope, ref.modelName)
    case None => Unresolved
    case Some(m) =>
      match FirstColumnNamed(m.columns, ref.columnName)
      case None => MissingColumn
      case Some(c) => Resolved(c, m)
  }

  /**
   * Following a reference: no model gives `Unresolved`; a model without the
   * column gives `MissingColumn`; otherwise the model's first column of that name.
   */
  lemma FollowInSpec(scope: Scope, ref: ModelReference)
    ensures FollowIn(scope, ref).MissingColumn? <==>
              Lookup(scope, ref.modelName).Some? &&
              forall j :: 0 <= j < |Lookup(scope, ref.modelName).value.columns| ==>
                Lookup(scope, ref.modelName).value.columns[j].name != ref.columnName
    ensures FollowIn(scope, ref).Resolved? ==>
              var r := FollowIn(scope, ref);
              r.column.name == ref.columnName && r.column in r.model.columns &&
              FirstColumnNamed(r.model.columns, ref.columnName) == Some(r.column)
  {
    if Lookup(scope, ref.modelName).Some? {
      FirstColumnNamedSpec(Lookup(scope, ref.modelName).value.columns, ref.columnName);
    }
  }

  /**
   * `Context`: the models defined at this level and the enclosing context. The
   * parent is shared and never changed through the child, so it is a constant.
   */
  class Context {
    var models: map<string, Model>
    const parent: Context?
    ghost const Repr: set<Context>

    /** The chain of contexts is finite and acyclic. */
    ghost predicate Valid()
      decreases Repr
    {
      && this in Repr
      && (parent != null ==>
            && parent in Repr
            && parent.Repr < Repr
            && this !in parent.Repr
            && parent.Valid())
    }

    /** The scope the chain denotes: this context's models, then its ancestors'. */
    function Layers(): (r: Scope)
      requires Valid()
      reads Repr
      decreases Repr
      ensures |r| >= 1 && r[0] == models
    {
      if parent == null then [models] else [models] + parent.Layers()
    }

    /** A context with no models of its own below the given parent. */
    constructor (parent: Context?)
      requires parent != null ==> parent.Valid()
      ensures Valid() && this.parent == parent && models == map[]
      ensures Layers() == [map[]] + (if parent == null then [] else parent.Layers())
    {
      models := map[];
      this.parent := parent;
      Repr := {this} + (if parent == null then {} else parent.Repr);
    }

    /**
     * `get_model`: the local map first, the parent chain only on a miss; a local
     * name shadows the same name further out, and a chain without it gives none.
     */
    function GetModel(name: string): (r: Option<Model>)
      requires Valid()
      reads Repr
      decreases Repr
      ensures r == Lookup(Layers(), name)
      ensures name in models ==> r == Some(models[name])
      ensures parent == null && name !in models ==> r.None?
    {
      if name in models then Some(models[name])
      else if parent == null then None
      else parent.GetModel(name)
    }

    /**
     * `follow_model_reference`: the first model of that name up the chain, and in
     * it the first column of that name (a missing column is the `unwrap` failure).
     */
    function FollowModelReference(ref: ModelReference): (r: Resolution)
      requires Valid()
      reads Repr
      decreases Repr
      ensures r == FollowIn(Layers(), ref)
    {
      if ref.modelName in models then
        match FirstColumnNamed(models[ref.modelName].columns, ref.columnName)
        case None => MissingColumn
        case Some(c) => Resolved(c, models[ref.modelName])
      else if parent == null then
        assert Layers()[1..] == [];
        assert Lookup(Layers(), ref.modelName) == Lookup([], ref.modelName);
        Unresolved
      else
        assert Layers()[1..] == parent.Layers();
        assert Lookup(Layers(), ref.modelName) == Lookup(parent.Layers(), ref.modelName);
        parent.FollowModelReference(ref)
    }

    /** `add_model`: inserts or overwrites one local name; the parent chain is untouched. */
    method AddModel(name: string, model: Model)
      requires Valid()
      modifies this
      ensures Valid()
      ensures models == old(models)[name := model]
      ensures Layers() == [models] + old(Layers())[1..]
    {
      models := models[name := model];
    }
  }

  // ---------------------------------------------------------------------------
  // The SQL AST the resolver reads.

  datatype TableFactor =
    | Table(name: string)
    | Derived
    | NestedJoin
    | TableFunction
    | Unnest

  /** A FROM entry: its relation and the tables joined to it (the joins are not read). */
  datatype TableWithJoins = TableWithJoins(relation: TableFactor, joins: seq<TableFactor>)

  datatype Expr = Identifier(ident: string) | OtherExpr(text: string)

  datatype SelectItem =
    | UnnamedExpr(expr: Expr)
    | ExprWithAlias(expr: Expr, alias: string)
    | QualifiedWildcard(qualifier: string)
    | Wildcard

  datatype Select = Select(from: seq<TableWithJoins>, projection: seq<SelectItem>)

  datatype SetOperator = Union | Except | Intersect

  /** A query body; `OtherSetExpr` stands for the bodies that are not selects or set operations. */
  datatype SetExpr =
    | SelectExpr(select: Select)
    | SetOperation(op: SetOperator, left: SetExpr, right: SetExpr)
    | OtherSetExpr

  datatype CteDef = CteDef(alias: string, body: SetExpr)

  datatype Query = Query(withClause: Option<seq<CteDef>>, body: SetExpr)

  /** The panics of the source, as values. */
  datatype ValidationError =
    | MissingModel(name: string)
    | UnsupportedTableFactor
    | NoSuchColumn(name: string)
    | UnsupportedExpression
    | UnsupportedQualifiedWildcard
    | TypeMismatch
    | UnsupportedSetOperator(op: SetOperator)
    | NotASelect
    | EmptyOutput

  // ---------------------------------------------------------------------------
  // validate_select

  /** One FROM entry: a table names a model in scope; every other relation is unsupported. */
  function ResolveTable(item: TableWithJoins, scope: Scope): (r: Result<(string, Model), ValidationError>)
    ensures r.Ok? <==> item.relation.Table? && Lookup(scope, item.relation.name).Some?
    ensures r.Ok? ==> r.value == (item.relation.name, Lookup(scope, item.relation.name).value)
    ensures item.relation.Table? && r.Err? ==> r.error == MissingModel(item.relation.name)
    ensures !item.relation.Table? ==> r == Err(UnsupportedTableFactor)
  {
    match item.relation
    case Table(name) =>
      (match Lookup(scope, name)
       case None => Err(MissingModel(name))
       case Some(m) => Ok((name, m)))
    case _ => Err(UnsupportedTableFactor)
  }

  /** The input models of a select, in FROM order; the first entry that fails decides the error. */
  function ResolveInputs(from: seq<TableWithJoins>, scope: Scope): Result<seq<(string, Model)>, ValidationError>
  {
    if from == [] then Ok([])
    else
      var first :- ResolveTable(from[0], scope);
      var rest :- ResolveInputs(from[1..], scope);
      Ok([first] + rest)
  }

  /** The inputs resolve iff every entry does, pointwise and in order; otherwise the first failing entry decides. */
  lemma {:induction false} ResolveInputsSpec(from: seq<TableWithJoins>, scope: Scope)
    ensures var r := ResolveInputs(from, scope);
            && (r.Ok? <==> forall i :: 0 <= i < |from| ==> ResolveTable(from[i], scope).Ok?)
            && (r.Ok? ==> |r.value| == |from| &&
                          forall i :: 0 <= i < |from| ==> r.value[i] == ResolveTable(from[i], scope).value)
            && (r.Err? ==> exists i :: 0 <= i < |from| && ResolveTable(from[i], scope).Err? &&
                                       r.error == ResolveTable(from[i], scope).error &&
                                       forall k :: 0 <= k < i ==> ResolveTable(from[k], scope).Ok?)
  {
    if from != [] && ResolveTable(from[0], scope).Ok? {
      ResolveInputsSpec(from[1..], scope);
      assert forall i :: 1 <= i < |from| ==> from[i] == from[1..][i - 1];
      var rest := ResolveInputs(from[1..], scope);
      if rest.Err? {
        var i :| 0 <= i < |from[1..]| && ResolveTable(from[1..][i], scope).Err? &&
                 rest.error == ResolveTable(from[1..][i], scope).error &&
                 forall k :: 0 <= k < i ==> ResolveTable(from[1..][k], scope).Ok?;
        assert from[i + 1] == from[1..][i];
      }
    }
  }

  /** Joined tables play no part: only each entry's relation is resolved. */
  lemma {:induction false} JoinsAreIgnored(from: seq<TableWithJoins>, other: seq<TableWithJoins>, scope: Scope)
    requires |from| == |other| && forall i :: 0 <= i < |from| ==> from[i].relation == other[i].relation
    ensures ResolveInputs(from, scope) == ResolveInputs(other, scope)
  {
    if from != [] {
      JoinsAreIgnored(from[1..], other[1..], scope);
    }
  }

  /**
   * The column of the inputs with a given name: the first input model (in FROM
   * order) that has one, and in it the first such column, with that model's name.
   */
  function GetInputColumn(inputs: seq<(string, Model)>, name: string): Option<(Column, string)>
  {
    if inputs == [] then None
    else
      match FirstColumnNamed(inputs[0].1.columns, name)
      case Some(c) => Some((c, inputs[0].0))
      case None => GetInputColumn(inputs[1..], name)
  }

  /**
   * No input has a column of the name iff nothing is found; otherwise the found
   * column has the name and belongs to an input before which no input has one.
   */
  lemma {:induction false} GetInputColumnSpec(inputs: seq<(string, Model)>, name: string)
    ensures GetInputColumn(inputs, name).None? <==>
              forall i, j :: 0 <= i < |inputs| && 0 <= j < |inputs[i].1.columns| ==> inputs[i].1.columns[j].name != name
    ensures GetInputColumn(inputs, name).Some? ==>
              var r := GetInputColumn(inputs, name).value;
              exists i :: 0 <= i < |inputs| && r.1 == inputs[i].0 && r.0.name == name && r.0 in inputs[i].1.columns &&
                          forall k :: 0 <= k < i ==> FirstColumnNamed(inputs[k].1.columns, name).None?
  {
    if inputs != [] {
      FirstColumnNamedSpec(inputs[0].1.columns, name);
      if FirstColumnNamed(inputs[0].1.columns, name).None? {
        GetInputColumnSpec(inputs[1..], name);
        assert forall i :: 1 <= i < |inputs| ==> inputs[i] == inputs[1..][i - 1];
        if GetInputColumn(inputs, name).Some? {
          var r := GetInputColumn(inputs, name).value;
          var i :| 0 <= i < |inputs[1..]| && r.1 == inputs[1..][i].0 && r.0.name == name && r.0 in inputs[1..][i].1.columns &&
                   forall k :: 0 <= k < i ==> FirstColumnNamed(inputs[1..][k].1.columns, name).None?;
          assert inputs[i + 1] == inputs[1..][i];
        }
      }
    }
  }

  /** The column an identifier or aliased identifier yields: the found column's type, sourced from it. */
  function IdentifierColumn(found: (Column, string), name: string): Column
  {
    Column(name, found.0.tipe, Single(ModelReference(found.1, found.0.name)))
  }

  /** The columns of one model as seen through `*`: same names and types, each sourced from that column. */
  function StarColumns(modelName: string, columns: seq<Column>): (r: seq<Column>)
    ensures |r| == |columns|
    ensures forall j :: 0 <= j < |columns| ==>
              r[j] == Column(columns[j].name, columns[j].tipe, Single(ModelReference(modelName, columns[j].name)))
  {
    if columns == [] then []
    else [Column(columns[0].name, columns[0].tipe, Single(ModelReference(modelName, columns[0].name)))]
         + StarColumns(modelName, columns[1..])
  }

  /** The columns of `*`: every input model's columns, in FROM order. */
  function WildcardColumns(inputs: seq<(string, Model)>): (r: seq<Column>)
  {
    if inputs == [] then [] else StarColumns(inputs[0].0, inputs[0].1.columns) + WildcardColumns(inputs[1..])
  }

  /** The number of columns of the first `i` input models. */
  function ColumnsBefore(inputs: seq<(string, Model)>, i: nat): nat
    requires i <= |inputs|
  {
    if i == 0 then 0 else ColumnsBefore(inputs, i - 1) + |inputs[i - 1].1.columns|
  }

  /** The offset of an input's first column is the width of the inputs before it. */
  lemma {:induction false} ColumnsBeforeShift(inputs: seq<(string, Model)>, i: nat)
    requires 1 <= i <= |inputs|
    ensures ColumnsBefore(inputs, i) == |inputs[0].1.columns| + ColumnsBefore(inputs[1..], i - 1)
  {
    if i > 1 {
      ColumnsBeforeShift(inputs, i - 1);
    }
  }

  /**
   * A wildcard yields one column per input model per column, in FROM order then
   * column order: column `j` of input `i` sits at the width of the earlier inputs
   * plus `j`, keeps its name and type, and is sourced from that model's column.
   */
  lemma {:induction false} WildcardLayout(inputs: seq<(string, Model)>, i: nat, j: nat)
    requires i < |inputs| && j < |inputs[i].1.columns|
    ensures |WildcardColumns(inputs)| == ColumnsBefore(inputs, |inputs|)
    ensures ColumnsBefore(inputs, i) + j < |WildcardColumns(inputs)|
    ensures var c := inputs[i].1.columns[j];
            WildcardColumns(inputs)[ColumnsBefore(inputs, i) + j] ==
              Column(c.name, c.tipe, Single(ModelReference(inputs[i].0, c.name)))
  {
    WildcardWidth(inputs);
    WildcardWidth(inputs[1..]);
    ColumnsBeforeShift(inputs, |inputs|);
    if i > 0 {
      WildcardLayout(inputs[1..], i - 1, j);
      ColumnsBeforeShift(inputs, i);
    }
  }

  /** The wildcard's width is the total width of the inputs. */
  lemma {:induction false} WildcardWidth(inputs: seq<(string, Model)>)
    ensures |WildcardColumns(inputs)| == ColumnsBefore(inputs, |inputs|)
  {
    if inputs != [] {
      WildcardWidth(inputs[1..]);
      ColumnsBeforeShift(inputs, |inputs|);
    }
  }

  /** One projection item. */
  function ProjectItem(item: SelectItem, inputs: seq<(string, Model)>): (r: Result<seq<Column>, ValidationError>)
    ensures !item.Wildcard? && r.Ok? ==> |r.value| == 1
    ensures item.UnnamedExpr? && r.Ok? ==> item.expr.Identifier? && r.value[0].name == item.expr.ident
    ensures item.ExprWithAlias? && r.Ok? ==> r.value[0].name == item.alias
    ensures item.ExprWithAlias? && !item.expr.Identifier? ==> r.Ok? && r.value[0].source == UnknownSource
    ensures item.QualifiedWildcard? ==> r.Err?
    ensures item.Wildcard? ==> r == Ok(WildcardColumns(inputs))
  {
    match item
    case UnnamedExpr(Identifier(ident)) =>
      GetInputColumnSpec(inputs, ident);
      (match GetInputColumn(inputs, ident)
       case Some(found) => Ok([IdentifierColumn(found, found.0.name)])
       case None => Err(NoSuchColumn(ident)))
    case UnnamedExpr(_) => Err(UnsupportedExpression)
    case ExprWithAlias(Identifier(ident), alias) =>
      (match GetInputColumn(inputs, ident)
       case Some(found) => Ok([IdentifierColumn(found, alias)])
       case None => Err(NoSuchColumn(ident)))
    case ExprWithAlias(_, alias) => Ok([Column(alias, UnknownType, UnknownSource)])
    case QualifiedWildcard(_) => Err(UnsupportedQualifiedWildcard)
    case Wildcard => Ok(WildcardColumns(inputs))
  }

  /**
   * A bare identifier keeps its own name, takes the type of the first input column
   * of that name and is sourced from that column of the first input model having it.
   */
  lemma BareIdentifierResolves(ident: string, inputs: seq<(string, Model)>, i: nat, j: nat)
    requires i < |inputs| && j < |inputs[i].1.columns| && inputs[i].1.columns[j].name == ident
    requires forall k :: 0 <= k < i ==> FirstColumnNamed(inputs[k].1.columns, ident).None?
    requires forall k :: 0 <= k < j ==> inputs[i].1.columns[k].name != ident
    ensures ProjectItem(UnnamedExpr(Identifier(ident)), inputs) ==
              Ok([Column(ident, inputs[i].1.columns[j].tipe, Single(ModelReference(inputs[i].0, ident)))])
  {
    var c := FirstColumnNamed(inputs[i].1.columns, ident);
    assert c == Some(inputs[i].1.columns[j]) by {
      FirstColumnIsFirstMatch(inputs[i].1.columns, ident, j);
    }
    GetInputColumnAt(inputs, ident, i);
  }

  /**
   * An aliased identifier resolves like a bare one (first input model, first column
   * of that name) but takes the alias as its name.
   */
  lemma AliasedIdentifierResolves(ident: string, alias: string, inputs: seq<(string, Model)>, i: nat, j: nat)
    requires i < |inputs| && j < |inputs[i].1.columns| && inputs[i].1.columns[j].name == ident
    requires forall k :: 0 <= k < i ==> FirstColumnNamed(inputs[k].1.columns, ident).None?
    requires forall k :: 0 <= k < j ==> inputs[i].1.columns[k].name != ident
    ensures ProjectItem(ExprWithAlias(Identifier(ident), alias), inputs) ==
              Ok([Column(alias, inputs[i].1.columns[j].tipe, Single(ModelReference(inputs[i].0, ident)))])
  {
    FirstColumnIsFirstMatch(inputs[i].1.columns, ident, j);
    GetInputColumnAt(inputs, ident, i);
  }

  /** An identifier no input model has is an error naming it, with or without an alias. */
  lemma UnknownIdentifierFails(ident: string, alias: string, inputs: seq<(string, Model)>)
    requires forall i, j :: 0 <= i < |inputs| && 0 <= j < |inputs[i].1.columns| ==> inputs[i].1.columns[j].name != ident
    ensures ProjectItem(UnnamedExpr(Identifier(ident)), inputs) == Err(NoSuchColumn(ident))
    ensures ProjectItem(ExprWithAlias(Identifier(ident), alias), inputs) == Err(NoSuchColumn(ident))
  {
    GetInputColumnSpec(inputs, ident);
  }

  /** The first column of a name is the one at the first index that has it. */
  lemma {:induction false} FirstColumnIsFirstMatch(columns: seq<Column>, name: string, j: nat)
    requires j < |columns| && columns[j].name == name
    requires forall k :: 0 <= k < j ==> columns[k].name != name
    ensures FirstColumnNamed(columns, name) == Some(columns[j])
  {
    if j > 0 {
      FirstColumnIsFirstMatch(columns[1..], name, j - 1);
    }
  }

  /** The column lookup over the inputs stops at the first input model that has the name. */
  lemma {:induction false} GetInputColumnAt(inputs: seq<(string, Model)>, name: string, i: nat)
    requires i < |inputs| && FirstColumnNamed(inputs[i].1.columns, name).Some?
    requires forall k :: 0 <= k < i ==> FirstColumnNamed(inputs[k].1.columns, name).None?
    ensures GetInputColumn(inputs, name) == Some((FirstColumnNamed(inputs[i].1.columns, name).value, inputs[i].0))
  {
    if i > 0 {
      GetInputColumnAt(inputs[1..], name, i - 1);
    }
  }

  /** The `flat_map` over the projection: the items' columns in order; the first failing item decides. */
  function ProjectItems(items: seq<SelectItem>, inputs: seq<(string, Model)>): (r: Result<seq<Column>, ValidationError>)
  {
    if items == [] then Ok([])
    else
      var first := ProjectItem(items[0], inputs);
      var rest := ProjectItems(items[1..], inputs);
      if first.Err? then first
      else if rest.Err? then rest
      else Ok(first.value + rest.value)
  }

  /** A projection succeeds exactly when every item does. */
  lemma {:induction false} ProjectItemsOk(items: seq<SelectItem>, inputs: seq<(string, Model)>)
    ensures ProjectItems(items, inputs).Ok? <==> forall i :: 0 <= i < |items| ==> ProjectItem(items[i], inputs).Ok?
  {
    if items != [] {
      ProjectItemsOk(items[1..], inputs);
      assert forall i :: 1 <= i < |items| ==> items[i] == items[1..][i - 1];
    }
  }

  /** A failing projection fails with the error of its first failing item. */
  lemma {:induction false} ProjectItemsFirstError(items: seq<SelectItem>, inputs: seq<(string, Model)>, i: nat)
    requires i < |items| && ProjectItem(items[i], inputs).Err?
    requires forall k :: 0 <= k < i ==> ProjectItem(items[k], inputs).Ok?
    ensures ProjectItems(items, inputs) == ProjectItem(items[i], inputs)
  {
    if i > 0 {
      assert forall k :: 0 <= k < i - 1 ==> items[1..][k] == items[k + 1];
      ProjectItemsFirstError(items[1..], inputs, i - 1);
    }
  }

  /** Output columns keep projection order: the items' columns, item after item. */
  lemma {:induction false} ProjectItemsAppend(items: seq<SelectItem>, more: seq<SelectItem>, inputs: seq<(string, Model)>)
    requires ProjectItems(items, inputs).Ok? && ProjectItems(more, inputs).Ok?
    ensures ProjectItems(items + more, inputs) ==
              Ok(ProjectItems(items, inputs).value + ProjectItems(more, inputs).value)
  {
    if items == [] {
      assert items + more == more;
      assert ProjectItems(items, inputs).value + ProjectItems(more, inputs).value == ProjectItems(more, inputs).value;
    } else {
      var rest := items[1..];
      assert (items + more)[0] == items[0] && (items + more)[1..] == rest + more;
      ProjectItemsAppend(rest, more, inputs);
      var first := ProjectItem(items[0], inputs);
      var a, b, c := first.value, ProjectItems(rest, inputs).value, ProjectItems(more, inputs).value;
      assert ProjectItems(items, inputs) == Ok(a + b);
      assert ProjectItems(items + more, inputs) == Ok(a + (b + c));
      assert a + (b + c) == (a + b) + c;
    }
  }

  /** `validate_select`: resolve the inputs, then the projection against them. */
  function ValidateSelect(select: Select, scope: Scope): (r: Result<Model, ValidationError>)
    ensures r.Ok? <==> ResolveInputs(select.from, scope).Ok? &&
                       ProjectItems(select.projection, ResolveInputs(select.from, scope).value).Ok?
    ensures r.Ok? ==> r.value.columns == ProjectItems(select.projection, ResolveInputs(select.from, scope).value).value
    ensures ResolveInputs(select.from, scope).Err? ==> r == Err(ResolveInputs(select.from, scope).error)
    ensures ResolveInputs(select.from, scope).Ok? && ProjectItems(select.projection, ResolveInputs(select.from, scope).value).Err? ==>
              r == Err(ProjectItems(select.projection, ResolveInputs(select.from, scope).value).error)
  {
    var inputs :- ResolveInputs(select.from, scope);
    var columns :- ProjectItems(select.projection, inputs);
    Ok(Model(columns))
  }

  /** A select whose FROM item `i` is the first that fails to resolve fails with that item's error. */
  lemma SelectFirstBadInput(select: Select, scope: Scope, i: nat)
    requires i < |select.from| && ResolveTable(select.from[i], scope).Err?
    requires forall k :: 0 <= k < i ==> ResolveTable(select.from[k], scope).Ok?
    ensures ValidateSelect(select, scope) == Err(ResolveTable(select.from[i], scope).error)
  {
    ResolveInputsSpec(select.from, scope);
    var r := ResolveInputs(select.from, scope);
    var i' :| 0 <= i' < |select.from| && ResolveTable(select.from[i'], scope).Err? &&
              r.error == ResolveTable(select.from[i'], scope).error &&
              forall k :: 0 <= k < i' ==> ResolveTable(select.from[k], scope).Ok?;
    assert i' == i;
  }

  /** `select * from t`: the columns of `t` as found in scope, each sourced from `t`. */
  lemma SelectStarFromTable(t: string, scope: Scope, m: Model)
    requires Lookup(scope, t) == Some(m)
    ensures ValidateSelect(Select([TableWithJoins(Table(t), [])], [Wildcard]), scope) ==
              Ok(Model(StarColumns(t, m.columns)))
  {
    SingleTableInputs(t, scope, m);
    var inputs := [(t, m)];
    assert WildcardColumns(inputs) == StarColumns(t, m.columns) + WildcardColumns([]);
    assert [Wildcard][1..] == [];
    assert ProjectItems([], inputs) == Ok([]);
    assert ProjectItem(Wildcard, inputs) == Ok(WildcardColumns(inputs));
    assert ProjectItems([Wildcard], inputs) == Ok(WildcardColumns(inputs) + []);
    assert WildcardColumns(inputs) + [] == StarColumns(t, m.columns);
  }

  /** A single FROM table resolves to the model its name denotes. */
  lemma SingleTableInputs(t: string, scope: Scope, m: Model)
    requires Lookup(scope, t) == Some(m)
    ensures ResolveInputs([TableWithJoins(Table(t), [])], scope) == Ok([(t, m)])
  {
    var from := [TableWithJoins(Table(t), [])];
    assert from[1..] == [];
    assert ResolveTable(from[0], scope) == Ok((t, m));
    assert [(t, m)] + [] == [(t, m)];
  }

  /** `select c from t`: one column named `c`, with the type of `t.c`, sourced from `t.c`. */
  lemma SelectColumnFromTable(t: string, c: string, scope: Scope, m: Model, col: Column)
    requires Lookup(scope, t) == Some(m) && FirstColumnNamed(m.columns, c) == Some(col)
    ensures ValidateSelect(Select([TableWithJoins(Table(t), [])], [UnnamedExpr(Identifier(c))]), scope) ==
              Ok(Model([Column(c, col.tipe, Single(ModelReference(t, c)))]))
  {
    SingleTableInputs(t, scope, m);
    var items := [UnnamedExpr(Identifier(c))];
    var inputs := [(t, m)];
    var out := Column(c, col.tipe, Single(ModelReference(t, c)));
    assert items[1..] == [];
    assert ProjectItems([], inputs) == Ok([]);
    assert GetInputColumn(inputs, c) == Some((col, t));
    assert ProjectItem(items[0], inputs) == Ok([out]);
    assert ProjectItems(items, inputs) == Ok([out] + []);
    assert [out] + [] == [out];
  }

  // ---------------------------------------------------------------------------
  // validate_set_expr

  /** The column a UNION produces for a left column: its name and type, sourced from both sides. */
  function UnionColumn(x: Column): Column
  {
    Column(x.name, x.tipe, Disjoint([Single(ModelReference("left", x.name)), Single(ModelReference("right", x.name))]))
  }

  function UnionColumns(columns: seq<Column>): (r: seq<Column>)
    ensures |r| == |columns|
    ensures forall i :: 0 <= i < |columns| ==> r[i] == UnionColumn(columns[i])
  {
    if columns == [] then [] else [UnionColumn(columns[0])] + UnionColumns(columns[1..])
  }

  /**
   * `validate_set_expr`: a select is resolved; a UNION resolves both sides in the
   * same scope, requires them to match in shape and keeps the left side's names
   * and types with a disjoint source; every other body is unsupported.
   */
  function ValidateSetExpr(e: SetExpr, scope: Scope): (r: Result<Model, ValidationError>)
    decreases e
    ensures e.SelectExpr? ==> r == ValidateSelect(e.select, scope)
    ensures e.SetOperation? && e.op != Union ==> r == Err(UnsupportedSetOperator(e.op))
    ensures e.OtherSetExpr? ==> r == Err(NotASelect)
    ensures e.SetOperation? && e.op == Union && r.Ok? ==>
              && ValidateSetExpr(e.left, scope).Ok?
              && ValidateSetExpr(e.right, scope).Ok?
              && TypesMatch(ValidateSetExpr(e.left, scope).value, ValidateSetExpr(e.right, scope).value)
              && r.value.columns == UnionColumns(ValidateSetExpr(e.left, scope).value.columns)
  {
    match e
    case SelectExpr(select) => ValidateSelect(select, scope)
    case SetOperation(op, left, right) =>
      if op != Union then Err(UnsupportedSetOperator(op))
      else
        var leftModel :- ValidateSetExpr(left, scope);
        var rightModel :- ValidateSetExpr(right, scope);
        if !TypesMatch(leftModel, rightModel) then Err(TypeMismatch)
        else Ok(Model(UnionColumns(leftModel.columns)))
    case OtherSetExpr => Err(NotASelect)
  }

  /**
   * A UNION of two resolvable sides succeeds exactly when they have the same
   * number of columns; a mismatch is an error, not a truncated result.
   */
  lemma UnionArity(left: SetExpr, right: SetExpr, scope: Scope)
    requires ValidateSetExpr(left, scope).Ok? && ValidateSetExpr(right, scope).Ok?
    ensures var r := ValidateSetExpr(SetOperation(Union, left, right), scope);
            && (r.Ok? <==> |ValidateSetExpr(left, scope).value.columns| == |ValidateSetExpr(right, scope).value.columns|)
            && (r.Err? ==> r.error == TypeMismatch)
            && (r.Ok? ==> |r.value.columns| == |ValidateSetExpr(left, scope).value.columns|)
  {
    TypeMatchIsArity(ValidateSetExpr(left, scope).value, ValidateSetExpr(right, scope).value);
  }

  // ---------------------------------------------------------------------------
  // validate_query: CTE registration.

  /** The local map after registering the given CTE models in order (a later name overwrites). */
  function LocalMap(defs: seq<(string, Model)>): map<string, Model>
  {
    if defs == [] then map[] else LocalMap(defs[..|defs| - 1])[defs[|defs| - 1].0 := defs[|defs| - 1].1]
  }

  /** Every registered CTE name is a key of the local map. */
  lemma {:induction false} LocalMapKeys(defs: seq<(string, Model)>)
    ensures forall k :: 0 <= k < |defs| ==> defs[k].0 in LocalMap(defs)
  {
    if defs != [] {
      var init := defs[..|defs| - 1];
      LocalMapKeys(init);
      assert forall k :: 0 <= k < |init| ==> defs[k] == init[k];
    }
  }

  /** The CTE models in declaration order, each resolved against the outer scope and the CTEs before it. */
  function CteModels(ctes: seq<CteDef>, outer: Scope): (r: Result<seq<(string, Model)>, ValidationError>)
    ensures r.Ok? ==> |r.value| == |ctes|
  {
    if ctes == [] then Ok([])
    else
      var prev :- CteModels(ctes[..|ctes| - 1], outer);
      var m :- ValidateSetExpr(ctes[|ctes| - 1].body, [LocalMap(prev)] + outer);
      Ok(prev + [(ctes[|ctes| - 1].alias, m)])
  }

  /** On success the models are named by the CTE aliases, in declaration order. */
  lemma {:induction false} CteModelsNamed(ctes: seq<CteDef>, outer: Scope)
    requires CteModels(ctes, outer).Ok?
    ensures forall k :: 0 <= k < |ctes| ==> CteModels(ctes, outer).value[k].0 == ctes[k].alias
  {
    if ctes != [] {
      var n := |ctes| - 1;
      CteModelsNamed(ctes[..n], outer);
      forall k | 0 <= k < |ctes|
        ensures CteModels(ctes, outer).value[k].0 == ctes[k].alias
      {
        if k < n {
          assert ctes[..n][k] == ctes[k];
        }
      }
    }
  }

  /** Each CTE sees the outer scope and exactly the CTEs declared before it. */
  lemma {:induction false} CteSeesEarlierCtes(ctes: seq<CteDef>, outer: Scope, k: nat)
    requires CteModels(ctes, outer).Ok? && k < |ctes|
    ensures CteModels(ctes[..k], outer).Ok?
    ensures CteModels(ctes[..k], outer).value == CteModels(ctes, outer).value[..k]
    ensures ValidateSetExpr(ctes[k].body, [LocalMap(CteModels(ctes, outer).value[..k])] + outer) ==
              Ok(CteModels(ctes, outer).value[k].1)
  {
    var n := |ctes| - 1;
    assert ctes[..n + 1] == ctes;
    if k < n {
      CteSeesEarlierCtes(ctes[..n], outer, k);
      assert ctes[..n][..k] == ctes[..k];
      assert ctes[..n][k] == ctes[k];
    } else {
      assert ctes[..k] == ctes[..n];
    }
  }

  // ---------------------------------------------------------------------------
  // validate_query: the lineage walk as written.

  /** Where a lineage walk stops. */
  datatype WalkEnd =
    | Stopped(column: Column)                  // a source that is not `Single`, or one no layer defines
    | ColumnNotFound(reference: ModelReference) // the model is found but lacks the column
    | OutOfFuel                                // the walk had not stopped when the step budget ran out

  /**
   * The walk of lines 287-322: follow `Single` sources, each looked up in the
   * same (final) scope, until a source is not `Single` or names no model.
   * `fuel` bounds the number of steps; the source loop has no bound.
   */
  function WalkIn(scope: Scope, col: Column, fuel: nat): (r: WalkEnd)
    decreases fuel
    ensures r.Stopped? ==> !r.column.source.Single? || FollowIn(scope, r.column.source.reference).Unresolved?
    ensures r.ColumnNotFound? ==> FollowIn(scope, r.reference).MissingColumn?
  {
    if !col.source.Single? then Stopped(col)
    else
      match FollowIn(scope, col.source.reference)
      case Unresolved => Stopped(col)
      case MissingColumn => ColumnNotFound(col.source.reference)
      case Resolved(c, _) => if fuel == 0 then OutOfFuel else WalkIn(scope, c, fuel - 1)
  }

  /** A walk that stops within a budget stops at the same place with any larger budget. */
  lemma {:induction false} WalkFuelMonotone(scope: Scope, col: Column, fuel: nat, more: nat)
    requires fuel <= more && WalkIn(scope, col, fuel) != OutOfFuel
    decreases fuel
    ensures WalkIn(scope, col, more) == WalkIn(scope, col, fuel)
  {
    if col.source.Single? {
      match FollowIn(scope, col.source.reference)
      case Resolved(c, _) =>
        WalkFuelMonotone(scope, c, fuel - 1, more - 1);
      case _ =>
    }
  }

  /** The loop that reassigns `col_ref` until the source stops it. */
  method WalkLineage(context: Context, start: Column, fuel: nat) returns (r: WalkEnd)
    requires context.Valid()
    ensures r == WalkIn(context.Layers(), start, fuel)
  {
    var colRef := start;
    var budget := fuel;
    while true
      invariant WalkIn(context.Layers(), colRef, budget) == WalkIn(context.Layers(), start, fuel)
      decreases budget
    {
      if !colRef.source.Single? {
        return Stopped(colRef);
      }
      var found := context.FollowModelReference(colRef.source.reference);
      if found.Unresolved? {
        return Stopped(colRef);
      } else if found.MissingColumn? {
        return ColumnNotFound(colRef.source.reference);
      }
      if budget == 0 {
        return OutOfFuel;
      }
      colRef := found.column;
      budget := budget - 1;
    }
  }

  /** What `validate_query` computes: the CTEs, the body in their scope, and the walk of its first column. */
  function QueryLineage(query: Query, outer: Scope, fuel: nat): (r: Result<WalkEnd, ValidationError>)
  {
    var defs :- if query.withClause.Some? then CteModels(query.withClause.value, outer) else Ok([]);
    var output :- ValidateSetExpr(query.body, [LocalMap(defs)] + outer);
    if output.columns == [] then Err(EmptyOutput)
    else Ok(WalkIn([LocalMap(defs)] + outer, output.columns[0], fuel))
  }

  /**
   * The CTE loop of `validate_query`: each CTE is resolved against the context as
   * it stands and then registered in it, in declaration order; the first failure
   * stops the loop.
   */
  method RegisterCtes(context: Context, outer: Context, ctes: seq<CteDef>) returns (r: Result<(), ValidationError>)
    requires context.Valid() && context.parent == outer
    requires context.Layers() == [map[]] + outer.Layers()
    modifies context
    ensures context.Valid()
    ensures r.Ok? <==> CteModels(ctes, outer.Layers()).Ok?
    ensures r.Err? ==> r.error == CteModels(ctes, outer.Layers()).error
    ensures r.Ok? ==> context.Layers() == [LocalMap(CteModels(ctes, outer.Layers()).value)] + outer.Layers()
  {
    ghost var scope := outer.Layers();
    ghost var defs: seq<(string, Model)> := [];
    for i := 0 to |ctes|
      invariant context.Valid() && context.parent == outer
      invariant context.Layers() == [LocalMap(defs)] + scope
      invariant CteModels(ctes[..i], scope) == Ok(defs)
    {
      var cteModel := ValidateSetExpr(ctes[i].body, context.Layers());
      RegisterStep(ctes, scope, i, defs, cteModel);
      if cteModel.Err? {
        return Err(cteModel.error);
      }
      context.AddModel(ctes[i].alias, cteModel.value);
      defs := defs + [(ctes[i].alias, cteModel.value)];
    }
    assert ctes[..|ctes|] == ctes;
    return Ok(());
  }

  /** One turn of the CTE loop: a failing CTE fails the whole list, a resolved one is registered last. */
  lemma RegisterStep(ctes: seq<CteDef>, scope: Scope, i: nat, defs: seq<(string, Model)>, m: Result<Model, ValidationError>)
    requires i < |ctes| && CteModels(ctes[..i], scope) == Ok(defs)
    requires m == ValidateSetExpr(ctes[i].body, [LocalMap(defs)] + scope)
    ensures m.Err? ==> CteModels(ctes, scope) == Err(m.error)
    ensures m.Ok? ==> CteModels(ctes[..i + 1], scope) == Ok(defs + [(ctes[i].alias, m.value)])
    ensures m.Ok? ==> LocalMap(defs + [(ctes[i].alias, m.value)]) == LocalMap(defs)[ctes[i].alias := m.value]
  {
    CteModelsStep(ctes, scope, i, defs);
    if m.Err? {
      CtePrefixFails(ctes, scope, i + 1);
    } else {
      LocalMapSnoc(defs, ctes[i].alias, m.value);
    }
  }

  /**
   * `validate_query`: a fresh child context below `outer`; each CTE is resolved in
   * it and then registered, in declaration order; the body is resolved against all
   * of them and the lineage of its first output column is walked.
   */
  method ValidateQuery(query: Query, outer: Context, fuel: nat) returns (r: Result<WalkEnd, ValidationError>)
    requires outer.Valid()
    ensures r == QueryLineage(query, outer.Layers(), fuel)
  {
    var context := new Context(outer);
    ghost var defs: seq<(string, Model)> := [];
    if query.withClause.Some? {
      var registered := RegisterCtes(context, outer, query.withClause.value);
      if registered.Err? {
        return Err(registered.error);
      }
      defs := CteModels(query.withClause.value, outer.Layers()).value;
    }
    assert context.Layers() == [LocalMap(defs)] + outer.Layers();
    var output := ValidateSetExpr(query.body, context.Layers());
    if output.Err? {
      return Err(output.error);
    }
    if |output.value.columns| == 0 {
      return Err(EmptyOutput);
    }
    var end := WalkLineage(context, output.value.columns[0], fuel);
    return Ok(end);
  }

  /** Registering one more CTE: resolved against the earlier ones, then appended. */
  lemma CteModelsStep(ctes: seq<CteDef>, outer: Scope, i: nat, defs: seq<(string, Model)>)
    requires i < |ctes| && CteModels(ctes[..i], outer) == Ok(defs)
    ensures var m := ValidateSetExpr(ctes[i].body, [LocalMap(defs)] + outer);
            CteModels(ctes[..i + 1], outer) ==
              if m.Err? then Err(m.error) else Ok(defs + [(ctes[i].alias, m.value)])
  {
    assert ctes[..i + 1][..i] == ctes[..i];
    assert ctes[..i + 1][i] == ctes[i];
  }

  /** Registering a name last makes it map to its model. */
  lemma LocalMapSnoc(defs: seq<(string, Model)>, name: string, m: Model)
    ensures LocalMap(defs + [(name, m)]) == LocalMap(defs)[name := m]
  {
    assert (defs + [(name, m)])[..|defs|] == defs;
  }

  /** A CTE that fails makes the whole registration fail. */
  lemma {:induction false} CtePrefixFails(ctes: seq<CteDef>, outer: Scope, n: nat)
    requires n <= |ctes| && CteModels(ctes[..n], outer).Err?
    ensures CteModels(ctes, outer) == CteModels(ctes[..n], outer)
  {
    if n < |ctes| {
      var m := |ctes| - 1;
      assert ctes[..m][..n] == ctes[..n];
      CtePrefixFails(ctes[..m], outer, n);
      assert ctes[..m] == ctes[..|ctes| - 1];
    } else {
      assert ctes[..n] == ctes;
    }
  }

  // ---------------------------------------------------------------------------
  // The lineage walk with each reference resolved where it was made.

  /** Where the column being walked was produced: a CTE scope with `bound` CTEs visible, or the outer scope. */
  datatype Place = InLocal(bound: nat) | InOuter

  function PlaceRank(p: Place): nat
  {
    if p.InLocal? then p.bound + 1 else 0
  }

  /** The last of the first `bound` CTEs with the given name: the one the local map holds for it. */
  function LastCteNamed(defs: seq<(string, Model)>, bound: nat, name: string): (r: Option<nat>)
    requires bound <= |defs|
    ensures r.Some? ==> r.value < bound && defs[r.value].0 == name &&
                        forall k :: r.value < k < bound ==> defs[k].0 != name
    ensures r.None? ==> forall k :: 0 <= k < bound ==> defs[k].0 != name
  {
    if bound == 0 then None
    else if defs[bound - 1].0 == name then Some(bound - 1)
    else LastCteNamed(defs, bound - 1, name)
  }

  /** The local map of the first `bound` CTEs holds exactly the last CTE of each name. */
  lemma {:induction false} LocalMapIsLastCte(defs: seq<(string, Model)>, bound: nat, name: string)
    requires bound <= |defs|
    ensures name in LocalMap(defs[..bound]) <==> LastCteNamed(defs, bound, name).Some?
    ensures name in LocalMap(defs[..bound]) ==>
              LocalMap(defs[..bound])[name] == defs[LastCteNamed(defs, bound, name).value].1
  {
    if bound > 0 {
      assert defs[..bound][..bound - 1] == defs[..bound - 1];
      LocalMapIsLastCte(defs, bound - 1, name);
    }
  }

  /**
   * The corrected walk: a reference made inside the CTE scope with `bound` CTEs
   * visible is resolved among those CTEs (the last of its name), otherwise in the
   * outer scope; a reference made in the outer scope is resolved there. `fuel`
   * bounds only the steps from one outer model to another.
   */
  function ScopedWalk(defs: seq<(string, Model)>, outer: Scope, place: Place, col: Column, fuel: nat): (r: WalkEnd)
    requires place.InLocal? ==> place.bound <= |defs|
    decreases fuel, PlaceRank(place)
    ensures r.Stopped? ==> !r.column.source.Single? || FollowIn(outer, r.column.source.reference).Unresolved?
  {
    if !col.source.Single? then Stopped(col)
    else
      var ref := col.source.reference;
      var k := if place.InLocal? then LastCteNamed(defs, place.bound, ref.modelName) else None;
      if k.Some? then
        match FirstColumnNamed(defs[k.value].1.columns, ref.columnName)
        case None => ColumnNotFound(ref)
        case Some(c) => ScopedWalk(defs, outer, InLocal(k.value), c, fuel)
      else
        match FollowIn(outer, ref)
        case Unresolved => Stopped(col)
        case MissingColumn => ColumnNotFound(ref)
        case Resolved(c, _) =>
          if place.InLocal? then ScopedWalk(defs, outer, InOuter, c, fuel)
          else if fuel == 0 then OutOfFuel
          else ScopedWalk(defs, outer, InOuter, c, fuel - 1)
  }

  /** `validate_query` with the corrected walk: the body's columns were made with every CTE visible. */
  function ScopedLineage(query: Query, outer: Scope, fuel: nat): (r: Result<WalkEnd, ValidationError>)
    ensures r.Ok? <==> QueryLineage(query, outer, fuel).Ok?
    ensures r.Err? ==> r == QueryLineage(query, outer, fuel)
  {
    var defs :- if query.withClause.Some? then CteModels(query.withClause.value, outer) else Ok([]);
    var output :- ValidateSetExpr(query.body, [LocalMap(defs)] + outer);
    if output.columns == [] then Err(EmptyOutput)
    else Ok(ScopedWalk(defs, outer, InLocal(|defs|), output.columns[0], fuel))
  }

  /** No column of any outer model is copied from another model. */
  predicate OuterIsGiven(outer: Scope)
  {
    forall i, name :: 0 <= i < |outer| && name in outer[i] ==>
      forall j :: 0 <= j < |outer[i][name].columns| ==> !outer[i][name].columns[j].source.Single?
  }

  /** Over given outer models the corrected walk always stops, whatever the budget. */
  lemma {:induction false} ScopedWalkStops(defs: seq<(string, Model)>, outer: Scope, place: Place, col: Column, fuel: nat)
    requires place.InLocal? ==> place.bound <= |defs|
    requires OuterIsGiven(outer)
    requires place.InOuter? ==> !col.source.Single?
    decreases PlaceRank(place)
    ensures ScopedWalk(defs, outer, place, col, fuel) != OutOfFuel
  {
    if col.source.Single? {
      var ref := col.source.reference;
      var k := LastCteNamed(defs, place.bound, ref.modelName);
      if k.Some? {
        var c := FirstColumnNamed(defs[k.value].1.columns, ref.columnName);
        if c.Some? {
          ScopedWalkStops(defs, outer, InLocal(k.value), c.value, fuel);
        }
      } else {
        var f := FollowIn(outer, ref);
        if f.Resolved? {
          LookupSpec(outer, ref.modelName);
          FollowInSpec(outer, ref);
          var m := Lookup(outer, ref.modelName);
          var i :| 0 <= i < |outer| && ref.modelName in outer[i] && m.value == outer[i][ref.modelName] &&
                   forall j :: 0 <= j < i ==> ref.modelName !in outer[j];
          var j :| 0 <= j < |f.model.columns| && f.model.columns[j] == f.column;
          assert !f.column.source.Single?;
          ScopedWalkStops(defs, outer, InOuter, f.column, fuel);
        }
      }
    }
  }

  /** When the outer models are given, the corrected query walk never runs out of budget. */
  lemma ScopedLineageStops(query: Query, outer: Scope, fuel: nat)
    requires OuterIsGiven(outer)
    ensures ScopedLineage(query, outer, fuel) != Ok(OutOfFuel)
  {
    var defs := if query.withClause.Some? then CteModels(query.withClause.value, outer) else Ok([]);
    if defs.Ok? {
      var output := ValidateSetExpr(query.body, [LocalMap(defs.value)] + outer);
      if output.Ok? && output.value.columns != [] {
        ScopedWalkStops(defs.value, outer, InLocal(|defs.value|), output.value.columns[0], fuel);
      }
    }
  }

  // ---------------------------------------------------------------------------
  // A CTE that shadows the model it reads.

  /** The outer scope of the example: a given model `orders` with one column `id`. */
  function OrdersScope(): Scope
  {
    [map["orders" := Model([Column("id", UnknownType, NoSource)])]]
  }

  /** `select id from <table>`. */
  function SelectIdFrom(table: string): SetExpr
  {
    SelectExpr(Select([TableWithJoins(Table(table), [])], [UnnamedExpr(Identifier("id"))]))
  }

  /** `with orders as (select id from orders) select id from orders`. */
  function ShadowingQuery(): Query
  {
    Query(Some([CteDef("orders", SelectIdFrom("orders"))]), SelectIdFrom("orders"))
  }

  /** The CTE `orders` of the example: one column `id` copied from `orders.id`, i.e. from itself once registered. */
  lemma ShadowingCteModel()
    ensures CteModels(ShadowingQuery().withClause.value, OrdersScope()) ==
              Ok([("orders", Model([Column("id", UnknownType, Single(ModelReference("orders", "id")))]))])
  {
    var ctes := ShadowingQuery().withClause.value;
    assert ctes[..0] == [] && ctes[..1] == ctes;
    var given := Column("id", UnknownType, NoSource);
    var scope := [LocalMap([])] + OrdersScope();
    assert Lookup(scope, "orders") == Some(Model([given]));
    assert FirstColumnNamed([given], "id") == Some(given);
    SelectColumnFromTable("orders", "id", scope, Model([given]), given);
    var col := Column("id", UnknownType, Single(ModelReference("orders", "id")));
    assert ValidateSetExpr(ctes[0].body, scope) == Ok(Model([col]));
    CteModelsStep(ctes, OrdersScope(), 0, []);
    assert CteModels(ctes[..1], OrdersScope()) == Ok([] + [("orders", Model([col]))]);
    assert [] + [("orders", Model([col]))] == [("orders", Model([col]))];
  }

  /** Walking a self-referencing column in the final scope never stops. */
  lemma {:induction false} SelfReferenceNeverStops(scope: Scope, col: Column, fuel: nat)
    requires col.source.Single? && FollowIn(scope, col.source.reference).Resolved? &&
             FollowIn(scope, col.source.reference).column == col
    ensures WalkIn(scope, col, fuel) == OutOfFuel
  {
    if fuel > 0 {
      SelfReferenceNeverStops(scope, col, fuel - 1);
    }
  }

  /** In the final scope of the example, `orders` is the CTE and its `id` is copied from `orders.id`. */
  lemma ShadowingBody()
    ensures var col := Column("id", UnknownType, Single(ModelReference("orders", "id")));
            var scope := [LocalMap([("orders", Model([col]))])] + OrdersScope();
            && ValidateSetExpr(SelectIdFrom("orders"), scope) == Ok(Model([col]))
            && FollowIn(scope, ModelReference("orders", "id")) == Resolved(col, Model([col]))
  {
    var col := Column("id", UnknownType, Single(ModelReference("orders", "id")));
    var cte := Model([col]);
    var scope := [LocalMap([("orders", cte)])] + OrdersScope();
    LocalMapSnoc([], "orders", cte);
    assert [] + [("orders", cte)] == [("orders", cte)];
    assert Lookup(scope, "orders") == Some(cte);
    assert FirstColumnNamed(cte.columns, "id") == Some(col);
    SelectColumnFromTable("orders", "id", scope, cte, col);
  }

  /**
   * As written, the walk of the example never stops: the body's `id` refers to the
   * CTE `orders`, whose `id` refers to `orders`, which the final scope again
   * resolves to the CTE.
   */
  lemma ShadowingCteNeverStops(fuel: nat)
    ensures QueryLineage(ShadowingQuery(), OrdersScope(), fuel) == Ok(OutOfFuel)
  {
    ShadowingCteModel();
    ShadowingBody();
    var col := Column("id", UnknownType, Single(ModelReference("orders", "id")));
    var scope := [LocalMap([("orders", Model([col]))])] + OrdersScope();
    SelfReferenceNeverStops(scope, col, fuel);
  }

  /** With each reference resolved where it was made, the example reaches the outer `orders.id`. */
  lemma ShadowingCteScopedStops(fuel: nat)
    ensures ScopedLineage(ShadowingQuery(), OrdersScope(), fuel) == Ok(Stopped(Column("id", UnknownType, NoSource)))
  {
    ShadowingCteModel();
    ShadowingBody();
    var col := Column("id", UnknownType, Single(ModelReference("orders", "id")));
    var defs := [("orders", Model([col]))];
    var given := Column("id", UnknownType, NoSource);
    assert LastCteNamed(defs, 1, "orders") == Some(0);
    assert LastCteNamed(defs, 0, "orders") == None;
    assert Lookup(OrdersScope(), "orders") == Some(Model([given]));
    assert FirstColumnNamed([given], "id") == Some(given);
    assert FollowIn(OrdersScope(), ModelReference("orders", "id")) == Resolved(given, Model([given]));
    assert ScopedWalk(defs, OrdersScope(), InOuter, given, fuel) == Stopped(given);
    assert ScopedWalk(defs, OrdersScope(), InLocal(0), col, fuel) == Stopped(given);
    assert ScopedWalk(defs, OrdersScope(), InLocal(1), col, fuel) == Stopped(given);
  }

  // ---------------------------------------------------------------------------
  // End-to-end scenarios.

  /** `select 1 as x`: one column `x` of unknown provenance, whatever the outer scope. */
  lemma LiteralSelectScenario(outer: Scope, fuel: nat)
    ensures QueryLineage(Query(None, SelectExpr(Select([], [ExprWithAlias(OtherExpr("1"), "x")]))), outer, fuel) ==
              Ok(Stopped(Column("x", UnknownType, UnknownSource)))
  {
    var x := Column("x", UnknownType, UnknownSource);
    var items := [ExprWithAlias(OtherExpr("1"), "x")];
    assert items[1..] == [];
    assert ProjectItems([], []) == Ok([]);
    assert ProjectItems(items, []) == Ok([x] + []);
    assert [x] + [] == [x];
  }

  /** The outer scope of the chain scenario: a given model `t` with one column `id`. */
  function TScope(): Scope
  {
    [map["t" := Model([Column("id", UnknownType, NoSource)])]]
  }

  /** `with a as (select id from t), b as (select id from a) select * from b`. */
  function ChainQuery(): Query
  {
    Query(Some([CteDef("a", SelectIdFrom("t")), CteDef("b", SelectIdFrom("a"))]),
          SelectExpr(Select([TableWithJoins(Table("b"), [])], [Wildcard])))
  }

  /** The first CTE of the chain: `a.id` is copied from `t.id`. */
  lemma ChainFirstCte()
    ensures CteModels(ChainQuery().withClause.value[..1], TScope()) ==
              Ok([("a", Model([Column("id", UnknownType, Single(ModelReference("t", "id")))]))])
  {
    var ctes := ChainQuery().withClause.value;
    assert ctes[..0] == [];
    var tid := Column("id", UnknownType, NoSource);
    var aid := Column("id", UnknownType, Single(ModelReference("t", "id")));
    var scope0 := [LocalMap([])] + TScope();
    assert Lookup(scope0, "t") == Some(Model([tid]));
    assert FirstColumnNamed([tid], "id") == Some(tid);
    SelectColumnFromTable("t", "id", scope0, Model([tid]), tid);
    assert ValidateSetExpr(ctes[0].body, scope0) == Ok(Model([aid]));
    CteModelsStep(ctes, TScope(), 0, []);
    assert [] + [("a", Model([aid]))] == [("a", Model([aid]))];
  }

  /** The CTEs of the chain: `a.id` is copied from `t.id`, `b.id` from `a.id`. */
  lemma ChainCteModels()
    ensures CteModels(ChainQuery().withClause.value, TScope()) ==
              Ok([("a", Model([Column("id", UnknownType, Single(ModelReference("t", "id")))])),
                  ("b", Model([Column("id", UnknownType, Single(ModelReference("a", "id")))]))])
  {
    var ctes := ChainQuery().withClause.value;
    var aid := Column("id", UnknownType, Single(ModelReference("t", "id")));
    var bid := Column("id", UnknownType, Single(ModelReference("a", "id")));
    ChainFirstCte();
    var scope1 := [LocalMap([("a", Model([aid]))])] + TScope();
    LocalMapSnoc([], "a", Model([aid]));
    assert [] + [("a", Model([aid]))] == [("a", Model([aid]))];
    assert Lookup(scope1, "a") == Some(Model([aid]));
    assert FirstColumnNamed([aid], "id") == Some(aid);
    SelectColumnFromTable("a", "id", scope1, Model([aid]), aid);
    assert ValidateSetExpr(ctes[1].body, scope1) == Ok(Model([bid]));
    CteModelsStep(ctes, TScope(), 1, [("a", Model([aid]))]);
    assert [("a", Model([aid]))] + [("b", Model([bid]))] == [("a", Model([aid])), ("b", Model([bid]))];
    assert ctes[..2] == ctes;
  }

  /**
   * The chain scenario: the body is `b{id}` sourced from `b.id`, and the walk of
   * that column ends at the given column `t.id`, taking three steps as written and
   * no outer-to-outer step when each reference is resolved where it was made.
   */
  lemma ChainScenario(fuel: nat)
    ensures var defs := [("a", Model([Column("id", UnknownType, Single(ModelReference("t", "id")))])),
                         ("b", Model([Column("id", UnknownType, Single(ModelReference("a", "id")))]))];
            ValidateSetExpr(ChainQuery().body, [LocalMap(defs)] + TScope()) ==
              Ok(Model([Column("id", UnknownType, Single(ModelReference("b", "id")))]))
    ensures fuel >= 3 ==> QueryLineage(ChainQuery(), TScope(), fuel) == Ok(Stopped(Column("id", UnknownType, NoSource)))
    ensures ScopedLineage(ChainQuery(), TScope(), fuel) == Ok(Stopped(Column("id", UnknownType, NoSource)))
  {
    ChainCteModels();
    var tid := Column("id", UnknownType, NoSource);
    var aid := Column("id", UnknownType, Single(ModelReference("t", "id")));
    var bid := Column("id", UnknownType, Single(ModelReference("a", "id")));
    var out := Column("id", UnknownType, Single(ModelReference("b", "id")));
    var defs := [("a", Model([aid])), ("b", Model([bid]))];
    var scope := [LocalMap(defs)] + TScope();
    LocalMapSnoc([], "a", Model([aid]));
    assert [] + [("a", Model([aid]))] == [("a", Model([aid]))];
    LocalMapSnoc([("a", Model([aid]))], "b", Model([bid]));
    assert LocalMap(defs) == map["a" := Model([aid]), "b" := Model([bid])];
    assert Lookup(scope, "b") == Some(Model([bid]));
    SelectStarFromTable("b", scope, Model([bid]));
    assert StarColumns("b", [bid]) == [out];
    assert Lookup(scope, "a") == Some(Model([aid]));
    assert Lookup(scope, "t") == Some(Model([tid]));
    assert FollowIn(scope, ModelReference("b", "id")) == Resolved(bid, Model([bid]));
    assert FollowIn(scope, ModelReference("a", "id")) == Resolved(aid, Model([aid]));
    assert FollowIn(scope, ModelReference("t", "id")) == Resolved(tid, Model([tid]));
    if fuel >= 3 {
      assert WalkIn(scope, tid, fuel - 3) == Stopped(tid);
      assert WalkIn(scope, aid, fuel - 2) == Stopped(tid);
      assert WalkIn(scope, bid, fuel - 1) == Stopped(tid);
      assert WalkIn(scope, out, fuel) == Stopped(tid);
    }
    assert Lookup(TScope(), "t") == Some(Model([tid]));
    assert FollowIn(TScope(), ModelReference("t", "id")) == Resolved(tid, Model([tid]));
    assert LastCteNamed(defs, 2, "b") == Some(1);
    assert LastCteNamed(defs, 1, "a") == Some(0);
    assert LastCteNamed(defs, 0, "t") == None;
    assert ScopedWalk(defs, TScope(), InOuter, tid, fuel) == Stopped(tid);
    assert ScopedWalk(defs, TScope(), InLocal(0), aid, fuel) == Stopped(tid);
    assert ScopedWalk(defs, TScope(), InLocal(1), bid, fuel) == Stopped(tid);
    assert ScopedWalk(defs, TScope(), InLocal(2), out, fuel) == Stopped(tid);
  }

  /** A CTE cannot read a CTE declared after it: `with a as (select id from b), b as (...)` fails on `b`. */
  lemma ForwardReferenceFails(fuel: nat)
    ensures QueryLineage(Query(Some([CteDef("a", SelectIdFrom("b")), CteDef("b", SelectIdFrom("t"))]), SelectIdFrom("a")),
                         TScope(), fuel) == Err(MissingModel("b"))
  {
    var ctes := [CteDef("a", SelectIdFrom("b")), CteDef("b", SelectIdFrom("t"))];
    var scope0 := [LocalMap([])] + TScope();
    assert ctes[..0] == [];
    assert Lookup(scope0, "b") == None;
    var from := [TableWithJoins(Table("b"), [])];
    assert ResolveTable(from[0], scope0) == Err(MissingModel("b"));
    assert ResolveInputs(from, scope0) == Err(MissingModel("b"));
    assert ValidateSetExpr(ctes[0].body, scope0) == Err(MissingModel("b"));
    CteModelsStep(ctes, TScope(), 0, []);
    CtePrefixFails(ctes, TScope(), 1);
  }
}
