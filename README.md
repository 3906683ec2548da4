# dbt-lsp core: template rendering, SQL structure and column lineage

This project is a Dafny model of the analysis pipeline in `dbt-lsp`, a language server for dbt projects. dbt projects are SQL files with Jinja templates. The pipeline has three stages:

1. **Template renderer and position map** (`jinja_parser.dfy`, module `Jinja`).
   - The top-level Jinja parse tree of a model file is rendered to plain SQL:
     - `not_jinja` text is copied verbatim;
     - `{{ ref('x') }}` becomes ` x `;
     - any other construct renders to nothing;
     - an `expr_unknown` node anywhere rejects the file.
   - While rendering, one segment is recorded per emitted piece: source span, output span, and kind `Jinja` or `Sql`.
   - `JinjaParser` is a class whose `RenderJinja` method fills `outString` and `snippets`. `Translate` maps an output offset back to a source offset.
   - The proved properties:
     - the output is the concatenation of the rendered pieces;
     - output spans are contiguous;
     - a rejected render changes nothing;
     - the affine law inside Sql segments;
     - collapse to the template start inside Jinja segments;
     - boundary offsets are never mapped;
     - translation is monotone.
2. **SQL structure extraction and error-location translation** (`parser.dfy`, module `SqlParser`).
   - The SQL parse tree is a `Node(rule, text, span, inner)` tree.
   - Aliases are inferred for select-list items.
   - Column sets and the CTE list of a query are extracted.
   - `ParseSql` turns an error position or span in the rendered SQL into a source location through `Translate`, or into `Unknown`.
3. **Scope chain and column lineage** (`validation.dfy`, module `Validation`).
   - `Context` is a parent-linked chain of name→model maps, modelled as a class with a ghost `Repr`.
   - A reduced SQL AST holds only the shapes the resolver matches on.
   - `ValidateSelect` and `ValidateSetExpr` compute the output model of a SELECT or a UNION.
   - `ValidateQuery` registers the CTEs of a query one by one in a child context, resolves the body, and walks the lineage of the first output column through `Single` sources.

`common.dfy` (module `Common`) holds `Option`, `Result`, `Span` and string concatenation.

The pest grammars and the `sqlparser` crate are not part of this model. Their results enter the model as values:
- `GrammarOutcome` is either the Jinja parse forest or a grammar error.
- `SqlGrammarOutcome` is a SQL tree, an error at a position, or an error at a span.
- `Query` is the parsed statement.

Every `todo!()`, `unwrap()` and `panic!` of the source becomes one of two things:
- an explicit error value (`JinjaError`, `ValidationError`, `Unresolved`/`MissingColumn`);
- a shape precondition, where the grammar guarantees the tree shape (`SelectShaped`, `CteShaped`, …).

## Model

| member | source | states |
|---|---|---|
| Jinja.ParsePair | src/jinja_parser.rs:166-203 | Only `expr_template`, `expression`, `reference` and `not_jinja` render to `Some`. `not_jinja` renders as its own source text. A `reference` renders as its first `string` child with the first and last character (the quotes) removed. An `expression` renders as its children's texts concatenated, and an `expr_template` as the same text with one space added on each side. |
| Jinja.RenderChildrenSnoc | src/jinja_parser.rs:168-187 | Rendering one more child at the back appends that child's text when it renders to `Some`, and nothing otherwise. |
| Jinja.RenderChildrenIsConcat | src/jinja_parser.rs:168-187 | `RenderChildren`, the text of a template's or expression's children, is the concatenation of the children's pieces, in order: the children that render to `None` contribute nothing. |
| Jinja.RefTemplateRendersPadded | src/jinja_parser.rs:168-197 | A template whose only child is a `reference` holding the literal `'name'` renders as `" " + name + " "`: the quotes are stripped and the result is padded with one space on each side. |
| Jinja.FirstStringLit | src/jinja_parser.rs:190-195 | A `string` child is found iff the reference has one, and what is found has rule `string`. |
| Jinja.FlattenPair | src/jinja_parser.rs:206 | The pre-order flattening of a node starts with the node itself. |
| Jinja.FlattenAllFindsUnknown | src/jinja_parser.rs:205-212 | An `expr_unknown` rule occurs in `FlattenAll`, the pre-order flattening of the forest, iff some node at any depth of the forest is `expr_unknown`. |
| Jinja.FlattenPairFindsUnknown | src/jinja_parser.rs:205-212 | Per node: `expr_unknown` occurs in a node's flattening iff it occurs in the node's subtree. |
| Jinja.HasUnknownRuleAppend | src/jinja_parser.rs:206-210 | Scanning a concatenation for `expr_unknown` finds one iff either part has one. |
| Jinja.ContainsUnknownJinja | src/jinja_parser.rs:205-212 | The scan loop returns true iff some node anywhere in the forest is `expr_unknown`. |
| Jinja.FirstUnexpected | src/jinja_parser.rs:91-103 | The result is `None` iff no top-level pair both renders to `Some` and has a rule other than `expr_template`/`not_jinja`. Otherwise it names the rule of such a pair. |
| Jinja.Pieces | src/jinja_parser.rs:87-116 | A forest yields at most one piece per top-level pair; `RenderSnoc` states which pairs yield one and what it is. |
| Jinja.KindOf | src/jinja_parser.rs:98-103 | A segment is of kind Jinja iff its pair is an `expr_template`; every other rendered pair is Sql. |
| Jinja.RenderError | src/jinja_parser.rs:64-107 | Rendering succeeds iff the grammar parsed the file, no `expr_unknown` occurs anywhere, and no top-level pair is unexpected. A grammar failure gives `ParsingError` with its message; otherwise unknown Jinja gives `UnknownJinja`; otherwise the error names the rule of an unexpected top-level pair. |
| Jinja.Segments | src/jinja_parser.rs:87-105 | There is exactly one segment per rendered piece. |
| Jinja.SegmentsAreWellFormed | src/jinja_parser.rs:69-97 | On a successful render: the first output span starts at 0 and each starts where the previous one ended. The last span ends at the rendered text's length. Each Sql segment's output length equals its source length. Source spans are ordered and lie within the source. |
| Jinja.SegmentsInSpansBelow | src/jinja_parser.rs:88-97 | When every pair ends at or before a bound, every segment's source span ends at or before it too. |
| Jinja.AppendSegmentWellFormed | src/jinja_parser.rs:89-97 | Appending a piece that starts at the running length keeps the segment list contiguous. The new length is the old length plus the piece's length. |
| Jinja.InitWellFormed | src/jinja_parser.rs:87 | Dropping the last pair of a well-formed forest leaves a well-formed forest with the other pairs unchanged. |
| Jinja.PrefixWellFormed | src/jinja_parser.rs:87-97 | The segments of every prefix of a well-formed forest are well formed. |
| Jinja.RenderStepSkip | src/jinja_parser.rs:91 | A pair that renders to `None` adds no piece, no segment and no output. |
| Jinja.RenderStepEmit | src/jinja_parser.rs:91-105 | A pair that renders to `Some(s)` appends `s` to the output. It also appends one segment with output span `[len, len + \|s\|)`, its own source span, and the kind of its rule. |
| Jinja.RenderStepUnexpected | src/jinja_parser.rs:98-103 | If no pair before position `i` is unexpected and pair `i` is, the forest's first unexpected rule is pair `i`'s rule. That rule is the one `render_jinja` reports. |
| Jinja.RenderSnoc | src/jinja_parser.rs:89-105 | Rendering a forest equals rendering all but its last pair, then that pair. A `None` pair adds nothing. A `Some(s)` pair adds piece `s` to `Pieces`, `\|s\|` characters to `RenderedText`, and one segment to `Segments` with the pair's source span, output span `[len, len + \|s\|)` and rule kind. |
| Jinja.EntriesMatchSnoc | src/jinja_parser.rs:104-105 | Pushing one entry keeps the pushed texts and segments in step with the entries. |
| Jinja.CollectEmit | src/jinja_parser.rs:91-105 | One loop step over a rendered, expected pair keeps the loop invariant. The pushed entries still equal the rendered pieces and segments, and the running length grows by the piece's length. |
| Jinja.CollectSkip | src/jinja_parser.rs:91 | One loop step over a pair rendering to `None` keeps the loop invariant without pushing. |
| Jinja.CollectPieces | src/jinja_parser.rs:86-107 | The loop fails iff some rendered top-level pair has an unexpected rule, and the error names the rule `FirstUnexpected` gives. On success, the pushed texts are exactly the rendered pieces, and each entry's spans and kind equal the corresponding segment. |
| Jinja.PieceTexts | src/jinja_parser.rs:114-116 | There is one text per collected entry, in order. |
| Jinja.JoinPieces | src/jinja_parser.rs:113-116 | The joined string is the concatenation of the entries' texts, in order. |
| Jinja.PlainSqlNode | src/jinja_parser.rs:198-200 | A file that is one `not_jinja` run is well formed, free of unknown Jinja, and renders to its own text. |
| Jinja.PlainSqlPieces | src/jinja_parser.rs:87-116 | A file that is one `not_jinja` run yields exactly one piece, equal to the source. |
| Jinja.PlainSqlRendersUnchanged | src/jinja_parser.rs:64-123 | A file without Jinja renders without error to itself. It has exactly one Sql segment, whose source and output spans are both `[0, \|src\|)`. |
| Jinja.JinjaParser.constructor | src/jinja_parser.rs:126-132 | A new parser holds the source, no snippets and an empty output. |
| Jinja.JinjaParser.Unify | src/jinja_parser.rs:48-50 | The rendered SQL. When a position map is present it covers the string exactly: an empty map goes with the empty string, and otherwise the last segment ends at the string's length. |
| Jinja.JinjaParser.SetSnippets | src/jinja_parser.rs:52-62 | Given entries that describe the current output and the source, the stored segment list has the same length and order as the entries, and each segment keeps its source span, output span and kind. The output string is unchanged and the invariant `Valid` holds afterwards. |
| Jinja.JinjaParser.RenderJinja | src/jinja_parser.rs:64-124 | The render fails iff the grammar fails, unknown Jinja occurs anywhere, or an unexpected top-level rule renders. Its error says which, and on failure `outString` and `snippets` are untouched. On success `outString` is the concatenation of the rendered pieces, and `snippets` holds their segments. The invariant `Valid` (a present position map is well formed for the current output) is kept. |
| Jinja.PositionNew | src/jinja_parser.rs:149-154 | A position is accepted iff it is at most the source length. |
| Jinja.SourceOffset | src/jinja_parser.rs:147-154 | The offset one segment assigns lies at or after its source start: exactly the source start for a Jinja segment, and the same distance from the source start as the output offset is from the output start for a Sql segment. |
| Jinja.TranslateIn | src/jinja_parser.rs:142-163 | A mapped offset is within the source. |
| Jinja.TranslateInHit | src/jinja_parser.rs:142-163 | Only an offset strictly inside some segment's output span is mapped; the lemma returns that segment's index. |
| Jinja.JinjaParser.Translate | src/jinja_parser.rs:142-163 | With no snippets (before a successful render), the result is `None`. Otherwise the search loop returns what `TranslateIn` gives for the stored segments. |
| Jinja.JinjaParser.Translation | src/jinja_parser.rs:142-163 | Only a parser holding a position map translates anything, and a translated offset lies within the source. |
| Jinja.TranslateFirstContaining | src/jinja_parser.rs:144-145 | When segment `k` strictly contains the offset and every earlier segment ends at or before its start, the result is segment `k`'s mapping: the shifted offset for Sql, the source start for Jinja. |
| Jinja.OutSpansOrdered | src/jinja_parser.rs:89-93 | In a well-formed segment list, a later segment's output span starts at or after an earlier one's end. |
| Jinja.TranslateInsideSql | src/jinja_parser.rs:151-154 | For an offset strictly inside a Sql segment, the result is `in.start + (pos - out.start)`, and it lies strictly inside that segment's source span. |
| Jinja.TranslateAt | src/jinja_parser.rs:142-163 | In a well-formed map, an offset strictly inside segment `k`'s output span maps to that segment's source offset, which lies within its source span. |
| Jinja.TranslateInsideJinja | src/jinja_parser.rs:147-149 | For an offset strictly inside a Jinja segment, the result is that template's source start, whatever the offset. |
| Jinja.TranslateBoundaryUnmapped | src/jinja_parser.rs:145-159 | In a well-formed segment list, an offset equal to some segment's start or end is never mapped. |
| Jinja.TranslateMonotone | src/jinja_parser.rs:142-163 | For two mapped output offsets `p <= q` in a well-formed segment list, `t(p) <= t(q)`. |
| SqlParser.ParseExpressionAlias | src/parser.rs:61-94 | An expression that is not a lone `qualified_ident` gets its full text as its alias. A `qualified_ident` gets its second component when one exists, otherwise its first. |
| SqlParser.NonStarItems | src/parser.rs:101-104 | Every kept item is a shaped non-star item, there are no more kept items than items, and a list without stars is kept whole. |
| SqlParser.ItemName | src/parser.rs:108-120 | An item with an alias child is named by the alias's text. An item whose only child is not a column reference is named by that child's text. |
| SqlParser.NonStarItemsOrigin | src/parser.rs:101-104 | Each kept item is a non-star item of the list, at the position whose `NonStarIndex` is its own index: star items are dropped and each non-star item is kept once. |
| SqlParser.SelectColumns | src/parser.rs:101-125 | Column `k` is named by the `k`-th non-star item: its explicit alias if it has one, else the inferred alias. |
| SqlParser.ParseSelectStatement | src/parser.rs:96-128 | There is one column per non-star item, with the names above. |
| SqlParser.ExplicitAliasWins | src/parser.rs:108-116 | For a non-star item with an explicit alias, some output column is named by that alias. |
| SqlParser.NonStarIndex | src/parser.rs:101-125 | A non-star item at position `i` is the kept item at some index `k`, and `k` is within the output. |
| SqlParser.SelectColumnsKeepOrder | src/parser.rs:101-125 | Output columns keep select-list order: `i < j` maps to strictly increasing output indices. |
| SqlParser.StarsOnlyYieldNothing | src/parser.rs:103-104 | A select list made only of star selects yields no columns. |
| SqlParser.ParseInnerQuery | src/parser.rs:130-140 | An inner query's columns are `SelectColumns` of its select statement's select list. |
| SqlParser.ParseSetOperation | src/parser.rs:142-155 | A set operation's columns are `SelectColumns` of the select list of its first operand; later operands are not read. |
| SqlParser.ParseCte | src/parser.rs:157-174 | A CTE is named by its first child's text, and its columns are those of its set operation. |
| SqlParser.ParseCtes | src/parser.rs:176-185 | There is one CTE per child, in order, each parsed as `parse_cte` parses it. |
| SqlParser.ParseWithClause | src/parser.rs:176-185 | A `with_clause` yields one CTE per child, in order, named by each child's first child. |
| SqlParser.ParseQuery | src/parser.rs:187-207 | `ctes` is `Some` iff the first child is a `with_clause`, and it then holds that clause's CTEs. The model keeps the given name. |
| SqlParser.SpanNew | src/parser.rs:258-261 | A span is built iff `start <= end <= \|src\|`. |
| SqlParser.SpanErrorKeepsBothEnds | src/parser.rs:255-275 | Once a parser's position map is valid, the translated ends of a span error with `start <= end` keep their order and lie within the source. |
| SqlParser.SpanErrorInsideSqlSegment | src/parser.rs:255-275 | When both ends of a span error lie strictly inside the same Sql segment, the source span is the output span shifted by `in.start - out.start`. |
| SqlParser.ParseSql | src/parser.rs:232-281 | A successful SQL parse returns `Ok`. A position error yields `Position(t(pos))` when `translate` succeeds and `Unknown` otherwise. A span error yields `Span` exactly when both ends translate and form a valid source span, and `Unknown` otherwise. The message is preserved. |
| Validation.Model.TypeMatch | src/validation.rs:44-54 | The loop returns true iff the arities are equal and the types agree at every position. |
| Validation.TypeMatchIsArity | src/validation.rs:44-54 | Since the only type is `Unknown`, two models match iff they have equally many columns. |
| Validation.LookupSpec | src/validation.rs:83-93 | `Lookup` finds the name iff some layer holds it, and then the innermost such layer gives the model. |
| Validation.FirstColumnNamedSpec | src/validation.rs:66-68 | `FirstColumnNamed` returns the first column with the name; every earlier column has another name. The result is `None` iff no column has it. |
| Validation.FollowIn | src/validation.rs:64-79 | The result is `Unresolved` iff the lookup (the order `get_model` uses) finds no model. A resolved reference carries the model that lookup finds. |
| Validation.FollowInSpec | src/validation.rs:64-79 | A found model lacking the column gives `MissingColumn`, where the source unwraps. Otherwise the result is the model's first column of that name. |
| Validation.Context.Layers | src/validation.rs:58-61 | The scope chain of a context starts with its own map. |
| Validation.Context.constructor | src/validation.rs:270-273 | A child context has an empty local map in front of its parent's chain. |
| Validation.Context.GetModel | src/validation.rs:83-93 | This is lookup through the chain. A local name shadows every ancestor. A context without a parent answers `None` for a name it does not hold. |
| Validation.Context.FollowModelReference | src/validation.rs:64-79 | Resolves a reference exactly as `FollowIn` over the context's chain. |
| Validation.Context.AddModel | src/validation.rs:95-97 | Inserts or overwrites one key of the local map. The parent chain is unchanged. |
| Validation.ResolveTable | src/validation.rs:102-124 | A named table resolves to its model when the scope has it, and otherwise gives `MissingModel`. Every other table factor is `UnsupportedTableFactor`. |
| Validation.ResolveInputsSpec | src/validation.rs:101-126 | `ResolveInputs` succeeds iff every FROM item resolves. They resolve pointwise and in order. On failure the error is that of the first failing item. |
| Validation.JoinsAreIgnored | src/validation.rs:101-103 | Only each FROM item's relation matters; its joins do not change the inputs. |
| Validation.GetInputColumnSpec | src/validation.rs:128-137 | `GetInputColumn` gives `None` iff no input has a column of that name. Otherwise it is a column of that name with its model's name, and no earlier input has the name. |
| Validation.GetInputColumnAt | src/validation.rs:128-137 | If input `i` is the first with the name, the result is its first such column. |
| Validation.FirstColumnIsFirstMatch | src/validation.rs:130-133 | If column `j` is the first with the name, `FirstColumnNamed` returns it. |
| Validation.StarColumns | src/validation.rs:200-208 | One column per model column, keeping name and type, with source `Single(model, column)`. |
| Validation.WildcardLayout | src/validation.rs:198-211 | Column `j` of input `i` appears at index `ColumnsBefore(i) + j` of `WildcardColumns`, with its name, its type and source `Single(input i, name)`: FROM order, then column order. |
| Validation.ColumnsBeforeShift | src/validation.rs:199 | The offset of input `i + 1` is that of input `i` plus input `i`'s width. |
| Validation.WildcardWidth | src/validation.rs:198-211 | The wildcard output has as many columns as all inputs together. |
| Validation.ProjectItem | src/validation.rs:139-212 | An unnamed item must be an identifier; it keeps the identifier as its name. An aliased item is named by its alias. An aliased non-identifier has type `Unknown` and source `Unknown`. A qualified wildcard is an error. A wildcard yields the wildcard columns. |
| Validation.BareIdentifierResolves | src/validation.rs:141-159 | A bare identifier found first in column `j` of input `i` yields that column's name and type, with source `Single(input i, ident)`. |
| Validation.AliasedIdentifierResolves | src/validation.rs:166-187 | The same resolution as for a bare identifier, under the alias's name. |
| Validation.UnknownIdentifierFails | src/validation.rs:141-191 | An identifier found in no input gives `NoSuchColumn`, bare or aliased. |
| Validation.ProjectItemsOk | src/validation.rs:139-212 | `ProjectItems` succeeds iff every item succeeds. |
| Validation.ProjectItemsFirstError | src/validation.rs:139-212 | When item `i` is the first to fail, the projection fails with its error. |
| Validation.ProjectItemsAppend | src/validation.rs:139-212 | Projection distributes over concatenation of select lists. |
| Validation.ValidateSelect | src/validation.rs:100-215 | The SELECT succeeds iff its inputs resolve and its projection succeeds over them, and its columns are then the projection's. A failing input gives the inputs' error; resolved inputs with a failing projection give the projection's error. |
| Validation.SelectFirstBadInput | src/validation.rs:101-126 | When FROM item `i` is the first that fails to resolve, the SELECT fails with that item's error. |
| Validation.SingleTableInputs | src/validation.rs:101-107 | `FROM t` with `t` in scope resolves to the single input `(t, model)`. |
| Validation.SelectStarFromTable | src/validation.rs:198-211 | `SELECT * FROM t` gives `t`'s columns, each sourced `Single(t, name)`. |
| Validation.SelectColumnFromTable | src/validation.rs:141-159 | `SELECT c FROM t` gives the first column named `c` of `t`, sourced `Single(t, c)`. |
| Validation.UnionColumns | src/validation.rs:231-249 | There is one column per left column; column `i` is `UnionColumn` of left column `i`: its name and type, sourced `Disjoint[Single("left", n), Single("right", n)]`. |
| Validation.ValidateSetExpr | src/validation.rs:217-267 | A SELECT is validated as a SELECT. A UNION of matching sides gives the union columns. EXCEPT and INTERSECT give `UnsupportedSetOperator`. Any other body gives `NotASelect`. |
| Validation.UnionArity | src/validation.rs:224-250 | When both sides validate, the UNION succeeds iff they have equal arity, and fails with `TypeMismatch` otherwise. The result has the left side's arity. |
| Validation.LocalMapKeys | src/validation.rs:276-280 | Every registered CTE name is a key of the local map. |
| Validation.CteModels | src/validation.rs:274-283 | On success there is one model per CTE. |
| Validation.CteModelsNamed | src/validation.rs:274-283 | On success the models are named by the CTE aliases, in declaration order. |
| Validation.CteSeesEarlierCtes | src/validation.rs:276-280 | CTE `k` is validated against a scope holding only the earlier CTEs in front of the outer chain. Its model is the `k`-th registered one. |
| Validation.CtePrefixFails | src/validation.rs:276-280 | If the CTEs fail to validate before position `n`, the whole list fails with the same error. |
| Validation.RegisterStep | src/validation.rs:274-283 | One registration step: a CTE that fails to validate fails the whole list with its error; one that validates extends the registered models by `(alias, model)` and the local map by that one key. |
| Validation.RegisterCtes | src/validation.rs:270-283 | The registration loop succeeds iff every CTE validates, and otherwise fails with the same error. On success the context's chain is the registered CTE map in front of the outer chain. |
| Validation.WalkIn | src/validation.rs:290-322 | The walk stops only at a column that is not `Single`-sourced, or at an unresolved reference. A reference to a missing column ends the walk as `ColumnNotFound`. |
| Validation.WalkFuelMonotone | src/validation.rs:290-322 | A walk that ends within some fuel ends the same way with more fuel. |
| Validation.WalkLineage | src/validation.rs:290-322 | The walk loop computes `WalkIn` over the context's chain. |
| Validation.ValidateQuery | src/validation.rs:269-324 | Validating a query computes `QueryLineage` over the outer chain: CTEs in declaration order, then the body, then the walk of the first output column. |
| Validation.ShadowingCteNeverStops | src/validation.rs:290-322 | With `orders` in the outer scope, the lineage walk of `with orders as (select id from orders) select id from orders` never stops, for every fuel. |
| Validation.SelfReferenceNeverStops | src/validation.rs:290-322 | A column whose `Single` source resolves, in the scope, to that same column is walked until the fuel runs out. |
| Validation.ShadowingCteModel | src/validation.rs:274-283 | The shadowing CTE `orders` gets column `id` sourced `Single(orders, id)`. |
| Validation.ShadowingBody | src/validation.rs:284 | The body of the shadowing query resolves `orders` to the CTE, not to the outer model. |
| Validation.LastCteNamed | src/validation.rs:95-97 | Returns the index of the last CTE, below a bound, registered under a name. |
| Validation.LocalMapIsLastCte | src/validation.rs:95-97 | Registering several CTEs under one name keeps the last: the local map agrees with `LastCteNamed`. |
| Validation.ScopedWalk | src/validation.rs:290-322 | The corrected walk resolves each `Single` reference in the scope visible where the column was defined. It stops only at a column that is not `Single`-sourced, or at a reference that is unresolved in the outer chain. |
| Validation.ScopedLineage | src/validation.rs:269-324 | The corrected lineage fails iff `QueryLineage` fails, with the same error. |
| Validation.ScopedWalkStops | src/validation.rs:290-322 | When no outer model has `Single` sources, the corrected walk never runs out of fuel, whatever the budget. |
| Validation.ScopedLineageStops | src/validation.rs:269-324 | When no outer model has `Single` sources, the corrected lineage never ends with `OutOfFuel`. |
| Validation.ShadowingCteScopedStops | src/validation.rs:269-324 | For the shadowing query, the corrected lineage stops at the outer `orders.id`, which has source `None`. |
| Validation.LiteralSelectScenario | src/validation.rs:166-193 | `select 1 as x` stops at once on column `x`, with source `Unknown`. |
| Validation.ChainFirstCte | src/validation.rs:274-283 | In that chain query, CTE `a` gets column `id` sourced `Single(t, id)`. |
| Validation.ChainCteModels | src/validation.rs:274-283 | CTE `b` of the chain query sees `a` and gets column `id` sourced `Single(a, id)`. |
| Validation.ChainScenario | src/validation.rs:269-324 | For `with a as (select id from t), b as (select id from a) select * from b`, the body's column `id` is sourced `Single(b, id)`. With fuel 3 or more the walk goes through `b` and `a` to `t.id` and stops there. The corrected walk stops there for any fuel. |
| Validation.ForwardReferenceFails | src/validation.rs:276-280 | A CTE that names a later CTE fails with `MissingModel`, because CTEs see only the earlier ones. |

## Left out

- `render_jinja_pyo3` (`src/jinja_parser.rs:8-18`) calls into an embedded Python jinja2 interpreter. It is a foreign call. In the source it is also commented out of `render_jinja`, which rejects unknown Jinja instead.
- The pest grammars `jinja.pest` and `snowflake_sql.pest` and the `sqlparser` crate are not part of this model. Parse trees, grammar errors and the SQL AST are inputs, and the model covers only the tree shapes the code relies on.
- `pest::Position::new` and `pest::Span::new` are bounds checks on byte offsets (`PositionNew`, `SpanNew`). The text is assumed to be ASCII, so character boundaries are not modelled.
- `Span::from_span` (`src/parser.rs:24-38`) turns offsets into line/column pairs. The model keeps byte offsets.
- `JinjaParser::output` (`src/jinja_parser.rs:134-136`) returns the same string as `unify`, which `Unify` models; `source` returns the `src` field.
- The error strings of `render_jinja` are the variants of `JinjaError`: grammar error, unknown Jinja, unexpected rule. Their formatted text is not modelled.
- `src/language_server.rs`, `src/webscraping/mod.rs`, `src/main.rs` and the VS Code client are I/O and plumbing. They are not part of this model.
- `println!` output, the file-reading tests and the hard-coded model of `test_sql_parser` are left out. The scenario lemmas in `validation.dfy` play the role of its example.
- `Rc` sharing of parent contexts is left out. The model covers an acyclic chain of `Context` objects with a ghost footprint, and nothing mutates a parent.
- `validate_query`'s walk loop (`src/validation.rs:290-322`) has no bound in the source. `WalkIn`, `WalkLineage`, `QueryLineage` and `ValidateQuery` take a `fuel` bound and report `OutOfFuel` when it is exhausted. That is how the model exhibits the non-terminating case below.
- `validate_query` returns nothing in the source. The model returns the walk's end (or the error that would have panicked) so that it can be stated.
- `output.columns[0]` panics on an empty output. The model reports `EmptyOutput`.
- Every `todo!()` of the resolver is an explicit `ValidationError`:
  - derived, nested-join, table-function and UNNEST sources;
  - qualified wildcards;
  - unaliased non-identifiers;
  - EXCEPT and INTERSECT;
  - bodies that are not SELECT or set operations;
  - missing columns.

  `get_model(..).unwrap()` on a missing table is `MissingModel`.
- The `debug_assert!` rule checks and the `unwrap`s on the parse tree of `src/parser.rs` are shape preconditions such as `QueryShaped` and `SelectShaped`: the grammar guarantees those shapes.
- The set quantifier of a UNION (`ALL`/`DISTINCT`) is ignored, as in the source. The "left"/"right" model names of a union source are kept exactly as the code writes them.
- `ColumnSource::Aggregate` is never produced by the resolver. It is modelled only as a walk stop.
- SqlParser.ParseExpressionAlias: the second component of a `qualified_ident` is taken, as the code does. A three-part name `db.t.col` therefore gets `t`, not the last component.
- Validation.ProjectItem: the contract states the name, error and wildcard cases. The identifier-resolution cases are stated separately by `BareIdentifierResolves`, `AliasedIdentifierResolves` and `UnknownIdentifierFails`.

## Findings

| source | as written | input that shows it | evidently intended | confidence | as-written member | corrected member |
|---|---|---|---|---|---|---|
| src/validation.rs:290-322 | The lineage walk resolves every `Single` reference in the final child context, which holds all CTEs. A CTE that reads a model of the same name therefore resolves to itself, and the loop never ends. | Outer scope `{orders: [id, source None]}`, query `with orders as (select id from orders) select id from orders` | Each reference is resolved in the scope visible where its column was defined: the earlier CTEs, then the outer chain. The walk then ends at `orders.id` of the outer scope. | not executed | Validation.ShadowingCteNeverStops | Validation.ShadowingCteScopedStops |

