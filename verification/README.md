# metap, verified core

metap is a metadata-driven platform over PostgreSQL. This project models six of its parts in Dafny and proves what
they promise, for every input, every reachable state and every interleaving:

- **Queries.** The JQL query language (tokenizer, parser, code generator), the compilation of record policies to SQL,
  and the list planner with keyset pagination. Emitted SQL is a sequence of tokens. `Sql` reads such a sequence back
  with SQL's operator precedence and evaluates the tree in three-valued logic, so "the emitted text means this" is a
  theorem about text and not about an intended tree. Placeholders are looked up in the final parameter list.
- **Permissions.** Deny-overrides-allow evaluation, the static analysis of record dependence, the snapshot against the
  store-backed service, and what an audit diff may show.
- **Schema reconciler.** `Compile`, `Diff`, the effect of each DDL operation (also when interrupted or failing on a stale
  trigger), and the checkpointed backfill beside the sync trigger.
- **CRUD.** Unlocked reads followed by version-conditional writes, interleaved at will, with payload validation and
  computed fields.
- **Scheduler and outbox.** Claims, retries, step chains with pauses, and at-least-once publishing, with crashes.
- **OAuth2 token store.** Authorization codes, refresh rotation and consents, interleaved statement by statement.

Code that updates state or loops over locals is modelled by classes and methods; each is proved equal to a
specification function, and the theorems are about those functions. Protocols are state machines: `Step` relates two
states, `Run` is any sequence of steps, and the theorems hold at every index of every run.

`dafny verify dfyconfig.toml` checks everything.

## Where the code does less than its description

Each entry names the failing case and the exact condition.

- A record policy `field notIn "text"` with a bare string lets List show every row while Get refuses every record
  (`PolicyAgreement.BareNotInShowsWhatGetRefuses`). On the leaves in scope SQL and the in-memory decision agree if and
  only if the leaf is not of this kind (`PolicyAgreement.LeafAgrees`).
- Introspection reads a column's backfill state off a ledger row and a trigger that carry the column's name, so renaming
  a complete column makes the next pass fill it again (`Convergence.RenameUndoesBackfill`,
  `Convergence.RenamedColumnExample`). One full pass settles if and only if it keeps pace with the renames it emits
  (`Convergence.OnePassSettlesExactly`); only a renamed column can fall behind (`Introspection.UncoveredIsRenamed`).
- The function behind a sync trigger assigns a column by name, a rename does not rewrite it, and nothing drops a trigger.
  On a table with rows the trigger of a renamed column makes every later backfill fail
  (`StaleTriggers.OldTriggerStopsBackfill`, `StaleTriggers.FilledRenameFails`), for a column not filled yet in the same
  pass (`StaleTriggers.UnfilledRenameFails`), and then no pass ever finishes again (`StaleTriggers.StuckForever`). A pass
  runs to its end if and only if, on the store before it, there is nothing to fill, or no row to fill, or no trigger in
  the way (`Progress.PassRunsExactly`); two passes do and leave nothing to do if and only if no trigger is in the way of a
  row, or there is nothing to fill and every synced column is covered (`Progress.ConvergesExactly`).
- A crash puts no trigger in the way as long as renames take no name that is still desired
  (`Recovery.CrashStaysUnhindered`). With a list that takes one it can (`Recovery.TakenNameLeavesTrigger`,
  `Recovery.TakenNameExample`).
- A cursor whose text is not the stored key, as for a number stored as 1.0 and reformatted as 1, returns its row again
  (`PageWalk.NumberComesBack`) or hides rows (`PageWalk.NumberHidesItsTwins`). The keyset condition is right for every
  row if and only if the cursor is exact (`PageWalk.KeysetIsExact`, `Pagination.ExactForData`), and a finished walk is
  right if and only if the cursors of its page ends are right on the list (`PageWalk.WalkIsWholeExactly`).
- An effective limit of 0 shows an empty list (`Pagination.LimitZeroShowsNothing`).
- A field with a real column that is searchable and not unique gets neither its column nor, for a reference, its foreign
  key, although filters, sorts and JQL read it from that column (`ColumnAgreement.SearchableReferenceLosesColumn`). The
  query side and the reconciler agree on an entity if and only if it has no such field (`ColumnAgreement.SidesAgree`).
- A write whose expected version lies ahead of what the call read can replace data it never saw
  (`Crud.FutureVersionLosesData`). A successful write derives from exactly the version it replaces if and only if the
  record had reached the expected version when the call read it (`Crud.WritesAreLossless`).
- Metadata validation accepts a computed state field and one that payload validation rewrites. Then an update moves the
  state without a transition (`Crud.ComputedStateMoves`, `Payload.ComputedStateExample`). A write moves the state as
  declared if and only if validation and recomputation leave it alone at that data (`Crud.StateMovesByTransitions`), which
  they do exactly as `Payload.FieldKeptExactly` says and always for a field that is neither computed nor a reference
  (`Payload.PlainStateMovesByTransitions`). A record without a stored state accepts
  one through Update (`Crud.MissingStateCanBeSet`).
- System fields are described as written by SetSystemFields alone. A transition stores one that its payload names
  (`Crud.TransitionStoresSystemField`), and puts back the value it had read over one stored meanwhile
  (`Crud.TransitionUndoesSystemWrite`). `Payload.SystemFieldKeptExactly` says when it leaves one alone; updates and
  deletes always do.
- A backfill that starts from an old ledger row, and for a new one the row with the nil id, leaves rows behind. A finished
  backfill has synced every row in scope if and only if none was left behind (`Backfill.CompletedMeansSynced`,
  `Backfill.OnlyNilIsLeft`).
- A job edit that reads the clock before a claim and writes after it fires an occurrence twice
  (`Cron.SplitEditFiresTwice`). Fired times increase if and only if no edit computes, from the clock it
  read, a time no later than the last that fired and a claim fires it before another edit (`Cron.FiresOnceExactly`);
  an edit is timely when nothing fires between its read and its write (`Cron.QuietEditIsTimely`).
- The backoff delay is the intended one if and only if it is at most 9223372036 seconds (`Cron.BackoffDelay`).
- Two approvals that both read the stored consent before either writes can leave a code beyond the consent
  (`OAuthRuns.OverlappingApprovals`). Everything stays within consent if and only if every written consent covers what is
  held (`OAuthRuns.ScopesContainedExactly`).
- A refresh reads its token without a lock, so two overlapping refreshes leave two live tokens in one chain
  (`OAuthRuns.OverlappingRefreshesFork`). Chains stay single if and only if no rotation commits while another token of its
  chain is live (`OAuthRuns.OneLiveTokenPerChainExactly`).
- An empty policy list is explained as "allowed" although no policy matched (`Permission.ExplainPolicies`).

## Model

| member | source | states |
|---|---|---|
| Substring.JqlIlikePattern | go/query/jql_codegen.go:119-128 | The loop builds the pattern that `PatternIsLiteral` is about. |
| Substring.IlikeEscape | go/query/query_planner.go:320-329 | The planner's own escape loop builds the same pattern. |
| Substring.PatternIsLiteral | go/query/jql_codegen.go:119-128 | For every text and value, LIKE with backslash escape on the built pattern matches if and only if the value occurs in the text. |
| Substring.IlikeIsContainment | go/query/jql_codegen.go:116-128 | ILIKE on the built pattern is literal containment up to case folding, and unknown on NULL. |
| JqlLexer.ScanString | go/query/jql_lexer.go:150-172 | The inner loop returns the unescaped literal and the position after its closing quote, or nothing if the text ends first. |
| JqlLexer.ScanToken | go/query/jql_lexer.go:108-194 | One round of the switch gives the token that stands at the position and where it ends. |
| JqlLexer.Tokenize | go/query/jql_lexer.go:95-198 | The whole tokenizer, length limit and errors included; an accepted text ends in the end marker. |
| JqlParser.Parser.constructor | go/query/jql_parser.go:5-12 | A cursor at the first token of a closed token list. |
| JqlParser.Parser.Advance | go/query/jql_parser.go:14-20 | Takes the token under the cursor and never moves past the end marker. |
| JqlParser.Parser.Eat | go/query/jql_parser.go:22-28 | Moves on exactly when the expected token is there. |
| JqlParser.Parser.ParseOrAt | go/query/jql_parser.go:72-89 | Returns what the grammar of OR gives from the cursor on, ends where it ends, stays inside the token list and terminates. |
| JqlParser.Parser.ParseAndAt | go/query/jql_parser.go:91-108 | The same for AND. |
| JqlParser.Parser.ParseNotAt | go/query/jql_parser.go:110-119 | The same for NOT. |
| JqlParser.Parser.ParsePrimaryAt | go/query/jql_parser.go:121-133 | The same for a parenthesis or a comparison. |
| JqlParser.Parser.ParseValueAt | go/query/jql_parser.go:143-157 | The same for a literal value. |
| JqlParser.Parser.ParseValueListAt | go/query/jql_parser.go:159-179 | The same for a parenthesised value list. |
| JqlParser.Parser.ParseComparisonAt | go/query/jql_parser.go:181-237 | The same for a comparison, IN, NOT IN, IS EMPTY and IS NOT EMPTY. |
| JqlParser.Parser.ParseOrderAt | go/query/jql_parser.go:48-64 | The same for the optional ORDER BY clause. |
| JqlParser.Parser.ParseQuery | go/query/jql_parser.go:38-70 | On every closed token list the parser terminates, stays inside it and returns the parse of the list. |
| JqlParser.ParsedQueryIsWellFormed | go/query/jql_parser.go:38-237 | Whatever the text, an accepted query is a tree the code generator can render: connectives with at least two parts, IN with at least one value. |
| JqlText.LexRendering | go/query/jql_lexer.go:95-198 | The parenthesised, escaped rendering of a query tree, wherever it stands, is tokenized to the tree's own tokens. |
| JqlText.ParseRendered | go/query/jql_parser.go:72-237 | Those tokens, anywhere in a closed list, are parsed as exactly the tree they came from. |
| JqlText.TextRoundTrip | go/query/jql_parser.go:12-70 | For every well-formed query with its ORDER BY whose rendering fits the length limit, tokenizing and parsing the rendering gives the query back; the rendering uses bare numbers and both kinds of quotes. |
| JqlText.UpperOfSame | go/query/jql_lexer.go:60-90 | Keywords are read alike in upper, lower and mixed case. |
| JqlText.LexBlank | go/query/jql_lexer.go:60-100 | Any of the four blanks may stand where one does. |
| JqlQuery.LexIsClosed | go/query/jql_lexer.go:95-198 | Every accepted text yields a closed token list, which is what the parser needs to stay inside it. |
| JqlCodegen.ResolveJqlField | go/query/jql_codegen.go:50-90 | The search for a declared field: the error for an unknown one, or the expression text and the one parameter it adds. |
| JqlCodegen.PushValues | go/query/jql_codegen.go:215-219 | One placeholder per IN value, numbered by the parameter it binds. |
| JqlCodegen.CompileJqlExpr | go/query/jql_codegen.go:130-228 | The emitter appends to the shared parameter list and returns the text that `CompileMeans` is about, or the same error. |
| JqlCodegen.CompileEach | go/query/jql_codegen.go:132-151 | The loop over the parts of a connective; it stops at the first error. |
| JqlCodegen.CompareMeans | go/query/jql_codegen.go:168-204 | A comparison reads as one condition, and its truth is that of the operator by the database's equality and order on the field, cast by its kind, and the operand: unknown when either is null. |
| JqlCodegen.InMeans | go/query/jql_codegen.go:205-224 | The same for IN and NOT IN. |
| JqlCodegen.IsEmptyMeans | go/query/jql_codegen.go:158-167 | The same for IS EMPTY and IS NOT EMPTY. |
| JqlCodegen.CompileMeans | go/query/jql_codegen.go:130-228 | For every well-formed tree, the emitted tokens are read with SQL precedence as one parenthesised condition wherever they stand, and with placeholders looked up in any extension of the parameter list it has the tree's meaning on every row. |
| JqlCodegen.CompilesExactly | go/query/jql_codegen.go:92-112 | A tree compiles if and only if its fields are known, ordering is asked of ordered kinds only, CONTAINS of texts with a text, and no list is empty. |
| JqlQuery.CheckSortable | go/query/jql_codegen.go:230-240 | Which names a JQL ORDER BY may use. |
| JqlQuery.OrderIsPlain | go/query/jql_codegen.go:262-272 | A compiled ORDER BY names a sortable field, and never one that starts with a minus sign. |
| JqlQuery.ParseAndCompileJQL | go/query/jql_codegen.go:246-274 | Text to WHERE fragment, sort and parameters, with every error of the tokenizer, parser, code generator and sort check. |
| JqlQuery.CompileTextMeans | go/query/jql_codegen.go:246-274 | Whatever text a request carries, an accepted one compiles to one parenthesised condition with the parsed query's meaning. |
| SqlBuilder.ParamBuilder.Push | go/query/sql_builder.go:61-71 | Appends one value and returns the placeholder that denotes it from then on. |
| SqlReading.ReadAndJoin | go/query/query_planner.go:308-314 | Any number of conjuncts joined by AND, each readable at that level, are read as their conjunction. |
| SqlReading.ReadOrJoin | go/query/condition_to_sql.go:271-280 | The same for OR. |
| SqlReading.OneReading | go/query/condition_to_sql.go:157-269 | A text has at most one reading, so a clause cannot mean two things. |
| PolicySql.BindScalarAt | go/query/condition_to_sql.go:98-123 | The placeholder and bound value for a scalar of each column type, or the type error. |
| PolicySql.BindEach | go/query/condition_to_sql.go:228-235 | One placeholder per value of an `in` or `notIn` list. |
| PolicySql.FieldExpressionAt | go/query/condition_to_sql.go:43-67 | The five mapped columns, a plain data field with its name bound, or an error for a dotted one. |
| PolicySql.CompileOrderingAt | go/query/condition_to_sql.go:130-155 | Ordering operators, with a numeric cast on both sides when the expected value reads as a number. |
| PolicySql.LeafToSQL | go/query/condition_to_sql.go:185-268 | The text, parameters and errors of one leaf. |
| PolicySql.ConditionToSQL | go/query/condition_to_sql.go:157-269 | Recursion over all/any groups; the text and parameters that `ConditionReads` is about. |
| PolicySql.ConditionsToSQL | go/query/condition_to_sql.go:163-184 | The loop over the parts of a group; it stops at the first error. |
| PolicySql.GatedRows | go/query/condition_to_sql.go:297-336 | Exactly the rows of one effect whose role gate the caller passes, in row order. |
| PolicySql.RecordPolicyWhereClause | go/query/condition_to_sql.go:292-356 | No restriction, a constant, or the allow side minus the deny side, with the same errors and parameters as the specification. |
| PolicyAgreement.LeafAgrees | go/query/condition_to_sql.go:185-236 | On a `$ctx.` leaf or an eq, neq, in or notIn leaf over a plain field, SQL's truth agrees with the in-memory operator on every row if and only if it is not a `notIn` with a bare string; it is never unknown when the field is present and not null. |
| PolicyAgreement.ConditionAgrees | go/permission/evaluate.go:183-215 | The agreement lifted to all nested groups in three-valued logic. |
| PolicyAgreement.ConditionReads | go/query/condition_to_sql.go:157-269 | The emitted text of every compilable condition is read as one predicate with the condition's SQL meaning. |
| PolicyAgreement.ClauseReads | go/query/condition_to_sql.go:292-356 | Whatever the policies are, the clause reads as one condition wherever it stands, with the clause's meaning. |
| PolicyAgreement.SideAgrees | go/query/condition_to_sql.go:304-353 | The disjunction of the gated conditions of one effect against "some row of that effect matches". |
| PolicyAgreement.ClauseAgrees | go/permission/evaluate.go:148-162 | The clause is TRUE only where the policies say Allow; when no field they read is absent or null, exactly there. |
| PolicyAgreement.OnlyAdminsAreUnrestricted | go/query/condition_to_sql.go:292-295 | A list is unrestricted if and only if there are no record policies or the caller is an admin. |
| PolicyAgreement.LeafCompilesExactly | go/query/condition_to_sql.go:98-236 | Which leaves have an SQL clause, exactly: by attribute, operator and the values that can be bound for the column's type. |
| PolicyAgreement.ListNeverShowsWhatGetRefuses | go/permission/permissionsnapshot.go:246-258 | A row that the emitted clause selects is one the record check of Get allows, with equality when no field read is absent or null; admin and policy-free cases included. |
| PolicyAgreement.BareNotInShowsWhatGetRefuses | go/query/condition_to_sql.go:216-227 | The counterexample family outside that scope: one allow policy `notIn` with a bare string selects every row and allows no record. |
| SortKeys.SortFieldExpression | go/query/query_planner.go:84-100 | The sort expression and its column type for system columns, real columns and data fields. |
| SortKeys.SortTypes | go/query/query_planner.go:69-100 | Cursor values are cast to timestamps for the two times, to UUIDs for an id or reference with its own column, and not at all otherwise. |
| SortKeys.CursorTruthIsAfter | go/query/query_planner.go:106-133 | The keyset condition is TRUE in three-valued logic exactly for rows strictly after the cursor, ascending or descending, with NULL keys on either side. |
| SortKeys.CursorAfterValueReads | go/query/query_planner.go:122-133 | The keyset text for a non-null cursor key reads as the intended condition. |
| SortKeys.CursorAfterNullReads | go/query/query_planner.go:122-133 | The same for a null cursor key. |
| SortKeys.CursorExprTruth | go/query/query_planner.go:122-133 | Evaluating what was read gives the keyset condition's truth. |
| ListFilters.FieldsByName | go/query/query_planner.go:190-193 | The field index by name; a later declaration wins. |
| ListFilters.AppendFilter | go/query/query_planner.go:201-222 | Text and parameters of one filter by field kind. |
| ListFilters.AppendFilters | go/query/query_planner.go:195-223 | The filter loop; fields the view does not offer are skipped. |
| ListFilters.FiltersRead | go/query/query_planner.go:195-223 | The filter texts read as conditions that are all TRUE exactly for rows that pass every offered filter. |
| Planner.ChooseView | go/query/query_planner.go:148-161 | The named view, the default one, or the unknown-view error. |
| Planner.ViewChosenExactly | go/query/query_planner.go:148-161 | The first view of the name asked for, an error if and only if there is none; without a name the first view. |
| Planner.LimitIsCapped | go/query/query_planner.go:163-170 | The effective limit is the smaller of what was asked for and what the view, or 100 without one, allows. |
| Planner.AllowedFilterFields | go/query/query_planner.go:184-189 | The set of fields the chosen view offers as filters. |
| Planner.SortableFields | go/query/query_planner.go:238-243 | The set of sortable names. |
| Planner.JqlOrderWins | go/query/query_planner.go:245-267 | The ORDER BY of every accepted JQL text is the sort of the plan, over the sort parameter and the view's default. |
| Planner.SortWithoutJql | go/query/query_planner.go:245-267 | Without a JQL order a sortable field of the request decides, else a sortable default of the view, else the newest come first. |
| Planner.AppendBody | go/query/query_planner.go:172-236 | Tenant, not deleted, policies, filters and JQL in this order on one parameter list. |
| Planner.AppendCursor | go/query/query_planner.go:272-298 | The cursor step: an error for a cursor of another sort or without a valid id, else the keyset condition and its parameters. |
| Planner.PlanList | go/query/query_planner.go:137-315 | The whole planner with all its errors. |
| PlanMeaning.PlanSelects | go/query/query_planner.go:308-314 | The joined WHERE text is read completely as one condition, and it is TRUE of a row exactly when the row passes tenant, not deleted, policies, filters, JQL and cursor. |
| PlanMeaning.SelectedRowsAreContained | go/query/query_planner.go:172-236 | Whatever JQL, filters, sort and cursor say, a selected row has the caller's tenant, is not deleted and satisfies the record-policy clause. |
| PlanMeaning.ListedRowsAreReadable | go/query/query_planner.go:178-182 | Every row a list request returns is one Get would return to the same caller, for policies in scope of the agreement. |
| RowOrder.SortedIsUnique | go/query/query_planner.go:300-306 | With unique ids an ordered listing is determined by which rows are in it. |
| RowOrder.AfterIsTail | go/query/query_planner.go:106-133 | The rows after position k of a listing are its tail. |
| Pagination.ListPage | go/crud/list.go:61-110 | Reading limit+1 rows, cutting the page and pointing at its last row when there is more. |
| Pagination.ExactForData | go/crud/helpers.go:462-495 | For a sort field in `data`, the cursor text equals the sort key: always for strings, booleans and missing values, for a number if and only if its reformatted text is the stored text. |
| Pagination.AfterItsCursor | go/query/query_planner.go:122-133 | The keyset condition of an exact cursor holds exactly for the rows that come after its row in ORDER BY order. |
| Pagination.ExactCursorPasses | go/query/query_planner.go:122-133 | An exact cursor selects exactly the rows of the list that follow its row. |
| PageWalk.KeysetIsExact | go/query/query_planner.go:106-133 | Among all rows there could be, the keyset condition of a row's cursor selects exactly the rows after it if and only if the cursor is exact. |
| PageWalk.NumberComesBack | go/crud/helpers.go:462-495 | The failing family, on an ascending sort by a field in `data`: a number whose reformatted text sorts before the stored one is returned again by the request with its own cursor. |
| PageWalk.NumberHidesItsTwins | go/crud/helpers.go:462-495 | When it sorts after, a later row with the same number is left out. |
| Pagination.PlanAtCursor | go/query/query_planner.go:272-298 | A request with the cursor of one of its rows plans like the first one, plus that cursor. |
| Pagination.FetchAfter | go/crud/list.go:61-110 | A request with the cursor of a row fetches exactly the listed rows its keyset condition selects, in order. |
| Pagination.NextFetch | go/crud/list.go:61-110 | It fetches the list from the row after it on if and only if that cursor selects exactly the rows of the list that follow. |
| Pagination.RequestPage | go/crud/list.go:61-110 | One request from a page boundary that passes: the next rows, a cursor exactly when more follow, pointing at the last one. |
| Pagination.WalkPages | go/crud/list.go:61-110 | Following nextCursor to the end terminates and returns the whole list, every matching row once and in order, when the cursors of the page ends pass; nothing is asked of other rows. |
| PageWalk.BadPage | go/crud/list.go:61-110 | A boundary that does not pass yields an empty last page or one that starts at the wrong row. |
| PageWalk.WalkIsWholeExactly | go/crud/list.go:61-110 | A walk that comes to its end has returned the whole list if and only if the cursors of all its page ends pass. |
| Pagination.WholeListIsExact | go/query/query_planner.go:300-314 | That whole list is sorted, repeat-free, and holds exactly the rows of the table the request selects. |
| Pagination.PageIsSlice | go/crud/list.go:91-110 | A page is the first `limit` rows of what is left. |
| Pagination.LimitZeroShowsNothing | go/crud/list.go:91-110 | With an effective limit of 0 there is no row and no cursor, whatever was fetched. |
| Permission.ResolveAttributePath | go/permission/resolve.go:60-74 | The walk along a dotted path; null at the first missing segment. |
| Permission.AttributeSource | go/permission/resolve.go:42-74 | An attribute that begins with `$ctx.` is read from the context by the rest of its path, any other from the subject. |
| Permission.ContextByKey | go/permission/resolve.go:10-40 | What each key of the context gives: an attribute of the request first, then tenant, user and function when given, and the roles as a list of texts. |
| Permission.EvaluateCondition | go/permission/evaluate.go:183-215 | Early-exit evaluation of nested groups equals the condition's truth. |
| Permission.OrderingByValue | go/permission/evaluate.go:20-43 | gt, gte, lt and lte on all pairs of values: numbers by value, texts by their characters, null as 0 or the empty text, and nothing else has an order. |
| Permission.EqualByValue | go/permission/evaluate.go:7-17 | eq and neq by value: numbers by canonical text, arrays item by item, objects field by field, different kinds never. |
| Permission.ListByValue | go/permission/evaluate.go:65-82 | in, notIn, contains and notContains: some item is equal, or none is; null is an empty list, and with anything else neither matches. |
| Ordering.TextLessByFirstDifference | go/permission/evaluate.go:31-43 | The order of texts: the first difference decides, and a text comes before every longer one that begins with it. |
| Permission.RoleGatePassed | go/permission/evaluate.go:101-113 | Open without roles, else exactly when the caller has one of them. |
| Permission.EvaluatePolicyRow | go/permission/evaluate.go:115-133 | A row matches when its gate is open and its condition holds on its subject. |
| Permission.MatchesExactly | go/permission/evaluate.go:101-133 | A row matches if and only if it names no role or one of the caller's, and has no condition or one that holds, of the record for a record policy that is given one and of the context otherwise. |
| Permission.EvaluatePolicies | go/permission/evaluate.go:148-162 | Deny if any deny row matches, else Allow if any allow row does, else NoMatch. |
| Permission.VerdictByRows | go/permission/evaluate.go:148-164 | Denied exactly when a matching row denies, and no match exactly when no row matches. |
| Permission.VerdictOfReordering | go/permission/evaluate.go:148-162 | The verdict is the same under any reordering of the rows. |
| Permission.ExplainRow | go/permission/policyexplainer.go:61-97 | The trace entry of one row says which gate decided and whether it matched. |
| Permission.ExplainPolicies | go/permission/policyexplainer.go:54-113 | One entry per row, and "allowed" exactly when there are no rows or the verdict is Allow. |
| Permission.MatchStabilityOf | go/permission/permissionsnapshot.go:95-109 | Always, never or depending on the record. |
| Permission.StabilityIsExact | go/permission/permissionsnapshot.go:95-109 | The stability of a row is what its matching, by role gate, subject and condition, can be under any outcome of the record conditions. |
| Permission.VerdictIsRecordDependent | go/permission/permissionsnapshot.go:111-139 | The static analysis `RecordDependenceIsExact` is about. |
| Permission.RecordDependenceIsExact | go/permission/permissionsnapshot.go:95-139 | It says "dependent" if and only if two assignments of outcomes to the record-subject conditions give different verdicts. |
| Permission.IndependentVerdict | go/permission/permissionsnapshot.go:111-139 | A verdict it calls independent is the same on every record. |
| Snapshot.PermissionSnapshotFromRows | go/permission/permissionsnapshot.go:32-49 | Every row is in exactly the group its subject, field and action say, in row order. |
| SnapshotRows.EntityActionExactly | go/permission/permissionsnapshot.go:55-64 | An action on an entity is permitted if and only if the token's scope covers it and the caller is an admin, or among the rows of the table with this tenant, entity, action, no field and subject context some matching row allows and none denies. |
| SnapshotRows.TransitionExactly | go/permission/permissionsnapshot.go:66-76 | The same for one transition action: the rows for transitions in general and for this action decide together. |
| SnapshotRows.RecordCheckExactly | go/permission/permissionsnapshot.go:246-258 | A record passes if and only if the caller is an admin, the tenant has no record row for this entity and action, or those rows allow it. |
| SnapshotRows.ReadableExactly | go/permission/permissionsnapshot.go:170-198 | A field can be read if and only if the caller is an admin, no row of the tenant is about reading it, or those rows allow it on this record. |
| SnapshotRows.ScopeExactly | go/permission/context.go:51-89 | A request with a scope may act if and only if one of its tokens is the verb with a star or with the entity; creating and updating are both `write`. |
| SnapshotRows.TenantExactly | go/permission/permissionservice.go:31-36 | The tenant is the request's tenant id, if and only if that is present and a UUID. |
| Snapshot.EntityCheckAgrees | go/permission/permissionservice.go:38-76 | On the same policy table the snapshot's entity check and the store-backed check give the same answer. |
| Snapshot.TransitionCheckAgrees | go/permission/permissionservice.go:100-129 | The same for the per-action transition check, generic and specific policies together. |
| Snapshot.NoTenantIsAnError | go/permission/permissionservice.go:38-76 | The store-backed check fails with an error if and only if it gets past scope and admin and the caller has no tenant. |
| Snapshot.ReadPoliciesByField | go/permission/permissionsnapshot.go:148-198 | The read policies grouped by field. |
| Snapshot.FilterReadableFields | go/permission/permissionsnapshot.go:170-198 | The result is the record restricted to exactly its readable fields. |
| Snapshot.RecordStateDependentReadFields | go/permission/permissionsnapshot.go:148-166 | Exactly the fields whose read verdict the analysis calls dependent; none for an admin. |
| Snapshot.BuildProbe | go/crud/audit_events.go:85-95 | The probe record: current values, and null for declared fields without one. |
| Snapshot.NamesOutside | go/crud/audit_events.go:106-113 | The readable names that are not state-dependent. |
| Snapshot.AuditDiffVisibility | go/crud/audit_events.go:58-115 | Which names an audit diff may show. |
| SnapshotRows.HiddenExactly | go/crud/audit_events.go:58-83 | A diff is hidden altogether if and only if the caller is no admin and the record rows for reading can depend on the record. |
| Snapshot.MaskDiff | go/crud/audit_events.go:119-136 | The diff restricted to exactly those names. |
| Snapshot.AuditIgnoresCurrentState | go/crud/audit_events.go:47-115 | For any two current states of the record, also a deleted one, the same declared fields are shown. |
| Snapshot.ShownFields | go/crud/audit_events.go:58-115 | A declared field is shown if and only if neither record access nor the field's verdict can depend on the record and the verdict on an empty record is Allow, or nothing restricts it. |
| Ordering.SortedKeys | go/reconciler/diff.go:282-289 | All keys, strictly ascending. |
| Normalize.StripCasts | go/reconciler/normalize.go:27-57 | The loop removes exactly the casts the specification removes. |
| Normalize.StripTwice | go/reconciler/normalize.go:27-57 | Stripping again changes nothing. |
| Normalize.StrippedHasNoCast | go/reconciler/normalize.go:27-57 | What is left holds no cast marker. |
| Normalize.BareText | go/reconciler/normalize.go:14-25 | The loop that drops quotes and parentheses. |
| Normalize.PunctuationIgnored | go/reconciler/normalize.go:14-26 | A quote or a parenthesis more or less makes no difference. |
| Normalize.CaseIgnored | go/reconciler/normalize.go:14-26 | Upper or lower case makes no difference anywhere, inside casts as well. |
| Normalize.BlanksIgnored | go/reconciler/normalize.go:14-26 | How long a run of blanks is and which blanks it has makes no difference. |
| Normalize.TrimIgnored | go/reconciler/normalize.go:14-26 | Nor do blanks around a text. |
| Normalize.CastIgnored | go/reconciler/normalize.go:28-62 | A cast to any type, with or without balanced arguments, makes no difference. |
| Normalize.NormalIsKept | go/reconciler/normalize.go:14-26 | A text in normal form is its own, so different ones stay apart. |
| Reconcile.QuotesAreNoDifference | go/reconciler/diff.go:220-236 | A finished table whose index texts are the desired ones without their quotes: Diff asks for nothing. |
| Reconcile.OtherTextIsRebuilt | go/reconciler/diff.go:141-151 | An index with another text, both in normal form, is dropped and built again. |
| Reconcile.RebuiltExactly | go/reconciler/diff.go:141-151 | On a table with every desired column an index is dropped and built again if and only if it is invalid or differs in normal form, uniqueness, method or covered rows. |
| Reconcile.ReplacedExactly | go/reconciler/diff.go:168-189 | A foreign key is replaced if and only if its column, target or delete rule differs, and validated if and only if it is replaced or not yet valid. |
| Reconcile.DiffOrder | go/reconciler/diff.go:247-280 | Columns, triggers and fills come in this order before anything is dropped, drops before anything is created, constraints before indexes when dropping and after them when adding, and validation last. |
| PhysicalSchema.TopoSort | go/reconciler/diff.go:247-280 | The stable sort by rank. |
| PhysicalSchema.StableSortSorts | go/reconciler/diff.go:247-280 | It is sorted by rank and a permutation. |
| SchemaDiff.ApplyRenames | go/reconciler/diff.go:107-124 | A rename applies only from a column that is there to one that is wanted and free; the copy later steps see. |
| SchemaDiff.AppendFor | go/reconciler/diff.go:126-206 | One family of operations, over its names in sorted order. |
| SchemaDiff.Diff | go/reconciler/diff.go:97-209 | The result starts with the table or the renames and then holds exactly the wanted operations, each once, by rank. |
| SchemaDiff.DiffExists | go/reconciler/diff.go:97-209 | There is a Diff for whatever was introspected and whatever renames are given. |
| SchemaCompiler.Fnv1a | go/reconciler/compile.go:100-107 | The 32-bit hash. |
| SchemaCompiler.CreateTableAgrees | go/reconciler/executor.go:153-168 | The columns of CREATE TABLE are the framework columns every schema asks for, with their types and nullability. |
| SchemaCompiler.HexSpells | go/reconciler/compile.go:113-131 | The digits spell the number they are made from, so hashes and suffixes determine each other. |
| SchemaCompiler.CompositeUniqueIndexName | go/reconciler/compile.go:113-139 | Every composite index name fits the identifier limit in bytes. |
| SchemaCompiler.CompositeName | go/reconciler/compile.go:113-139 | The name is the table and the fields in order when that fits; otherwise the longest run of its whole characters that leaves room for an underscore and eight digits, which spell the hash of the whole name. |
| SchemaCompiler.Compile | go/reconciler/compile.go:166-304 | The compiler with its errors, as the specification `CompileIsCompiled` is about. |
| SchemaCompiler.CompileIsCompiled | go/reconciler/compile.go:166-304 | Every compiled schema has no unique constraints, only partial unique indexes, foreign keys on columns it has, the framework columns, and beside them only columns synced from the field of their name. |
| CompiledIndexes.CompiledFieldIndexes | go/reconciler/compile.go:166-283 | In every compiled schema each field has exactly the indexes its declaration asks for: name, key, uniqueness, rows covered, and whether the tenant leads. |
| CompiledIndexes.CompiledConstraintIndex | go/reconciler/compile.go:285-304 | And every composite constraint whose name no later one takes. |
| ColumnAgreement.OwnColumnIsReal | go/metadata/entity.go:146-151 | A field has a real column if and only if it is a reference that names an entity or is declared to be stored in a column. |
| ColumnAgreement.CompiledField | go/reconciler/compile.go:187-282 | Of a field with a name of its own: it has a synced column of its type, and a reference its foreign key to the referenced table, if and only if it has a real column and is unique when searchable. |
| ColumnAgreement.QueriesReadAlike | go/metadata/entity.go:146-151 | Filters, sorts and JQL read the same names from columns: those of the fields with a real column. |
| ColumnAgreement.ColumnTypesAgree | go/query/jql_codegen.go:25-42 | JQL compares every kind of field as the type of its column; money columns are narrowed, and what is compared without a type is stored as text or JSON. |
| ColumnAgreement.ConstraintField | go/reconciler/compile.go:285-304 | A composite constraint keys on the field declared with the name, or on data text for an undeclared one. |
| ColumnAgreement.ReadColumnExists | go/reconciler/compile.go:202-234 | A column that queries read is in the compiled schema if and only if its field is not searchable without being unique. |
| ColumnAgreement.SidesAgree | go/metadata/entity.go:146-151 | On a whole entity every column that queries read exists if and only if no field loses its column that way. |
| ColumnAgreement.SearchableReferenceLosesColumn | go/reconciler/compile.go:202-234 | An entity that compiles and whose one field is read from a column and a foreign key it does not have. |
| ColumnAgreement.ReferenceHasForeignKey | go/reconciler/compile.go:156-260 | Every reference has its foreign key, with its target, if and only if it is unique when searchable. |
| Reconcile.AfterStep | go/reconciler/diff.go:126-206 | Each operation at its turn keeps the invariant that says which part of the target is reached. |
| Reconcile.EnabledNext | go/reconciler/diff.go:247-280 | The schema allows each operation at its turn: what it needs is there and the names it takes are free. Triggers are not looked at here. |
| Reconcile.RestReaches | go/reconciler/diff.go:97-209 | When all are done, exactly the desired indexes and foreign keys are there, and each matches unless it was kept and rewritten by a rename. |
| Reconcile.DiffIsEmptyIffSettled | go/reconciler/diff.go:97-209 | On a schema with every desired column Diff, with any renames, is empty if and only if the schema is settled. |
| Introspection.IntrospectionDescribes | go/reconciler/introspect.go:63-88 | What Introspect returns has the table's own columns, indexes, constraints and foreign keys. |
| Introspection.LedgerAt | go/reconciler/executor.go:115-144 | Over any run of operations the completed backfills and the triggers grow by exactly what the operations fill and install. |
| Introspection.ReadyIffCovered | go/reconciler/introspect.go:69-85 | A column reads back as backfilled if and only if ledger row and trigger of its own name were there before the pass or made by it. |
| Introspection.UncoveredIsRenamed | go/reconciler/diff.go:107-139 | Only a column that an emitted rename produced can be left without them. |
| Convergence.OnePassSettlesExactly | go/reconciler/diff.go:97-209 | For any compiled schema, any table whose unique constraints own their index, any ledger and triggers and any renames: once the operations have run to the end, Diff on what Introspect reads is empty if and only if every synced column is covered and what was kept still matches after the renames. |
| Convergence.UnusedRenamesKeepPace | go/reconciler/diff.go:107-124 | When the table before the pass uses no renamed column in an index or a foreign key, the condition comes down to covering every synced column. |
| Convergence.FullPassSettles | go/reconciler/diff.go:97-209 | A pass that emits no rename and ran to its end leaves nothing to do. |
| Convergence.TwoFullPassesSettle | go/reconciler/diff.go:107-124 | Whatever the renames are, two passes that ran to their end leave nothing to do. |
| Progress.TurnIsEnabledExactly | go/reconciler/executor.go:237-251 | At its turn each operation can be carried out if and only if it is no backfill, or the store before the pass had no row to fill or no trigger, installed or to be installed, of a column the table will lack. |
| Progress.EnabledCanStep | go/reconciler/executor.go:115-144 | What can be carried out has an outcome. |
| Progress.PassRunsExactly | go/reconciler/executor.go:84-113 | A pass can be run to its end if and only if the store before it has nothing to fill, or no row to fill, or no trigger in the way. |
| Progress.OnePassConverges | go/reconciler/diff.go:97-209 | A pass without renames runs to its end if and only if, when it fills rows, every trigger names a column of the table or a desired one; then nothing is left to do. |
| Progress.TwoPassesConverge | go/reconciler/reconcile.go:29-46 | After a full pass the next one can be run to its end if and only if, on the store before both, no trigger is in the way of a row or every synced column is covered; once it has run nothing is left to do. |
| Progress.ConvergesExactly | go/reconciler/reconcile.go:29-46 | Two passes, run in any way the database allows, run to their end and leave nothing to do if and only if those conditions hold on the store before them. |
| StaleTriggers.UnfilledRenameFails | go/reconciler/diff.go:136-137 | The failing family: on a table with rows a pass that renames a column not filled yet cannot be finished. |
| StaleTriggers.FilledRenameFails | go/reconciler/executor.go:171-172 | The failing family: once a filled column is renamed on a table with rows, the next pass cannot be finished. |
| StaleTriggers.OldTriggerStopsBackfill | go/reconciler/executor.go:237-251 | One column `old` renamed `new` over a row: the trigger of `old` is left, the next pass asks for a backfill and cannot be finished. |
| StaleTriggers.StuckForever | go/reconciler/executor.go:237-251 | Once a left-over trigger stands over a row and a column waits for its backfill, no later try at a pass ever finishes, whatever else is renamed and wherever the tries break off, while the desired schema does not bring the old name back. |
| Convergence.RenameUndoesBackfill | go/reconciler/introspect.go:69-85 | The failing family: a complete column that is renamed is neither filled by that pass nor taken as filled by the next. |
| Convergence.OldIsRenamed | go/reconciler/diff.go:107-124 | One column `old` renamed `new`: the pass is the rename alone. |
| Convergence.RenamedColumnExample | go/reconciler/introspect.go:69-85 | After that pass the next one is not empty. |
| Convergence.EveryOpIsEnabled | go/reconciler/diff.go:247-280 | The same over a whole pass with its renames, for every prefix that has run. |
| Convergence.CrashLeavesOwned | go/reconciler/diff.go:141-206 | After any prefix, also cut short inside an operation, constraints still own their indexes. |
| Recovery.RenamesResume | go/reconciler/diff.go:107-124 | A list of renames that takes no desired name, cut short anywhere and applied again, leads to the same column names. |
| Recovery.CrashStaysUnhindered | go/reconciler/executor.go:93-105 | With such a list a crash or failure anywhere in a pass puts no trigger in the way of a row. |
| Recovery.CrashedPassConverges | go/reconciler/diff.go:97-209 | After a crash anywhere, leaving an invalid index, an unvalidated foreign key or an incomplete ledger row, the next pass runs and two passes converge under exactly the conditions on what is left, and they do when no trigger was in the way before. |
| Recovery.EntityConverges | go/reconciler/compile.go:166-304 | The same stated for every entity that compiles, for the pass itself and for the one after a crash in it. |
| Recovery.TakenNameLeavesTrigger | go/reconciler/diff.go:107-124 | The failing family: `a` listed as a rename to `b` and `b` to `c`, cut short after the rename of `b`, cannot be finished on a table with rows. |
| Recovery.TakenNameExample | go/reconciler/diff.go:107-124 | Two complete columns over a row for which no trigger was in the way before the pass. |
| Convergence.NoColumnIsLost | go/reconciler/diff.go:107-139 | Over any run of operations every original column survives under its own or a renamed name, with its type. |
| Convergence.ColumnsStayApart | go/reconciler/diff.go:107-124 | Two original columns never end up under one name. |
| Backfill.MaxUuid | go/reconciler/backfill.go:137-145 | The largest id of a batch. |
| Backfill.PickBatch | go/reconciler/backfill.go:71-83 | The smallest ids above the checkpoint, at most the batch size. |
| Backfill.Table.LoadCursor | go/reconciler/backfill.go:149-164 | The saved checkpoint, or the nil id. |
| Backfill.Table.UpdateBatch | go/reconciler/backfill.go:71-109 | One batch statement: exactly the smallest ids in scope above the checkpoint, at most the batch size, are filled. |
| Backfill.Table.SaveProgress | go/reconciler/backfill.go:166-174 | The checkpoint moves and the operation counts as incomplete. |
| Backfill.Table.MarkCompleted | go/reconciler/backfill.go:176-183 | The operation is complete and the checkpoint kept. |
| Backfill.Table.RunBatchedUpdate | go/reconciler/backfill.go:54-133 | Undisturbed, the loop terminates and fills exactly the rows in scope above the checkpoint. |
| Backfill.StepKeepsInv | go/reconciler/backfill.go:54-133 | Batches, restarts, crashes, inserts, updates and removals keep the checkpoint invariant, from any checkpoint on. |
| Backfill.NeverReached | go/reconciler/backfill.go:71-83 | A row at or below the first checkpoint is unsynced exactly as long as it was so at the start and nobody has written it. |
| Backfill.CompletedMeansSynced | go/reconciler/backfill.go:54-133 | Over every run, from any ledger: once this backfill has completed, every row in scope holds its source value if and only if no row was left behind at or below the checkpoint it began with; no row is committed twice. |
| Backfill.CompletedForTenants | go/reconciler/backfill.go:66-86 | The same written out: for one tenant it is every row of that tenant, for all tenants every row of the table. |
| Backfill.BatchLeavesOthers | go/reconciler/backfill.go:66-86 | A batch of one tenant's backfill changes no row of another and none at or below its cursor. |
| Backfill.OnlyNilIsLeft | go/reconciler/backfill.go:149-164 | From a new ledger only the row with the nil id can be left behind, and the ledger says complete only when it is. |
| Backfill.BatchesUseRowsUp | go/reconciler/backfill.go:54-133 | Every committed batch leaves strictly fewer rows above the checkpoint. |
| Backfill.ResumesWhereItStopped | go/reconciler/backfill.go:149-174 | Crash and restart after a batch continue exactly after it. |
| Crud.MergePayload | go/crud/update.go:94-105 | The merged record: what was read, overlaid by the payload, with a stored state put back. |
| Crud.RejectSystemFields | go/crud/system_fields.go:15-26 | Exactly the system fields present in a payload. |
| Crud.RecordRow.UpdateRecord | go/crud/update.go:42-151 | The call with nobody else at work: read, checks, merge, validation, recomputation and conditional write give the outcome the runs are about. |
| Crud.RecordRow.TransitionRecord | go/crud/transition.go:86-171 | The same for a transition. |
| Crud.RecordRow.DeleteRecord | go/crud/delete.go:110-123 | The same for a delete. |
| Crud.RecordRow.WriteUpdate | go/crud/update.go:138-152 | Succeeds exactly on an undeleted record at the expected version; the new row keeps the stored system values. |
| Crud.RecordRow.WriteTransition | go/crud/transition.go:165-171 | The same condition; the new row has the target as its status. |
| Crud.RecordRow.WriteDelete | go/crud/delete.go:110-123 | The same condition; the row is marked deleted. |
| Crud.RecordRow.WriteSystemFields | go/crud/system_fields.go:35-83 | Overlays the patch on an undeleted row without a new version. |
| Crud.WritesAreLossless | go/crud/update.go:42-151 | In every interleaving each version is replaced by at most one successful write, and a write derives from exactly the version it replaces if and only if the record had reached the expected version when the call read it. |
| Crud.CommitSucceedsExactly | go/crud/update.go:107-151 | A commit succeeds if and only if the record is not deleted, is at the expected version and the call's data is accepted; otherwise it leaves the record alone. |
| Crud.DeletedStaysGone | go/crud/delete.go:110-123 | Over every run a deleted record is never found again, never written, and does not change. |
| Payload.WritesStoreFields | go/crud/update.go:94-151 | Over every run, for every committed write whose call had read the expected version and every field that is neither computed, a reference nor a system field: an update stores the payload's value or keeps what was there, a transition its target, its set-fields, the payload's value or what was there, and a delete changes no data. |
| Crud.UpdateKeepsSystem | go/crud/update.go:138-152 | After every committed update the system values are those stored at the moment of the write, however recently. |
| Payload.SystemFieldKeptExactly | go/metadata/entity.go:102-107 | Over every run a step that is no system write leaves every plain system field as stored, except that a transition does so if and only if its set-field or payload value is the stored one, or neither names the field and it has not changed since the call read it. |
| Crud.TransitionUndoesSystemWrite | go/crud/transition.go:165-171 | A run in which a system write commits between the read and the write of a transition, and the transition puts back what it had read. |
| Crud.TransitionStoresSystemField | go/crud/transition.go:120-137 | A run in which a transition stores a system field its payload names, while an update with that payload is refused. |
| Crud.UpdateKeepsExactly | go/crud/update.go:94-111 | A stored state stays through a committed update that derives from the version it replaces if and only if validation and recomputation leave it alone at that data. |
| Crud.TransitionMovesExactly | go/crud/transition.go:86-170 | A committed transition that derives from the version it replaces leaves the state the record is in by a transition declared for the action and enters its target if and only if validation leaves the target alone. |
| Crud.StateMovesByTransitions | go/crud/transition.go:86-170 | Over every run, on a record that holds a state: steps without a versioned write keep it, and a write whose call had read the expected version moves it as declared under exactly those conditions. |
| Crud.ComputedStateMoves | go/crud/helpers.go:31-46 | The failing family: with a computed state field a run in which an update moves the state and no transition is declared. |
| Payload.ValidatePayload | go/crud/validation.go:63-142 | The stored form when every field is accepted, with references in canonical form and all else untouched; otherwise exactly the fields at fault. |
| Payload.AcceptsExactly | go/crud/validation.go:22-55 | Which values a field takes, value by value, with null, required and the length bounds. |
| Payload.ValidatedAgain | go/crud/validation.go:57-62 | With distinct field names, and when a canonical UUID parses to itself, validating what validation returned changes nothing. |
| Payload.RenderExpression | go/metadata/computed.go:24-46 | The loop renders exactly the tokens of a template. |
| Payload.RenderedByTokens | go/metadata/computed.go:5-46 | A rendering depends on nothing but the listed tokens. |
| Payload.RecomputeFields | go/crud/helpers.go:28-46 | The loop over computed fields in declaration order. |
| Payload.ComputedFieldHolds | go/crud/helpers.go:28-46 | When no template mentions a computed field, each computed field is its template rendered over the given data and over the result, so the order plays no part. |
| Payload.RecomputedAgain | go/crud/helpers.go:28-46 | Recomputing again changes nothing. |
| Payload.FieldKeptExactly | go/crud/helpers.go:28-46 | Validation and recomputation leave a field alone if and only if it is not computed, or its template gives its value, and it is no reference, or is in canonical form. |
| Payload.PlainStateMovesByTransitions | go/crud/transition.go:86-170 | Over every run, a state in a field that is neither computed nor a reference moves only by a transition declared for its action. |
| Payload.ComputedStateExample | go/metadata/compiler.go:134-186 | A state field computed as a constant text: a run in which an update moves the state and no transition is declared. |
| Crud.FutureVersionLosesData | go/crud/update.go:107-151 | A run in which a call expects a version it has not read: both updates succeed and the second erases what the first stored. |
| Crud.MissingStateCanBeSet | go/crud/update.go:94-105 | A run in which a committed update gives a record its first state. |
| Steps.Chain.RunStepRange | go/cronscheduler/steps.go:55-98 | A segment ends paused, failed, misconfigured or finished exactly where the steps say, having executed exactly the steps up to there. |
| Steps.EndsAtFirstStop | go/cronscheduler/steps.go:55-98 | A segment pauses, fails or gives up at the first step it does not get past, as that step says, and finishes when there is none. |
| Steps.RunTable.ResumeMatching | go/cron/workflow_run.go:93-157 | Every matching waiting run is set running and handed out once, at the step after its pause; no other row changes. |
| Steps.ResumedByItsEvent | go/cron/workflow_run.go:93-107 | Over every run an event releases the run if and only if it is paused at a step that waits for that entity and that very action or record event. |
| Steps.ChainsRunInOrder | go/cronscheduler/steps.go:55-142 | Over every run with concurrent events and crashes: at most one process works on a chain, executed steps are an in-order, repeat-free prefix of the steps that do work, and each pause is resumed at most once. |
| Steps.ChainsEndAsTheySay | go/cronscheduler/steps.go:55-142 | Success means the prefix is complete; failed means the failing step is the last that ran. |
| Cron.BackoffDelay | go/cron/run_lifecycle.go:15-25 | The 64-bit duration, and that it is base times 2^min(attempt-1, 30) seconds if and only if that is at most 9223372036 seconds. |
| Cron.ExponentOfAttempt | go/cron/run_lifecycle.go:15-25 | From the first attempt on the exponent is attempt - 1, at most 30. |
| Cron.RunHistory.Fire | go/cron/dispatch.go:174-196 | A firing starts with attempt 1. |
| Cron.RunHistory.FinishRunWithRetry | go/cron/run_lifecycle.go:58-73 | The outcome is recorded, and exactly a failure with attempts left adds the next attempt, due one backoff after now. |
| Cron.RetryDelay | go/cron/run_lifecycle.go:15-25 | From the first attempt on that wait is base times 2^min(attempt-1, 30) seconds if and only if this is at most 9223372036 seconds in magnitude. |
| Cron.RunHistory.Execute | go/cronscheduler/dispatch.go:56-98 | A run that is already finished is not executed again. |
| Cron.RunHistory.FailDeliveredTwice | go/cronscheduler/dispatch.go:56-98 | A failing run whose message arrives twice is executed once. |
| Cron.RunHistory.FailUntilExhausted | go/cron/run_lifecycle.go:58-73 | A firing that always fails is executed exactly the maximum number of times, with attempts 1, 2, ..., each but the first due one backoff after the failure before it, although every message arrives twice. |
| Cron.RetriesAreBounded | go/cron/dispatch.go:200-269 | Over every run with crashes, redeliveries, overlapping executions and stale reclaims, every run row ever created has an attempt between 1 and the maximum. |
| Cron.JobTable.ClaimDueJobs | go/cron/dispatch.go:29-97 | Exactly the locked due jobs move on, each with one run for the time it was due. |
| Cron.FiresOnceExactly | go/cron/job_crud.go:183-202 | Over every run with concurrent tickers and edits whose clock read and write are separate steps, the scheduled times of first attempts strictly increase if and only if no edit computes from the clock it read a time no later than the last that fired and a claim fires the job before another edit is written. |
| Cron.NoOccurrenceFiresTwice | go/cron/dispatch.go:29-97 | They do when no edit's job has fired after the clock the edit read. |
| Cron.QuietEditIsTimely | go/cron/job_crud.go:183-202 | Which holds when nothing fires between an edit's read and its write. |
| Cron.SplitEditFiresTwice | go/cron/job_crud.go:183-202 | A run in which a claim between an edit's read and write makes one occurrence fire twice. |
| Outbox.Table.PublishPending | go/outboxpublisher/run.go:98-155 | On a locked batch each row is marked published exactly when the bus accepted it, a refused one waits with one more attempt, and nothing else changes. |
| Outbox.MessagesExactly | go/outboxpublisher/run.go:98-156 | The bus gets one message for each accepted row of the batch, with its own topic and payload, and no other. |
| Outbox.Table.EnqueueThenPublish | go/infra/outbox.go:27-39 | What was enqueued is what the bus gets, and no other row changes. |
| Outbox.PublishedWasDelivered | go/outboxpublisher/run.go:98-149 | Over every run with concurrent publishers, failures and crashes, a row marked published has had its message accepted. |
| Outbox.NothingIsLost | go/infra/outbox.go:27-39 | A row stays with its topic and payload, pending or published, and never goes back to pending. |
| Outbox.ExactlyOnceWithoutCrashes | go/outboxpublisher/run.go:98-155 | Without crash or database error no row has two successful publishes and a published row exactly one. |
| Outbox.CrashRepeatsPublish | go/outboxpublisher/run.go:98-144 | A crash between publish and commit repeats the publish. |
| OAuthScope.ScopeIsSubset | go/oauthserver/scope.go:17-29 | True exactly when every requested token is allowed. |
| OAuthScope.FieldsOfJoin | go/oauthserver/scope.go:10-12 | Splitting joined tokens gives them back. |
| OAuthScope.MergeScope | go/oauthserver/consent.go:158-172 | The merge loop of a consent. |
| OAuthScope.MergedIsUnion | go/oauthserver/consent.go:143-172 | A merged consent holds exactly what was there and what was approved. |
| OAuth.TokenStore.CreateAuthorizationCode | go/oauthserver/code.go:52-73 | A new unused code that expires after 60 seconds. |
| OAuth.TokenStore.ConsumeAuthorizationCode | go/oauthserver/code.go:91-107 | Returns a code only for its client and redirect, unused and unexpired, and marks it used in the same step. |
| OAuth.TokenStore.ConsumePendingAuthorization | go/oauthserver/consent.go:108-123 | Removes and returns a request only for its own tenant and user. |
| OAuth.TokenStore.RecordConsent | go/oauthserver/consent.go:152-180 | Widens the one consent of that client and user, when nothing is written between its two statements. |
| OAuth.TokenStore.CreateRefreshToken | go/oauthserver/refresh.go:73-91 | A new live token for 30 days. |
| OAuth.TokenStore.ConsumeRefreshToken | go/oauthserver/refresh.go:107-159 | Invalid changes nothing; a revoked token revokes all of that client and user; otherwise it is revoked in favour of one successor. |
| OAuth.TokenStore.RevokeRefreshToken | go/oauthserver/refresh.go:166-172 | Revokes only the client's own token and is silent otherwise. |
| OAuth.TokenStore.Authorize | go/httpserver/routes_oauth2.go:208-291 | Refuses exactly the requests that fail a check, without a change; else a code when the consent covers the scope, or a request to decide. |
| OAuth.TokenStore.Decide | go/httpserver/routes_oauth2.go:302-353 | Approving records the consent and issues the code, once. |
| OAuth.TokenStore.Redeem | go/httpserver/routes_oauth2.go:467-527 | A code is used up even when the proof or the minting after it fails; else one access and one refresh token with its scope. |
| OAuth.TokenStore.Refresh | go/httpserver/routes_oauth2.go:529-587 | A wider scope than granted rolls the rotation back; reuse commits the revocation. |
| OAuthRuns.UninterruptedApproval | go/httpserver/routes_oauth2.go:326-352 | With nothing in between, the statements of an approval are the one step of Decide. |
| OAuthRuns.UninterruptedAuthorize | go/httpserver/routes_oauth2.go:257-291 | With nothing in between, the statements of an authorize are the one step of Authorize. |
| OAuthRuns.UninterruptedRedemption | go/httpserver/routes_oauth2.go:467-527 | With nothing in between, the statements of a redemption are the one step of Redeem. |
| OAuthRuns.UninterruptedRefresh | go/oauthserver/refresh.go:107-159 | With nothing in between, the statements of a refresh are the one step of Refresh. |
| OAuthRuns.CodesRedeemOnce | go/oauthserver/code.go:91-107 | Over every run, statement by statement, a code is redeemed at most once. |
| OAuthOrigins.RedeemedAsIssued | go/oauthserver/code.go:91-107 | Over every run a code is exchanged if and only if it is stored, was not exchanged before, and was issued to the client and for the redirect that present it less than 60 seconds ago; tokens follow if and only if there is no challenge or the proof holds. |
| OAuthOrigins.MintedAsRedeemed | go/httpserver/routes_oauth2.go:500-520 | The tokens minted carry exactly the grant of a code that its own client presented. |
| OAuthOrigins.RefreshedByItsClient | go/oauthserver/refresh.go:107-139 | A refresh gets under way if and only if the token is stored, belongs to the client that presents it, and is revoked or not expired. |
| OAuthOrigins.RefreshCommits | go/oauthserver/refresh.go:126-159 | What each refresh commits, token by token: reuse, rotation within the granted scope, and nothing for a wider one. |
| OAuthOrigins.RevokedByItsClient | go/oauthserver/refresh.go:166-172 | A revocation takes exactly the token named, and only from its own client. |
| OAuthOrigins.ApprovedByItsUser | go/oauthserver/consent.go:108-123 | Over every run a request is approved if and only if it is stored and was made for the tenant and user who decide less than 600 seconds ago; it is then gone. |
| OAuthOrigins.DeniedByItsUser | go/oauthserver/consent.go:108-123 | A denial takes the request away under the same conditions and grants nothing. |
| OAuthOrigins.AuthorizedExactly | go/httpserver/routes_oauth2.go:208-255 | An authorize goes through if and only if client, tenant, redirect, challenge and scope are as they must be. |
| OAuthOrigins.RequestsAreChecked | go/httpserver/routes_oauth2.go:208-255 | Over every run every pending request, call and code passed those checks. |
| OAuthRuns.CommitChainsExactly | go/oauthserver/refresh.go:137-159 | A rotation keeps one live token per chain if and only if no other token of its chain is live when it commits. |
| OAuthRuns.OneLiveTokenPerChainExactly | go/oauthserver/refresh.go:107-159 | Over every run each chain has at most one live token at every step if and only if no rotation forks one. |
| OAuthRuns.OneLiveTokenPerChain | go/oauthserver/refresh.go:107-159 | It does when every rotation finds the token it read still unrevoked. |
| OAuthRuns.OverlappingRefreshesFork | go/oauthserver/refresh.go:110-114 | The failing interleaving: two refreshes that both read before either commits leave two live tokens in a chain. |
| OAuthRuns.ReuseRevokesEverything | go/oauthserver/refresh.go:126-135 | After a reused token no token of that client and user is live, and nothing is minted. |
| OAuthRuns.WriteConsentedExactly | go/oauthserver/consent.go:152-180 | Writing back a consent keeps every grant that is held within consent if and only if every token of it was read or is approved. |
| OAuthRuns.ScopesContainedExactly | go/httpserver/routes_oauth2.go:252-291 | Over every run every code, refresh token and user-delegated access token, and every call about to insert one, is within the client's allowed scope, and within the recorded consent at every step if and only if every written consent covers what is held. |
| OAuthRuns.ScopesAreContained | go/oauthserver/consent.go:152-180 | They are within both when every write finds the consent it read. |
| OAuthRuns.OverlappingApprovals | go/oauthserver/consent.go:147-180 | Two approvals that both read before either writes: the first one's code is within the stored consent if and only if each of its tokens was in the consent read or is approved by the second. |

## Left out

- HTTP and gRPC transport, authentication, rate limits, caches, tenant routing and provisioning, secret stores: transport or thin wrappers.
- Cryptography, JSON and UUID encodings, cron expressions and time zones: they appear as row ids, abstract codecs and an arbitrary strictly later next-run function.
- Text search, collation, numeric and timestamp casts inside the database: an arbitrary strict order and uninterpreted functions of the database.
- Error messages and failure reasons: errors are constructors; audit rows, outbox rows and notifications written beside a record are not part of the record model.
- PolicyAgreement.LeafAgrees: leaves over createdBy, updatedBy, status, createdAt and updatedAt, values of mixed types and ordering operators are not in scope, because the two evaluators read different values there; dotted (cross-record) conditions do not compile and their in-memory enrichment is not part of this model.
- PlanMeaning.ListedRowsAreReadable: inherits that scope.
- Pagination.WalkPages: the table does not change between pages and ids are unique; negative limits are not considered.
- PageWalk.KeysetIsExact: a database cast of a text gives no NULL, and the sort field is not a column named id.
- PageWalk.WalkIsWholeExactly: the same, with an effective limit of at least 1; that a walk with other cursors ends is not claimed.
- Permission.EvaluateCondition: the text of the failure reason is not part of this model.
- SchemaDiff.Diff: the order of operations of one rank is not fixed by the contract; the convergence theorems hold for every such order.
- Backfill.Table.RunBatchedUpdate: the extra WHERE of type-widening migrations is not part of this model; a reconcile passes none.
- Convergence.OnePassSettlesExactly: a new table may already hold the framework columns, adding a present column is a no-op, dropping a constraint drops its index, and a rename rewrites the column of a foreign key and, in some way, the index texts that mention it. Each unique constraint owns a predicate-free unique index of its name.
- Progress.PassRunsExactly: rows in scope do not appear or disappear during a pass, locks and statuses are not part of this model, a statement fails only for the reasons named, and names of triggers are not cut to 63 bytes. What a stale trigger does to the writes of users is not stated.
- Recovery.EntityConverges: that a crash leaves the conditions intact is stated for renames that take no desired name; for others the exact condition is on what the crash left.
- ColumnAgreement.CompiledField: field names are distinct, as the metadata validation demands.
- Normalize.BareText: letters and blanks are ASCII.
- Normalize.PunctuationIgnored: stated for texts without a cast marker; with one, `Normalize.CastIgnored` takes it out first.
- CompiledIndexes.CompiledFieldIndexes: for index names that no composite constraint takes.
- OAuthScope.ScopeIsSubset: blanks are ASCII.
- Crud.TransitionMovesExactly: versions do not wrap at 32 bits.
- Crud.WritesAreLossless: batch writes, relation checks and unique indexes are not part of this model.
- Steps.Chain.RunStepRange: what a step does is an arbitrary success or failure.
- Cron.JobTable.ClaimDueJobs: the limit and the order of the claim query are not part of this model; the locked rows are any set of due jobs.
- Outbox.Table.PublishPending: the batch is any set of pending rows; polling, backoff and connection handling are not part of this model.
- OAuth.TokenStore.RecordConsent: its two statements run without another in between; `OAuthRuns` takes them one by one.
- OAuth.TokenStore.Redeem: client authentication is taken as done; the proof-key digest is an arbitrary verdict.
- OAuthRuns.ScopesContainedExactly: reading the client and reading the consent in an authorize are one step, as are minting the access token and inserting the refresh token of a redemption, and the statements of a refresh after its read, which one transaction commits.
- Payload.ValidatePayload: which message a field at fault gets, number bounds and UUID syntax are not part of this model.
- Client credentials, discovery, client administration, webhooks, email, attachments, dashboards, preferences and configuration tiers: only easy claims.
