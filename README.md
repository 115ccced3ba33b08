# Grafana: four pieces of core logic, modelled and verified in Dafny

This project models four sequential pieces of logic from Grafana and proves
what each one promises.

- **The metric scene of the metric-exploration app** (`metric_scene.dfy`,
  module `MetricScene`). It is a flex layout whose first two children are
  the main graph panel and the action bar. An optional action view
  (overview, breakdown, logs or related metrics) is shown as a third child.
  `setActionView` switches between "no view" and "view X". It resizes the
  main panel and replaces the layout's children. `updateFromUrl` and
  `getUrlState` keep the selection in the URL key `actionView`. The action
  bar shows which tab is active and selects the first view when none is
  selected. The scene objects are Dafny classes whose fields the methods
  update. Each method is proved to follow a pure function over an abstract
  `SceneState`, and the properties are proved about those functions.
- **The extended-JWT authentication client** (`ext_jwt.dfy`, module
  `ExtendedJwt`). It accepts OAuth 2.0 access tokens in the JWT profile of
  RFC 9068. It strips the bearer prefix, then runs a fixed chain of guards
  over the parsed token:
  - exactly one header;
  - a `typ` of `at+jwt` or `application/at+jwt` in any letter case
    (sections 2.1 and 4 of RFC 9068);
  - an algorithm other than `none`;
  - a verified signature;
  - the claims `exp`, `jti`, `sub` and `iat` (section 2.2 of RFC 9068);
  - time, issuer and audience validation;
  - a string `client_id`.

  It then parses the user id from `sub`, looks the user up, and writes the
  entitlements claim into the user's permissions. It also has a cheap
  issuer-only pre-check (`Test`).
- **The DuckDB loader of the PRQL expression engine** (`duckdb.dfy`, module
  `DuckDb`). `createTables` builds one
  `create or replace table <name> (<col> <TYPE> ,<col> <TYPE>...)`
  statement per data frame, from the field types, and runs the statements
  until one fails. `AppendAll` creates the tables, then appends every frame
  row by row, one value per field in field order.
- **The node-graph fixture generator of the test-data source**
  (`node_graph.dfy`, module `NodeGraph`). It grows a random tree in which
  every node has at most three tree children, adds a few random extra
  edges without self-loops, and emits a nodes frame and an edges frame. The
  edges frame holds de-duplicated `source--target` ids.

Two helper modules support them. `wrappers.dfy` holds `Option` and
`Result`. `decimal.dfy` holds decimal formatting and Go's base-10 64-bit
`strconv.ParseInt`, with their round trip.

External effects enter every model as parameters:
- The JWT library, signature and claim validation, and the user service
  are function parameters (oracles) or a map of users.
- The database is a set of the statements and rows it accepts, plus two
  flags for a successful open and connect.
- The fixture generator's random stream is a function `rand: nat -> real`
  with every draw in `[0, 1)`.

## Model

| member | source | states |
|---|---|---|
| MetricScene.FindFirst | public/app/features/trails/MetricScene.tsx:60 | `Array.find` by `value`: absent exactly when no entry has that value; otherwise the result is an entry of the list with that value |
| MetricScene.FindDefinition | public/app/features/trails/MetricScene.tsx:72 | a definition is found exactly when the id is one of the registry's values, and it is that registry entry |
| MetricScene.RegistryValuesDistinct | public/app/features/trails/MetricScene.tsx:93-98 | the four registry values are pairwise distinct, so an id names at most one view |
| MetricScene.InitialState | public/app/features/trails/MetricScene.tsx:188-206 | the layout `buildGraphScene` builds (main panel at `40%`, then the action bar, no view) satisfies the scene invariant |
| MetricScene.AfterSetActionView | public/app/features/trails/MetricScene.tsx:70-85 | a view is selected afterwards exactly when the id is known and differs from the current view, and then it is that id; the current id therefore toggles the view off |
| MetricScene.SetActionViewLayout | public/app/features/trails/MetricScene.tsx:74-84 | the first two children are kept, the first resized to 280 px when a view is shown and to `40%` otherwise; a third child exists exactly when a view is selected |
| MetricScene.SetActionViewKeepsConsistency | public/app/features/trails/MetricScene.tsx:70-85 | from a consistent scene (2 or 3 children, third child is the selected view's scene, main panel compact exactly when a view is shown) `setActionView` yields a consistent scene |
| MetricScene.AfterSetActionViewCases | public/app/features/trails/MetricScene.tsx:74-84 | the show branch gives `[main at 280, action bar, the definition's scene]` with the view set; the clear branch gives `[main at 40%, action bar]` with no view |
| MetricScene.AfterUpdateFromUrl | public/app/features/trails/MetricScene.tsx:57-68 | `null` clears the view; an absent value or a string list changes nothing; a string equal to the current view or naming no view changes nothing; any other string selects it |
| MetricScene.UpdateFromUrlKeepsConsistency | public/app/features/trails/MetricScene.tsx:57-68 | `updateFromUrl` keeps a consistent scene consistent |
| MetricScene.UrlStateRoundTrip | public/app/features/trails/MetricScene.tsx:53-68 | feeding the URL value of the current state back to `updateFromUrl` leaves the scene unchanged |
| MetricScene.SelectingCurrentViewClearsIt | public/app/features/trails/MetricScene.tsx:74-84 | selecting the view that is already shown clears it and leaves two children |
| MetricScene.SelectingTwiceRestoresIdle | public/app/features/trails/MetricScene.tsx:74-84 | from the idle layout, selecting a known view twice restores the original state exactly |
| MetricScene.SwitchingViewsReplacesThirdChild | public/app/features/trails/MetricScene.tsx:74-78 | switching from one view to another keeps the first two children and puts the new view's scene third |
| MetricScene.ClearingGivesIdle | public/app/features/trails/MetricScene.tsx:65-67 | `null` from any consistent state gives no view and the two original children with the main panel at `40%` |
| MetricScene.GetButtonVariant | public/app/features/trails/MetricScene.tsx:103-105 | `active` if and only if the name is the current view, `canvas` if and only if it is not |
| MetricScene.ActiveTabIsUnique | public/app/features/trails/MetricScene.tsx:157-166 | in a consistent scene no tab is active when no view is shown, and exactly one tab is active otherwise |
| MetricScene.BuildActionViewScene | public/app/features/trails/MetricScene.tsx:77 | `getScene()` yields a new flex item without a height limit that shows the definition's scene |
| MetricScene.MetricScene.constructor | public/app/features/trails/MetricScene.tsx:45-51 | with no body given, the scene's state is the `buildGraphScene` layout, made of fresh objects, and satisfies the invariant |
| MetricScene.MetricScene.GetUrlState | public/app/features/trails/MetricScene.tsx:53-55 | the URL state is exactly the current `actionView` |
| MetricScene.MetricScene.ShowActionView | public/app/features/trails/MetricScene.tsx:74-78 | the main panel object is set to 280 px, the children become the old first two plus a fresh scene item, and `actionView` is the definition's value |
| MetricScene.MetricScene.HideActionView | public/app/features/trails/MetricScene.tsx:79-84 | the main panel object is set to `40%`, the children are cut to the first two, and `actionView` is cleared |
| MetricScene.MetricScene.SetActionView | public/app/features/trails/MetricScene.tsx:70-85 | the new state is `AfterSetActionView` of the old one; the same two first objects stay first, any third child is fresh, and the invariant holds |
| MetricScene.MetricScene.UpdateFromUrl | public/app/features/trails/MetricScene.tsx:57-68 | the new state is `AfterUpdateFromUrl` of the old one, the first two children are the same objects, and the invariant holds |
| MetricScene.RenderActionBar | public/app/features/trails/MetricScene.tsx:123-125 | with no view selected, rendering selects `overview`, the first registry entry; with a view selected nothing changes; afterwards a view is always selected |
| MetricScene.OnChangeTab | public/app/features/trails/MetricScene.tsx:163 | clicking tab `i` has the effect of `setActionView` with the i-th registry value |
| ExtendedJwt.TrimPrefix | pkg/services/authn/clients/ext_jwt.go:140 | `strings.TrimPrefix`: when the prefix is present, prefix plus result is the input; otherwise the input is returned unchanged |
| ExtendedJwt.ToLower | pkg/services/authn/clients/ext_jwt.go:156 | same length, each character replaced by its lower case: `A`–`Z`, U+0130 and U+212A map to ASCII, other characters are kept |
| ExtendedJwt.RetrieveToken | pkg/services/authn/clients/ext_jwt.go:136-141 | the header without one leading `Bearer `, or unchanged when it has none |
| ExtendedJwt.RetrieveTokenStripsOnePrefix | pkg/services/authn/clients/ext_jwt.go:136-141 | only one `Bearer ` is removed: `Bearer ` + t gives back t |
| ExtendedJwt.AccessTokenTypeIsCaseInsensitive | pkg/services/authn/clients/ext_jwt.go:156-164 | any two `typ` values that agree up to letter case, character by character, are accepted alike |
| ExtendedJwt.AccessTokenTypeExamples | pkg/services/authn/clients/ext_jwt.go:156-164 | `AT+JWT` is an accepted type and `JWT` is not; U+0130 U+212A lower-cases to `ik` |
| ExtendedJwt.MissingRequiredClaim | pkg/services/authn/clients/ext_jwt.go:177-191 | none is missing exactly when `exp`, `jti`, `sub` and `iat` are all present; otherwise the result is the first absent one in that order |
| ExtendedJwt.ValidateClientIdClaim | pkg/services/authn/clients/ext_jwt.go:210-227 | no error exactly when `client_id` is present and a string; "missing" exactly when it is absent; otherwise "invalid" |
| ExtendedJwt.VerifyRfc9068Token | pkg/services/authn/clients/ext_jwt.go:144-208 | succeeds exactly when the token parses and meets every RFC 9068 condition, and then returns the verified claims; a parse failure, a header count other than one, a missing `typ` and the `none` algorithm are rejected with their own errors: a non-string `typ` panics, an unaccepted one gives `InvalidType` with its lower-cased text, and an accepted one with algorithm `none` gives `InvalidAlgorithm`; a missing claim error names the first absent required claim |
| ExtendedJwt.Test | pkg/services/authn/clients/ext_jwt.go:84-105 | true exactly when the client is enabled, the token is not empty, and its unverified issuer is the expected one |
| ExtendedJwt.TestRejectsEmptyToken | pkg/services/authn/clients/ext_jwt.go:89-92 | no header, or a bare `Bearer `, is never taken by this client |
| ExtendedJwt.ParseUserId | pkg/services/authn/clients/ext_jwt.go:59 | with the `user:id:` prefix, the rest is parsed as a signed 64-bit decimal; without it, the whole string is; a parsed id lies in the signed 64-bit range |
| ExtendedJwt.ParseUserIdSignedAndPadded | pkg/services/authn/clients/ext_jwt.go:59 | `user:id:+7` and `user:id:007` both give 7 |
| ExtendedJwt.ParseUserIdNegativeAndMalformed | pkg/services/authn/clients/ext_jwt.go:59 | `user:id:-18` gives -18; `user:id:` and a doubled prefix give no id |
| ExtendedJwt.ParseUserIdRoundTrip | pkg/services/authn/clients/ext_jwt.go:59 | `user:id:<n>` and the bare `<n>` both yield n for every 64-bit n |
| ExtendedJwt.SubjectUserId | pkg/services/authn/clients/ext_jwt.go:59-63 | succeeds exactly when `sub` is a string whose user id parses, with that id; a non-string `sub` panics |
| ExtendedJwt.StringsOf | pkg/services/authn/clients/ext_jwt.go:129-131 | the strings of an all-string array, same length and order |
| ExtendedJwt.EntitlementsOf | pkg/services/authn/clients/ext_jwt.go:115-125 | every key of the claim is kept |
| ExtendedJwt.ParseEntitlementsArray | pkg/services/authn/clients/ext_jwt.go:127-133 | succeeds exactly when the value is an array of strings, returning them in order; anything else panics |
| ExtendedJwt.ParseEntitlements | pkg/services/authn/clients/ext_jwt.go:115-125 | succeeds exactly when every entry is null or a string array; the result keeps every key, maps null to the empty list and arrays to their strings; otherwise it panics |
| ExtendedJwt.PermissionsAfter | pkg/services/authn/clients/ext_jwt.go:71-79 | a nil map is replaced by an empty one, so without entitlements it ends empty; with entitlements, organisation 1's entry is exactly the parsed entitlements; no other organisation's entry is added, removed or changed |
| ExtendedJwt.SignedInUser.constructor | pkg/services/authn/clients/ext_jwt.go:65 | a user record with the given id and permissions |
| ExtendedJwt.Authenticate | pkg/services/authn/clients/ext_jwt.go:49-82 | verification, `sub` and lookup failures return their error and change no user; on success only the found user changes: a nil permission map becomes empty, the entitlements replace organisation 1's entry, and the user's identity is returned; malformed entitlements panic after the nil map was replaced |
| DuckDb.TableName | pkg/expr/prql/duckdb.go:89-92 | the frame's `RefID`, or its `Name` when `RefID` is empty |
| DuckDb.GroupsDisjoint | pkg/expr/prql/duckdb.go:99-125 | each field type is in at most one of the nine type groups |
| DuckDb.SuffixFromGroup | pkg/expr/prql/duckdb.go:99-125 | running the nine `if`s from any group up to the type's own gives just that group's keyword |
| DuckDb.TypeGroups | pkg/expr/prql/duckdb.go:99-125 | a column gets exactly its group's keyword; only the JSON types get none; group membership is exclusive |
| DuckDb.AppendColumnType | pkg/expr/prql/duckdb.go:99-125 | the nine `+=` steps append exactly the type's suffix |
| DuckDb.ColumnDefs | pkg/expr/prql/duckdb.go:96-127 | one column definition per field |
| DuckDb.ColumnDefAt | pkg/expr/prql/duckdb.go:96-127 | the j-th definition is the j-th field's name and type, so columns appear in field order |
| DuckDb.CreateTableSqlShape | pkg/expr/prql/duckdb.go:94-128 | the statement starts with `create or replace table <name> (` and ends with `)`; with no fields it is `create or replace table <name> ()`; with one field there is no separator |
| DuckDb.JoinStep | pkg/expr/prql/duckdb.go:95-98 | appending the separator (empty before the first column, ` ,` after) and the next column extends the `" ,"`-join by one column |
| DuckDb.AppendColumn | pkg/expr/prql/duckdb.go:97-126 | one pass of the field loop appends the separator and that column's definition |
| DuckDb.BuildCreateTable | pkg/expr/prql/duckdb.go:94-128 | the loop builds exactly the frame's statement: prefix, name, the columns joined by ` ,`, then `)` |
| DuckDb.Statements | pkg/expr/prql/duckdb.go:88-136 | one statement per frame |
| DuckDb.StatementAt | pkg/expr/prql/duckdb.go:88-136 | the i-th statement is the i-th frame's |
| DuckDb.NextStatement | pkg/expr/prql/duckdb.go:89-128 | the statement built for frame i is the i-th statement |
| DuckDb.RunStops | pkg/expr/prql/duckdb.go:131-135 | a failed statement ends the run there, and not every table is created |
| DuckDb.RunContinues | pkg/expr/prql/duckdb.go:131-136 | a successful statement extends the prefix of successes by one |
| DuckDb.RunOutcome | pkg/expr/prql/duckdb.go:87-138 | when every statement succeeds all are sent; otherwise the last one sent is the first that fails and all before it succeeded |
| DuckDb.CreateTables | pkg/expr/prql/duckdb.go:87-138 | the statements sent are the frames' statements up to and including the first failure, and the result is success exactly when every table is created |
| DuckDb.RowAt | pkg/expr/prql/duckdb.go:71-75 | row i holds one value per field, the i-th value of each field, in field order |
| DuckDb.FrameRows | pkg/expr/prql/duckdb.go:70-81 | a frame gives rows 0 to Rows()-1, in order, into its table |
| DuckDb.AllRowsSplit | pkg/expr/prql/duckdb.go:61-83 | the rows of the first k frames, followed by frame k's rows, are a prefix of all rows |
| DuckDb.AllAcceptedAppend | pkg/expr/prql/duckdb.go:76 | two runs of accepted rows concatenate to an accepted run |
| DuckDb.ReadRow | pkg/expr/prql/duckdb.go:71-75 | the inner field loop builds exactly row i |
| DuckDb.AppendFrameRows | pkg/expr/prql/duckdb.go:70-81 | the rows are appended in order up to the first rejected row; success exactly when all are accepted, and then all rows were appended; on failure the row after the appended ones is the one rejected |
| DuckDb.AppendsSucceedStep | pkg/expr/prql/duckdb.go:61-83 | one more frame whose appender opens and whose rows are all accepted extends a successful run |
| DuckDb.AppendsStop | pkg/expr/prql/duckdb.go:66-79 | a frame whose appender fails or whose row is rejected makes the whole append fail |
| DuckDb.AppendFrames | pkg/expr/prql/duckdb.go:61-84 | success exactly when every frame's appender opens and every row is accepted, and then every row of every frame was appended in order; on failure some frame k is named: the earlier frames succeeded, the appended rows are theirs followed by the accepted prefix of frame k, and the error is frame k's appender failure (nothing of frame k appended) or the rejection of its next row |
| DuckDb.AppendAll | pkg/expr/prql/duckdb.go:40-85 | an open failure sends nothing; otherwise the tables are created as `createTables` does, and its error is ignored; a connect failure appends nothing; success exactly when open, connect and every append succeed, and then all rows were appended in order; after open and connect succeed, a failure names the frame where appending stopped, as `AppendFrames` does |
| Decimal.FormatNat | public/app/plugins/datasource/testdata/nodeGraphUtils.ts:156 | a number's decimal text is non-empty, all digits and without a leading zero |
| Decimal.DigitsValueOfFormat | public/app/plugins/datasource/testdata/nodeGraphUtils.ts:156 | the decimal text of n reads back as n |
| Decimal.FormatNatInjective | public/app/plugins/datasource/testdata/nodeGraphUtils.ts:156 | different numbers have different decimal texts |
| Decimal.ParseInt64 | pkg/services/authn/clients/ext_jwt.go:59 | `strconv.ParseInt(s, 10, 64)`: succeeds exactly when s is an optional `+` or `-` followed by one or more digits whose signed value lies in the 64-bit range, and then returns that signed value |
| Decimal.DigitsValueLeadingZero | pkg/services/authn/clients/ext_jwt.go:59 | a leading zero does not change the value of a digit string |
| Decimal.LeadingZerosIgnored | pkg/services/authn/clients/ext_jwt.go:59 | a leading `0` or `+` before digits does not change what is parsed |
| Decimal.ParseFormatRoundTrip | pkg/services/authn/clients/ext_jwt.go:59 | every 64-bit integer's decimal text parses back to itself |
| NodeGraph.Ids | public/app/plugins/datasource/testdata/nodeGraphUtils.ts:39 | one node id per index, in order |
| NodeGraph.MakeRandomNode | public/app/plugins/datasource/testdata/nodeGraphUtils.ts:152-165 | node `service_<i>`: the digits after the prefix read back as i; title equals id, subtitle `service`, no edges, and the stats are the random draws with error = 1 - success |
| NodeGraph.NodeIdInjective | public/app/plugins/datasource/testdata/nodeGraphUtils.ts:152-158 | `root` and `service_<i>` name distinct nodes; no id is `0` or contains a dash |
| NodeGraph.Pick | public/app/plugins/datasource/testdata/nodeGraphUtils.ts:37 | `Math.floor(rand() * Math.floor(len - 1))` is an index within a non-empty list and never its last entry when it has two or more |
| NodeGraph.PickBounds | public/app/plugins/datasource/testdata/nodeGraphUtils.ts:37 | a draw in [0, 1) scaled by m and floored lies in 0..m, below m when m is positive |
| NodeGraph.FloorBounds | public/app/plugins/datasource/testdata/nodeGraphUtils.ts:37 | a real in [0, m] floors into 0..m, below m when it is below m |
| NodeGraph.ScaleBounds | public/app/plugins/datasource/testdata/nodeGraphUtils.ts:37 | a draw in [0, 1) times m lies in [0, m] |
| NodeGraph.NodesStep | public/app/plugins/datasource/testdata/nodeGraphUtils.ts:35-39 | pushing `service_<n>` and the edge from the parent keeps every node equal to its fresh form with edges to its tree children |
| NodeGraph.LinksStep | public/app/plugins/datasource/testdata/nodeGraphUtils.ts:38-43 | the new node gets exactly one parent, an earlier node, which lists it as a child |
| NodeGraph.NextOpenEntries | public/app/plugins/datasource/testdata/nodeGraphUtils.ts:40-43 | the open list after the optional splice and the push, entry by entry |
| NodeGraph.OpenStepIncreasing | public/app/plugins/datasource/testdata/nodeGraphUtils.ts:40-43 | the open list stays in increasing node order |
| NodeGraph.OpenStepEntries | public/app/plugins/datasource/testdata/nodeGraphUtils.ts:40-43 | every open node still has fewer than 3 edges |
| NodeGraph.OpenStepComplete | public/app/plugins/datasource/testdata/nodeGraphUtils.ts:40-43 | every node with fewer than 3 edges is still open |
| NodeGraph.OpenStep | public/app/plugins/datasource/testdata/nodeGraphUtils.ts:37-43 | the open list is exactly the nodes without 3 edges, in order: a full parent leaves it and the new node joins it |
| NodeGraph.TreeShape | public/app/plugins/datasource/testdata/nodeGraphUtils.ts:34-44 | in the tree every node has its own id and at most 3 edges, each edge points to a later node, and a node lists node j exactly when it is j's one parent |
| NodeGraph.GrowTree | public/app/plugins/datasource/testdata/nodeGraphUtils.ts:16-44 | `count` nodes (one when count < 1), the root first, forming such a tree; the chosen parent is always in the open list |
| NodeGraph.IdsOf | public/app/plugins/datasource/testdata/nodeGraphUtils.ts:55 | the ids of the chosen target nodes, in order |
| NodeGraph.ExtendedStep | public/app/plugins/datasource/testdata/nodeGraphUtils.ts:55 | adding an edge between two different nodes keeps the extension relation |
| NodeGraph.AddExtraEdges | public/app/plugins/datasource/testdata/nodeGraphUtils.ts:46-56 | the same nodes with the same ids and fields; each keeps its tree edges, followed by extra edges to other nodes, never to itself and never to the last node; with distinct node ids no added edge is a self-loop |
| NodeGraph.EdgeIdLayout | public/app/plugins/datasource/testdata/nodeGraphUtils.ts:136 | an edge id is the source, then `--`, then the target |
| NodeGraph.EdgeIdInjective | public/app/plugins/datasource/testdata/nodeGraphUtils.ts:136 | for dash-free sources, `a--b` and `c--d` are equal exactly when a = c and b = d |
| NodeGraph.DashFreePrefix | public/app/plugins/datasource/testdata/nodeGraphUtils.ts:136 | two edge ids that agree have sources of equal length when neither source contains a dash |
| NodeGraph.AddEdgeRow | public/app/plugins/datasource/testdata/nodeGraphUtils.ts:136-145 | the edge's `source--target` id joins the seen set, and the rows still line up, are edges of the graph, and have distinct ids that are exactly the seen set |
| NodeGraph.AddNodeEdges | public/app/plugins/datasource/testdata/nodeGraphUtils.ts:135-146 | after a node's edges every edge of the nodes so far has its id in the rows, and ids stay distinct |
| NodeGraph.BuildFrames | public/app/plugins/datasource/testdata/nodeGraphUtils.ts:126-147 | the node columns hold every node's fields in order; the edge rows have equal-length columns, each row is `source--target` of an existing edge, the ids are distinct, and every edge of every node is present |
| NodeGraph.NodeIds | public/app/plugins/datasource/testdata/nodeGraphUtils.ts:19-36 | the ids of n nodes: `root`, then `service_1`, `service_2` and so on |
| NodeGraph.FinalNodes | public/app/plugins/datasource/testdata/nodeGraphUtils.ts:34-56 | after both phases node k still has node k's id, title, subtitle and stats |
| NodeGraph.EdgeTarget | public/app/plugins/datasource/testdata/nodeGraphUtils.ts:34-56 | every edge of the final graph points to another node |
| NodeGraph.ParentEdge | public/app/plugins/datasource/testdata/nodeGraphUtils.ts:39 | every non-root node is an edge target of its earlier parent |
| NodeGraph.RowEnds | public/app/plugins/datasource/testdata/nodeGraphUtils.ts:142-144 | each edge row joins two different node ids |
| NodeGraph.ParentRow | public/app/plugins/datasource/testdata/nodeGraphUtils.ts:136-145 | every non-root node is the target of a row whose source is an earlier node |
| NodeGraph.FramesOfGraph | public/app/plugins/datasource/testdata/nodeGraphUtils.ts:126-147 | the edges frame of the grown graph is valid: equal-length columns, distinct `source--target` ids, no self-loops, both ends are node ids, and every non-root node is reached from an earlier one |
| NodeGraph.GenerateRandomNodes | public/app/plugins/datasource/testdata/nodeGraphUtils.ts:15-150 | `count` nodes (one when count < 1) with ids `root`, `service_1`...; titles equal ids; subtitles `client` then `service`; one entry per node in every node column; distinct ids; and a valid edges frame over them |
| NodeGraph.GenerateRandomEdges | public/app/plugins/datasource/testdata/nodeGraphUtils.ts:173-175 | a valid edges frame over the nodes `root`, `service_1`... of the requested count |

`setActionView` with the view already shown falls into the else branch of
MetricScene.tsx:74-84 and clears it; `MetricScene.SelectingCurrentViewClearsIt`
and `MetricScene.SelectingTwiceRestoresIdle` state this toggle.

## Left out

- Scene builders: React components, styling, bookmarking and
  `sceneGraph.getAncestor` are left out. The scenes that `getScene` builds are
  opaque values naming their builder, because the builders live in other
  files.
- MetricScene.MetricScene.constructor: only the default body
  (`buildGraphScene`) is modelled. A caller-supplied body, a supplied
  `actionView` and `$variables` are not, because they come from outside the
  scene.
- Scene URL binding: the `SceneObjectUrlSyncConfig` wiring is not modelled;
  the URL value enters `UpdateFromUrl` as a parameter.
- ExtendedJwt.ToLower: maps `A`–`Z`, U+0130 and U+212A, the letters whose
  lower case is ASCII; other non-ASCII letters are kept. This changes only the
  text of the `InvalidType` error, never whether `typ` is accepted, because
  both accepted types are ASCII.
- ExtendedJwt.Authenticate: returns the inner error; the source wraps every
  failure in `errJWTInvalid` with a message (ext_jwt.go:55, 62, 68).
- JWT library: go-jose parsing and signature checks are an oracle `parse`.
  The oracle yields the headers and the verified claims, or no claims when
  the signature fails.
- Claim validation: `ValidateWithLeeway` (time, issuer and audience) is an
  oracle `validate`, because it needs the clock and the configuration.
- `Test`: the unverified-issuer read is an oracle `unverifiedIssuer`.
- User service: the lookup is a map from (organisation, user id) to user
  objects. Cache behaviour and service errors other than "not found" are
  not modelled.
- JSON numbers are integers: claims are never compared as numbers here.
- Logging is not modelled: `s.log` and every `fmt.Println`.
- Go panics: a failed unchecked type assertion becomes a `Panic` error
  value.
- `authn.IdentityFromSignedInUser`: modelled only as the namespace, the id
  and the user. Its other fields are not part of this model.
- DuckDB I/O: `sql.Open`, `Query`, the connector, `Connect` and the appender
  are sets of accepted statements and rows plus flags. `NewConnector` and
  `Connect` share one flag, `connectOk`, since either failure returns the
  same way.
- DuckDB lifetime: the deferred `Close` calls and their message are not
  modelled, and neither is the appender, which is never flushed or closed.
- `DuckDB.Query` is not part of the modelled core; it only forwards to the
  database.
- DuckDb.AppendAll: frames with a field shorter than `Rows()` are excluded
  by a precondition. `Field.At` would panic on them, and the model does not
  represent that panic.
- Frame values: field values are nulls, booleans, integers or strings.
  Floating-point and time values are not represented, because the loader
  only passes values through to the appender.
- Node stats: the floating-point values (`Math.random` stats, the
  success/error arcs and the edge `mainStat`) are symbolic `Stat` values.
  For example, `Random(100)` stands for `Math.random() * 100`.
- Random stream: the d3 LCG and its seed are the `rand` parameter, with
  draws in [0, 1). The default `count = 10` and the seeds are the caller's
  choice.
- NodeGraph.GrowTree: the nodes are values and the open list holds node
  indices, so JavaScript object aliasing between `nodes` and
  `nodesWithoutMaxEdges` is represented by index, not by reference.
- Counts: a non-integer `count` is not modelled. Counts are integers; a
  count below 1 still yields the root alone, as the loop does not run.
- Frame metadata: nodes-frame field names from `NodeGraphDataFrameFieldNames`,
  field types, display configs, colours, the data link and the frame `meta`
  are not modelled, because the names come from `@grafana/data`, which is
  not part of this model. The frame names `nodes` and `edges` are not
  modelled either.
- NodeGraph.GenerateRandomEdges: states that its result is a valid edges
  frame for the requested count. It does not state equality with the second
  frame of `generateRandomNodes`, because a method's result cannot be
  compared with another method call's inside a contract. The body returns
  exactly that frame.
- `savedNodesResponse` is not modelled: it only wraps recorded test data.
