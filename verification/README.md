# Checklist Assistant: a verified model

Checklist Assistant keeps checklist rows whose identity is computed from their content. It exports them to Markdown,
imports edited Markdown, links old identities to new ones, and shows the result as graphs. A small OAuth server guards
its API, and a browser client seeds instances and draws the graphs. This project models the logic of those parts in
Dafny and proves what they promise, over every input, every run and every interleaving.

Each group of files follows one part of the program.

- **Text and identity**: `Text`, `Checklist`, `Sorting`. One `char` stands for one byte of a C++ string. The content
  hash is a parameter: no law depends on what it computes.
- **Markdown**: `MarkdownParser` is the parser as a transition function and `MarkdownReader` the mutable line loop
  proved equal to it. `MarkdownExport` is the exporter, `MarkdownLinks` the relationship pass. `MarkdownLaws` states
  the round trip and its exact condition, `MarkdownRoundTrip` re-import after an edit, `MarkdownOutput` the shape of
  everything the parser can emit, `MarkdownTargets` the section-and-procedure targets. `MarkdownSteps`, `MarkdownRow`,
  `MarkdownDocument` and `MarkdownText` build the proof line by line.
- **Import order**: `ImportOrder`, `NormalForm`, `Grouping`, `ImportExport`: numbering, the capacity of its blocks, and
  the normal form reached by importing and exporting.
- **Lineage**: `LineageMerge`, `LineageHistory`, `LineageAliases`, `LineageImport`, `LineageEndToEnd`: the memoised closure
  over stored predecessors, whole revision histories over runs of imports, alias chasing, the edges an import derives,
  and the condition on file and store under which every former id leads to its current row.
- **OAuth**: `Scopes`, `OAuth`, `OAuthRuns`, `OAuthServer`, `OAuthBinding`, `RateLimiter`, `LateCalls`. The token store is a
  transactional state machine; its laws range over all sequences of operations and of server requests (RFC 6749,
  sections 3.3, 4.1.2, 4.1.3 and 6). The limiter's laws hold in any order of times, with the exact condition for order.
- **Graphs**: `Graph`, `GraphLaws`, `GraphDot` for the checklist graph, `Workbench`, `WorkbenchBuilder`,
  `WorkbenchReport` for the relationship workbench, `Layout`, `LayoutLevels` and `Projection` for the browser.
- **Codecs**: `Utf8` (RFC 3629, sections 3 and 4), `Csv` (RFC 4180, section 2), `Framing` (Content-Length messages).
- **Worker pool**: `WorkerPool`, `InstanceSeeding`.

Loops, in-place updates and objects of the original are methods and classes here, each proved against a function or
relation whose own laws are then proved as lemmas. Library sorts appear as any sorted permutation
(`MarkdownExport.IsSortOf`) or as a stable sort with a proof that no correct sort can give another list
(`Sorting.SortedIsUnique`).

## Where the code promises less than one might expect

Each of these is proved with the exact condition under which the promise holds, for all inputs.

- Export followed by import changes a row exactly when a line of its instructions ends in a carriage return or the last
  one is a rule of dashes (`MarkdownLaws.RoundTripExactly`). The parser itself can produce such a row
  (`ImportExport.TrailingRuleIsLost`).
- Import numbers are distinct exactly while no section but the last holds more than 10,000 rows
  (`NormalForm.NumbersAreDistinctExactly`).
- Every former id of an imported row leads to that row exactly when the histories in file and store are linear: nothing
  but the row follows the id, and nothing follows the row (`LineageEndToEnd.HistoriesResolveExactly`). Separate histories
  are (`LineageEndToEnd.SeparateHistoriesAreLinear`).
- Section 6 of RFC 6749 binds a refresh token to its client. The server authenticates the client that asks, but rotates
  whosever token is shown: success depends on the row alone (`OAuthBinding.RefreshIgnoresClient`), and any client can
  obtain the next pair of any other (`OAuthBinding.AnotherClientRefreshes`). A request gives tokens only to the client it
  names exactly when it is no refresh with another's token (`OAuthBinding.ServesItsClientExactly`).
- The CSV reader returns a table exactly unless a bare line feed follows a carriage return at the end of a row's last
  cell (even a quoted one), an unterminated last row is one empty cell, or the first cell starts with a byte-order mark
  (`Csv.RoundTripExactly`).
- A framed message is read back exactly when its length is positive and fits an unsigned long
  (`Framing.ReceivesExactly`).
- The limiter reads its clock before it takes its lock, so times can go back. Its queue is the window at every call of a
  key exactly when no call of the key is earlier than one allowed before (`RateLimiter.QueuesAreWindowsExactly`; for one
  call `RateLimiter.KeptIsWindowExactly`, for one answer `LateCalls.AnswerIsRightExactly`). Otherwise calls can be
  refused with room in their window (`LateCalls.LateCallsRefuseTooMuch`) or allowed into a full one
  (`LateCalls.LateCallsAllowTooMuch`); the bound on every window survives any order exactly when the maximum is one
  (`LateCalls.BoundWithoutOrderExactly`).
- A row's layout level is its capped longest path in every order of the edges exactly when there are eight rows, or no
  self-linked row leads to it, or one does with enough self-links to reach the cap in the rounds there are
  (`LayoutLevels.LevelsAreLongestExactly`). Where no row has two self-links that means: all levels are right exactly
  when there is no self-link or there are eight rows (`LayoutLevels.SingleLoopsExactly`).
- The full projection draws an edge exactly when both ends have a position, so a lineage edge to a row that is gone is
  dropped silently unless an external edge leads to the same place (`Projection.DrawnExactly`,
  `Projection.LegacyLineageIsDropped`).
- A graph that was not built by the builder can make the DOT renderer throw (`GraphDot.DrawsExactly`); built ones never
  do (`GraphDot.BuiltGraphsRender`).
- A target written as a section and a procedure is read back exactly when no comma stands outside parentheses and the
  section closes its own (`MarkdownTargets.TupleExactly`).

## Model

| member | source | states |
|---|---|---|
| `Text.TrimByIndex` | src/core/checklist_markdown.cpp:577-588 | the two index loops compute trimming on both sides |
| `Text.LinesOfUnlines` | src/core/checklist_markdown.cpp:619-630 | reading lines undoes writing each with a newline |
| `Text.SplitOfJoin` | src/core/checklist_markdown.cpp:528-537 | splitting undoes joining for parts without the separator |
| `Text.JoinOfSplit` | src/core/checklist_markdown.cpp:528-537 | joining undoes splitting for every text |
| `Checklist.StatusRoundTrip` | src/core/checklist_store.cpp:2377-2408 | printing and parsing a status are inverse on every status |
| `Checklist.ComputeSlugId` | src/core/checklist_store.cpp:2422-2430 | whatever the hash, the id is 16 digits of the base-32 alphabet |
| `Checklist.IdsArePlain` | src/core/checklist_store.cpp:2410-2420 | valid ids hold no blank, newline, colon, bar or parenthesis, so trimming and splitting leave them whole |
| `Checklist.BeforeIsStrictWeakOrder` | src/core/checklist_markdown.cpp:1110-1122 | the exporter's comparator is a strict weak order, as std::sort demands |
| `Checklist.EdgeBeforeIsTotal` | src/core/checklist_markdown.cpp:1182-1185 | the order of printed edges is a strict total order |
| `Sorting.SortIsSorted` | src/core/graph_projection.cpp:340-345 | the sort standing in for the library's leaves a list in comparator order |
| `Sorting.SortIgnoresOrder` | src/core/graph_projection.cpp:340-345 | a sort of elements the comparator tells apart depends only on which elements there are |
| `Sorting.SortedIsUnique` | src/core/graph_projection.cpp:340-345 | elements and comparator leave only one sorted list, so the sorting algorithm does not show |
| `MarkdownReader.Reader.constructor` | src/core/checklist_markdown.cpp:633-640 | the parser starts in the initial state |
| `MarkdownReader.Reader.FlushRow` | src/core/checklist_markdown.cpp:645-663 | closing a row gives the flushed state or the same error |
| `MarkdownReader.Reader.ReadLine` | src/core/checklist_markdown.cpp:679-898 | one turn of the mutable line loop is one transition, errors included |
| `MarkdownReader.Reader.ReadContent` | src/core/checklist_markdown.cpp:739-897 | headings, bullets, relationship lines and front matter update the fields as the transition says |
| `MarkdownReader.Reader.ReadBullet` | src/core/checklist_markdown.cpp:859-895 | the five bullets are taken in order and each fills its own field |
| `MarkdownReader.NextNonEmptyLine` | src/core/checklist_markdown.cpp:665-673 | the lookahead finds the next non-blank line |
| `MarkdownReader.CloseSlug` | src/core/checklist_markdown.cpp:539-575 | the row is finalised with dropped trailing blank lines and the computed id, or with the same error |
| `MarkdownReader.ReadLines` | src/core/checklist_markdown.cpp:619-630 | byte-order mark and carriage returns are removed as the line list requires |
| `MarkdownReader.ResolveRelationships` | src/core/checklist_markdown.cpp:916-1093 | the second pass collects exactly the links of all blocks, in order |
| `MarkdownReader.ParseChecklistMarkdown` | src/core/checklist_markdown.cpp:613-1096 | the imperative parser computes the parsing function on every input, or fails with its error |
| `MarkdownExport.SortUniqueIsSorted` | src/core/checklist_markdown.cpp:1181-1194 | printed edges are exactly the given ones, each once, in order |
| `MarkdownExport.StrictlySortedIsUnique` | src/core/checklist_markdown.cpp:1181-1194 | a strictly sorted list of edges is determined by its elements |
| `MarkdownExport.SortSlugs` | src/core/checklist_markdown.cpp:1109-1122 | sorting leaves a permutation in which no row precedes an earlier one |
| `MarkdownExport.WriteRows` | src/core/checklist_markdown.cpp:1143-1203 | the printing loop writes exactly the canonical text of the ordered rows |
| `MarkdownExport.ExportChecklistMarkdown` | src/core/checklist_markdown.cpp:1098-1204 | no rows give no text; otherwise the text is the canonical one of some correct sort of the rows |
| `MarkdownSteps.ClassifySection` | src/core/checklist_markdown.cpp:772-788 | a printed section heading is read as that section and as nothing else |
| `MarkdownSteps.BulletParses` | src/core/checklist_markdown.cpp:474-497 | a printed bullet is read back as its field name and value |
| `MarkdownSteps.StepBullet` | src/core/checklist_markdown.cpp:859-895 | reading the next printed bullet fills exactly the next field |
| `MarkdownRow.RunInstructions` | src/core/checklist_markdown.cpp:705-737 | for any instruction lines without headings, the block up to the relationships heading keeps exactly the lines the lookahead keeps |
| `MarkdownRow.RunEdges` | src/core/checklist_markdown.cpp:837-857 | printed edges are collected in order as relationship lines |
| `MarkdownRow.RunRow` | src/core/checklist_markdown.cpp:679-898 | reading a printed row flushes the one before and ends with its own builder |
| `MarkdownDocument.ParsePrinted` | src/core/checklist_markdown.cpp:679-914 | reading all lines of any printed document yields all its rows, in order, with computed ids |
| `MarkdownOutput.StepKeeps` | src/core/checklist_markdown.cpp:679-898 | every line, well formed or not, keeps the parser invariant and the checklist name |
| `MarkdownOutput.ParserOutput` | src/core/checklist_markdown.cpp:613-1096 | whatever the input, a successful parse gives at least one row, and every row has trimmed one-line fields, clean instructions and its computed id |
| `MarkdownText.DocumentText` | src/core/checklist_markdown.cpp:619-630 | reading the text of a document gives its lines back, up to carriage returns in instructions |
| `MarkdownText.StoredExactly` | src/core/checklist_markdown.cpp:705-737 | instructions come back unchanged if and only if no line ends in a carriage return and the last is no rule of dashes |
| `MarkdownRoundTrip.EditAndReimport` | src/core/checklist_markdown.cpp:939-1063 | a printed file with arbitrarily edited content parses to the edited rows, the old edges under the new ids, and the lineage of changed rows |
| `MarkdownRoundTrip.EditAndReimportAddresses` | src/core/checklist_markdown.cpp:939-1093 | in address form the edges stay with the printed address and changed rows still declare their lineage |
| `MarkdownTargets.EditedRowsDeclareLineage` | src/core/checklist_markdown.cpp:977-995 | each pair of old and new id is declared in both directions once per row changed that way, and unchanged rows declare nothing |
| `MarkdownTargets.TupleExactly` | src/core/checklist_markdown.cpp:350-460 | a section and procedure written as a target are read back if and only if commas and parentheses nest as described above |
| `MarkdownTargets.TupleMeansRows` | src/core/checklist_markdown.cpp:916-937 | such a target stands for every row of that section and procedure and for no other |
| `MarkdownLaws.RoundTrip` | src/core/checklist_markdown.cpp:613-1204 | export then import of well-formed rows gives the same rows in export order and exactly the printed relationships |
| `MarkdownLaws.RoundTripExactly` | src/core/checklist_markdown.cpp:613-1204 | the rows come back if and only if every one is well formed |
| `MarkdownLaws.AddressRoundTrip` | src/core/checklist_markdown.cpp:613-1204 | the same in address mode, with each row's own edges under its address |
| `MarkdownLaws.AddressRoundTripExactly` | src/core/checklist_markdown.cpp:613-1204 | in address mode the rows come back if and only if all are well formed, and without any lineage if and only if moreover each address is built on its row's id |
| `MarkdownLaws.PrintedRelMembers` | src/core/checklist_markdown.cpp:1124-1194 | the printed relationships are exactly the stored ones of exported rows |
| `MarkdownLaws.PrintedOnce` | src/core/checklist_markdown.cpp:1124-1194 | rows with different ids print no relationship twice |
| `MarkdownLaws.TitleFixesName` | src/core/checklist_markdown.cpp:739-770 | the first line fixes the checklist name of any file that parses, whatever follows |
| `ImportOrder.AssignImportOrder` | src/core/app.cpp:1648-1665 | the in-place loop over per-section counters writes exactly the block-and-place number of every row |
| `NormalForm.SortedImportIsGrouped` | src/core/app.cpp:1648-1665 | numbering then sorting groups rows by section in order of first appearance, keeping the order inside, whatever the sort does with ties |
| `NormalForm.NumbersAreDistinctExactly` | src/core/app.cpp:1560-1561 | import numbers are distinct if and only if no section but the last exceeds its block |
| `Grouping.GroupedTwice` | src/core/app.cpp:1648-1665 | grouping keeps sections and their rows and is idempotent |
| `Grouping.HeadingsOnce` | src/core/checklist_markdown.cpp:1147-1152 | a grouped list prints every section heading exactly once, in order of first appearance |
| `Grouping.ContiguousIsGrouped` | src/core/app.cpp:1648-1665 | lists whose sections are contiguous keep their order |
| `ImportExport.ParsedRelationshipsPrint` | src/core/checklist_markdown.cpp:939-1093 | every relationship the parser can emit is one the exporter can print |
| `ImportExport.ReimportExactly` | src/core/app.cpp:1648-1665 | parse, number and export any file: parsing again gives its grouped rows if and only if its instructions are stable |
| `ImportExport.ImportExportIsNormal` | src/core/app.cpp:1648-1665 | the second round of import and export reproduces the text exactly, with one heading a section, and keeps contiguous files in order |
| `ImportExport.TrailingRuleIsLost` | src/core/checklist_markdown.cpp:712-724 | every one-row file ending in a lone rule parses to instructions that the next round loses |
| `LineageMerge.Merger.AddRel` | src/core/app.cpp:1702-1719 | a relationship is appended unless inadmissible or already covered, and nothing else changes |
| `LineageMerge.Merger.LoadPredecessors` | src/core/app.cpp:1741-1757 | the memo always agrees with the stored table |
| `LineageMerge.Merger.Expand` | src/core/app.cpp:1774-1784 | popping a row visits, relates and pushes exactly its unseen predecessors |
| `LineageMerge.Merger.Search` | src/core/app.cpp:1769-1785 | the stack search ends on cyclic data and leaves a set closed under stored predecessors, all of them ancestors |
| `LineageMerge.Merger.Walk` | src/core/app.cpp:1759-1787 | after the closure of one subject every ancestor is covered and nothing but ancestors was added |
| `LineageMerge.MergeWithLineage` | src/core/app.cpp:1667-1791 | the merge promises every admissible input, every stored lineage triple and the whole ancestor closure, without repeated keys |
| `LineageMerge.CollectDirects` | src/core/app.cpp:1689-1700 | direct predecessors are recorded for imported rows only, from either spelling, in input order |
| `LineageMerge.KeyIsInjective` | src/core/app.cpp:1709-1718 | the joined key identifies a relationship when its parts lack the separator |
| `LineageHistory.MergeExactly` | src/core/app.cpp:1667-1791 | the merged list holds exactly the admissible inputs, stored lineage and ancestors, none twice |
| `LineageHistory.ImportKeepsHistory` | src/core/app.cpp:5553-5555 | one import carries a row's whole known history over to its current id |
| `LineageHistory.WholeHistoryIsMerged` | src/core/app.cpp:5553-5555 | over any run of imports a row's merged predecessors include every id it ever had |
| `LineageAliases.ChaseExactly` | src/core/app.cpp:1844-1866 | the chase finds a sink or a branch if and only if unique successors lead there, and reports a cycle otherwise |
| `LineageAliases.AliasExactly` | src/core/app.cpp:1868-1880 | an alias exists if and only if unique successors lead to a present sink other than the start |
| `LineageAliases.WarningsExactly` | src/core/app.cpp:1835-1880 | cycle, branch and missing warnings are each given exactly for the nodes that deserve them |
| `LineageAliases.NodesArePartitioned` | src/core/app.cpp:1868-1880 | every lineage node is exactly one of: its own latest, aliased, warned about |
| `LineageAliases.AliasesAreFinal` | src/core/app.cpp:1868-1898 | applying aliases twice equals applying them once |
| `LineageAliases.AliasesIgnoreOrderAndSpelling` | src/core/app.cpp:1808-1830 | relationship order and the choice between the two spellings do not change the aliases |
| `LineageAliases.IndexLinks` | src/core/app.cpp:1808-1830 | the successor lists built in the loop hold each step once |
| `LineageAliases.ResolveLatest` | src/core/app.cpp:1844-1866 | the chase loop ends and computes the chase on any graph |
| `LineageAliases.BuildSlugLineageAliases` | src/core/app.cpp:1798-1882 | the loops give exactly the alias map and warnings of the declared lineage |
| `LineageAliases.BuildAddressLineageAliases` | src/core/app.cpp:1905-2000 | the same for 32-character addresses of the instance |
| `LineageImport.DeriveEdges` | src/core/app.cpp:5562-5641 | the derivation loops store for each address exactly its derived edges, sorted and without repetition |
| `LineageImport.DerivedMembers` | src/core/app.cpp:5562-5641 | derived edges are those of template and address relationships together, strictly sorted |
| `LineageImport.AncestorsResolveExactly` | src/core/app.cpp:1868-1880 | every merged ancestor is aliased to its imported row if and only if the lineage is linear |
| `LineageImport.SeparateIsLinear` | src/core/app.cpp:1798-1882 | a merged list with separate ancestors is linear |
| `LineageEndToEnd.MergedLinks` | src/core/app.cpp:1684-1787 | the merged list states exactly the lineage that file, store and stored revisions give |
| `LineageEndToEnd.LinearExactly` | src/core/app.cpp:1667-1898 | the merged list is linear if and only if the histories in file and store are |
| `LineageEndToEnd.SeparateExactly` | src/core/app.cpp:1667-1787 | the merged list has separate ancestors if and only if the histories in file and store are separate |
| `LineageEndToEnd.SeparateHistoriesAreLinear` | src/core/app.cpp:1667-1898 | disjoint former ids, none of them imported, and no successor of an imported row make linear histories |
| `LineageEndToEnd.HistoriesResolveExactly` | src/core/app.cpp:1798-1898 | every former id is aliased to its one imported row if and only if the given histories are linear |
| `LineageEndToEnd.FormersGetTheirEdges` | src/core/app.cpp:5553-5594 | an ordinary relationship to any former id becomes an edge to its row, once, and no lineage link becomes an edge to the former id |
| `LineageEndToEnd.EveryRevisionResolves` | src/core/app.cpp:5553-5641 | over a run of imports, a relationship to any id a row ever had becomes an edge to its current address |
| `LineageImport.AncestorsGetNoEdges` | src/core/app.cpp:1884-1898 | no declared lineage link turns into an edge to a resolved ancestor |
| `Scopes.SplitLoop` | src/core/oauth.cpp:64-81 | the character loop gives the non-empty fields between separators |
| `Scopes.TokensOfJoin` | src/core/oauth.cpp:53-81 | splitting undoes joining on non-empty tokens without the separator |
| `Scopes.NormalizeKeepsScopes` | src/core/oauth.cpp:88-97 | normalising keeps the scope set and is idempotent |
| `Scopes.FindScope` | src/core/app.cpp:2387-2399 | the search loop decides whether some field equals the scope |
| `Scopes.HasScopeIsMembership` | src/core/app.cpp:2387-2399 | for a non-empty scope that test is membership in the scope set |
| `Scopes.ScopeSubsetIsSubset` | src/core/app.cpp:2804-2819 | the authorisation check accepts exactly the subsets of the client's scopes |
| `OAuth.OAuthStore.UpsertClient` | src/core/oauth.cpp:235-259 | only the client's row changes, to the joined and normalised lists |
| `OAuth.OAuthStore.GetClient` | src/core/oauth.cpp:261-311 | the stored lists are given back split, or nothing for an unknown client |
| `OAuth.OAuthStore.IssueAuthorizationCode` | src/core/oauth.cpp:313-348 | a code row is inserted as granted, or the tables stay as they were with the broken constraint named |
| `OAuth.OAuthStore.ConsumeAuthorizationCode` | src/core/oauth.cpp:350-422 | a redeemable code is marked and returned, anything else changes nothing |
| `OAuth.OAuthStore.IssueTokens` | src/core/oauth.cpp:424-481 | one token row is inserted under the unique index, or nothing changes |
| `OAuth.OAuthStore.FindAccessToken` | src/core/oauth.cpp:604-615 | exactly unrevoked, unexpired tokens are found |
| `OAuth.OAuthStore.RotateRefreshToken` | src/core/oauth.cpp:631-740 | rotation revokes one row and inserts its successor together or not at all, and refuses only when no row is rotatable |
| `OAuth.InsertKeepsUnique` | src/core/oauth.cpp:186-233 | a successful insert keeps refresh hashes unique |
| `OAuthRuns.RunExtends` | src/core/oauth.cpp:350-740 | over any run rows stay and only gain their consumption and revocation marks |
| `OAuthRuns.CodesAreSingleUse` | src/core/oauth.cpp:350-422 | in every run each authorization code is redeemed at most once |
| `OAuthRuns.CodesAreBound` | src/core/oauth.cpp:350-422 | a code is redeemed only by its client, with its redirect and before it expires |
| `OAuthRuns.RefreshTokensAreSingleUse` | src/core/oauth.cpp:631-740 | in every run each refresh token rotates at most once |
| `OAuthRuns.RejectedForGood` | src/core/oauth.cpp:604-615 | with a clock that does not go back a rejected access token is never accepted again |
| `OAuthRuns.RunUnique` | src/core/oauth.cpp:186-233 | refresh hashes are unique after every run |
| `OAuthRuns.FamiliesHaveOneLiveToken` | src/core/oauth.cpp:424-740 | after every run each token family has exactly one unrevoked row, its newest, and one client, user and scope |
| `OAuthServer.CheckScopeSubset` | src/core/app.cpp:2804-2819 | the cutting loop decides the subset test |
| `OAuthServer.HandleAuthorize` | src/core/app.cpp:2998-3015 | a code is issued exactly when the request is allowed and the code is new, with the tables changed as the run says |
| `OAuthServer.HandleExchange` | src/core/app.cpp:3342-3367 | tokens are issued exactly when the code is redeemable and the insert succeeds; a redeemed code stays redeemed either way |
| `OAuthServer.HandleRefresh` | src/core/app.cpp:3369-3391 | a pair comes back exactly for a rotation that succeeded |
| `OAuthBinding.RefreshIgnoresClient` | src/core/app.cpp:3369-3391 | after any requests a refresh by any registered client succeeds if and only if the row can be rotated and the new hashes are fresh, with the same effect |
| `OAuthBinding.AnotherClientRefreshes` | src/core/app.cpp:3369-3391 | for any two clients there is a run in which one obtains a pair for the other's grant |
| `OAuthBinding.ServesItsClientExactly` | src/core/app.cpp:3342-3391 | a request adds tokens only for the client it names if and only if it does not rotate another client's row |
| `OAuthBinding.BoundRunsServe` | src/core/app.cpp:3307-3391 | if every refresh of a run is bound to its client, every token was asked for by its own client |
| `OAuthBinding.RunKeepsClients` | src/core/oauth.cpp:350-481 | in every run each code and token row has a registered client |
| `OAuthServer.RequireBearer` | src/core/app.cpp:2715-2762 | a request is let through by the loopback rule or by a bearer header with a live token of the required scope, and no other way; each refusal has its own cause |
| `OAuthServer.BearerAcceptsExactly` | src/core/app.cpp:2715-2762 | the check accepts exactly live tokens whose scope set holds the required scope |
| `OAuthServer.RequestsAreRuns` | src/core/app.cpp:3307-3391 | every sequence of requests is a run of store operations, so all run laws apply |
| `OAuthServer.AcceptedScopesWereAuthorised` | src/core/app.cpp:2715-2762 | after any requests and rotations an accepted scope was in the client's list when that client's user authorised it |
| `OAuthServer.EmptyScopeAsksForAll` | src/core/app.cpp:3002-3009 | a request that names no scope asks for exactly the client's list and passes the subset test |
| `OAuthServer.AuthorisedScopesWork` | src/core/app.cpp:2998-3012 | the other direction: an allowed authorisation followed by its exchange gives a live token that is let through for exactly the scopes asked for |
| `OAuthServer.RefreshHandsScopesOn` | src/core/oauth.cpp:631-740 | the new token of a rotation is let through for exactly the old token's scopes, and the old one for none from then on |
| `RateLimiter.TokenRateLimiter.Allow` | src/core/app.cpp:2564-2579 | the pruning loop changes only the key's queue and answers as the step function does |
| `RateLimiter.QueueIsTail` | src/core/app.cpp:2564-2579 | in every run, times in any order, a key's queue is the end of its allowed times, no longer than the maximum, and each dropped time is more than a window before a later allowed one |
| `RateLimiter.EndIsWindowExactly` | src/core/app.cpp:2571-2573 | the end of a list of times is its window if and only if it holds no expired and no later time and none of the window was dropped |
| `RateLimiter.KeptIsWindowExactly` | src/core/app.cpp:2571-2576 | for one call, times in any order: the queue is the window if and only if no allowed time is later and none kept has expired |
| `RateLimiter.DroppedTooSoon` | src/core/app.cpp:2568-2573 | a time is missing from the window only after a call allowed at a later time |
| `RateLimiter.QueuesAreWindowsExactly` | src/core/app.cpp:2568-2579 | over a run, the queue is the window at every call of a key if and only if no call is earlier than one allowed before |
| `RateLimiter.RefusedExactly` | src/core/app.cpp:2564-2579 | for such runs a call is refused if and only if max allowed calls of the key lie in the last window |
| `RateLimiter.WindowBound` | src/core/app.cpp:2564-2579 | for such runs no closed interval of one window length holds more than max allowed calls of a key |
| `RateLimiter.KeysAreIndependent` | src/core/app.cpp:2564-2579 | a key's queue is what its own calls alone would leave |
| `RateLimiter.AnswersAreIndependent` | src/core/app.cpp:2564-2579 | so calls of other keys never change an answer |
| `LateCalls.AnswerIsRightExactly` | src/core/app.cpp:2568-2579 | for one answer, times in any order: a refusal is right if and only if no more kept times are outside the window than dropped ones inside, an admission if and only if the surplus of dropped ones leaves room |
| `LateCalls.LateCallsRefuseTooMuch` | src/core/app.cpp:2568-2576 | a queue filled by any times within a window of the first refuses a call that is no later than that, however few lie in the call's window |
| `LateCalls.LateCallsAllowTooMuch` | src/core/app.cpp:2568-2578 | after a far call has emptied the queue, a late call is allowed into a window that already holds the maximum |
| `LateCalls.BoundWithoutOrderExactly` | src/core/app.cpp:2564-2579 | every window is bounded in every run, times in any order, if and only if the maximum is one |
| `Graph.BuildChecklistGraph` | src/core/graph_projection.cpp:320-416 | the builder's loops give the specified nodes, edges, degrees and ignored rows |
| `Graph.CountDegrees` | src/core/graph_projection.cpp:402-414 | the counting loop adds every relationship edge to both its ends, through the first-wins index |
| `GraphLaws.DegreesAddUp` | src/core/graph_projection.cpp:379-414 | out-degrees add up to the relationship edges, in-degrees to the internal ones |
| `GraphLaws.NodeDegrees` | src/core/graph_projection.cpp:402-414 | with distinct addresses a node's counts are the edges leaving and entering it |
| `GraphLaws.GraphIgnoresOrder` | src/core/graph_projection.cpp:320-416 | permuting rows and their relationships does not change the graph |
| `GraphDot.RenderChecklistGraphDot` | src/core/graph_projection.cpp:418-481 | the renderer's index maps give the specified drawing, or the specified failed lookup |
| `GraphDot.DrawsExactly` | src/core/graph_projection.cpp:448-478 | rendering throws if and only if an edge from a node leads to a target nobody declares |
| `GraphDot.BuiltGraphsRender` | src/core/graph_projection.cpp:418-481 | every built graph renders, with one arrow for each edge, naming its two addresses |
| `WorkbenchBuilder.Builder.AddRelationship` | src/core/graph_projection.cpp:717-746 | one relationship adds one edge and keeps the sets in agreement with the edge list |
| `WorkbenchBuilder.Builder.Resolve` | src/core/graph_projection.cpp:775-798 | a slug stands for its own rows, or else for those of the slugs it is an alias of |
| `WorkbenchBuilder.Builder.RenderLegacyAlias` | src/core/graph_projection.cpp:812-825 | the alias node is declared and linked to every row, which stays pending for the caller |
| `WorkbenchBuilder.Builder.LinkRows` | src/core/graph_projection.cpp:886-891 | after the linking loop no row is pending: the sets say what the edges say |
| `WorkbenchBuilder.Builder.AddTerminals` | src/core/graph_projection.cpp:858-893 | accepted terminals give exactly their links, the others exactly their findings |
| `WorkbenchBuilder.Builder.AddSources` | src/core/graph_projection.cpp:895-958 | accepted sources are numbered in order and linked, the others reported; evidence is counted |
| `WorkbenchBuilder.Builder.AddDataset` | src/core/graph_projection.cpp:965-1140 | a dataset gives exactly its lookup, column and binding edges, and exactly its findings, the fan-out one included |
| `WorkbenchBuilder.Builder.AddDatasets` | src/core/graph_projection.cpp:960-1142 | datasets keep their position as number, whether or not earlier ones were usable |
| `WorkbenchReport.BuildRelationshipWorkbench` | src/core/graph_projection.cpp:654-1204 | every listed edge joins two listed nodes, a row is reported orphan or self-only exactly when the listed edges make it so, and the summary counts what is listed |
| `WorkbenchReport.SelfOnlyExactly` | src/core/graph_projection.cpp:1165-1190 | the three sets single out exactly the rows with an operational self-edge and otherwise only lineage |
| `WorkbenchReport.OrphanExactly` | src/core/graph_projection.cpp:1144-1163 | a row is unconnected if and only if no listed edge touches it |
| `WorkbenchReport.BuiltSourcesAreNodes` | src/core/graph_projection.cpp:379-400 | graphs built from rows meet the workbench's demand on edge sources |
| `Layout.PrecedesIsStrictWeakOrder` | CHAX-CLIENT/web/flow_graph_engine.js:5-10 | the display comparator is a strict weak order |
| `Layout.ClassifyGraphEdges` | CHAX-CLIENT/web/flow_graph_engine.js:20-35 | the four parts are the edges of each class, in order |
| `Layout.PartitionConserves` | CHAX-CLIENT/web/flow_graph_engine.js:20-35 | an edge lands in the part of its class as often as it was given, and in no other |
| `Layout.RunRound` | CHAX-CLIENT/web/flow_graph_engine.js:51-60 | one in-place round over the edges is one round of the specification, and unchanged means stable |
| `Layout.LayoutNodes` | CHAX-CLIENT/web/flow_graph_engine.js:46-76 | the method with its early exit gives the order, positions and column count of the full number of rounds |
| `Layout.LevelsAreLongestPaths` | CHAX-CLIENT/web/flow_graph_engine.js:50-60 | for any edge order a row's level is the length of the longest forward path to it, capped at eight |
| `Layout.LevelIsLongestPath` | CHAX-CLIENT/web/flow_graph_engine.js:50-60 | a row's level is right as soon as no forward path to it stands still or there are eight rows |
| `LayoutLevels.LevelsAreLongestExactly` | CHAX-CLIENT/web/flow_graph_engine.js:51-60 | for every graph and row: the level is right in every order of the edges if and only if there are eight rows, or no self-linked row leads there, or one with enough self-links does |
| `LayoutLevels.TooFewRounds` | CHAX-CLIENT/web/flow_graph_engine.js:51-60 | in every other case the slowest order of the edges leaves the row below the cap although its paths are unbounded |
| `LayoutLevels.SingleLoopsExactly` | CHAX-CLIENT/web/flow_graph_engine.js:51-60 | where no row has two self-links all levels are right in every order if and only if there is no self-link or there are eight rows |
| `Layout.PositionsAreDistinct` | CHAX-CLIENT/web/flow_graph_engine.js:61-75 | different rows never share a position |
| `Layout.EdgesLeadRight` | CHAX-CLIENT/web/flow_graph_engine.js:50-75 | an edge to a later row leads strictly to the right unless its source is in the last column |
| `Layout.LayoutIgnoresOrder` | CHAX-CLIENT/web/flow_graph_engine.js:46-76 | the layout depends on neither row order nor edge order |
| `Projection.GroupByPredicate` | CHAX-CLIENT/web/flow_graph_engine.js:83-90 | hubs are the edge groups by kind and predicate, in order of first appearance |
| `Projection.HubsPartition` | CHAX-CLIENT/web/flow_graph_engine.js:83-90 | hub keys differ and every edge is in the hub of its key as often as it was given, and in no other |
| `Projection.BuildFullConcentratedProjection` | CHAX-CLIENT/web/flow_graph_engine.js:78-122 | partition, layout, hubs and external targets fit together as specified |
| `Projection.DrawnExactly` | CHAX-CLIENT/web/flow_graph_engine.js:228-234 | an operational edge is drawn if and only if its source is a row and its target is a row or an external target |
| `Projection.OrdinaryEdgesAreDrawn` | CHAX-CLIENT/web/flow_graph_engine.js:228-234 | local edges and external edges from rows are always drawn |
| `Projection.LegacyLineageIsDropped` | CHAX-CLIENT/web/flow_graph_engine.js:101-106 | a lineage edge alone to an absent row is never drawn |
| `Projection.ExternalsStandClear` | CHAX-CLIENT/web/flow_graph_engine.js:107-110 | without self-links between rows, external targets stand right of every row |
| `Projection.LevelBelow` | CHAX-CLIENT/web/flow_graph_engine.js:50-60 | below every occupied level the next lower one is occupied |
| `Projection.BuildDrilldownProjection` | CHAX-CLIENT/web/flow_graph_engine.js:167-194 | the drill-down is the full projection of the selected edges and the rows at their ends |
| `Projection.DrilldownKeepsClasses` | CHAX-CLIENT/web/flow_graph_engine.js:167-194 | cutting the graph down changes no shown edge's class and keeps the selected row |
| `Projection.RowDrilldownExactly` | CHAX-CLIENT/web/flow_graph_engine.js:167-194 | a row's drill-down shows exactly the edges at it that are not display order, and exactly the row and its neighbours |
| `Utf8.DecodeUtf8` | src/core/checklist_markdown.cpp:78-161 | the index-moving decoder agrees with the specification and always moves on inside the input |
| `Utf8.DecodesExactly` | src/core/checklist_markdown.cpp:78-161 | a character is accepted if and only if the input starts with the encoding of a scalar value: no overlong form, surrogate or value above 0x10FFFF |
| `Utf8.CodesOfEncoded` | src/core/app.cpp:153-175 | decoding the concatenated encodings of scalar values gives them back |
| `Utf8.EncodedOfCodes` | src/core/app.cpp:153-175 | every input accepted throughout is the encoding of what it decodes to |
| `Utf8.ScanLine` | src/core/checklist_markdown.cpp:272-297 | the scan visits every position of the line, skipped bytes as replacement characters, and stops at its end |
| `Utf8.ScanUnsupportedLatexUnicode` | src/core/checklist_markdown.cpp:270-304 | counts are exactly the occurrences of unsupported characters, and each warning names the first place |
| `Csv.ParseCsv` | src/core/graph_projection.cpp:207-258 | the index loop with its look at the next quote computes the reading function |
| `Csv.ParsedWrite` | src/core/graph_projection.cpp:207-258 | reading any written table gives its rows, less the carriage returns and the mark the reader takes |
| `Csv.RoundTripExactly` | src/core/graph_projection.cpp:207-258 | the table comes back if and only if none of the losing cases occurs |
| `Framing.ValueOfDecimal` | src/tools/chax_mcp_bridge.cpp:70-74 | the printed length has the value it was printed from |
| `Framing.InputStream.ReadHeaders` | src/tools/chax_mcp_bridge.cpp:21-52 | the header loop consumes exactly the header and ends with the last length given |
| `Framing.InputStream.ReadMessage` | src/tools/chax_mcp_bridge.cpp:20-68 | a message, its absence or the number error are as specified, and so is the input left |
| `Framing.OutputStream.WriteMessage` | src/tools/chax_mcp_bridge.cpp:70-74 | the frame is appended to the output |
| `Framing.ReceivesExactly` | src/tools/chax_mcp_bridge.cpp:20-74 | a written message is read back, and nothing after it touched, if and only if its length is positive and fits |
| `Framing.StreamRoundTrip` | src/tools/chax_mcp_bridge.cpp:20-74 | reading the stream of any non-empty bodies gives them back in order and uses it up |
| `WorkerPool.Limit` | CHAX-CLIENT/web/checklist_prototype_common.js:2664 | at least one runner, never more than items, never more than a positive wanted number |
| `WorkerPool.Runners.TakeNext` | CHAX-CLIENT/web/checklist_prototype_common.js:2668-2673 | taking an index is one claim step of the pool |
| `WorkerPool.Runners.Settle` | CHAX-CLIENT/web/checklist_prototype_common.js:2674-2675 | an answered call is one resolve step of the pool |
| `WorkerPool.MapWithConcurrency` | CHAX-CLIENT/web/checklist_prototype_common.js:2661-2678 | under any schedule the pool ends and returns what a sequential map of the worker over items and indices would |
| `WorkerPool.ClaimsAreOrdered` | CHAX-CLIENT/web/checklist_prototype_common.js:2661-2678 | in every interleaving indices are claimed once and in order, at most the limit in flight, no two runners on one |
| `WorkerPool.FinishedHasAll` | CHAX-CLIENT/web/checklist_prototype_common.js:2661-2678 | in every interleaving every index was called once at the end and has a result; that the results are the worker's is `WorkerPool.MapWithConcurrency` |
| `WorkerPool.NoRunnerGivesUpEarly` | CHAX-CLIENT/web/checklist_prototype_common.js:2668-2673 | while items are unclaimed no runner has returned |
| `WorkerPool.RunsEnd` | CHAX-CLIENT/web/checklist_prototype_common.js:2661-2678 | no run is longer than two steps an item and one a runner |
| `WorkerPool.StuckIsFinished` | CHAX-CLIENT/web/checklist_prototype_common.js:2661-2678 | a pool that cannot move has finished |
| `InstanceSeeding.FindMissing` | CHAX-CLIENT/web/checklist_prototype_common.js:3082-3087 | the map keyed by slug gives the last row of each missing slug, in order of first appearance |
| `InstanceSeeding.EnsureInstanceCoverage` | CHAX-CLIENT/web/checklist_prototype_common.js:3081-3145 | rows are created for the missing slugs in order, and the only error is a missing principal |
| `InstanceSeeding.EachMissingSlugPostedOnce` | CHAX-CLIENT/web/checklist_prototype_common.js:3100-3145 | under every interleaving each missing template slug is posted exactly once and no other |
| `InstanceSeeding.NoSlugPostedTwice` | CHAX-CLIENT/web/checklist_prototype_common.js:3100-3145 | at no moment has a slug been posted twice |

## Left out

- The content hash and token hashes: parameters; collisions and cryptographic strength are not modelled.
- SQL, locking, sqlite errors and the schema's other tables: tables are maps, a statement succeeds or breaks one of the named constraints, and a transaction happens at once.
- Redirect checks, client secrets, sessions, login and consent pages: one Boolean stands for the redirect check.
- The limiter's mutex and the clock: the time of a call is a parameter, and calls happen one after the other.
- Integer widths: `address_order`, times, counters and positions are unbounded integers.
- Front matter beyond the keys the parser reads: other keys are skipped, as the code skips them.
- OAuthServer.RequireBearer: which addresses are loopback, and the context set for the handlers, are not modelled.
- Existing-row lookup, warnings and ownership records of the import handler: only relationships, aliases and derived edges are modelled.
- LineageMerge.MergeWithLineage: the store's list of existing relationships is a parameter beside the table, as the code reads both.
- Graph.BuildChecklistGraph: the kind of a specification text is a function parameter, since it rests on strtod.
- GraphDot.RenderChecklistGraphDot: section clusters, labels and escaping are not modelled; only which ends an arrow names.
- Mermaid and DBML renderers: the first repeats the DOT lookups, the second is a constant.
- Workbench titles, subtitles, messages and details: nodes, edges, finding codes and the nodes they name are kept; node ids are constructors instead of prefixed strings.
- Reading and parsing `bindings.json`, `checklist.md` and dataset files: their contents are data.
- Layout.LayoutNodes: numbers are integers and finite, and `localeCompare` is bytewise comparison, which agrees on base-32 addresses; edges are between rows, as its only caller passes them.
- Projection.BuildFullConcentratedProjection: the averaged horizontal hub positions and the canvas size are not modelled.
- The predicate overview, swimlanes, SVG and zoom code: drawing only.
- WorkerPool.MapWithConcurrency: rejected worker calls are not modelled.
- InstanceSeeding.EnsureInstanceCoverage: of the request body only the template row is kept.
- Framing.InputStream.ReadMessage: the JSON inside a body is not parsed, and lengths beyond the range of streamsize are not told apart.
- Predicate propagation, report generation, MCP tools and the second Markdown implementation in the browser: not modelled.
