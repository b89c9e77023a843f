# APIC VLAN validation, modelled in Dafny

The tool reads two kinds of text copied from a Cisco APIC fabric. The first is the
endpoint listing: either `show endpoint` output for one endpoint, or in automatic mode
the bulk listing of every endpoint. The second is the output of a `moquery` for the
static path attachments of the EPGs. It decides, for every interface an endpoint was
seen on, whether the endpoint's VLAN is allowed there. That holds when some attachment
on that VLAN names the same interface after normalisation (trim, drop square brackets,
lower-case). The interfaces that are not allowed can be exported as a CSV of
configuration paths (`pod-N/paths-NODE/pathep-[IF]` or
`pod-N/protpaths-N1-N2/pathep-[IF]`). A matrix shows every (IP, interface) row against
every VLAN.

The model is functional: immutable records, folds over lines and entries, and pure
functions. Each module follows one part of the program.

- `text.dfy` (`Text`): the string operations the program relies on (`trim`,
  `split('\n')`, `join`, `lastIndexOf`, `toLowerCase`/`toUpperCase` on ASCII, `parseInt`
  of a leading digit run).
- `scan.dfy` (`Scan`): the leftmost-match strategy of `String.prototype.match`.
- `patterns.dfy` (`Patterns`): one hand-written matcher for each regular expression of
  the program. Each is a "match at position i" function that `Scan.Leftmost` searches
  with.
- `ordered.dfy` (`Ordered`): insertion-ordered JavaScript `Set` and `Map` behaviour.
  It gives first-seen order without repetitions, last write wins, `filter` and `find`.
- `records.dfy` (`Records`): the record types and `normalizePathName`.
- `endpoint_parser.dfy`, `moquery_parser.dfy`, `auto_parser.dfy`: the three parsers.
  The patterns applied to a line are computed apart from the state update of the loop.
- `reconcile.dfy` (`Reconcile`): `validateVlanAllowances`, `selectBestEpgMatch`,
  `extractVlanFromEpg` and `generateCSV`.
- `app.dfy` (`App`): the entry list of `App.tsx` and how it is edited, the manual and
  automatic handlers, the CSV export and the not-allowed count.
- `matrix.dfy` (`Matrix`): the columns and rows behind `MatrixTable`.

Three behaviours of the code are easy to miss:

- `normalizePathName` is not idempotent. `"[ a ]"` normalises to `" a "`, because the
  trim happens before the brackets are removed.
- The application's own export does not call `generateCSV`. It takes the first
  attachment with the same normalised path, where `generateCSV` takes the last. Its
  fallbacks also differ: it reads nodes only from `<digits>`, uses a fixed node-range
  rule for the pod, and its last fallback pod is `pod-2`. `generateCSV` falls back to
  the pod of the first attachment on the same VLAN, and to `pod-1` only when there is
  none.
- `removeEntry` keeps at least one entry only while ids are distinct. Its guard counts
  entries, not ids.

## Model

| member | source | states |
|---|---|---|
| Records.NormalizePathName | src/utils/apicParser.ts:258-261 | the normalised path has no square bracket and no upper-case letter |
| Records.NormalizePathNameIsFilter | src/utils/apicParser.ts:258-261 | the normalised path is the trimmed path with every square bracket dropped and the other characters kept in order, then lower-cased |
| Records.NormalizeIdempotentWithoutBrackets | src/utils/apicParser.ts:258-261 | on a path without brackets, normalising twice is normalising once |
| Records.NormalizeNotIdempotent | src/utils/apicParser.ts:258-261 | in general it is not idempotent: "[ a ]" gives " a ", which gives "a" |
| Records.RemoveBrackets | src/utils/apicParser.ts:260 | the result has no bracket, never grows, and leaves a bracket-free string unchanged |
| Records.RemoveBracketsIsFilter | src/utils/apicParser.ts:260 | removing brackets keeps exactly the characters other than "[" and "]", in order |
| Records.RemoveBracketsConcat | src/utils/apicParser.ts:260 | brackets are removed piece by piece: the result for a+b is that for a followed by that for b |
| Records.RemoveBracketsSingle | src/utils/apicParser.ts:260 | one character is dropped exactly when it is a square bracket |
| Text.Trim | src/utils/apicParser.ts:26 | the result is the input with white space (the JavaScript set) removed at both ends and none left at either end |
| Text.TrimIdempotent | src/utils/apicParser.ts:26 | trimming twice is trimming once |
| Text.JoinSplitLines | src/utils/apicParser.ts:26 | joining the pieces of split('\n') with "\n" gives back the text |
| Text.SplitHeaderAndRows | src/utils/apicParser.ts:339 | splitting a header line joined to one-line rows by newlines gives back the header and then the rows; with no row, the header and an empty line |
| Patterns.VlanEncap | src/utils/apicParser.ts:411-412 | the encap token exists exactly when the VLAN token does, and is "vlan-" in some letter case followed by exactly those digits |
| Patterns.DigitRun | src/utils/apicParser.ts:357 | there is no digit run exactly when the name has no digit; the run found is the leftmost one and is maximal: no digit before it and none right after it |
| Patterns.NodeInterface | src/utils/apicParser.ts:57 | a node/interface match has a node of digits and a non-empty interface, and implies the line also has a vlan-digits token |
| Patterns.DnProtpaths | src/utils/apicParser.ts:114 | a VPC attachment match has non-empty EPG, nodes and path, and a pod named `pod-` in any letter case, then digits |
| Patterns.DnPaths | src/utils/apicParser.ts:124 | a single-switch attachment match has non-empty EPG, node and path, and a pod named `pod-` in any letter case, then digits |
| EndpointParser.Observe | src/utils/apicParser.ts:36-90 | a line yields no observation exactly when it is blank or is the Node/Interface header |
| EndpointParser.ParseEndpointLines | src/utils/apicParser.ts:25-105 | a record has a VLAN of digits, at least one path, no repeated path, pod "", and maps keyed only by its paths |
| EndpointParser.ParseEndpointOutput | src/utils/apicParser.ts:25-105 | a record parsed from the trimmed input has a VLAN of digits, at least one path, no repeated path, pod "", and node and IP maps keyed only by its paths |
| EndpointParser.ParseEndpointNullIff | src/utils/apicParser.ts:93-104 | the parse fails exactly when no line has a VLAN token or no line yields a path |
| EndpointParser.ParseEndpointFirstWins | src/utils/apicParser.ts:44-53 | the VLAN is that of the first line with a token, and the IP that of the first line with an address ("" when none has one) |
| EndpointParser.ParseEndpointCollections | src/utils/apicParser.ts:58-90 | the paths are all interfaces and VPC paths in first-seen order; the node map and IP map are the last write per path |
| EndpointParser.EthPathGivesRecord | src/utils/apicParser.ts:57-68 | one line with a node/interface match suffices for a record |
| EndpointParser.ScanPathsFirstSeen | src/utils/apicParser.ts:61-82 | the path Set of the loop holds every path once, in order of first appearance |
| EndpointParser.ScanNodesLastWins | src/utils/apicParser.ts:62 | the node map is the last write per interface |
| EndpointParser.ScanIpsLastWins | src/utils/apicParser.ts:65-87 | the IP map is the last write per path, lines without an address writing nothing |
| EndpointParser.StepKeepsInvariant | src/utils/apicParser.ts:34-91 | each line keeps the paths distinct and the map keys among the paths |
| MoqueryParser.ResolveVlan | src/utils/apicParser.ts:136-155 | the line's vlan-digits token wins; without one, VLAN-digits in the EPG name; without that, the first three digits in a row of the EPG name; "" exactly when all three fail |
| MoqueryParser.LineDn | src/utils/apicParser.ts:114-129 | the VPC pattern is tried first and the single-switch pattern only when it fails; nothing exactly when both fail |
| MoqueryParser.ParseAttachmentLine | src/utils/apicParser.ts:111-173 | a line gives a record exactly when it is non-blank, a DN pattern matches and a VLAN resolves; the record's VLAN is the resolved one, its EPG, path and pod are the DN captures, and its fullPath is pod/protpaths-nodes/pathep-[path] for a VPC, else pod/paths-node/pathep-[path] |
| MoqueryParser.ParseMoqueryLines | src/utils/apicParser.ts:107-177 | every record is well formed (digits VLAN, a pod of `pod-` in any letter case then digits, fullPath built from its parts), there are at most as many as lines, and a record is in the output exactly when some line gives it |
| MoqueryParser.ParseMoqueryOutput | src/utils/apicParser.ts:107-177 | the records of the trimmed input's lines: each well formed, and exactly those some line gives |
| MoqueryParser.ParseMoqueryConcat | src/utils/apicParser.ts:111-174 | lines contribute independently: two blocks give the records of the first then those of the second, without deduplication |
| MoqueryParser.ParseMoquerySingleLine | src/utils/apicParser.ts:112-129 | a blank line or one matching neither pattern gives no record |
| MoqueryParser.ParseMoqueryCount | src/utils/apicParser.ts:112 | at most one record per non-blank line |
| MoqueryParser.EpgsByVlan | src/utils/apicParser.ts:211-219 | every list is non-empty and without repetitions |
| MoqueryParser.EpgsByVlanSpec | src/utils/apicParser.ts:179-224 | a VLAN is a key exactly when some line resolves to it, and its list is those lines' EPG names with repetitions removed |
| MoqueryParser.EpgListsFirstSeen | src/utils/apicParser.ts:212-218 | each list is in order of first appearance |
| MoqueryParser.ExtractEpgNamesFromMoquery | src/utils/apicParser.ts:179-224 | every VLAN in the table has a non-empty list of EPG names without repetitions |
| AutoParser.Row | src/utils/apicParser.ts:392-423 | a line yields an endpoint exactly when it has a MAC, an IPv4 address, a path and a current VLAN; it carries the current VLAN and EPG |
| AutoParser.RowPath | src/utils/apicParser.ts:398-407 | the VPC group is preferred to the eth port |
| AutoParser.ParseAutoLines | src/utils/apicParser.ts:374-427 | every endpoint has an IP, a 17-character MAC, a path, a digits VLAN and an encap of `vlan-` in any letter case followed by that VLAN |
| AutoParser.ParseApicEndpointsAuto | src/utils/apicParser.ts:374-427 | every endpoint of the trimmed input has an IP, a 17-character MAC, a path, a digits VLAN and an encap of `vlan-` in any letter case followed by that VLAN |
| AutoParser.AutoScanContext | src/utils/apicParser.ts:378-390 | the loop's VLAN and EPG are those of the most recent line carrying one |
| AutoParser.CurrentVlan | src/utils/apicParser.ts:382-385 | the current VLAN is "" before any token, else that of the last line with one |
| AutoParser.CurrentEpg | src/utils/apicParser.ts:387-390 | the same for the trimmed AEPg value |
| AutoParser.AutoRowsInOrder | src/utils/apicParser.ts:381-426 | the output is, line by line, the endpoint each line yields in the context of the lines up to it |
| AutoParser.AutoPrefixStable | src/utils/apicParser.ts:381-426 | more lines never change the endpoints already found |
| Reconcile.ValidateVlanAllowances | src/utils/apicParser.ts:226-255 | one result per path in order, all with an active endpoint; allowed exactly when an attachment on the endpoint's VLAN has the same normalised path, and the status agrees |
| Reconcile.ValidateIgnoresOtherVlans | src/utils/apicParser.ts:233 | attachments on other VLANs never change any verdict |
| Reconcile.PathIndexKeys | src/utils/apicParser.ts:234-238 | a normalised path is a key of the Map exactly when some attachment has it |
| Reconcile.PathIndexLastWins | src/utils/apicParser.ts:277-280 | the attachment stored under a normalised path is the last one with it |
| Reconcile.AddressPrefix | src/utils/apicParser.ts:445 | without a dot the prefix is ""; otherwise it is the address up to its last dot |
| Reconcile.Score | src/utils/apicParser.ts:442-452 | a name gets 10 exactly when it contains the address up to its last dot, and 5 exactly when it contains a dotted quad; the score is at most 15 |
| Reconcile.DotlessAddressScoresAll | src/utils/apicParser.ts:445-447 | an address without a dot gives every candidate the +10 |
| Reconcile.BestSoFar | src/utils/apicParser.ts:438-458 | over the candidates' scores, the loop's best score bounds every score; a positive best is the first candidate reaching it, and a zero best keeps the first name |
| Reconcile.SelectBestEpgMatch | src/utils/apicParser.ts:429-461 | "" for no candidate, the only one for one; otherwise the first candidate with the highest score |
| Reconcile.BestSoFarIsFirstBest | src/utils/apicParser.ts:436-460 | the loop result is the first highest-scoring candidate |
| Reconcile.ExtractVlanFromEpg | src/utils/apicParser.ts:346-363 | "" exactly when the name has no digit; otherwise VLAN-digits first, then the first three digits in a row, then the leftmost whole run of digits |
| Reconcile.ExtractVlanFromVlanWord | src/utils/apicParser.ts:347-350 | "EPG-VLAN623-X" gives "623" |
| Reconcile.ExtractVlanFromThreeDigits | src/utils/apicParser.ts:352-355 | "EPG-610-ABC" gives "610" |
| Reconcile.ExtractVlanFromDigitRun | src/utils/apicParser.ts:357-361 | with neither of the first two forms, the result is the leftmost whole digit run |
| Reconcile.FirstDigitRunUnique | src/utils/apicParser.ts:357 | a name has only one leftmost whole digit run |
| Reconcile.NotAllowedPaths | src/utils/apicParser.ts:272-274 | the k-th path is the path of the k-th not-allowed result, in order and with repetitions; a path is listed exactly when some not-allowed result has it |
| Reconcile.DefaultPod | src/utils/apicParser.ts:282-284 | the pod of the first attachment on the VLAN, else "pod-1" |
| Reconcile.CsvRowsAt | src/utils/apicParser.ts:286-337 | there is one row per not-allowed result, and row k is vlan, epg and the configuration path of the k-th not-allowed path |
| Reconcile.GenerateCsv | src/utils/apicParser.ts:263-340 | the text starts with the header line VLAN,EPG,PATH |
| Reconcile.GenerateCsvLines | src/utils/apicParser.ts:263-340 | for one-line inputs, the lines of the file are the header and then, in order, one row per not-allowed result; with none, the header and an empty line |
| Reconcile.CsvUsesLastExactMatch | src/utils/apicParser.ts:276-294 | with an exact match the row uses the fullPath of the LAST attachment with that normalised path |
| Reconcile.CsvVpcFallback | src/utils/apicParser.ts:296-316 | without one, a VPC-named path is written under protpaths with its two nodes |
| Reconcile.VpcPod | src/utils/apicParser.ts:305-312 | the pod of the first attachment whose protpaths nodes are the pair, and the fallback exactly when no attachment has them |
| Reconcile.NodePod | src/utils/apicParser.ts:323-330 | the pod of the first attachment whose paths node is the node, and the fallback exactly when no attachment has it |
| Reconcile.CsvLeadingNodePath | src/utils/apicParser.ts:318-332 | without an exact match or a node pair, a path starting with a node is written under paths with that node, in the pod of the first attachment on the same node |
| Reconcile.CsvUnresolvable | src/utils/apicParser.ts:335-336 | a path with no node anywhere is written under paths-XXX in the default pod |
| App.AddEntry | src/App.tsx:41-46 | the list grows by one blank entry at the end, the rest unchanged |
| App.RemoveEntry | src/App.tsx:48-52 | a list of one is unchanged; otherwise the result is the list filtered to the entries with other ids, in order |
| Ordered.FilterConcat | src/App.tsx:50 | filter works element by element: the result for a+b is that for a followed by that for b |
| App.RemoveEntryKeepsOne | src/App.tsx:48-52 | with distinct ids the list never becomes empty |
| App.RemoveEntryWithRepeatedIds | src/App.tsx:48-52 | with a repeated id it can: two entries with id "1" are both removed |
| App.UpdateEntry | src/App.tsx:54-56 | only the named field of the entries with that id changes; results and endpoint data are kept |
| App.ValidateEntry | src/App.tsx:77-107 | an entry is unchanged if its endpoint text is blank or does not parse or its EPG name has no digit; otherwise its data is the parsed record with the EPG's VLAN and its results are validated against that VLAN |
| App.HandleValidateManual | src/App.tsx:68-110 | no attachment parsed sets the error and changes nothing else; otherwise every entry is validated against the attachments |
| App.GroupKeys | src/App.tsx:131-141 | the groups are the distinct VLANs in order of first appearance |
| App.GroupMembers | src/App.tsx:132-137 | each group holds the endpoints on its VLAN in order |
| App.GroupEndpointData | src/App.tsx:142-154 | a group's paths are its distinct paths in first-seen order, its IP that of its first endpoint, and its IP map keyed by exactly those paths |
| App.CandidateEpgs | src/App.tsx:159 | the VLAN's names when the table has the VLAN; otherwise the first endpoint's EPG when it is non-empty, else VLAN followed by the VLAN |
| App.AutoEntry | src/App.tsx:141-176 | the entry has id now+index, endpoint data of its group and results validated on it; its EPG name is the best match when that is non-empty, else the first candidate when non-empty, else VLAN followed by the VLAN |
| App.AutoEntries | src/App.tsx:139-176 | one entry per group in order, each with a non-empty EPG name, results and endpoint data on that group's VLAN |
| App.AutoEntriesGroups | src/App.tsx:131-176 | entry k belongs to the k-th distinct VLAN and is built from the endpoints on it |
| App.AutoEntryEndpoints | src/App.tsx:142-154 | each entry's paths are its VLAN's endpoint paths, its IP that of the first endpoint on the VLAN, and each path's IP that of the last endpoint on it |
| App.AutoIdsDistinct | src/App.tsx:170 | automatic entries get distinct ids |
| App.HandleValidateAuto | src/App.tsx:112-179 | no attachment, or no endpoint, sets the matching error and changes nothing else; otherwise entries are rebuilt from the groups |
| App.HandleValidate | src/App.tsx:58-66 | no parsed attachment sets that error and nothing else; in manual mode success clears the error and validates every entry, leaving the automatic endpoints as they were; in automatic mode no endpoint sets its error, and success clears the error and rebuilds the entries from the groups; the text inputs are never edited |
| App.OnVlanFirst | src/App.tsx:150 | a group's first endpoint is the first endpoint on that VLAN |
| App.PodByNode | src/App.tsx:202-210 | pod-1 exactly for nodes 300 to 399, pod-2 otherwise |
| App.FormatEpg | src/App.tsx:190-194 | the EPG column starts with "EPG-" in any case, and a name already starting so is kept |
| App.FormatEpgIdempotent | src/App.tsx:190-194 | formatting twice is formatting once |
| App.ExportVlan | src/App.tsx:188 | the VLAN column is the EPG name's VLAN when it has a digit, else the entry's |
| App.ExportUsesFirstExactMatch | src/App.tsx:212-229 | with an exact match the export uses the FIRST attachment with that normalised path |
| App.ExportVpcPath | src/App.tsx:231-238 | without an exact match, a path with digits-digits-VPC goes under protpaths of the two nodes, in the pod the first node decides |
| App.ExportLeadingNodePath | src/App.tsx:240-246 | without that, a path starting with digits and "-" or "/" goes under paths of that node, in the pod the node decides |
| App.ExportRecordedNodePath | src/App.tsx:247-251 | without that, a path the endpoint listing gave a node for goes under paths of that node |
| App.ExportAndGenerateCsvDisagree | src/App.tsx:216-222 | two attachments sharing a normalised path but not a fullPath make the export and generateCSV write different rows |
| App.ExportUnresolvable | src/App.tsx:252-255 | a path with no node anywhere is exported as pod-2/paths-XXX |
| App.EntryRows | src/App.tsx:184-260 | an entry with results and data contributes one row per not-allowed result; any other entry none |
| App.EntryRowsAt | src/App.tsx:196-259 | row k of an entry is its VLAN column, its formatted EPG and the export path of its k-th not-allowed result |
| App.ExportRowsConcat | src/App.tsx:184-262 | entries contribute in list order: the rows of a+b are those of a followed by those of b |
| App.ExportAllCsv | src/App.tsx:181-272 | the export fails with its message exactly when there is no row; otherwise the CSV is the header, a newline and the rows joined by newlines, and the file name has the vlan-validation- prefix |
| App.ExportAllCsvLines | src/App.tsx:269 | for one-line inputs, the lines of the CSV are the header and then the rows |
| App.ExportFileName | src/App.tsx:270 | the file name holds the date part of the ISO timestamp |
| App.ExportRowCount | src/App.tsx:184-276 | on consistent entries the number of rows is totalNotAllowed |
| App.ExportFailsIffNothingCounted | src/App.tsx:264-276 | the export reports nothing to export exactly when the count is zero |
| App.TotalNotAllowedZero | src/App.tsx:274-276 | the count is zero exactly when no entry with results has a not-allowed one |
| Matrix.MatrixEntries | src/App.tsx:469-476 | exactly the entries with results and endpoint data, in order, each with the data's VLAN |
| Matrix.AllVlans | src/components/MatrixTable.tsx:21 | the columns are the entries' VLANs, each once, in ascending numeric order |
| Matrix.SortVlans | src/components/MatrixTable.tsx:21 | the sort is a permutation and orders by numeric value |
| Matrix.SortByStable | src/components/MatrixTable.tsx:21 | the sort is stable: the elements of each key keep their input order |
| Matrix.SortVlansStable | src/components/MatrixTable.tsx:21 | VLANs of equal numeric value, such as "0100" and "100", keep their input order |
| Matrix.AllVlansStable | src/components/MatrixTable.tsx:21 | columns of equal numeric value appear in the order the entries first show them |
| Matrix.RowIp | src/components/MatrixTable.tsx:29-41 | the chosen IP is the path's value when the path is mapped, even when that is "", else the entry IP; a non-empty choice is the result, else the first dotted quad of the EPG name, else "" |
| Matrix.RowKeyInjective | src/components/MatrixTable.tsx:44 | for IPs without '\|' the key determines IP and interface |
| Matrix.RowKeysFirstSeen | src/components/MatrixTable.tsx:46-52 | one row per distinct key, in order of first appearance |
| Matrix.RowCells | src/components/MatrixTable.tsx:55 | a row's VLAN cells are the writes to its key, the last write per VLAN winning |
| Matrix.RowFirstHit | src/components/MatrixTable.tsx:46-52 | a row's IP and interface are those of the first result with its key |
| Matrix.RowVlansAreColumns | src/components/MatrixTable.tsx:21-55 | every VLAN in a row is a column |
| Matrix.HitsCount | src/components/MatrixTable.tsx:26-27 | the loop visits each result of each entry once |
| Matrix.MatrixView | src/components/MatrixTable.tsx:57-70 | a shown matrix has the sorted distinct VLANs as columns and, as rows, the row of each (IP, interface) key, in the order the keys first appear (the row sort is left out) |
| Matrix.MatrixShownIff | src/components/MatrixTable.tsx:24-70 | the matrix is shown exactly when some entry has a result, with no more rows than results |

## Left out

- Rendering is not modelled: JSX, React state plumbing, icons and styles. Handlers are
  functions from one `App.AppState` to the next.
- `ValidationTable.tsx` and `EntryModeSelector.tsx` are presentation only.
  `extractPathName` is the identity.
- `downloadCSV` (`src/utils/csvExport`) is not part of this model. `App.ExportAllCsv`
  returns the text and the file name it would hand over.
- `Date.now()` and `new Date().toISOString()` are parameters (`now`, `isoDate`).
- App.AutoEntries: one clock reading per call gives every group the same `now`. The
  source calls `Date.now()` once per group (App.tsx:170). App.AutoIdsDistinct holds for
  one reading; with readings per group, ids stay distinct only while the readings have
  equal length.
- Matrix.MatrixView: the row sort (`localeCompare` with numeric collation) is left out.
  Rows stay in the order their keys first appear.
- Matrix.VlanKey: a VLAN that does not start with a digit sorts as 0, whereas
  `parseInt` gives NaN and an inconsistent comparator. Every VLAN the parsers and
  `extractVlanFromEpg` produce is a digit string.
- App.PodByNode: `parseInt` is modelled as the value of the leading digit run. Leading
  white space and a sign are not modelled. The nodes it receives are digit captures or
  parser output.
- Case folding (the `i` flag, `toLowerCase`, `toUpperCase`) is ASCII only. Unicode
  letters whose case mapping changes length are not modelled.
- `\s` and `trim` use the JavaScript white-space set, with no Unicode categories beyond
  it.
- Reconcile.GenerateCsv: no caller uses it. Its `endpointData` parameter is unused and
  is kept only for the signature.
- App.ExportPath: the function has no ensures of its own. One lemma per branch states
  its result: ExportUsesFirstExactMatch, ExportVpcPath, ExportLeadingNodePath,
  ExportRecordedNodePath and ExportUnresolvable.
- Reconcile.CsvPath: likewise, the lemmas CsvUsesLastExactMatch, CsvVpcFallback,
  CsvLeadingNodePath and CsvUnresolvable state its result branch by branch.
- App.TotalNotAllowed: stated through TotalNotAllowedZero and ExportRowCount.
- The line-level lemmas (Reconcile.GenerateCsvLines, App.ExportAllCsvLines) assume no
  field holds a newline. A field with one would add lines to the file.
- The `pathsWithNodes` and `pathsWithIPs` maps are optional in the source. An absent
  map is the empty map here, since only `has` and `get` are used on them.
