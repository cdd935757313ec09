# gen3sdk-python expansion and migration helpers, modelled in Dafny

This project models, and proves properties of, the data-handling core of gen3sdk-python. The core
helps curators move data into a Gen3 data commons. Three Python scripts are covered:

- `expansion/expansion.py`:
  - `Gen3Expansion.submit_file` sends a spreadsheet to the Sheepdog submission API in chunks of
    rows. It reacts to each reply: it advances to the next chunk, retries only the valid rows of a
    rejected chunk, halves the chunk on overload, or raises.
  - `summarize_submission` reads the logged replies back and tallies them, and finds the rows that
    no reply mentions.
  - `write_tsvs_from_results` writes the rows listed as invalid.
  - `paginate_query_json` pages through a GraphQL node query, halving the page size on errors.
  - The file-extension dispatch shared by these functions.
- `migration/migration.py`: the TSV rewrites used when a project moves to a new data dictionary:
  - `merge_nodes`, `add_missing_links`, `create_missing_links`, `move_properties`;
  - `change_property_names`, `drop_properties`, `drop_links`, `merge_links`;
  - `get_submission_order`, the worklist that gives every node TSV a depth below `project`.
- `expansion/dcc_to_gen3.py`: turns an ICGC DCC download manifest (a shell script of
  `aws s3 cp s3://… .` lines) into a gen3-client manifest. It looks up each S3 location among the
  indexd records. Those records are paged in with `query_indexd`/`get_indexd`, then keyed by their
  first URL (`locs`).

## How the model is built

- A pandas DataFrame is a value (`Tables.Table`): an ordered list of column names and a sequence of
  rows. Each row is a map from column name to cell, and a cell is `None` where pandas holds NaN.
  - `pd.concat` is the outer union of columns in order of first appearance, with rows re-indexed.
  - `df.loc[mask]` is `Filter`, and `df.drop` is `DropColumns`.
- Reading or writing a file is left out. The table that was read is an input, a file that does not
  exist is `None`, and the written text or table is the result.
- Every remote service is an oracle: the replies it gives, one per request, are an input sequence.
  This covers the Sheepdog PUT, the GraphQL query and the indexd GET. A loop that uses up its
  replies while it would go on ends as `OutOfReplies` or `None`.
- `get_submission_order` need not terminate. Its worklist loop takes a `fuel` bound, and `None`
  means the source would still be looping.
- A Python exception that escapes a function becomes an `Err`/`Raised` value naming it.
- Loops that the source writes as loops are `method`s. Each one is proved equal to a functional
  specification (that is, its `ensures` says `result == Spec(inputs)`), and the properties are
  lemmas about that specification:
  - `SubmitChunks`, `SummarizeSubmission`, `PaginateQueryJson`;
  - `DropLinks`, `MergeLinks`;
  - `CollectNodes`, `RunWorklist`, `GetIndexd`, `WriteManifest`.
- `get_submission_order` (migration/migration.py:289-307):
  - a `core_metadata_collection` subgroup target is skipped;
  - the node gets the depth of each resolvable target in turn, so the last one wins;
  - the node goes back on the worklist once per unresolved target, with no cap on requeues.

## Model

| member | source | states |
|---|---|---|
| FileFormat.FormatOf | expansion/expansion.py:945-959 | A file is read as CSV iff its lower-cased path ends in `.csv`, as Excel iff it ends in `.xlsx` and not `.csv`, as TSV iff it ends in `.tsv` or `.txt` and neither of those; every other name is refused. The same dispatch is at expansion/expansion.py:904-917. |
| FileFormat.FormatIgnoresDirectory | expansion/expansion.py:945-959 | The reader chosen for a path depends only on its base name, although `.tsv`/`.txt` are checked on the whole path. |
| FileFormat.FormatIgnoresCase | expansion/expansion.py:945-959 | The extension test is case-insensitive. |
| Submit.Classify | expansion/expansion.py:1023-1115 | A reply is an overload exactly when its text holds one of the four markers. Success and rejection are only read from parsed JSON. |
| Submit.ConnectionAbortedIsOverload | expansion/expansion.py:1017-1026 | A dropped connection's substitute text is read as an overload. |
| Submit.HandleReply | expansion/expansion.py:1020-1115 | The reply's ids go to `succeeded` (code 200) or `failed.submitter_ids` (invalid entities of 400/403/404). It is a timeout exactly on overload. It raises exactly on the unbound-`res` branch and on unparseable JSON. |
| Submit.ValidIds | expansion/expansion.py:1095-1103 | x is listed iff some valid entity has submitter_id x. |
| Submit.InvalidIds | expansion/expansion.py:1095-1103 | x is listed iff some invalid entity has submitter_id x. |
| Submit.FirstMessages | expansion/expansion.py:1100-1101 | One first error message per invalid entity. |
| Submit.FirstMessagesOfEntities | expansion/expansion.py:1100-1101 | Message k is the first error of the k-th invalid entity, one per invalid entity, in entity order. |
| Submit.InvalidEntitiesMembers | expansion/expansion.py:1100-1101 | The invalid entities are exactly the entities flagged invalid. |
| Submit.InvalidIdsOfEntities | expansion/expansion.py:1100-1101 | The k-th invalid id belongs to the k-th invalid entity, so messages and ids pair up. |
| Submit.Slice | expansion/expansion.py:975 | `df[lo:hi]` for non-negative bounds: its length, and its contents where non-empty. |
| Submit.RowsWithIds | expansion/expansion.py:1120-1122 | The retried chunk holds exactly the chunk's rows whose submitter_id is listed. |
| Submit.SubmitFile | expansion/expansion.py:929-1160 | Equals `SubmitFileSpec`: an unsupported extension, a missing submitter_id column, duplicate ids and a project id without '-' raise first; otherwise the loop runs. |
| Submit.SubmitChunks | expansion/expansion.py:973-1151 | The `while` loop equals `Run` from `df[row_offset:row_offset+chunk_size]`, for every reply script. |
| Submit.Iterate | expansion/expansion.py:990-1151 | One loop body is `Step`. |
| Submit.ChooseWindow | expansion/expansion.py:1117-1151 | The window decision in source order: retry the valid rows, raise on valid-only failures, advance, halve, or raise when the chunk size is below 2. |
| Submit.RunContinue | expansion/expansion.py:990-1151 | An iteration that goes on continues the run from its new state. |
| SubmitProperties.Trace | expansion/expansion.py:990-1016 | The states at which requests are sent: at most one per reply, the first being the start state. |
| SubmitProperties.StepLogs | expansion/expansion.py:995-1103 | An iteration that goes on counts one request, logs the reply in `details`, and appends exactly its succeeded and invalid ids. |
| SubmitProperties.OverloadStep | expansion/expansion.py:1141-1151 | An overload halves the chunk at the same start, or raises TimingOut below 2 rows. |
| SubmitProperties.SuccessStep | expansion/expansion.py:1063-1077 | A 200 reply appends its ids in entity order and advances by a whole window at the same size. |
| SubmitProperties.OtherReplyAdvances | expansion/expansion.py:1047-1139 | A reply with no code, a 500 reply and a reply with any other code advance by a whole window at the same size: the next chunk is `df[start+chunk_size:start+2*chunk_size]`, and no id or message is logged. |
| SubmitProperties.RejectedStep | expansion/expansion.py:1079-1134 | A 400/403/404 reply raises iff only valid entities failed. It logs the invalid ids and messages. With mixed entities it retries the valid rows at the same start; with no valid entity it advances. |
| SubmitProperties.NextWindowShape | expansion/expansion.py:1117-1151 | The next window never grows, keeps `start` or advances by the whole window, and keeps the chunk inside its window. |
| SubmitProperties.StepShape | expansion/expansion.py:1117-1151 | The same for a whole iteration. |
| SubmitProperties.RunAccounting | expansion/expansion.py:990-1151 | A finished run sent one request per reply it used and logged exactly those replies, in order. Its `succeeded` and `failed.submitter_ids` are exactly those replies' ids. A run out of replies used them all. |
| SubmitProperties.TraceLinks | expansion/expansion.py:990 | Each request is sent while `start + len(chunk) <= len(df)` holds, and each state follows the one before. |
| SubmitProperties.TraceShape | expansion/expansion.py:973-1151 | Along a run the chunk size never grows and stays at least 1 when it starts so, `start` never moves back, and every chunk lies inside its window. |
| SubmitProperties.InitialInWindow | expansion/expansion.py:973-975 | The first chunk lies inside its window. |
| SubmitProperties.DuplicatesRaiseBeforeAnyRequest | expansion/expansion.py:961-965 | Duplicate submitter_ids raise whatever the endpoint would answer. |
| SubmitProperties.SixtyFiveRows | expansion/expansion.py:973-1139 | 65 rows at chunk size 30 with successes are sent as rows 0-30, 30-60 and 60-65, then the loop ends. |
| SubmitProperties.SixtyRowsSendAnEmptyChunk | expansion/expansion.py:990 | With 60 rows a third request carries no rows, since `start == len(df)` passes the loop test. |
| SubmitProperties.OverloadOnSecondWindow | expansion/expansion.py:1141-1147 | An overload on the second window retries rows 30 to 45. |
| Summary.ChunkTally | expansion/expansion.py:848-871 | One logged chunk gives one response numbered n, of the chunk's kind, with one message per invalid id. |
| Summary.SummarizeSubmission | expansion/expansion.py:836-900 | The `for chunk in chunks` loop and what follows it equal `Summarize`. |
| Summary.TallyErrStays | expansion/expansion.py:847-871 | Once one chunk raises, the loop's result is that error. |
| Summary.TallyRaises | expansion/expansion.py:847-871 | The loop raises iff some chunk raises. |
| Summary.TallyResponses | expansion/expansion.py:849-871 | One response per chunk, numbered from 1 and of that chunk's kind. Messages and invalid ids are equal in number. |
| Summary.TallyMembers | expansion/expansion.py:853-870 | An id is in succeeded, valid or invalid iff some chunk reports it as such. |
| Summary.ChunkMembers | expansion/expansion.py:853-870 | The same for one chunk. |
| Summary.MissingRows | expansion/expansion.py:880 | A row is missing iff its submitter_id is not in the submitted list (NaN never is). |
| Summary.RowsIn | expansion/expansion.py:887-888 | A row is selected iff its submitter_id is in the list. |
| Summary.MissingExactly | expansion/expansion.py:877-882 | `missing` lists, in TSV order, the ids of exactly the rows that no succeeded, valid or invalid id names. |
| Summary.WriteTsvsFromResults | expansion/expansion.py:902-926 | It fails iff the extension is unsupported or there is no submitter_id column. Otherwise it keeps exactly the rows with a listed id, with the same columns, and names the file `invalid_<basename>.tsv`. |
| Paginate.PageStep | expansion/expansion.py:725-737 | One page: the script exits iff an error comes at chunk size ≤ 1. The chunk size never grows and stays ≥ 1. The offset never moves back. The exact next state is stated by `PageTraceLinks`. |
| Paginate.PaginateQueryJson | expansion/expansion.py:693-740 | The loop equals `PaginateSpec`: a project id without '-' and a failed count query are errors; otherwise pages are read until `offset >= qsize`. |
| Paginate.PageTrace | expansion/expansion.py:715-737 | The pages queried: at most one per reply, the first at the start state. |
| Paginate.PagesAccumulate | expansion/expansion.py:715-740 | A finished run reached the count and `total` holds the records of exactly the replies used, in page order. A run out of replies used them all. An exit follows an error page. |
| Paginate.PageTraceShape | expansion/expansion.py:715-737 | With a non-negative start size, along a run `chunk_size` never grows and stays ≥ 1 when it starts so, and `offset` never moves back. |
| Paginate.PageTraceLinks | expansion/expansion.py:715-737 | Every queried page state is below the count, and the next one is exactly: `offset + chunk_size` with the page's records added after a data reply, `chunk_size / 2` (from more than 1) after an error reply, the same state after any other reply. |
| Tables.Filter | migration/migration.py:144-162 | `df.loc[mask]`: a row is kept iff it is a row and passes the mask, in order. |
| Tables.FilterFilter | migration/migration.py:144-162 | Two `loc` selections in a row are one with both masks. |
| Tables.FilterKeepsOrder | migration/migration.py:112 | Two rows that pass the mask appear in the selection in their original order. |
| Tables.FilterAppend | migration/migration.py:70-71 | Selection distributes over concatenation. |
| Tables.Concat | migration/migration.py:71 | `pd.concat`: union of the columns, the rows of both tables in order, re-indexed. It is well formed when the first table's columns are distinct. |
| Tables.UnionColumns | migration/migration.py:71 | The column union keeps the first table's columns first and adds exactly the others. |
| Tables.ConcatNothing | migration/migration.py:163 | Appending no rows in existing columns changes nothing. |
| Tables.ConcatSame | migration/migration.py:117 | Two tables with the same columns concatenate to their rows appended. |
| Tables.SetColumn | migration/migration.py:46 | `df[c] = v`: every row gets v at c, and the table stays well formed. |
| Tables.DropColumns | migration/migration.py:206 | `df.drop(columns=cs)`: exactly the other columns in order, each row without cs. |
| Migration.MergeNodes | migration/migration.py:28-50 | It fails iff no file could be read. Otherwise the readable tables are concatenated in order, well formed, with `type` set to out_node. |
| Migration.MergeNodesPair | migration/migration.py:35-46 | Two readable tables merge as their concatenation with `type` set. |
| Migration.Readable | migration/migration.py:36-44 | The tables that could be read: exactly the present ones. |
| Migration.AddMissingLinks | migration/migration.py:52-77 | A KeyError iff the link column is missing (or `submitter_id` is, when some row lacks a link). A table whose every row is linked comes back unchanged. |
| Migration.AddMissingLinksShape | migration/migration.py:62-74 | Same columns and row count. The linked rows come first, then the unlinked ones with `<submitter_id>_<link>`. Every row with an id now has a link. |
| Migration.AddMissingLinksIdempotent | migration/migration.py:52-77 | Where every row has an id, a second call returns the first call's table. |
| Migration.PresentAbsent | migration/migration.py:65-70 | Every row is either linked or not. |
| Migration.ChangePropertyNames | migration/migration.py:172-191 | `rename(columns=m)`: each column is renamed by m or kept, every cell moves with its column, and the table stays well formed. |
| Migration.RenameRoundTrip | migration/migration.py:185 | Renaming back with an inverse map restores the columns and every cell. |
| Migration.DropProperties | migration/migration.py:193-211 | A missing property leaves the table unchanged (the KeyError is caught). Otherwise exactly those columns are dropped. |
| Migration.NewLinks | migration/migration.py:111-116 | One well-formed new link record per selected row, in order. |
| Migration.CreateMissingLinks | migration/migration.py:79-120 | A missing link column is a KeyError. When nothing is missing, the existing link records the node refers to are returned. |
| Migration.CreateMissingLinksAppends | migration/migration.py:111-117 | The existing link records come first, then one record per node row whose link value is missing, in node order. Each new record is the node row's link value as `submitter_id` and its old-parent link, with type link and every given property, reindexed to the result's columns. |
| Migration.CreateMissingLinksValue | migration/migration.py:111-117 | Where records are made, the result is the existing link records concatenated with one `NewLink` per selected node row. |
| Migration.CreateMissingLinksNoFile | migration/migration.py:107-117 | Without a link file, the new records alone, one per node row. |
| Migration.CreateMissingLinksDuplicates | migration/migration.py:112 | As written: two node rows sharing a missing link value give two new records with the same `submitter_id`, with or without a link file. |
| Migration.CreateMissingLinksOnce | migration/migration.py:79-120 | As evidently intended: one record per missing link value. The same error and no-new-record cases as the source. |
| Migration.CreateMissingLinksOnceDistinct | migration/migration.py:111-117 | The corrected version's new records have pairwise different ids. |
| Migration.CreateMissingLinksOnceCovers | migration/migration.py:111-117 | The corrected version's new records cover every missing link value. |
| MigrationLinks.DropLinks | migration/migration.py:213-242 | The `for link in links` loop equals `DropLinksSpec`, including the numbered-pair `while` loop, which ends. |
| MigrationLinks.DropLinksColumns | migration/migration.py:226-231 | Exactly the plain pairs that the table has both columns of are dropped. Every other column and value and the number of rows stay. |
| MigrationLinks.DropLinksKeepsNumbered | migration/migration.py:232-239 | As written: a numbered pair `#1` without a plain pair stays in the table. |
| MigrationLinks.DropNumbered | migration/migration.py:232-239 | The corrected numbered loop removes only existing columns. |
| MigrationLinks.DropLinkFixedDropsNumbered | migration/migration.py:232-239 | With the drop assigned back, the numbered pairs `#1`…`#n` are all gone. |
| MigrationLinks.ColumnNames | migration/migration.py:227-234 | The link column names of different links, and plain and numbered names, never collide. |
| MigrationLinks.FirstLinked | migration/migration.py:262-264 | The first sublink value that is not NaN: NaN iff every sublink value is NaN. |
| MigrationLinks.MergeLinks | migration/migration.py:244-268 | A missing sublink column is the first KeyError. Otherwise `link.submitter_id` is added and holds, on every row, the row's first sublink value that is not NaN. |
| MigrationLinks.FillStep | migration/migration.py:262-264 | One more sublink keeps "first value so far" true. |
| MigrationMove.MovedColumns | migration/migration.py:156-160 | The columns of `new_to`: distinct, exactly the link, the properties, `type`, `project_id`, `submitter_id`. |
| MigrationMove.MovedRowFields | migration/migration.py:157-160 | A moved record has the to node's type, the project, `<id>_reproductive_health`, and the from record's link and properties. |
| MigrationMove.MovedRowKeys | migration/migration.py:157-160 | A moved record has exactly the moved columns. |
| MigrationMove.MoveProperties | migration/migration.py:122-170 | A missing link column is a KeyError. A from record without a parent link returns the from table unchanged. |
| MigrationMove.MovePropertiesMissing | migration/migration.py:151-152 | A property that is not a column is a KeyError. |
| MigrationMove.MovePropertiesNoData | migration/migration.py:150-170 | All-NaN properties return the from table unchanged. |
| MigrationMove.MovePropertiesValue | migration/migration.py:154-166 | The result is the to table followed by the moved records whose ids it lacks. |
| MigrationMove.MovePropertiesKeepsTo | migration/migration.py:162-163 | The to table's records stay first, re-indexed. |
| MigrationMove.MovePropertiesAddedAt | migration/migration.py:162-163 | Each appended record is a moved from record whose id the to table did not have. |
| MigrationMove.MovePropertiesAddsAll | migration/migration.py:162-163 | Every such from record is appended. |
| MigrationMove.MovePropertiesRerun | migration/migration.py:122-170 | Moving again into the result adds nothing: the result is that table. |
| SubmissionOrder.SetDepth | migration/migration.py:293 | `suborder[node] = d`: a new key goes last and the depth map is updated. |
| SubmissionOrder.SubStep | migration/migration.py:291-299 | One subgroup target keeps the dict's keys distinct and in step with its depths. |
| SubmissionOrder.LinksFoldWork | migration/migration.py:289-309 | Visiting a node only ever puts that node back on the worklist. |
| SubmissionOrder.LinksFoldKeys | migration/migration.py:289-309 | Visiting a node gives a depth to no other node. |
| SubmissionOrder.StaysInDictionary | migration/migration.py:285-309 | The worklist holds only dictionary nodes. |
| SubmissionOrder.Drain | migration/migration.py:285-309 | A finished loop's dict has distinct keys and every depth ≥ 1. |
| SubmissionOrder.LastAt | migration/migration.py:276-278 | The rightmost suffix position in a range, or none. |
| SubmissionOrder.SearchFrom | migration/migration.py:276-278 | `re.search`: the leftmost match start and, `.+` being greedy, the rightmost end; none iff nothing matches. Neither `.+` nor `.` crosses a newline. |
| SubmissionOrder.NodeOf | migration/migration.py:276-280 | `match.group(1)` is absent iff the pattern matches nowhere. |
| SubmissionOrder.NodeOfNoNewline | migration/migration.py:276-280 | `temp_P_<node>.tsv` gives node for every non-empty node on one line. |
| SubmissionOrder.SeedsAre | migration/migration.py:274-284 | The worklist starts with exactly the dictionary nodes that a globbed file name's match names. |
| SubmissionOrder.CollectNodes | migration/migration.py:275-284 | The `for file_name` loop builds exactly `Seeds`. |
| SubmissionOrder.VisitTarget | migration/migration.py:292-307 | One target: project gives 1, an ordered target its depth + 1, a subgroup's `core_metadata_collection` nothing, anything else requeues. |
| SubmissionOrder.VisitSubgroup | migration/migration.py:290-299 | The subgroup loop equals `SubsFold`. |
| SubmissionOrder.VisitLinks | migration/migration.py:288-310 | The link loop equals `LinksFold`. |
| SubmissionOrder.RunWorklist | migration/migration.py:285-310 | The `while` loop equals `Drain`. |
| SubmissionOrder.GetSubmissionOrder | migration/migration.py:270-312 | The whole function equals `SubmissionOrderSpec`. |
| SubmissionOrder.SortByDepthSorts | migration/migration.py:311 | `sorted(..., key=itemgetter(1))` is sorted by depth and a permutation. |
| SubmissionOrder.SortSorted | migration/migration.py:311 | Pairs already in depth order come back unchanged. |
| SubmissionOrder.SubmissionOrderShape | migration/migration.py:270-312 | A result is sorted by depth, each depth ≥ 1, each node once with its depth, and each node one the files seeded. |
| SubmissionOrder.UnresolvedNeverEnds | migration/migration.py:300-307 | A node whose one link targets an unordered non-project node is requeued forever: the loop never ends. |
| SubmissionOrder.MetadataSkipped | migration/migration.py:296-297 | A subgroup of unordered `core_metadata_collection` targets changes nothing. |
| SubmissionOrder.CaseVisitInAnyOrder | migration/migration.py:270-312 | case (linked to project) and visit (linked to case) give [(case, 1), (visit, 2)] in either file order. |
| DccToGen3.LastCopyAt | expansion/dcc_to_gen3.py:111 | The rightmost place, up to j, where the regex can split the line. |
| DccToGen3.CopiedPath | expansion/dcc_to_gen3.py:111-112 | The regex group is absent iff the line matches nowhere. |
| DccToGen3.CopiedPathShape | expansion/dcc_to_gen3.py:111 | A copied path starts with `s3`, has at least 3 characters, and is followed by the closing ` .`. |
| DccToGen3.RightmostCopy | expansion/dcc_to_gen3.py:111 | The greedy `.+` gives the last `cp s3` of a line. |
| DccToGen3.ReadDccManifest | expansion/dcc_to_gen3.py:103-114 | At most one path per line. |
| DccToGen3.ReadDccManifestHas | expansion/dcc_to_gen3.py:107-112 | A path is read iff some right-stripped line matches and copies it. |
| DccToGen3.ReadDccManifestPaths | expansion/dcc_to_gen3.py:111-112 | Every path read starts with `s3`. |
| DccToGen3.Locs | expansion/dcc_to_gen3.py:166 | An error names the first record with no URL. Success means every record has one. |
| DccToGen3.LocsKeys | expansion/dcc_to_gen3.py:166 | Every key is some record's first URL and maps to that record. |
| DccToGen3.LocsCovers | expansion/dcc_to_gen3.py:166 | Every record's first URL is a key. |
| DccToGen3.LocsLastWins | expansion/dcc_to_gen3.py:166 | The last record with a given first URL is its value. |
| DccToGen3.WriteManifest | expansion/dcc_to_gen3.py:116-145 | The loop equals `WriteManifestSpec`, stopping at the first failed lookup. |
| DccToGen3.MissingStays | expansion/dcc_to_gen3.py:129 | After a failed lookup nothing more is written. |
| DccToGen3.ManifestPrefix | expansion/dcc_to_gen3.py:125-140 | Before the last location the file is `[` and entries closed by `  },`. |
| DccToGen3.ManifestText | expansion/dcc_to_gen3.py:125-140 | With every location indexed: `[`, the entries, the last closed by `  }]`. Otherwise the entries before the first unindexed location, which is reported. |
| DccToGen3.ManifestClosed | expansion/dcc_to_gen3.py:125-140 | A non-empty complete manifest starts with `[` and ends with `]`. |
| DccToGen3.EmptyManifestUnclosed | expansion/dcc_to_gen3.py:125-140 | As written: with no locations the file is `[` alone. |
| DccToGen3.WriteManifestFixed | expansion/dcc_to_gen3.py:125-140 | The corrected manifest agrees with the source on every non-empty list. |
| DccToGen3.ManifestFixedClosed | expansion/dcc_to_gen3.py:125-140 | The corrected manifest is always bracketed. |
| DccToGen3.QueryIndexd | expansion/dcc_to_gen3.py:34-54 | The reply's `records` if it has them, no records otherwise. |
| DccToGen3.GetIndexd | expansion/dcc_to_gen3.py:75-89 | The `while done is False` loop equals `IndexdRun`. |
| DccToGen3.GetIndexdStops | expansion/dcc_to_gen3.py:78-89 | The loop stops at the first empty page that differs from the limit. All records are those of the pages read, in order, and the page number is past the last one. |
| DccToGen3.GetIndexdGoesOn | expansion/dcc_to_gen3.py:78-89 | Without such a page the loop keeps asking. |
| DccToGen3.ZeroLimitGoesOn | expansion/dcc_to_gen3.py:83-86 | With limit 0 an empty page equals the limit, so the loop never ends. |
| Strings.RStrip | expansion/dcc_to_gen3.py:107 | `rstrip()`: a prefix that does not end in whitespace, with only whitespace cut. |
| Strings.NtBasename | expansion/expansion.py:889 | The base name is a suffix of the path holding no separator, and it is the longest one: the character before it is a separator, or it starts right after a drive `X:`. |

## Left out

- Strings.NtBasename: UNC paths are not modelled. For a bare UNC root such as `\\server\share`,
  `ntpath.basename` gives "" but the model gives "share".
- Submit.SubmitFile: `chunk_size` and `row_offset` are `nat`. Negative values, which Python's slicing
  counts from the end of the table, are not represented.
- Paginate.PageStep: the halving is integer `chunk_size / 2`. The source's `int(chunk_size/2)` goes
  through float division, which agrees with it only for sizes below 2^53.
- Printing, logging and the writing of output files are left out; the results are returned as values.
- The HTTP requests are left out: the replies are inputs. Their URLs, headers, auth, and the bodies
  sent (`chunk.to_csv`) are not modelled.
- JSON parsing is an oracle. `SubmitJson`, `LoggedJson` and `IndexdReply` are the parsed
  results, and the model does not parse JSON text.
- Reading Excel files (`pd.ExcelFile`), `fillna('')` and `dtype=str` are left out; the table read is an input.
- `summarize_submission`: splitting the details file into chunks (`rstrip('\n').split('\n\n')`,
  expansion/expansion.py:838-839) is not modelled; `Summarize` takes the parsed chunks. The
  source never makes an empty list there: an empty file gives `['']`, and `json.loads('')` raises.
  The model's `chunks == []` case, which returns `Ok`, has no counterpart in the source.
- `summarize_submission` reads the submission TSV without `dtype=str` (expansion/expansion.py:878).
  pandas then parses an all-digit `submitter_id` column as integers, none of which equals a string
  id, so every row counts as missing. The model compares the ids as strings and does not capture this.
- In `submit_file`, the branch that reads the undefined name `res` is modelled as the
  NameError it raises (`UnboundResponseName`).
- In `paginate_query_json`, a failed count query leaves `qsize` unbound, and the loop then raises
  NameError. That case is modelled as `NoCount`.
- `get_indexd`:
  - the `_stats` request and the output file (`outfile`) are left out;
  - `args.api`/`args.limit` are parameters, because `parse_args` does not define `limit`;
  - the `__main__` block calls `get_indexd(args.api)`, which passes the URL as the unused `limit`
    parameter. That path does not get to the loop: `args.limit` is read at
    expansion/dcc_to_gen3.py:73, and `parse_args` defines no `limit`, so it raises AttributeError.
- The `__main__` block of `dcc_to_gen3.py` (reading an indexd file, argument parsing) is not part
  of this model. `Locs`, `ReadDccManifest` and `WriteManifest` take its values as inputs.
- `write_manifest` writes the values with `format` and no JSON escaping, and so does the model.
  A record missing its `size` or `did` key is not modelled: records always have both.
- `Locs`: a record whose `urls` key is missing altogether is not modelled; an empty `urls` list is.
- `get_submission_order`:
  - the glob order is an input;
  - glob's hidden-file rule and its directory matching are not modelled;
  - regular-expression metacharacters in prefix, project_id and suffix are read literally;
  - every dictionary node is assumed to have a `links` key, and every subgroup entry a `target_type`.
- SubmissionOrder.SortByDepthSorts: the model proves sortedness and permutation, and that sorted input is unchanged.
  It does not state Python's full stability guarantee.
- `add_missing_links`/`move_properties` use pandas' `isnull`; a NaN cell is `None`. Pandas'
  SettingWithCopy behaviour is assumed not to change results.
- Migration.ChangePropertyNames: `change_property_names` is modelled for renamings that keep the column names distinct.
  A DataFrame with duplicate column names is not representable here.
- `merge_nodes`, `add_missing_links` and the other migration helpers read a file that may not
  exist. An unreadable file that the source does not catch is not modelled as an error case.
  `merge_nodes`'s skipped file and the optional files of `create_missing_links`/`move_properties` are.
- `make_temp_files` and the other functions of the repository are not part of this model.

## Findings

| source | as written | input that shows it | evidently intended | confidence | as-written member | corrected member |
|---|---|---|---|---|---|---|
| migration/migration.py:232-239 | The numbered-pair loop calls `df.drop(columns=[sid,uuid])` without assigning the result, so nothing is dropped. | A table with `cases.submitter_id#1` and `cases.id#1` but no plain pair, `links=['cases']`: both columns stay. | `df = df.drop(...)`, dropping every numbered pair | not executed | MigrationLinks.DropLinksKeepsNumbered | MigrationLinks.DropLinkFixedDropsNumbered |
| migration/migration.py:112 | `df.loc[df[link_name].isin(missing)]` selects every node row whose link value is missing, so one record is made per node row, not per value. This happens with a link file (line 100) and without one (line 110). | Two node rows with the same `visits.submitter_id`, which is absent from the visit TSV or with no visit TSV at all: two new visit records share a submitter_id, which `submit_file` then refuses. | One link record per missing link value | not executed | Migration.CreateMissingLinksDuplicates | Migration.CreateMissingLinksOnceDistinct |
| expansion/dcc_to_gen3.py:125-140 | The closing `]` is written only after the last entry. | An empty manifest: the file holds `[` alone, which is not valid JSON. | `[]` for an empty list | not executed | DccToGen3.EmptyManifestUnclosed | DccToGen3.ManifestFixedClosed |
