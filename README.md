# jira-daily-report in Dafny

This project models the two message builders of jira-daily-report.

- **The daily report** (`main.go`) fetches MTV issues from JIRA. It keeps the issues that
  pass the component, label and Epic-without-PR filters, and files each survivor under its
  responsible person: the QA contact for `ON_QA`/`MODIFIED` issues, otherwise the assignee,
  otherwise "Unassigned". It sorts the persons and packs person headers, issue sections and
  dividers into Slack payloads. A payload holds at most 48 blocks before its closing divider,
  so at most 49. That divider either closes a person's run or is added when a run spills
  over; the spilled person is re-opened on the next payload with a "(continued)" header
  naming that person.
- **The `/issues` slash command** (`slash-server.go`) parses the command text for `--all` and a
  user name, and builds the JQL query. It keeps the issues whose assignee or QA contact
  matches the name, and groups them by status. It then renders either one ephemeral message
  capped by a single truncation note, or the per-status thread replies split into chunks of
  15 issues.

The model consists of Dafny datatypes for JIRA search responses, issues, issue items and
Slack blocks, plus functions and methods for the operations.

- The loops of the Go code are `while`/`for` loops. Each is proved against a specification
  function: grouping, filtering, page packing, the ephemeral status loop, chunking, the
  summary lines and PR formatting.
- The page packing is specified by reassembly. Joining the pages and dropping the divider
  and "(continued)" header added at each page break gives back the unbounded stream: for
  every person in ascending order, a header, the person's issues in fetch order, and a
  divider.
- The ephemeral message is specified in closed form. The opening three blocks come first,
  then the longest prefix of the status/issue entries that fits the 48-block budget, then
  exactly one note if anything was cut.

Go's map iteration order appears only where it shows in the output: the order of the
"unlisted" status lines in the ephemeral summary. There it is an input `mapOrder`: a
duplicate-free sequence holding exactly the map's keys. Before the persons are sorted, the
key order is chosen arbitrarily (`:|`), and sorting makes it irrelevant.

The ephemeral message lists issues only for the ten statuses of `statusOrder`: its status
loop ranges over that list alone. Issues of any other status are counted in the opening
summary, but they are never listed (`Ephemeral.EphemeralListsOnlyFixed`). The truncation
note, when one appears, reports the total minus the issues shown, so its remaining count
includes them. When nothing is cut, no note appears and nothing mentions them beyond the
summary. The model keeps this behaviour as the code has it.

Modules:

| file | module | contents |
|---|---|---|
| wrappers.dfy | `Wrappers` | `Option` and `Result` |
| strings.dfy | `Strings` | the Go `strings` functions used: `TrimSpace`, `Contains`, `ReplaceAll`, `ToLower`, `Join`, integer formatting |
| sorting.dfy | `Sorting` | lexicographic string order, insertion sort standing for `sort.Strings`, uniqueness of sorted permutations |
| grouping.dfy | `Grouping` | group-by-key over (key, value) sequences, and the partition lemma |
| jira.dfy | `Jira` | the JIRA records, `extractPRs`, `shouldFilterOut`, the responsible person, `countTotalIssues` |
| slack.dfy | `Slack` | the block datatype, `escapeSlackText`, summary truncation, PR links, issue lines |
| daily_report.dfy | `DailyReport` | `buildSlackBlocks`: grouping, sorting and page packing |
| slash_command.dfy | `SlashCommand` | command-text parsing, name auto-detection, `buildJQLQuery`, the Slack display-name fallback |
| status_groups.dfy | `StatusGroups` | `filterIssuesByUser`, `groupIssuesByStatus`, `buildStatusGroupBlocks`, the 15-issue chunks |
| ephemeral.dfy | `Ephemeral` | `buildEphemeralStatusBlocks` |

## Model

| member | source | states |
|---|---|---|
| Jira.PullRequestShapes | main.go:242-262 | A null value, an empty string or any other non-list value gives no PRs; a non-empty string gives exactly itself; a list gives exactly its non-empty string elements. |
| Jira.NonEmptyStringsMembers | main.go:252-258 | A string is kept from a PR list iff it is non-empty and occurs in the list as a string element. |
| Jira.NonEmptyStringsAppend | main.go:252-258 | Filtering a PR list distributes over concatenation, so the kept strings stay in list order. |
| Jira.ExtractPRs | main.go:242-262 | The type-switch loop returns exactly the normalised PR list. |
| Jira.ShouldFilterOut | main.go:266-288 | The nested early-return loops return true iff some component name equals an entry of the excluded components (main.go:26-38) or some label equals an excluded label. |
| Jira.ExclusionIsExact | main.go:26-38 | The test is exact and case-sensitive: "User Interface Tests" and "User-Interface" are kept, and "User Interface" among other components is excluded. |
| Jira.ResponsiblePersonRule | main.go:393-398 | The grouping key is the QA contact's name for ON_QA/MODIFIED issues that have one, else the assignee's name if present, else "Unassigned". |
| Jira.CountTotalIssues | main.go:173-179 | The count equals the number of issues across all responses. |
| DailyReport.TaggedValues | main.go:381-407 | The items filed under persons are exactly the surviving issues' items, in fetch order. |
| DailyReport.TaggedSnoc | main.go:383-405 | One more issue adds one (person, item) pair iff it survives the filters. |
| DailyReport.GroupIssue | main.go:383-405 | One iteration of the grouping loop (filter, Epic rule, person choice, append) extends the map to the grouping of the issues seen so far plus this one. |
| DailyReport.GroupByPerson | main.go:380-407 | The nested loops build exactly the group-by-person map of all surviving issues, each group in fetch order. |
| DailyReport.SortedPersons | main.go:409-414 | The collected and sorted keys are the map's keys in ascending order, each once. |
| DailyReport.EverySurvivorOnce | main.go:383-414 | Concatenating the groups in sorted-person order gives every surviving item exactly as often as it survives, and no other. |
| DailyReport.PersonHeaderKind | main.go:451-456 | A first person header is not a continuation header. |
| DailyReport.ContinuedHeaderKind | main.go:468-473 | A re-emitted header is recognised as a continuation header. |
| DailyReport.HeadersAreNotIssues | main.go:451-473 | Neither kind of person header can be taken for an issue section (which starts with `<`). |
| DailyReport.IssueSection | main.go:478-501 | One issue section: its PR links, its escaped summary cut at 200 characters, and its line format. |
| DailyReport.ReassembleAppend | main.go:497-501 | Appending a non-continuation block to the open page appends it to the reassembled stream. |
| DailyReport.ReassembleContinue | main.go:461-474 | Closing a page with a divider and opening the next with a continuation header leaves the reassembled stream unchanged. |
| DailyReport.OpensWithAppend | main.go:445-473 | A page that opens with a person header keeps doing so as blocks are appended. |
| DailyReport.ClosedPagesPush | main.go:431-435 | Finalising a well-formed page of at least 46 blocks keeps every closed page well formed. |
| DailyReport.StreamUpToDone | main.go:459-507 | A person's header, all their issues and the closing divider make up that person's run. |
| DailyReport.ContinueStep | main.go:461-474 | A full page (48 blocks) is closed with a divider and a continuation header naming the person in progress opens the next, preserving the packing invariant. |
| DailyReport.PersonHeaderName | main.go:451-455 | The name read back from a person header is the person it was built for. |
| DailyReport.ContinuedHeaderName | main.go:468-472 | The name read back from a continued header is the person it was built for. |
| DailyReport.IssueBlockNameless | main.go:492-498 | An issue section names no person: its text opens with the issue link. |
| DailyReport.IssueStep | main.go:476-501 | Appending the next issue section to a page with room preserves the packing invariant. |
| DailyReport.StreamUpToSnoc | main.go:459-503 | The stream up to the next issue of a person is the stream so far plus that issue's section. |
| DailyReport.PackIssues | main.go:459-503 | The inner loop places all of one person's issues, keeps `blockCount` equal to the length of `currentBlocks`, and leaves at least a header and one issue on the open page when there are issues. |
| DailyReport.Begin | main.go:425-438 | The empty state before the first person satisfies the packing invariant. |
| DailyReport.NewPage | main.go:445-449 | Finalising a page with more than 45 blocks before a person header preserves the invariant. |
| DailyReport.StartRun | main.go:451-457 | Adding a person header to a page with room for three more blocks starts that person's run. |
| DailyReport.EndRun | main.go:505-509 | The divider after a person's issues closes the run and moves to the next person. |
| DailyReport.PackPerson | main.go:440-510 | One iteration of the person loop moves the invariant from person `i` to person `i + 1`. |
| DailyReport.PackAll | main.go:437-510 | The whole person loop ends with every person packed. |
| DailyReport.AllPacked | main.go:440 | At loop exit every person has been packed. |
| DailyReport.Finish | main.go:512-515 | After the last finalisation the pages reassemble to the stream, every page is well formed, every page but the last has at least 46 blocks, every continued header names the person whose run the page before left open, and there are no pages iff there are no persons. |
| DailyReport.Paginate | main.go:416-515 | The pages reassemble to the unbounded stream. Each page opens with a person header or a continued header of a listed person, ends with a divider and has 2 to 49 blocks. Every page but the last has at least 46 blocks. With non-empty groups every page has at least 3 blocks. There are no pages iff there are no persons. A page opening with a "(continued)" header names the person of the last header on the page before. |
| DailyReport.ReportPages | main.go:377-515 | The paging facts restated for the report's own groups: every page has 3 to 49 blocks, below Slack's 50-block limit, and there are no pages iff no issue survives. |
| DailyReport.BuildSlackBlocks | main.go:378-515 | Every surviving issue appears once, persons in ascending order and issues in fetch order. No payload is empty or reaches 50 blocks. Each payload opens with a person or continuation header and closes with a divider. A continuation header names the person of the last header on the payload before. Read in order, the issue sections of all payloads are exactly those of the report's items. |
| DailyReport.ReportIssuesInOrder | main.go:440-509 | Across all payloads, in order, the issue sections are those of the report's items: each surviving issue once, persons ascending, issues in fetch order. |
| DailyReport.PagesIssues | main.go:440-509 | Payloads that reassemble to the stream carry, in order, the issue sections of the groups' items person by person. |
| DailyReport.ReassembledIssues | main.go:461-474 | Joining payloads at their breaks drops only dividers and continued headers, so it keeps every issue section in order. |
| DailyReport.RunsIssues | main.go:440-509 | The issue sections of the first n person runs are those of the first n groups, in order. |
| DailyReport.PersonRunIssues | main.go:451-507 | A person's header and closing divider show no issue; the run's issue sections are that person's issues in order. |
| Sorting.LessEqTotal | main.go:414 | The string order used by `sort.Strings` is total. |
| Sorting.LessEqAntisymmetric | main.go:414 | The string order is antisymmetric. |
| Sorting.LessEqTransitive | main.go:414 | The string order is transitive. |
| Sorting.SortStrings | main.go:414 | Sorting yields an ascending permutation of its input. |
| Sorting.SortedUnique | main.go:414 | Two sorted permutations of the same multiset are equal, so the sorted persons do not depend on map order. |
| Sorting.SortEnumeration | main.go:409-414 | Sorting any duplicate-free enumeration of the keys gives the one ascending key sequence. |
| Grouping.Partition | slash-server.go:238-244 | Concatenating the groups over any duplicate-free listing of the keys gives a permutation of the input values. |
| Grouping.GroupMapSnoc | main.go:400-405 | Appending a pair appends its value to the group of its key, creating the group if absent. |
| Grouping.GroupNonEmpty | slash-server.go:238-244 | Every group of a present key is non-empty. |
| Grouping.ConcatReordered | slash-server.go:267 | Concatenating groups in two different key orders gives the same multiset. |
| Slack.EscapeIsOnePass | main.go:520-525 | The three chained replacements equal escaping each character once, so the entities that `&` introduces are not re-escaped. |
| Slack.EscapeHasNoAngles | main.go:520-525 | The escaped text contains no `<` and no `>`. |
| Slack.EscapeIdentity | main.go:520-525 | Text with none of `&`, `<`, `>` is unchanged. |
| Slack.EscapeExample | main.go:520-525 | `<a&b>` becomes `&lt;a&amp;b&gt;`. |
| Slack.EscapeEachExample | main.go:520-525 | The one-pass escaping maps `<a&b>` to `&lt;a&amp;b&gt;`. |
| Slack.EscapeOneChar | main.go:520-525 | The chained replacements turn one character into its own entity, or leave it unchanged. |
| Slack.UnescapeEscape | main.go:520-525 | Decoding the three entities inverts the escaping, so no text is lost. |
| Slack.Truncated | main.go:488-492 | A summary up to the limit is unchanged; a longer one becomes its first `n` characters and "...". The same cut is used at 100 characters in the ephemeral message and at 150 in the thread replies. |
| Slack.PRFieldDash | main.go:478-486 | The PR field is the en dash exactly when the issue has no PRs. |
| Slack.FormatPRs | main.go:478-486 | The link loop numbers the PRs from 1 and joins them with spaces; no PRs give an en dash. |
| SlashCommand.ParseWithoutFlag | slash-server.go:157-161 | Text without `--all` parses to (false, its trimmed self). |
| SlashCommand.FlagBeforeName | slash-server.go:157-161 | `--all John Doe` parses to (true, "John Doe"). |
| SlashCommand.FlagAfterName | slash-server.go:157-161 | `John Doe --all` parses to (true, "John Doe"). |
| SlashCommand.FlagOnlyBefore | slash-server.go:157-164 | `--all ` parses to (true, "") and so triggers self-lookup. |
| SlashCommand.FlagOnlyAfter | slash-server.go:157-164 | ` --all` parses to (true, "") and so triggers self-lookup. |
| SlashCommand.ParsedNameTrimmed | slash-server.go:161 | The parsed user name never starts or ends with white space. |
| SlashCommand.RemoveAroundFlag | slash-server.go:161 | Removing every `--all` from text whose part before the flag has none keeps that part and continues after the flag. |
| SlashCommand.RemoveLeadingFlag | slash-server.go:161 | A leading `--all` is removed. |
| SlashCommand.RemoveTrailingFlag | slash-server.go:161 | A trailing `--all` after flag-free text is removed. |
| SlashCommand.FlagFirstRemoved | slash-server.go:161 | Removing the flag from `--all name` and trimming gives the name. |
| SlashCommand.FlagLastRemoved | slash-server.go:161 | Removing the flag from `name --all` and trimming gives the name. |
| SlashCommand.NoDashNoFlag | slash-server.go:158 | Text without a dash cannot contain `--all`. |
| SlashCommand.TargetUser | slash-server.go:163-173 | A given name is used as is. An empty name takes the looked-up name, and a failed lookup yields the auto-detect error message. |
| SlashCommand.BuildJQLQuery | slash-server.go:222-235 | The query always starts with "project = MTV". |
| SlashCommand.QueryIgnoresUser | slash-server.go:220-235 | The query does not depend on the user name. |
| SlashCommand.QueryShapes | slash-server.go:222-235 | With `--all` only the status/updated ordering is appended; otherwise the open-status clause and the status ordering. The two queries differ. |
| SlashCommand.UserRealName | slash-server.go:709-724 | A response with `ok` false is exactly the failure, carrying the Slack error. Otherwise the name is empty only when all four candidates are. |
| SlashCommand.UserRealNameOrder | slash-server.go:713-724 | The name is the first non-empty of profile display name, real name and profile real name, falling back to the user name. |
| StatusGroups.FilterIssue | slash-server.go:605-642 | One iteration appends the issue's item iff it passes the optional filters and its assignee or QA contact matches. |
| StatusGroups.FilterIssuesByUser | slash-server.go:597-647 | The nested loops return exactly the kept items, in input order, matching case-insensitively. |
| StatusGroups.UserItemsMembers | slash-server.go:603-642 | An item is returned iff some input issue is kept and has that item. |
| StatusGroups.UserItemsAppend | slash-server.go:603-604 | Filtering distributes over concatenation of the responses' issues, so input order is kept. |
| StatusGroups.FiltersThenMatch | slash-server.go:608-619 | Filtering without skipping equals matching among the issues that pass the report filters. |
| StatusGroups.EmptyNameMatchesAll | slash-server.go:632-634 | With skipped filters an empty name matches every issue, since every name contains "". |
| StatusGroups.GroupIssuesByStatus | slash-server.go:238-244 | The loop builds exactly the group-by-status map of the issues. |
| StatusGroups.GroupIsStatusFilter | slash-server.go:238-244 | The group of a status is the input issues with that status, in input order. |
| StatusGroups.StatusGroupsPartition | slash-server.go:238-244 | The keys are exactly the statuses that occur, and no group is empty. Each issue lands in the group of its own status. Over any key listing the groups are a permutation of the input, so their sizes sum to the input length. |
| StatusGroups.ListingOrderExact | slash-server.go:259-278 | The summary order (fixed statuses present, then the others in map order) lists every status exactly once. |
| StatusGroups.PresentMembers | slash-server.go:260-264 | A status is in the first summary list iff it is in `statusOrder` and has a group. |
| StatusGroups.UnlistedMembers | slash-server.go:267-278 | A status is in the second list iff it is a key that is not in `statusOrder`. |
| StatusGroups.AppendReplyIssue | slash-server.go:562-589 | One issue adds its list line, with the summary cut at 150 characters. |
| StatusGroups.BuildStatusGroupBlocks | slash-server.go:547-592 | The blocks are the optional header and divider followed by one section per issue. |
| StatusGroups.StatusGroupBlocksLayout | slash-server.go:547-592 | There is exactly one section per issue, plus 2 blocks on a first chunk. A first chunk opens with the status header and a divider. Section `k` renders issue `k`. |
| StatusGroups.ChunksFlatten | slash-server.go:474-479 | The chunks concatenate to the whole group. |
| StatusGroups.ChunksSizes | slash-server.go:462-479 | Every chunk has 1 to 15 issues. |
| StatusGroups.ChunksCount | slash-server.go:474 | The number of chunks is the group size divided by 15, rounded up. |
| StatusGroups.ChunksAreSlices | slash-server.go:474-479 | Chunk `k` is the slice from `15k` to `min(15k + 15, n)`. |
| StatusGroups.ThreadReplies | slash-server.go:474-488 | The chunk loop builds one reply per chunk; only the first is built with `isFirstChunk`. |
| Ephemeral.TotalIssues | slash-server.go:253-256 | The sum over the map in any key order is the total over the groups. |
| Ephemeral.TotalAnyOrder | slash-server.go:253-256 | The total does not depend on the map iteration order. |
| Ephemeral.InStatusOrder | slash-server.go:268-274 | The search loop finds a status iff it is in `statusOrder`. |
| Ephemeral.PresentSummaryLines | slash-server.go:259-265 | The first loop emits one line per `statusOrder` status that has a group, in that order. |
| Ephemeral.NoteUnlisted | slash-server.go:267-278 | One map entry adds its line iff its status is not in `statusOrder`. |
| Ephemeral.UnlistedSummaryLines | slash-server.go:267-278 | The second loop adds one line per other status, in map order. |
| Ephemeral.BuildSummaryLines | slash-server.go:259-278 | The summary lines are those of the listing order, every status exactly once. |
| Ephemeral.TitleNamesMode | slash-server.go:280-283 | The title reads "All Issues for" iff `--all` was given. |
| Ephemeral.BuildIntro | slash-server.go:250-302 | The opening blocks are the title header, the summary section with total, status count and lines, and a divider. |
| Ephemeral.FirstMisfitAt | slash-server.go:317-344 | The first entry that does not fit is the one the loop stops at. |
| Ephemeral.CutLayout | slash-server.go:317-356 | When an entry does not fit, the message is the opening, the placed entries and one note for that entry, counting the issues not yet shown. |
| Ephemeral.HeaderCut | slash-server.go:317-330 | A status header without room for one issue besides becomes the "not shown" note. |
| Ephemeral.ItemCut | slash-server.go:344-358 | An issue without room becomes the "more in this status" note, counting what is left of the status and in total. |
| Ephemeral.PlacedBound | slash-server.go:304-307 | Placed entries never push the message past 48 blocks. |
| Ephemeral.ListedSnoc | slash-server.go:332-388 | Appending an entry's block keeps `blocks`, `currentBlocks` and `issuesShown` in step with the placed entries. |
| Ephemeral.PlaceIssue | slash-server.go:360-388 | An issue that fits adds its line and advances both counters. |
| Ephemeral.NoteRestOfStatus | slash-server.go:344-358 | The in-status truncation note completes the message, at exactly 48 counted blocks. |
| Ephemeral.ListStatus | slash-server.go:332-389 | One status either places its header and all its issues, or ends the message in its final cut form. |
| Ephemeral.ListStatuses | slash-server.go:309-390 | The status loop with its `truncated` flag builds exactly the closed-form layout of the statuses' entries. |
| Ephemeral.BuildEphemeralStatusBlocks | slash-server.go:248-393 | The whole builder returns exactly the specified ephemeral message. |
| Ephemeral.ShownCountClosed | slash-server.go:304-356 | At most 45 entries are shown, and a status header never takes the 45th slot. |
| Ephemeral.EphemeralBound | slash-server.go:246-247 | The message has at most 49 blocks, below Slack's 50-block limit. |
| Ephemeral.LayoutPrefix | slash-server.go:285-302 | The message starts with the opening blocks. |
| Ephemeral.EphemeralOpening | slash-server.go:280-302 | The message opens with the title header, the summary section (total, number of statuses, summary lines) and a divider. |
| Ephemeral.MarkerIsNote | slash-server.go:318-356 | Both truncation texts are notes. |
| Ephemeral.RenderIsNotNote | slash-server.go:332-385 | No status header or issue line is a note. |
| Ephemeral.LayoutNotes | slash-server.go:309-356 | A block is a note iff entries were cut and it is the last block. |
| Ephemeral.EphemeralOneNote | slash-server.go:306-356 | The message holds at most one truncation note, as its last block, exactly when something was cut. |
| Ephemeral.EntriesItems | slash-server.go:310-343 | The entries list the groups of the `statusOrder` statuses, in that order. |
| Ephemeral.EphemeralListing | slash-server.go:310-388 | The listed issues are a prefix of the `statusOrder` groups in order, and all of them when nothing is cut. A cut message's note counts the total minus the issues shown. |
| Ephemeral.LayoutLastNote | slash-server.go:318-356 | A cut message ends with the note for the first entry left out, counting `totalIssues - issuesShown`. |
| Ephemeral.EphemeralListsOnlyFixed | slash-server.go:310-314 | When every status is outside `statusOrder`, the message is the opening blocks alone. |
| Strings.TrimSpace | slash-server.go:157 | The trimmed text starts and ends with no white space and is unchanged when already trimmed. |
| Strings.TrimLeftDropsSpaces | slash-server.go:157 | Only white space is dropped on the left. |
| Strings.TrimRightDropsSpaces | slash-server.go:157 | Only white space is dropped on the right. |
| Strings.ContainsAt | slash-server.go:158 | Containment holds iff the pattern occurs at some index. |
| Strings.RemoveAbsent | slash-server.go:161 | Removing an absent pattern leaves the text unchanged. |
| Strings.ToLower | slash-server.go:601 | Lower-casing keeps the length. |

## Left out

- HTTP and JSON I/O are not modelled: `fetchJiraIssues` with its paging, `sendToSlackAPI`, `sendSlackResponse`, `sendErrorResponse`, the request side of `getSlackUserRealName`, the HTTP handlers and the server start. Their behaviour lives in JIRA and Slack. Records are Dafny datatypes, and the Slack user lookup is a `Result` parameter of `SlashCommand.TargetUser`.
- Process plumbing is not modelled: the goroutine of the command handler, `time.Sleep` pacing, environment variables, `os.Exit`, flag parsing and all logging.
- `runDailyReport` and `processSlashCommand` are not modelled as whole functions; only their parsing, filtering, grouping and building steps are. The sends of `sendThreadedResponse` and its summary message are left out. Only its per-status chunk loop is modelled (`StatusGroups.ThreadReplies`), for the statuses in the order the caller passes.
- Strings are sequences of characters. Lengths and the 100/150/200-character cuts count characters, whereas Go counts bytes and may cut inside a multi-byte character.
- Strings.ToLower: lower-cases ASCII letters only, not Go's full Unicode case mapping.
- Sorting.SortStrings: an insertion sort stands for `sort.Strings`. Only the result matters, and the sorted permutation is unique.
- Go map iteration order is not modelled: it is an input sequence (`mapOrder`) where it shows in the output, and an arbitrary choice elsewhere.
- Slack's rendering of the message markup is not modelled; blocks are `Header(text)`, `Section(text)` and `Divider` values.
