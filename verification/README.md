# Negotium: a verified model of its stateful cores

Negotium is an office-automation server in Python with a TypeScript client. Below its I/O it keeps
several small state machines and text formats whose correctness is easy to get wrong. This project
models them in Dafny and proves what their code keeps over every input and every run.

| modules | subject |
|---|---|
| `EventStream` | the chat client's event-stream reader |
| `IndexGrammar`, `MarkdownIndex`, `IndexReading`, `IndexLines`, `IndexHistory`, `IndexAgreement`, `IndexAnswers`, `IndexTwoLines`, `IndexManager` | the Markdown index: its line pattern, its printer, its two readers, when they agree, and what its histories answer |
| `DepartmentForest`, `AccessControl`, `AccessRules`, `AccessGrants`, `AccessStore` | the access-control registry |
| `EventBus`, `Delivery` | the bounded event bus and its single consumer, interleaved at every await |
| `ChatLog` | the fold of the messenger's append-only log |
| `AuthSessions` | accounts, sessions and account requests |
| `TokenBudget` | token usage and its limits |
| `CompanyScan`, `ScanNarrowing`, `ScanWidening`, `ScanSelection` | the company folder scan |
| `CompanyAnalysis` | batched analysis over a fingerprint cache |
| `PermanentMemory`, `MemoryStore` | memory sources and the deletion workflow |
| `SyntaxWalk` | the explicit-stack tree walk and the summary budget |
| `AgentLoop` | the self-correction loop in its two forms |
| `Text`, `PythonText`, `Ordering`, `Sublists`, `Sums`, `Wrappers` | strings, orders, sub-lists, sums and result types shared by the rest |

Stores are classes whose fields hold the stored document; each method is one atomic read, change and
write. Time is a number supplied by the caller. Errors are a `Result`.

## How the main results fit together

* **Event stream.** A text has exactly one framing: frames without a blank line inside, each closed by
  one, and a tail without any (`FramingIsUnique`). Hence what the read loop dispatches and keeps is a
  function of the concatenated text alone (`StreamChatMessage`), and a list of events survives printing
  and any chunking exactly when every event in it is well formed (`RoundTrip`).
* **Index.** The pattern is stated twice, as a derivation relation and as what a matching engine returns;
  the two agree (`MatchAtIsDerivation`, `DerivationIsMatched`). Printing then parsing is the identity
  exactly on well-formed documents (`PrintThenParse`). The whole-text scan is told line by line, although
  the pattern crosses line breaks (`ScanReadsLines`), so that both readers agree on every key of a printed
  document exactly when its header is harmless: no entry that starts in a header line holds other items
  than the index has under its key, and if the last of them runs on into the first entry line nothing is
  missed by it (`ReadersAgreeExactly`).
  Over every history of readable updates of a fresh file both readers and the abstract map agree
  (`HistoryLookup`). Readable means: no colon or line break in a key, no comma, line break or white space
  around a path. The line reader keeps a history exactly when every update in it is readable
  (`HistoryIsKept`). Files are read in text mode, which turns carriage returns into newlines; the line
  reader does not notice (`ParseAsRead`). A query is more tolerant: after a readable history one more update
  is answered exactly when it is scannable, that is without a colon or carriage return in a key and without
  comma, newline, carriage return or surrounding white space in its path (`LastUpdateIsAnswered`); no history
  with an update that is not scannable is ever answered (`AnsweredIsScannable`). Between the two conditions
  both outcomes occur, and for a key on two lines they are told apart exactly: a readable history that files
  anything after it stays answered if and only if the second line does not open an entry (`TwoLinesAnswered`).
* **Registry.** Departments form a forest in every reachable document (`AccessControlStore`), an upsert is
  accepted exactly when the result is one, and reading, writing back and reading again is stable on every
  reachable document (`ReachableReadIsStable`); on arbitrary documents it is so exactly when every
  position is settled (`ReadIsStable`).
* **Event bus.** Over every interleaving each accepted event is in exactly one place, with at most three
  handlings (`ReachableInv`, `QuiescentOutcome`); the bus is stuck exactly when its only consumer waits to
  re-enqueue into its own full queue (`StuckExactly`), which every bounded capacity allows
  (`BoundedBusCanStick`).
* **Stores.** A method that drops or replaces entries says which of them stay, how often and in which order
  (`Sublists.Keeps`), and that determines the resulting list (`KeepsOnlyOne`). Messages, tables, limits and the
  characters that count as white space are stated by value, apart from the functions that compute with them.
* **Sessions, budgets, caches, scans, memory, loops**: see the table.

## Where the code and its own words differ

The model follows the code.

* A deleted department's children become roots (`negotium/archive/access_control.py:268-270`); the comment
  there speaks of the deleted department's parent first.
* The scan's module text says that the blocklist never widens the scan (`negotium/app/company_scan.py:6-7`).
  It holds for the eligible files (`CandidatesNarrow`) and for the included ones unless a cap was hit
  (`UntruncatedNarrows`); `WidensExactly` and `BlocklistWidensExactly` give the exact
  condition, for selections of files and for blocklists, and `BlocklistCanWiden` an input.
* A key with a colon is printed as a line that reads back under another key or not at all: `a:[x` becomes
  `a` for both readers, and where `a` is there already the scan keeps its bucket while the line reader
  replaces it (`ColonKeyIsAnotherKey`, `ColonKeyParts`). No query finds a colon key
  (`UnreadableKeysAreLost`).
* The two readers do not recover the same map on every file that updates produce. One update of a fresh
  file with the key "a", newline, "- b" is enough: the line reader files the path under "b", the scan under
  the whole key (`BrokenKeyParts`). Nothing in `negotium/archive/index.py` keeps line
  breaks out of keys.
* An approval hides what its cleaned text names, not what it resolves to: a target "documents//a.md" resolves
  to a file and hides nothing (`ApprovalHidesTarget`).
* Lockout recovery asks for active holders of admin roles, while the permission check lets a policy or a
  position override the role, so a registry can stay locked (`OverriddenAdminLocksOut`).
* `read_source` asks for no tombstone, so an approved deletion hides a source from the lists and searches
  but not from a read by id (`MemoryStore.ReadSource`).
* The two forms of the agent loop differ in the verdict when the cap is reached (`FormsAgree`).
* `list_messages` with limit 0 returns every message, because the slice `[-0:]` is the whole list
  (`ChatChannel.ListMessages`).
* A queue size of zero or less means an unbounded queue, which never sticks (`UnboundedBusNeverSticks`).

## Model

| member | source | states |
|---|---|---|
| EventStream.IndexOfBlankLineIsLeftmost | frontend/src/api/llm.ts:98 | the boundary found is a blank line with none before it, and none is found exactly when there is none |
| EventStream.FramingIsUnique | frontend/src/api/llm.ts:98-102 | a text can be cut into frames and a leftover in one way only |
| EventStream.FramesAreFraming | frontend/src/api/llm.ts:98-102 | consumed frames, their blank lines and the leftover rebuild the text; no frame and no leftover holds a blank line |
| EventStream.FramingIsIncremental | frontend/src/api/llm.ts:95-102 | framing a prefix, then its leftover with what arrives later, gives the frames and the leftover of the whole text |
| EventStream.ParseFrame | frontend/src/api/llm.ts:103-109 | the loop over lines yields the event named by the last `event:` line (or "message") with all `data:` lines joined, and nothing for a frame without data |
| EventStream.JsSpaceIs | frontend/src/api/llm.ts:106-107 | what `trim` removes, character by character: the white space and line terminators of ECMAScript, and nothing else |
| EventStream.EventsAreIncremental | frontend/src/api/llm.ts:95-121 | events of a prefix followed by events of leftover plus later text are the events of the whole |
| EventStream.StreamChatMessage | frontend/src/api/llm.ts:91-121 | for every way of cutting the text into chunks, dispatched events and buffer are those of the concatenated text; if that is what the server sends for some events, exactly those events are dispatched and the buffer is empty |
| EventStream.EventsAreWellFormed | frontend/src/api/llm.ts:103-109 | every dispatched event has a trimmed one-line name and trimmed data lines |
| EventStream.PrintedEventsComeBack | frontend/src/api/llm.ts:91-121 | printed well-formed events are dispatched unchanged and leave an empty buffer |
| EventStream.RoundTrip | frontend/src/api/llm.ts:91-121 | under any chunking a printed list of events comes back if and only if every event in it is well formed |
| EventStream.SseEventIsPrint | negotium/app/api/_shared.py:682-683 | what the server writes for an event with one-line data is the printed form that the round trip speaks of |
| EventStream.SendableIs | negotium/app/api/llm.py:227-239 | what the server may send: a name of the letters A to Z and a to z, and any text without a newline between braces |
| EventStream.ServerEventsArrive | negotium/app/api/llm.py:227-239 | whatever list of events the server sends, each written out as "event: " name, "data: " JSON object and a blank line, is dispatched unchanged under any chunking |
| IndexGrammar.MatchEndStops | negotium/archive/index.py:29 | a match ends at a line end reached through white space only, and no earlier than any other reading of the trailing white space |
| IndexGrammar.MatchAtIsDerivation | negotium/archive/index.py:29 | whatever the matcher returns is one way to read the pattern, although key and white space may cross line breaks |
| IndexGrammar.DerivationIsMatched | negotium/archive/index.py:29 | whenever the pattern can be read at a position the matcher succeeds there, with the same items and, once stripped, the same key, reaching at least as far |
| IndexGrammar.NoDashNoMatch | negotium/archive/index.py:29 | nothing matches where the text does not go on with a dash |
| MarkdownIndex.SplitUnlines | negotium/archive/index.py:112 | splitting printed one-line strings into lines gives them back |
| MarkdownIndex.SplitLinesAreLines | negotium/archive/index.py:112 | no line that splitting yields holds any of Python's line breaks |
| MarkdownIndex.SortedKeys | negotium/archive/index.py:133 | the printed keys are exactly the keys of the entries |
| MarkdownIndex.Merge | negotium/archive/index.py:110-135 | the three loops compute: parse line by line, supply a missing title, file the value once under each key, print with sorted keys |
| MarkdownIndex.ParseAsRead | negotium/archive/index.py:97-122 | the line reader reads the same from the file in text mode as from its text on disk |
| MarkdownIndex.Lookup | negotium/archive/index.py:59-71 | the scan loop returns the items of the first match, in the whole text as read, whose stripped key is the one asked for |
| IndexReading.ItemsComeBack | negotium/archive/index.py:67-70 | joining paths without comma, line break or surrounding white space and splitting them again is the identity |
| IndexReading.EntryLineMatches | negotium/archive/index.py:29-134 | an entry line anywhere in a text is matched with its own key and items |
| IndexReading.PrintedComesBack | negotium/archive/index.py:110-135 | a well-formed document is read back line by line from its printed form |
| IndexReading.ParsedIsReadable | negotium/archive/index.py:112-122 | whatever was parsed, its keys are trimmed, lower-case, free of colons and line breaks, and its items are clean |
| IndexReading.PrintThenParse | negotium/archive/index.py:110-135 | print then parse is the identity if and only if the document is well formed: no blank key, no colon or line break in a key, no comma or line break in a path |
| IndexHistory.AddAllMeaning | negotium/archive/index.py:125-128 | filing a value under keys adds it once, at the end, to each of those buckets and to no other |
| IndexHistory.NormalKeysMeaning | negotium/archive/index.py:93 | a key is kept if and only if some given key strips to a non-blank text that, lowered, is it |
| IndexHistory.AddAllKeepsWellFormed | negotium/archive/index.py:125-128 | filing keeps a document well formed if and only if keys and path are readable |
| IndexHistory.FiledMeaning | negotium/archive/index.py:46-71 | the abstract map holds each path once, exactly the paths filed under the key, and later updates only append |
| IndexHistory.RunStandsFor | negotium/archive/index.py:92-135 | after any history of readable updates the file is the printed form of the abstract map under its title |
| IndexHistory.HistoryLookup | negotium/archive/index.py:59-135 | after any history of readable updates a query returns exactly what was filed, and so does the line reader |
| IndexHistory.HistoryIsKept | negotium/archive/index.py:92-135 | what the line reader reads is the abstract map, key by key, if and only if every update in the history is readable |
| IndexHistory.KeptIsReadable | negotium/archive/index.py:92-135 | an update with a colon or line break in a key, or a comma in its path, is lost to the line reader |
| IndexHistory.RefilingChangesNothing | negotium/archive/index.py:110-135 | merging a path under keys that all hold it leaves parsed entries and header order unchanged, a missing title apart, in a file without a blank key |
| IndexHistory.MergedIsFixedPoint | negotium/archive/index.py:110-135 | merged text is read back as the merged document if and only if the file held no blank key and keys and path are readable; then it is a fixed point of parse then print |
| IndexHistory.AppendIsMerge | negotium/archive/index.py:92-108 | merging into the text as read gives the same file as merging into the text on disk |
| IndexHistory.AppendMeaning | negotium/archive/index.py:92-135 | a readable update adds its path once, at the end, to the buckets of its keys and touches no other |
| IndexHistory.PlainIsScanned | negotium/archive/index.py:59-71 | on a printed document without a dash in front of a header line a query finds the entries, even under keys with newlines, but for carriage returns |
| IndexHistory.ScanFindsNoColon | negotium/archive/index.py:29-71 | the scan finds no key with a colon in any text |
| IndexHistory.ScanFindsOnlyText | negotium/archive/index.py:29-71 | nor a key with any character that the text does not hold, as a carriage return in a text that was read |
| IndexHistory.UnreadableKeysAreLost | negotium/archive/index.py:110-135 | merging a key with a colon or line break forgets its earlier bucket, and a colon key is never found |
| IndexLines.MatchIsHit | negotium/archive/index.py:29 | in any text of full lines the pattern matches at a line start if and only if the lines from there on begin an entry: dash, white space, key up to the first colon, brackets on that line or below blank ones; key and items are the same |
| IndexLines.ScanReadsLines | negotium/archive/index.py:59-71 | the whole-text scan finds the first entry with the key that reading line by line yields |
| IndexLines.LookupReadsLines | negotium/archive/index.py:59-71 | so does a query, for every file whose text as read is such lines |
| IndexAgreement.LookupInPrinted | negotium/archive/index.py:59-135 | a query of a printed document finds what starts in the header first, then the entries, without the first one if the header took it |
| IndexAgreement.ReadersAgreeExactly | negotium/archive/index.py:59-135 | on a printed well-formed document scan and line reader agree on every key if and only if the header is harmless |
| IndexAgreement.ReadersAgree | negotium/archive/index.py:59-135 | in particular when no header line starts with a dash and white space |
| IndexAnswers.AnsweredIsScannable | negotium/archive/index.py:46-135 | if queries answer what a history filed, no key in it holds a colon or carriage return and no path a comma, newline, carriage return or surrounding white space |
| IndexAnswers.LastUpdateIsAnswered | negotium/archive/index.py:46-135 | after a readable history one more update is answered by every query if and only if it is scannable; its keys may hold newlines |
| IndexAnswers.BrokenKeyParts | negotium/archive/index.py:59-135 | a file that one update produced on which the readers differ: a key on two lines, the second looking like an entry |
| IndexAnswers.BrokenKeyIsLost | negotium/archive/index.py:59-135 | the input that scannable does not suffice for: after a second update the query finds nothing |
| IndexTwoLines.RestContinues | negotium/archive/index.py:92-135 | after any first update that is read back well formed, a readable history keeps the header and files on in the buckets that were read |
| IndexTwoLines.TwoLinesAnswered | negotium/archive/index.py:46-135 | after an update under a key on two lines, every further readable history is answered if and only if the second line does not open an entry or nothing is filed since |
| IndexTwoLines.BrokenKeySurvives | negotium/archive/index.py:59-135 | the input that readable is not needed for: a key on two lines, still answered after a second update |
| IndexAnswers.ColonKeyIsAnotherKey | negotium/archive/index.py:29-134 | the printed line of a key `a:[x` is read back under `a` by both readers |
| IndexAnswers.ColonKeyParts | negotium/archive/index.py:59-135 | after such an update the scan keeps the earlier bucket of `a` and the line reader replaces it |
| IndexAnswers.MergedReadersAgree | negotium/archive/index.py:59-135 | after a readable update of any file without a blank key, whatever its history, the readers agree on every key if and only if the header is harmless |
| IndexAnswers.DashLineHidesEntry | negotium/archive/index.py:29-135 | a header line with a dash and no colon takes the next entry's key in the scan only |
| IndexManager.IndexManager.constructor | negotium/archive/index.py:36-44 | three fresh files, each its own title line, stand for the empty history |
| IndexManager.IndexManager.Update | negotium/archive/index.py:46-57 | one update extends the history of all three files by the same log entry |
| IndexManager.IndexManager.LookupIn | negotium/archive/index.py:59-71 | a query returns exactly the paths of the updates that were given a key which, stripped and lowered, is the one asked for, each once, in order of first filing, if every update could be read back |
| IndexManager.FiledIsAnswer | negotium/archive/index.py:46-57 | what the history files under a key is what the calls of `update` say, told without the normalised keys |
| IndexManager.AnswersOnlyOne | negotium/archive/index.py:46-71 | the calls of `update` leave one possible answer to a query |
| IndexManager.AnswerableIsReadable | negotium/archive/index.py:46-57 | an update whose given keys and path are clean is one that the line reader keeps |
| IndexManager.AppendTo | negotium/archive/index.py:92-108 | blank keys are dropped, the rest normalised, and without any key left the file stays as it is; what it does to the entries is `IndexHistory.AppendMeaning` |
| IndexManager.LookupMany | negotium/archive/index.py:73-78 | the nested loops collect hits key by key, each path once |
| IndexManager.AllHitsMeaning | negotium/archive/index.py:73-78 | several keys yield the union of their hits without repetition, earlier keys first |
| DepartmentForest.RepeatedNeverEnds | negotium/archive/access_control.py:249-256 | a chain of parents that meets a department twice never reaches a root |
| DepartmentForest.StillEnds | negotium/archive/access_control.py:249-256 | if the written department reaches a root, so does everything that did before |
| DepartmentForest.UpsertKeepsForest | negotium/archive/access_control.py:233-260 | writing a department keeps the forest if and only if its parent is present and its own chain ends |
| DepartmentForest.DeleteKeepsForest | negotium/archive/access_control.py:262-274 | deleting a department keeps ids unique, parents present and every chain ending at a root |
| DepartmentForest.DeletedMembers | negotium/archive/access_control.py:265-272 | the result holds exactly the other departments, children of the deleted one turned into roots |
| DepartmentForest.ChainEnds | negotium/archive/access_control.py:249-256 | the walk up the chain terminates and reports a cycle exactly when the chain never ends |
| AccessRules.TopUpMeaning | negotium/archive/access_control.py:352-357 | topping up keeps every role that is there and leaves no default role missing |
| AccessRules.TopUpTwice | negotium/archive/access_control.py:352-357 | topping up twice is topping up once |
| AccessRules.RecoverTwice | negotium/archive/access_control.py:371-375 | user loading and owner recovery are jointly idempotent |
| AccessRules.RecoveryMeaning | negotium/archive/access_control.py:563-591 | after recovery an active holder of an admin role exists if and only if one did, or there is an owner account and the owner role still grants administration |
| AccessRules.AdminAfterRead | negotium/archive/access_control.py:322-382 | after a read a user passes the check for administering users if and only if the loaded user is active or a rescued owner and policy, position or role, in this order, grants it |
| AccessRules.OverriddenAdminLocksOut | negotium/archive/access_control.py:371-375 | recovery looks at roles only: a policy or position that overrides the one active admin keeps it from running, and nobody can administer |
| AccessRules.OnlyAllowedMeaning | negotium/archive/access_control.py:481-487 | filtering keeps exactly the known permissions |
| AccessRules.HydrateTwice | negotium/archive/access_control.py:472-492 | hydrating a position twice is hydrating it once if and only if it asks for a known permission or its fallback role has none, and it has an order or that role gives none |
| AccessRules.UnknownPermissionsAreUnsettled | negotium/archive/access_control.py:472-492 | a position asking only for unknown permissions is granted nothing on the first read and its fallback role's permissions on the second |
| AccessRules.ReadIsStable | negotium/archive/access_control.py:332-404 | read, write back, read again yields the same registry if and only if every stored position is settled |
| AccessRules.ReachableReadIsStable | negotium/archive/access_control.py:332-404 | on every document the store's methods can leave behind, reading is stable under writing back |
| AccessRules.ReadKeepsForest | negotium/archive/access_control.py:332-382 | reading a reachable document yields a forest and positions in stored form |
| AccessRules.PolicyDecides | negotium/archive/access_control.py:299-330 | a policy once set decides alone for the users it covers, even when empty, and changes nothing for others |
| AccessRules.LevelsOverride | negotium/archive/access_control.py:495-520 | policy hides position and role, a granting position hides the role, and without a position only the role counts |
| AccessGrants.AllowedIs | negotium/archive/access_control.py:11-27 | the known permissions, one by one |
| AccessGrants.DefaultRegistryIs | negotium/archive/access_control.py:417-459 | the registry of a missing or role-less document: four roles with their names, levels and permissions |
| AccessGrants.FindRoleMeaning | negotium/archive/access_control.py:495-520 | the first role of an id is the one found |
| AccessGrants.FindUserMeaning | negotium/archive/access_control.py:407-415 | the first user of an id is the one found |
| AccessGrants.FindPositionMeaning | negotium/archive/access_control.py:495-520 | the first position of an id is the one found |
| AccessGrants.FindPolicyMeaning | negotium/archive/access_control.py:495-520 | the first policy for department and position is the one found |
| AccessGrants.OnlyAllowedKeeps | negotium/archive/access_control.py:481-487 | filtering keeps exactly the known permissions, in order |
| AccessGrants.FallbackRole | negotium/archive/access_control.py:530-548 | the role that a position stands for: the one it names, else by its level (from 60 manager, from 40 staff, else viewer), else by its own id |
| AccessGrants.HydrateMeaning | negotium/archive/access_control.py:472-492 | a position keeps the known ones of its permissions, or, if it has none at all, of those of the role it stands for; its order is its own, else its level, else that of the role (100, 70, 40, 10 or 0) |
| AccessGrants.LoadMeaning | negotium/archive/access_control.py:68-572 | a user without a role is loaded as a viewer, and the account that was set up first is renamed; nothing else changes |
| AccessGrants.RestoreMeaning | negotium/archive/access_control.py:575-584 | a restored owner is active, holds the owner role and has a name and a title |
| AccessGrants.ReadUsers | negotium/archive/access_control.py:332-382 | the users after a read: as loaded, owners restored exactly if nobody active holds an admin role |
| AccessGrants.ReadRest | negotium/archive/access_control.py:332-382 | roles topped up, positions hydrated, the rest as stored |
| AccessGrants.TopUpIsPrefix | negotium/archive/access_control.py:352-357 | topping up appends to the stored roles |
| AccessGrants.WriteMeaning | negotium/archive/access_control.py:384-404 | writing forgets which role a position refers to, and nothing else |
| AccessGrants.GrantedMeaning | negotium/archive/access_control.py:495-520 | who may do what: only an active known user; where the user has a position a policy for it decides alone, then a position that grants anything, then the role |
| AccessGrants.RolelessIsViewer | negotium/archive/access_control.py:322-330 | an active user who was stored without a role and has no position may do after a read what the stored viewer role grants, or by default work:read, documents:read and patch_records:read |
| Sublists.KeepsOnlyOne | negotium/archive/access_control.py:207-231 | which entries stay, how often and in which order determines the list: the stores below are stated with it |
| AccessStore.UpsertCondition | negotium/archive/access_control.py:242-256 | the checks of an upsert together hold if and only if the resulting list is a forest |
| AccessStore.AccessControlStore.ReadPayload | negotium/archive/access_control.py:332-382 | reading returns defaults for a missing or role-less document, else the topped-up, hydrated, recovered registry |
| AccessStore.AccessControlStore.UpsertRole | negotium/archive/access_control.py:207-212 | the role is last and found under its id, every other role is kept in order; the document stays reachable |
| AccessStore.AccessControlStore.DeleteRole | negotium/archive/access_control.py:214-219 | refused exactly for the ids owner, manager, staff and viewer; otherwise no role of the id is left and every other one is kept in order; the document stays reachable |
| AccessStore.AccessControlStore.UpsertUser | negotium/archive/access_control.py:221-226 | the user is last and found under its id, every other user is kept in order; the document stays reachable |
| AccessStore.AccessControlStore.DeleteUser | negotium/archive/access_control.py:228-231 | no user of the id is left, every other one is found as before and kept in order; the document stays reachable |
| AccessStore.AccessControlStore.UpsertDepartment | negotium/archive/access_control.py:233-260 | accepted exactly for a non-blank id whose write results in a forest; otherwise the document is untouched |
| AccessStore.AccessControlStore.DeleteDepartment | negotium/archive/access_control.py:262-274 | the loop removes the department, makes its children roots and keeps the forest |
| AccessStore.AccessControlStore.UpsertPosition | negotium/archive/access_control.py:276-288 | refused exactly for a blank id; stores the position hydrated against the current roles |
| AccessStore.AccessControlStore.DeletePosition | negotium/archive/access_control.py:290-297 | removes the position and nothing else; the document stays reachable |
| AccessStore.AccessControlStore.UpsertDepartmentPermission | negotium/archive/access_control.py:299-320 | refused exactly for a blank department or position id; stores only known permissions |
| AccessStore.AccessControlStore.CheckPermission | negotium/archive/access_control.py:322-330 | the answer is the resolution on the registry as read, whose levels `PolicyDecides`, `LevelsOverride` and `AdminAfterRead` characterise |
| EventBus.BudgetBounds | negotium/application/event_bus.py:92-116 | live envelopes have between one and three handlings left each |
| EventBus.EventBus.PutNowait | negotium/application/event_bus.py:51-69 | refused exactly when the queue is full, then nothing changes; else appended, within capacity |
| EventBus.EventBus.PublishNowait | negotium/application/event_bus.py:51-69 | a published event is queued last with attempt 1, or the call fails exactly at capacity |
| EventBus.EventBus.Get | negotium/application/event_bus.py:82-90 | the oldest envelope leaves the queue, and a bounded queue then has a free slot |
| EventBus.EventBus.Retry | negotium/application/event_bus.py:92-116 | refused exactly from the third attempt on; otherwise re-enqueued with the same trace id and the next attempt, or left waiting with nothing changed while the queue is full |
| EventBus.RoundLowersBudget | negotium/application/orchestrator.py:79-89 | the sum of (4 - attempt) over queued envelopes strictly falls at each round |
| EventBus.RoundKeepsTraces | negotium/application/orchestrator.py:79-89 | each round leaves every trace id in exactly as many places as before |
| EventBus.DeliverOne | negotium/application/orchestrator.py:79-89 | one round with nobody publishing: the retry finds the slot that `get` freed and the outcome follows the attempt number |
| EventBus.RunUntilIdle | negotium/application/orchestrator.py:79-89 | with nobody publishing the consumer empties the queue; succeeded are exactly the events whose handling did not fail, in that order, and given up exactly those whose third attempt failed |
| EventBus.ThirdTimeSucceeds | negotium/application/orchestrator.py:79-89 | an event that fails twice and not a third time has succeeded |
| Delivery.SucceedKeepsInv | negotium/application/orchestrator.py:80-82 | a successful handling keeps the invariant and lowers the budget of live envelopes |
| Delivery.FailKeepsInv | negotium/application/orchestrator.py:83-89 | a failed handling keeps the invariant and lowers the budget of live envelopes |
| Delivery.StepKeepsInv | negotium/application/event_bus.py:51-116 | every step of publishers and consumer keeps: within capacity, each accepted event in one place, attempt 1 to 3, payload and trace id unchanged, given up only after three failures |
| Delivery.RunKeepsInv | negotium/application/event_bus.py:51-116 | every interleaving keeps the invariant |
| Delivery.ReachableInv | negotium/application/event_bus.py:51-116 | the invariant holds in every state that an interleaving from an empty bus leads to |
| Delivery.QuiescentOutcome | negotium/application/orchestrator.py:79-89 | once nothing is left to do every accepted event succeeded or was given up, exactly once, given up exactly after three failures, with at most 3n handlings for n events |
| Delivery.RetryBlocksOnlyAfterPublish | negotium/application/event_bus.py:105-116 | a retry finds the queue full only if publishers took the slot since the last `get` |
| Delivery.StuckExactly | negotium/application/event_bus.py:82-116 | a reachable state admits no change if and only if the consumer waits to put a retry into the full queue |
| Delivery.StuckForever | negotium/application/event_bus.py:82-116 | no later steps ever change a stuck state |
| Delivery.BoundedBusCanStick | negotium/application/event_bus.py:38-116 | every bounded capacity has an interleaving that gets stuck for good with events undelivered |
| Delivery.UnboundedBusNeverSticks | negotium/application/event_bus.py:38-116 | a queue whose maximal size is not positive never gets stuck |
| Delivery.Runtime.PublishEvent | negotium/application/event_bus.py:51-69 | publishing is one step of the interleaving, accepted exactly when the queue is not full |
| Delivery.Runtime.FetchNext | negotium/application/event_bus.py:86 | resuming from `get` is one step of the interleaving |
| Delivery.Runtime.Finish | negotium/application/orchestrator.py:81-89 | ending a handler is one step: done, given up, or waiting to re-enqueue |
| Delivery.Runtime.ResumeRetry | negotium/application/event_bus.py:105-116 | resuming from the awaited `put` is one step: re-enqueued and reported done |
| ChatLog.FoldedMessages | negotium/archive/chat_store.py:89-117 | the loop computes the fold of the log |
| ChatLog.ToggleMeaning | negotium/archive/chat_store.py:104-114 | one reaction flips exactly that user under that emoji and keeps lists sorted, duplicate-free and never empty |
| ChatLog.ToggleTwice | negotium/archive/chat_store.py:104-114 | the same reaction twice restores the reactions |
| ChatLog.ListingMeaning | negotium/archive/chat_store.py:89-117 | with unique ids the list shows exactly the messages nothing later deletes; a user is under an emoji iff the matching reactions sent after the message are odd in number |
| ChatLog.ShownMeaning | negotium/archive/chat_store.py:117 | the shown positions are exactly the visible ones, in log order |
| ChatLog.ReactingTwiceIsNothing | negotium/archive/chat_store.py:89-142 | sending the same reaction twice in a row leaves the list as it was |
| ChatLog.ListedIdsAreUnique | negotium/archive/chat_store.py:89-117 | no id is shown twice |
| ChatLog.NewerThanShown | negotium/archive/chat_store.py:123-127 | asking for what is newer than a shown message yields exactly the messages behind it |
| ChatLog.OnlyAuthorsDelete | negotium/archive/chat_store.py:144-158 | in a log built through the API a message vanishes only by its own author |
| ChatLog.ChatChannel.AppendMessage | negotium/archive/chat_store.py:74-87 | appends one message record; ids stay unique |
| ChatLog.ChatChannel.ToggleReaction | negotium/archive/chat_store.py:130-142 | appends one reaction record, whatever it targets |
| ChatLog.ChatChannel.DeleteMessage | negotium/archive/chat_store.py:144-158 | deletes exactly when the message is shown and the caller is its author; otherwise the log is untouched |
| ChatLog.ChatChannel.ListMessages | negotium/archive/chat_store.py:119-128 | let the newer messages be those behind the given one, or all if it is not shown: the page is their last `limit` ones, all of them for limit 0, and all but the first -limit ones for a negative limit |
| AuthSessions.ActiveMembers | negotium/archive/auth_store.py:338-348 | pruning keeps exactly the sessions that expire later than now |
| AuthSessions.ValidIds | negotium/archive/auth_store.py:351-353 | a valid user id is not empty and holds letters, digits, dots, underscores and hyphens only |
| AuthSessions.ActiveKeeps | negotium/archive/auth_store.py:338-348 | pruning keeps the running sessions in their order |
| AuthSessions.ResolvedByLog | negotium/archive/auth_store.py:188-206 | the same as `ResolveMeaning`, told by the events alone: issued at some time less than 43200 seconds ago, and no later event revokes the token or deletes the user |
| AuthSessions.StandsNext | negotium/archive/auth_store.py:131-214 | a session stands after one more event iff it stood and was not revoked or its user deleted, or the event issued it |
| AuthSessions.ResolveMeaning | negotium/archive/auth_store.py:188-206 | a token resolves to u if and only if it was issued to u under twelve hours ago, not revoked since, u not deleted since, and u is active now |
| AuthSessions.PruningIsInvisible | negotium/archive/auth_store.py:193-198 | dropping expired sessions changes no answer, now or later |
| AuthSessions.IssueAgrees | negotium/archive/auth_store.py:175-185 | issuing keeps the stored sessions equal to the standing ones up to expiry |
| AuthSessions.RevokeAgrees | negotium/archive/auth_store.py:208-214 | revoking keeps them equal |
| AuthSessions.DeleteAgrees | negotium/archive/auth_store.py:131-141 | deleting a user keeps them equal |
| AuthSessions.AuthStore.DeleteUser | negotium/archive/auth_store.py:131-141 | removes exactly the users of that id and the sessions of that user, keeping the others in order, and reports whether there was one; every session's user exists throughout |
| AuthSessions.AuthStore.CreateUserWithHash | negotium/archive/auth_store.py:153-168 | refused exactly for a bad id, then for a blank name, in these words; else the account comes last in place of older ones of its id, and sessions stay |
| AuthSessions.AuthStore.CollectActive | negotium/archive/auth_store.py:338-348 | the loop keeps exactly the sessions still running, in order |
| AuthSessions.AuthStore.Authenticate | negotium/archive/auth_store.py:170-186 | issues a session of 43200 seconds exactly for an active user whose password verifies, behind the sessions still running; otherwise nothing is written |
| AuthSessions.AuthStore.ResolveToken | negotium/archive/auth_store.py:188-206 | a token resolves to u if and only if it was issued to u less than 43200 seconds ago, not revoked since, u not deleted since, and u is active; only expired sessions are dropped |
| AuthSessions.AuthStore.RevokeToken | negotium/archive/auth_store.py:208-214 | removes exactly the sessions of the token |
| AuthSessions.AuthStore.RequestAccount | negotium/archive/auth_store.py:216-241 | accepted exactly for a valid id and name not in use and not waiting, with a password of eight characters, else the first of these that fails is named; at most one request per user id waits |
| AuthSessions.AuthStore.DecideRequest | negotium/archive/auth_store.py:249-274 | decides exactly a waiting request: it becomes approved or rejected as asked, with time and decider, and every other request is as before |
| TokenBudget.BreakdownAddsUp | negotium/archive/token_usage.py:217-231 | every breakdown sums to the total of its entries |
| TokenBudget.BreakdownPerName | negotium/archive/token_usage.py:222-231 | under each name a breakdown holds the total of the entries of that name, blank counting as "unknown" |
| TokenBudget.BreakdownNames | negotium/archive/token_usage.py:222-231 | a breakdown lists exactly the names that occur |
| TokenBudget.NamelessIsUnknown | negotium/archive/token_usage.py:222-231 | entries without a name count as "unknown" |
| TokenBudget.DayKeeps | negotium/archive/token_usage.py:245-246 | the entries of a day are those recorded on it, in order |
| TokenBudget.MonthKeeps | negotium/archive/token_usage.py:212-216 | the entries of a month are those recorded in it, in order |
| TokenBudget.DayWithinMonth | negotium/archive/token_usage.py:211-218 | the daily total is at most the monthly total |
| TokenBudget.TokenUsageStore.Record | negotium/archive/token_usage.py:180-207 | appends one entry with provider, model, task, actor and both counts as given, negative counts as zero, and their sum as its total |
| TokenBudget.TokenUsageStore.Summarize | negotium/archive/token_usage.py:209-240 | the monthly total equals the sum of each of the three breakdowns and is at least the daily total; every entry of the month is counted under its own provider, task and actor; recent entries are the day's last, newest first, cut as `[:limit]` cuts |
| TokenBudget.TokenUsageStore.CheckLimits | negotium/archive/token_usage.py:135-178 | passes exactly when limits are off or every positive budget has room for the call; otherwise names the first that has not, in the order request, day, month |
| TokenBudget.StepKeepsInv | negotium/archive/token_usage.py:135-207 | every check, record or abort keeps used plus under way within limit + (n - 1) * P |
| TokenBudget.OvershootBound | negotium/archive/token_usage.py:135-207 | over every run with at most n calls between check and record, day and month exceed their limits by at most (n - 1) requests, so serial use never does |
| TokenBudget.MonthlyBoundIsReached | negotium/archive/token_usage.py:135-207 | for all positive limits that allow one request some run records exactly the monthly limit plus (n - 1) requests |
| TokenBudget.DailyBoundIsReached | negotium/archive/token_usage.py:135-207 | some run records exactly the daily limit plus (n - 1) requests if and only if the monthly limit is not below the daily one |
| CompanyAnalysis.ChunksPartition | negotium/app/company_analysis.py:157-161 | batches are non-empty, no larger than asked, partition the pending files in order, and the first m are the first m * size files |
| CompanyAnalysis.CompanyKnowledgeStore.StoreSummaries | negotium/archive/company_knowledge.py:46-54 | stored entries are overwritten path by path, others stay |
| CompanyAnalysis.SplitByCache | negotium/app/company_analysis.py:148-155 | pending are exactly the files without a hit; the cached ones are counted and their texts gathered by path |
| CompanyAnalysis.RunBatches | negotium/app/company_analysis.py:167-184 | asks the model once per batch; counts the answered summaries and the batches that did not parse; the cache grows batch by batch, and the gathered texts with it |
| CompanyAnalysis.BatchesAddUp | negotium/app/company_analysis.py:167-184 | summarized files, files of failed batches and files left out of answers add up to the batched files |
| CompanyAnalysis.OmittedMeaning | negotium/app/company_analysis.py:174-177 | a file is left out exactly when its batch was answered without a summary for it |
| CompanyAnalysis.AnalyzeDocuments | negotium/app/company_analysis.py:133-205 | one call per batch taken and one more if there is any summary, at most `max_batches` + 1; cached + summarized + deferred + files of failed batches + files left out of answers equals all files |
| CompanyAnalysis.ClosingCallIsTold | negotium/app/company_analysis.py:142-190 | the closing call is told, for every file that has a summary after the run, cached or fresh, exactly the text that the cache holds for it, and of no other file |
| CompanyAnalysis.HitAfterRun | negotium/archive/company_knowledge.py:37-54 | after a run a file is a cache hit if and only if it was one or the run read it |
| CompanyAnalysis.CachedMeaning | negotium/archive/company_knowledge.py:37-44 | a summary is found exactly if it is not blank and stored for the path with the same time and size |
| CompanyAnalysis.AnsweredIsFound | negotium/app/company_analysis.py:148-184 | across two runs: a file that a batch was answered for is found with that very text while time and size stay, and read again as soon as one of them changes |
| CompanyAnalysis.FullRunAdvances | negotium/app/company_analysis.py:133-205 | a fully answered run reads exactly the next batch_size * max_batches pending files |
| CompanyAnalysis.RunsFinish | negotium/app/company_analysis.py:133-205 | r fully answered runs read exactly the first r * batch_size * max_batches pending files, so n files need ceil(n / (batch_size * max_batches)) runs |
| CompanyScan.MorePatternsExcludeMore | negotium/app/company_scan.py:379-389 | a longer blocklist excludes at least as much |
| CompanyScan.PatternMeaning | negotium/app/company_scan.py:379-389 | without globs a pattern excludes exactly the path it names and what lies below; the blank pattern excludes nothing |
| CompanyScan.DescendsMeaning | negotium/app/company_scan.py:281-288 | a directory is entered unless its name is excluded or starts with a dot, it is a link, or a pattern matches it |
| CompanyScan.WalkMeaning | negotium/app/company_scan.py:274-291 | a file is visited if and only if no directory on its way is pruned and it lies above the depth cap |
| CompanyScan.Visit | negotium/app/company_scan.py:293-325 | includes a file exactly when no check excludes it and it fits both caps; the first check that applies names the skip reason; an overflow stops the scan (`ScanIsOk` says what follows) |
| CompanyScan.ScanRoot | negotium/app/company_scan.py:293-325 | the loop over one root, left at the first overflow, continues the scan of the roots before it |
| CompanyScan.ScanCompanyPaths | negotium/app/company_scan.py:232-335 | the report over all roots is the scan of all visited candidates in walk order |
| CompanyScan.ScanIsOk | negotium/app/company_scan.py:254-335 | included count and bytes stay within their caps; included plus all skip counts equals the visited; the inventory lists each visited candidate once in walk order up to its cap; a scan stops early only before an eligible file that breaks a cap |
| CompanyScan.InventoryMeaning | negotium/app/company_scan.py:254-325 | the inventory holds the first 2000 visited files with path, extension, outcome and, if it was read, size |
| ScanNarrowing.CandidatesNarrow | negotium/app/company_scan.py:251-325 | a longer blocklist makes a sub-list of the files eligible, pruned directories included |
| ScanNarrowing.IncludedIsGreedy | negotium/app/company_scan.py:319-325 | included files are the greedy choice from the eligible ones; truncated exactly when some are left out |
| ScanNarrowing.UntruncatedNarrows | negotium/app/company_scan.py:251-325 | if the shorter blocklist's scan was not truncated, neither is the longer one's, and it includes a sub-list |
| ScanNarrowing.WidensExactly | negotium/app/company_scan.py:293-325 | excluding some eligible files can bring in another if and only if an eligible file was left out that fits the caps on its own |
| ScanNarrowing.WidenedOnlyWhenCapped | negotium/app/company_scan.py:293-325 | a file that only the longer blocklist includes was eligible before and left out by a cap |
| ScanNarrowing.BlocklistCanWiden | negotium/app/company_scan.py:293-325 | the input: two files, room for one, the first excluded |
| ScanWidening.ReachedIsCandidate | negotium/app/company_scan.py:274-291 | under a longer blocklist a file is still a candidate if and only if it is a root or lies on an unpruned way that the added patterns spare |
| ScanWidening.SeparableMeaning | negotium/app/company_scan.py:251-325 | eligible paths set a file apart exactly if, added to the blocklist, they leave it met and not excluded and each matches its own file |
| ScanWidening.OtherPathsWiden | negotium/app/company_scan.py:251-325 | a left-out eligible file that fits on its own is included once the other eligible paths are added to the blocklist, unless one of them matches it or prunes every way to it |
| ScanWidening.BlocklistWidensExactly | negotium/app/company_scan.py:251-325 | where eligible paths set the left-out files apart, some longer blocklist widens the scan if and only if a cap left out an eligible file that fits on its own |
| ScanSelection.RankedMeaning | negotium/app/company_scan.py:350-351 | ranking is a permutation in rank order |
| ScanSelection.RankedIsStable | negotium/app/company_scan.py:350-351 | files of equal rank keep their scan order |
| ScanSelection.RankOrder | negotium/app/company_scan.py:372-376 | priority counts first, then depth, then size, larger files first |
| ScanSelection.IncludedMeaning | negotium/app/company_scan.py:350 | the files ranked are exactly the included lines, in order |
| ScanSelection.SelectMeaning | negotium/app/company_scan.py:352-369 | the parsed files are a prefix of those that parse, in rank order, within both budgets, only the last text cut, and all of them unless a budget is used up |
| ScanSelection.ParseScannedFiles | negotium/app/company_scan.py:338-369 | the loop computes that selection over the ranked included files; every parsed path belongs to an included line |
| ScanSelection.SelectFrom | negotium/app/company_scan.py:352-369 | the loop over the ranked files computes the selection |
| PermanentMemory.ScannedIsListed | negotium/archive/permanent_memory.py:166-183 | sources are exactly the visible files of a known kind that no tombstone names |
| PermanentMemory.ListedMeaning | negotium/archive/permanent_memory.py:169-181 | a file is listed exactly if its name starts with no dot, it is not the audit log nor in an operational directory, its kind is known and no tombstone names it |
| PermanentMemory.ScannedInOrder | negotium/archive/permanent_memory.py:166-183 | each listed file gives one source with its path as id, its kind, title, excerpt and time, in the order of the scan |
| PermanentMemory.KindMeaning | negotium/archive/permanent_memory.py:232-265 | the kind of a file by its directory and suffix |
| PermanentMemory.SuffixMeaning | negotium/archive/permanent_memory.py:232-265 | the suffix is what follows the last dot of a name, unless that is its first or last character |
| PermanentMemory.LeftOutFiles | negotium/archive/permanent_memory.py:170-283 | names that start with a dot, the audit log and three operational directories are left out |
| PermanentMemory.CleanMeaning | negotium/archive/permanent_memory.py:213-215 | cleaning an id strips white space, then the slashes in front, and nothing else |
| PermanentMemory.TombstonedMeaning | negotium/archive/permanent_memory.py:197-217 | an id is tombstoned if and only if some tombstone names it, cleaned, as its target or its source path |
| PermanentMemory.NewestFirstMembers | negotium/archive/permanent_memory.py:56-67 | sorting loses and adds no source |
| PermanentMemory.NewestFirstOrder | negotium/archive/permanent_memory.py:56-67 | sorting is newest first and stable |
| PermanentMemory.ResolvableMeaning | negotium/archive/permanent_memory.py:112-126 | the ids that resolve are each listed once, in request order |
| PermanentMemory.CapMeaning | negotium/archive/permanent_memory.py:108 | the limit of resolved sources is taken as at least 1 and at most 50 |
| PermanentMemory.NormalizedNext | negotium/archive/permanent_memory.py:189 | resolving a path: a dot or an empty component changes nothing, two dots undo the component before |
| PermanentMemory.ResolvePathMeaning | negotium/archive/permanent_memory.py:185-195 | an id resolves to a path exactly if it is not blank, holds no null character and stays below the archive |
| PermanentMemory.TombstonesAreNoSource | negotium/archive/permanent_memory.py:232-265 | the tombstone file is of unknown kind |
| MemoryStore.ApprovedStaysHidden | negotium/archive/permanent_memory.py:166-217 | what an approved request names is in no later list of sources, whatever files and tombstones are added |
| MemoryStore.ResolvedIsNamed | negotium/archive/permanent_memory.py:185-195 | an id that resolves to a file is that file's own id if and only if none of its components is empty, "." or ".." |
| MemoryStore.ApprovalHidesTarget | negotium/archive/permanent_memory.py:166-217 | approving a request whose target resolves to a listed source hides it if and only if the target spells the path out plainly or the source path names it |
| MemoryStore.MemoryStore.Create | negotium/archive/deletion_requests.py:71-75 | appends the request and hides nothing yet |
| MemoryStore.FindRequestMeaning | negotium/archive/deletion_requests.py:83-111 | the first request of an id is the one decided |
| MemoryStore.MemoryStore.Decide | negotium/archive/deletion_requests.py:83-111 | decides a known request: approved or rejected as asked, by that actor, every other request as before; an approval adds one tombstone and no decision removes any |
| MemoryStore.MemoryStore.Promote | negotium/archive/permanent_memory.py:128-164 | the promoted file comes last in place of an older one of its name, every other file is kept in order; tombstones stay |
| MemoryStore.MemoryStore.DeleteSource | negotium/archive/permanent_memory.py:82-95 | removes exactly the named file of known kind below the archive, never the tombstone file, and otherwise says why not |
| MemoryStore.MemoryStore.Recent | negotium/archive/permanent_memory.py:56-59 | returns no source that any approved request ever named |
| MemoryStore.MemoryStore.Search | negotium/archive/permanent_memory.py:61-67 | returns only matching sources, none that any approved request ever named |
| MemoryStore.MemoryStore.ResolveSources | negotium/archive/permanent_memory.py:97-126 | explicit ids come back each once, in request order, capped at 1 to 50, none approved for deletion; without ids it is a search |
| MemoryStore.MemoryStore.ReadSource | negotium/archive/permanent_memory.py:69-80 | succeeds exactly for an existing file of known kind below the archive, tombstoned or not |
| SyntaxWalk.PopPush | negotium/context/ast_indexer.py:142-157 | popping a node and pushing its children reversed visits it and leaves the rest of the pre-order |
| SyntaxWalk.WalkTree | negotium/context/ast_indexer.py:121-157 | for every tree the stack walk terminates and emits the symbols and imports of the left-to-right pre-order, failing exactly on an import node without text |
| SyntaxWalk.Summarize | negotium/context/ast_indexer.py:73-90 | files are read in order until the budget is used up, overshooting by less than the last file's cost; truncated exactly when files remain |
| AgentLoop.RoundsIteration | negotium/agents/graph.py:87-99 | the iteration field counts the developer's calls |
| AgentLoop.FirstRound | negotium/agents/graph.py:78-86 | the manager's answer fills modules and work specification and the count starts |
| AgentLoop.NextRound | negotium/agents/graph.py:87-111 | each round gives the developer the fix suggested before, if there is one, and the reviewer the developer's diff, and counts one up |
| AgentLoop.RunsForMeaning | negotium/agents/graph.py:61-75 | the last round is the first that does not ask for "needs_fix" or reaches the cap |
| AgentLoop.StatusMeaning | negotium/archive/writer.py:157-164 | approve and no verdict are filed as proposed, needs_fix as exhausted, reject as rejected, any other verdict as itself |
| AgentLoop.RunManual | negotium/agents/graph.py:61-75 | the loop stops after the first round without a needed fix or at the cap, then overwriting the verdict; each developer call was given the fix suggested by the review before it |
| AgentLoop.RunRouted | negotium/agents/graph.py:113-134 | the routed graph runs the same rounds, each developer call given the fix suggested by the review before it, and keeps the verdict |
| AgentLoop.RunsForIsUnique | negotium/agents/graph.py:61-134 | the number of rounds is determined |
| AgentLoop.FormsAgree | negotium/agents/graph.py:61-134 | both forms agree on calls, feedback and all final fields but the verdict on exhaustion, archived as "rejected" by one and "exhausted" by the other |

## Left out

- EventStream.StreamChatMessage: takes decoded text and yields named data; UTF-8 decoding, the HTTP error path, JSON parsing and the handler callbacks are not part of this model, so neither is the error that a `null` payload raises there.
- EventStream.SseEventIsPrint: the JSON text is a parameter without line breaks; the encoder is not part of this model.
- MarkdownIndex.Merge: keys are lowered on the letters A to Z only, and `_relative_log_path` and the file lock are not part of this model.
- AuthSessions.AuthStore.CreateUserWithHash: which characters are letters or digits is a parameter.
- AuthSessions.AuthStore.Authenticate: whether a password verifies is a parameter, and tokens are known by hashes that differ for different tokens; no claim about cryptographic strength.
- AuthSessions.AuthStore.DecideRequest: the account that the API creates after an approval is the caller's doing and not part of this model.
- AccessStore.AccessControlStore.ReadPayload: coercion of malformed field values while loading is not part of this model; the stored document holds well-typed records.
- Delivery.StepKeepsInv: cancellation and shutdown of the consumer task, and several waiting `put` calls served in order, are not part of this model; a waiting publisher is a step that is enabled once there is room.
- TokenBudget.OvershootBound: the encoding of entries is not part of this model; an entry whose text holds U+2028, U+2029 or U+0085 is split by `splitlines` when it is read back and then skipped, so its tokens are not counted. Assumes all three limits positive and fixed, a clock that does not run backwards, and calls that record at most what they announced.
- TokenBudget.TokenUsageStore.Summarize: entries of a month are kept in one log in order of time rather than one file per day; corrupt lines and the limits file are not part of this model.
- CompanyAnalysis.AnalyzeDocuments: prompts and the loose matching of answer keys to files are an arbitrary function from batch to answers; a batch size of zero, which raises an error, and a negative `max_batches` are not part of this model; fingerprints do not change during a run.
- CompanyScan.ScanCompanyPaths: glob matching, the fixed rules on names and extensions, and directory listings are parameters; normalisation of root paths is not part of this model; letters are lowered on A to Z only.
- ScanNarrowing.WidensExactly: the excluded files are an arbitrary selection of the eligible ones; `ScanWidening.BlocklistWidensExactly` says it of blocklists.
- ScanSelection.ParseScannedFiles: the rank of a file and the parsers are parameters.
- MemoryStore.MemoryStore.Recent: the encoding of tombstones is not part of this model; a tombstone whose record text holds U+2028, U+2029 or U+0085 is split by `splitlines` when it is read back and then skipped, so it hides nothing.
- MemoryStore.MemoryStore.ResolveSources: the same holds of tombstones here and in `Search`.
- MemoryStore.MemoryStore.Search: the token match is a parameter; excerpts, symbolic links and the order in which the directory tree is listed are not part of this model, and digits in a path are the ASCII ones.
- SyntaxWalk.WalkTree: tree-sitter and the regular-expression fallback are not part of this model; a node carries its own first line.
- AgentLoop.RunRouted: the graph library is the three nodes and edges that the code registers, without its own recursion limit.
- Concurrency between processes: each store method is one atomic step, as the file locks intend; interleavings between a read and the write that follows it are not modelled outside the event bus and the token budget.
- The other record stores (announcements, uploads, plans, audits, HR, conversations), the React pages, settings, command line, mail, and the GitHub, Discord and LLM adapters are not modelled.
- BM25 scoring, report generation, the other drafts in `company_analysis.py`, channel lists and search in `chat_store.py`: not needed by the properties above.
