# omni-cli storage and browser, modelled in Dafny

omni-cli is a terminal chat client that keeps its conversations on disk.
This project models the part of it that stores and organises them:

- the chat store (`ChatManager`): an index from chat id to metadata, one
  Markdown transcript per chat (front matter, then one `## Message n` block
  per message), lookup by id or name, deletion, and the name made from a
  chat's first message;
- the project store, whose ids are slugs of the project names; the
  namespace store, which groups projects under uniquely named namespaces;
  and the summary store, which writes one Markdown file per summary and
  reads its text back;
- from the command loop: flag and sub-command parsing, name validation,
  the `/list` browser and the `/resume` picker. The `/list` browser shows
  namespaces, then their projects, then each project's chats and
  summaries, newest first, and lets one row be opened, deleted or renamed.
  The `/resume` picker filters chats by keyword and moves a cursor that
  skips headers.

Each manager is a class. Its index is a field `index` of type
`Table<V>`: an insertion-ordered dictionary, because the source's
"first match" loops depend on dictionary order. The files it writes are a
field `files` from path to text. The clock and the id generator are
parameters (`now`, `id`). The browser's grouping and flattening loops are
methods, each proved equal to a function that defines the display.
Properties about those functions are lemmas.

Files: `wrappers.dfy` (Option, Result), `text.dfy` (the string functions
of Python that the source uses), `store.dfy` (ordered tables),
`sorting.dfy` (stable sort by a string key, newest first),
`transcript.dfy` (chat file format and its reader), `chat.dfy`,
`project.dfy`, `namespace.dfy`, `summary.dfy`, `args.dfy`, `grouping.dfy`,
`browser.dfy` (`/list`), `resume.dfy` (`/resume`), `menus.dfy` (the key
handlers).

## Model

| member | source | states |
|---|---|---|
| ChatStore.GenerateChatName | src/chat.py:45-65 | the generated name is never empty, at most 50 characters, made only of lower-case letters, digits, `_` and `-`; it is "chat" when no word longer than two characters survives, the hyphen-joined words when they fit in 50 characters, and otherwise `Shorten` of them (the first 50 characters cut at their last `-`), or "chat" when that is empty |
| ChatStore.JoinedNotEmpty | src/chat.py:59 | joining at least one surviving word gives a non-empty name |
| ChatStore.NameWords | src/chat.py:50-56 | the first `min(4, n)` of the n words longer than two characters, in order; each is made of word characters, lower-case letters and `-` only |
| ChatStore.LongWordsCount | src/chat.py:56 | the filter keeps every occurrence of each word longer than two characters and no occurrence of a shorter one |
| ChatStore.LongWordsAppend | src/chat.py:56 | the filter works piecewise over a concatenation, so the kept words stay in their original order |
| ChatStore.Shorten | src/chat.py:62-63 | a name over 50 characters is cut to a prefix of its first 50 that ends just before the LAST `-` among them (no `-` lies between the cut and position 50), or to all 50 when they hold no `-` |
| ChatStore.ChatFilePathPlace | src/chat.py:67-79 | a chat's file name ends in `_<name>.md` and the file lies under `projects/` exactly when the chat's project is set |
| ChatStore.FileStampIso | src/chat.py:70 | the stamp of an ISO time `YYYY-MM-DDTHH:MM:SS…` is `YYYYMMDD-HHMMSS` |
| ChatStore.WithId | src/chat.py:178-182 | an entry lacking its id gets exactly the key as its id; an entry that has one is unchanged |
| ChatStore.Matching | src/chat.py:193-197 | the lookup settles on the first entry, in index order, whose key or name is the argument, and finds nothing only when none matches; no entry before the hit matches |
| ChatStore.Context | src/chat.py:263-281 | one context entry per message, in order, with its role, content and provider |
| ChatStore.ChatManager.constructor | src/chat.py:13-33 | a missing or unreadable index starts the store empty |
| ChatStore.ChatManager.CreateChat | src/chat.py:81-134 | an explicit name wins, then a name generated from a non-empty first message, then "chat-" and the id; the file gets its header, the index gains exactly the new entry, and the chat is persisted and tracked |
| ChatStore.ChatManager.AddMessage | src/chat.py:136-173 | the counter goes up by one, the message is appended, exactly its block is appended to the file, the index entry is refreshed only when present, and persisted/tracked chats stay so |
| ChatStore.ChatManager.ListChats | src/chat.py:175-183 | the index afterwards is `Stamped` with `WithId` (every entry given its id when it had none, nothing else changed), and the result is its entries in index order, each carrying an id |
| ChatStore.StampChats | src/chat.py:177-182 | the loop leaves exactly the `Stamped` table and collects its entries in index order |
| ChatStore.Chat.Record | src/chat.py:139-149 | the counter goes up by one, the update time is the new one, and exactly the message is appended |
| ChatStore.ChatManager.AppendFile | src/chat.py:152-164 | the file at the path gains exactly the block at its end (starting empty when missing), and the index is untouched |
| ChatStore.ChatManager.Refresh | src/chat.py:167-171 | only an entry that is present is refreshed, with the new time and counter; files are untouched |
| ChatStore.ChatManager.FindChat | src/chat.py:191-197 | the search loop returns the first entry that matches by key or name |
| ChatStore.ChatManager.LoadChat | src/chat.py:185-230 | nothing for no match or a missing file; otherwise the entry's fields and the messages decoded from its file |
| ChatStore.ChatManager.DeleteChat | src/chat.py:232-261 | false when nothing matches (or the match has the empty id); otherwise the file and exactly that entry go, and nothing else changes |
| ChatStore.ChatManager.ReadBack | src/chat.py:154-164 | reading a persisted chat back through its index entry recovers every appended message, in order |
| TranscriptFormat.Stamp | src/chat.py:156 | the time shown in a block header is the first 19 characters of the timestamp (all of it when shorter), with every `T` turned into a space and every other character kept |
| TranscriptFormat.Decode | src/chat.py:213-224 | one message per block that the header pattern matches |
| TranscriptFormat.ScanBlock | src/chat.py:215-216 | the block pattern captures an appended block whole and resumes right after it |
| TranscriptFormat.ScanSkips | src/chat.py:215-216 | the front matter and title, which hold no block header, are skipped |
| TranscriptFormat.TranscriptAppend | src/chat.py:154-164 | appending a block to a transcript gives the transcript of the longer message list |
| TranscriptFormat.DecodeTranscript | src/chat.py:213-224 | decoding a transcript gives each appended message back: role normalised, content stripped, provider for assistant blocks, time as shown |
| ProjectStore.SlugChars | src/project.py:59-61 | a project id holds only word characters and `-`, with no upper-case letter and no whitespace |
| ProjectStore.SlugIdempotent | src/project.py:59-61 | slugging an id gives the same id back |
| ProjectStore.SlugExample | src/project.py:59-61 | "My WebApp" becomes "my-webapp" |
| ProjectStore.FindProject | src/project.py:113-132 | the project stored under the key; otherwise the first project, in index order, whose name equals the key ignoring case (no earlier entry's name matches); nothing exactly when neither exists |
| ProjectStore.ProjectManager.constructor | src/project.py:12-32 | a missing or unreadable index starts the store empty |
| ProjectStore.ProjectManager.CreateProject | src/project.py:39-89 | a blank name and a taken slug are refused with nothing changed; otherwise a project with no chats is stored under the slug; every project's counter still counts its chats |
| ProjectStore.ProjectManager.ListProjects | src/project.py:91-111 | every project exactly once, most recently updated first |
| ProjectStore.ProjectManager.GetProject | src/project.py:113-132 | the lookup loop returns what `FindProject` defines |
| ProjectStore.ProjectManager.DeleteProject | src/project.py:134-171 | false for an unknown project; otherwise exactly that project's record goes |
| ProjectStore.ProjectManager.AddChat | src/project.py:173-204 | false for an unknown project; a chat already filed is refused; otherwise it is appended and the counter keeps counting the chats |
| ProjectStore.ProjectManager.RemoveChat | src/project.py:206-234 | false for an unknown project or a chat not in it; otherwise its first occurrence goes and the counter keeps counting |
| ProjectStore.ProjectManager.GetProjectChats | src/project.py:236-250 | the project's chat ids, or nothing for an unknown project |
| ProjectStore.ProjectManager.GetChatProject | src/project.py:252-266 | the first project, in index order, that lists the chat, or nothing |
| ProjectStore.ProjectManager.RenameProject | src/project.py:284-306 | false for an unknown project; otherwise only its name and update time change, and its id stays |
| NamespaceStore.FindNamespace | src/namespace.py:90-101 | the namespace stored under the key, else the first, in index order, with that exact name (no earlier entry has it); nothing exactly when neither exists |
| NamespaceStore.WithProject | src/namespace.py:109-111 | the project id is in the list afterwards; the old list is kept as a prefix and grows by one exactly when the id was absent, so a list without duplicates stays without duplicates |
| NamespaceStore.AddKeepsDistinct | src/namespace.py:109-111 | adding a project keeps every namespace's project list free of duplicates |
| NamespaceStore.RemoveKeepsDistinct | src/namespace.py:125-127 | removing a project keeps every namespace's project list free of duplicates |
| NamespaceStore.WithoutProject | src/namespace.py:125-126 | an absent id leaves the list as it is; otherwise the list loses exactly its first occurrence of the id and the rest keep their order |
| Store.RemoveFirstSplit | src/namespace.py:126 | `list.remove` cuts out exactly the first position holding the element and keeps the rest in order |
| NamespaceStore.WithProjectIdempotent | src/namespace.py:109-111 | adding a project twice is adding it once |
| NamespaceStore.WithoutUndoesWith | src/namespace.py:103-133 | removing a project just added to a list without it gives the list back |
| NamespaceStore.WithoutProjectGone | src/namespace.py:125-126 | in a list without duplicates the removed id is gone |
| NamespaceStore.NamespaceManager.constructor | src/namespace.py:14-33 | a missing or unreadable index starts the store empty |
| NamespaceStore.NamespaceManager.CreateNamespace | src/namespace.py:45-78 | a name in use is refused with nothing changed; otherwise the namespace is stored under the new id and its directory made; names stay unique |
| NamespaceStore.NamespaceManager.ListNamespaces | src/namespace.py:80-88 | every namespace, in index order |
| NamespaceStore.NamespaceManager.GetNamespace | src/namespace.py:90-101 | the lookup loop returns what `FindNamespace` defines |
| NamespaceStore.NamespaceManager.AddProject | src/namespace.py:103-117 | false for an unknown namespace; a new project id is appended with a new update time, a known one changes nothing; project lists without duplicates stay so |
| NamespaceStore.NamespaceManager.RemoveProject | src/namespace.py:119-133 | false for an unknown namespace; a listed project id is removed with a new update time, an unlisted one changes nothing; project lists without duplicates stay so |
| NamespaceStore.NamespaceManager.GetNamespaceProjects | src/namespace.py:135-141 | the namespace's project ids, or nothing |
| NamespaceStore.NamespaceManager.DeleteNamespace | src/namespace.py:143-165 | false for an unknown namespace; otherwise exactly its record goes, and its directory too when empty |
| NamespaceStore.NamespaceManager.RenameNamespace | src/namespace.py:167-210 | the result, index and directories afterwards are exactly what `RenameOutcome` defines for the old index and directories |
| NamespaceStore.NamespaceManager.OtherNamed | src/namespace.py:185-187 | the duplicate-name loop answers true exactly when a namespace under another id carries the name |
| NamespaceStore.RenameChangesOne | src/namespace.py:181-208 | true exactly when the namespace is found; a refused or unknown rename changes nothing; the ids stay; every other record is untouched; a successful rename stores the new name and time under the same id |
| NamespaceStore.RenameKeepsUnique | src/namespace.py:185-196 | a rename, including one whose directory move fails, keeps namespace names unique |
| NamespaceStore.PutKeepsUnique | src/namespace.py:185-196 | rewriting a record under its id with its own name or one no other record has keeps names unique |
| SummaryStore.SummaryFilePathPlace | src/summary.py:45-57 | a summary's file name ends in `_<name>_summary.md` and lies under `projects/` exactly when its project is set |
| SummaryStore.FrontmatterNoRule | src/summary.py:95-103 | with single-line values not ending in `---`, the front matter holds no `---` line |
| SummaryStore.SkipFrontmatter | src/summary.py:191-197 | a file opening with a rule-free block between two rules reads back as the stripped rest |
| SummaryStore.LoadReadsBody | src/summary.py:93-111 | reading a written summary gives back everything after its front matter, stripped |
| SummaryStore.LoadReadsSummary | src/summary.py:105-111 | for text ending in a visible character, that is the title block followed by the summary text exactly |
| SummaryStore.WordCountOfWords | src/summary.py:87 | the word count of words joined by spaces is their number |
| SummaryStore.FindSummary | src/summary.py:153-169 | the summary stored under the key, else the first, in index order, with that exact name (no earlier entry has it); nothing exactly when neither exists |
| SummaryStore.DeleteTarget | src/summary.py:213-218 | the single search loop finds the first entry, in index order, whose key or name is the argument (no earlier entry has either), and nothing only when none exists |
| SummaryStore.SelectedMembers | src/summary.py:145-147 | the kept entries are exactly those of the requested project, or all without one |
| SummaryStore.ListedSummaries | src/summary.py:129-151 | the listing holds exactly the project's entries, newest first |
| SummaryStore.WithId | src/summary.py:141-143 | an entry lacking its id gets exactly the key as its id; nothing else changes |
| SummaryStore.SummaryManager.constructor | src/summary.py:14-33 | a missing or unreadable index starts the store empty |
| SummaryStore.SummaryManager.CreateSummary | src/summary.py:59-127 | the provider defaults to "unknown", the word count counts words, the file holds the document, and the index gains exactly the new entry |
| SummaryStore.SummaryManager.ListSummaries | src/summary.py:129-151 | returns `Listed` of the entries after the loop (the project's entries, newest first) and leaves the index `Stamped` with `WithId` |
| SummaryStore.StampAndSelect | src/summary.py:139-147 | the loop fills in every missing id (giving the `Stamped` table) and keeps, in index order, exactly the entries `Selected` keeps |
| SummaryStore.WithIdsFills | src/summary.py:140-143 | filling in ids keeps every key in its place, gives every entry an id, leaves an entry that had one as it was and sets a missing one to its key |
| SummaryStore.SummaryManager.GetSummary | src/summary.py:153-169 | the lookup returns what `FindSummary` defines |
| SummaryStore.SummaryManager.LoadSummary | src/summary.py:171-202 | nothing for an unknown summary or a missing file; otherwise the entry and the text after the front matter |
| SummaryStore.SummaryManager.DeleteSummary | src/summary.py:204-234 | false when the search finds nothing (or the empty id); otherwise the file and exactly that entry go |
| SummaryStore.SummaryManager.FindDeleteTarget | src/summary.py:214-218 | the search loop answers what `DeleteTarget` defines: the first entry, in index order, stored under the key or named by it |
| Args.PositionOf | src/main.py:67 | the position of the first occurrence |
| Args.ParseFlag | src/main.py:41-78 | a value exactly when the flag is one of the words; without it the text comes back unchanged; a value is one of the words |
| Args.ParseFlagOf | src/main.py:66-73 | a flag followed by a value yields the value and the other words joined by single spaces |
| Args.ParseFlagLast | src/main.py:74-76 | a flag that ends the text yields the empty value and the text unchanged |
| Args.ParseFlagAbsent | src/main.py:63-64 | without the flag the text comes back unchanged |
| Args.ParseSubcommand | src/main.py:115-138 | nothing for empty text, an error for blank text, otherwise a non-empty first word and the rest starting at a visible character |
| Args.ParseSubcommandWord | src/main.py:134-136 | a single word is a sub-command with empty arguments |
| Args.ParseSubcommandOf | src/main.py:134-136 | a word, a space and text starting with a visible character split back into both |
| Args.ValidateName | src/main.py:141-168 | accepted exactly when non-empty, at most 100 characters, and not starting or ending with whitespace; the empty and too-long messages |
| Grouping.Lookup | src/main.py:548 | the id lookup has a key exactly for each element's id, and maps it to an element with that id |
| Grouping.PickMembers | src/main.py:557-590 | the reference definition holds exactly the values of the elements with the given key |
| Grouping.GroupByPicks | src/main.py:557-590 | the standalone list and each group hold what the reference picks, in list order; a group exists exactly when an element names it; no group is listed twice |
| Grouping.GroupByRest | src/main.py:557-590 | the standalone list is exactly the keyless elements, in list order |
| Grouping.GroupByMembers | src/main.py:557-590 | a group exists exactly when it is in the order and some element names it, and holds exactly those elements in list order |
| Grouping.GroupByDistinct | src/main.py:557-590 | no group appears twice in the order |
| Grouping.GroupByPartition | src/main.py:566-590 | each element lands in the group its key names, or on the standalone list, and nothing else lands anywhere |
| Grouping.GroupItems | src/main.py:557-590 | the grouping loop computes `GroupBy` |
| Grouping.SortedGroups | src/main.py:592-598 | each group sorted newest first is a permutation of the group, and sorted |
| Grouping.SortEachGroup | src/main.py:592-596 | the loop that sorts each group in place computes `SortedGroups` |
| Browser.BuildWellFormed | src/main.py:546-598 | every namespace and project the display looks up is present |
| Browser.GroupRecords | src/main.py:546-598 | the lookups, groupings and sorts compute `Build` |
| Browser.ComposeList | src/main.py:546-645 | the `/list` display is exactly `ListDisplay` of the grouped records |
| Browser.Flatten | src/main.py:600-645 | the flattening loops give namespaces with their projects, empty namespaces, standalone projects, chats, summaries |
| Browser.ListShowsChat | src/main.py:566-641 | every chat is in the `/list` display |
| Browser.ListShowsSummary | src/main.py:579-645 | every summary is in the `/list` display |
| Browser.ProjectBlockListed | src/main.py:603-637 | every project is shown with all its chats and summaries |
| Browser.ListDisplayEmpty | src/main.py:542-649 | the display is empty exactly when there are no namespaces, projects, chats or summaries |
| ResumeBrowser.KeywordFilterMembers | src/main.py:877-882 | the filter keeps exactly the chats whose lower-cased name or provider contains the keyword |
| ResumeBrowser.ResumeCandidates | src/main.py:869-886 | no chats stops the command; the lower-cased arguments filter the chats, and an empty result stops it; the chats on offer are never empty |
| ResumeBrowser.ComposeResume | src/main.py:888-960 | the `/resume` display is exactly `ResumeDisplay` of the grouped chats |
| ResumeBrowser.FlattenResume | src/main.py:926-959 | headers with chat counts, the standalone-projects header only after namespaces, the standalone-chats header only before standalone chats |
| ResumeBrowser.ResumeShowsChat | src/main.py:908-959 | every chat on offer is in the display, so the display is never empty when chats are |
| Menus.ListMenu.constructor | src/main.py:651-653 | the cursor starts on the first row with no action |
| Menus.ListMenu.Up | src/main.py:698-701 | one row up, staying on the first |
| Menus.ListMenu.Down | src/main.py:703-706 | one row down, staying on the last |
| Menus.ListMenu.Enter | src/main.py:708-716 | a chat row resumes the chat and a summary row opens the summary, each closing the browser; other rows do nothing |
| Menus.ListMenu.PressDelete | src/main.py:718-721 | asks to delete the selected row and closes |
| Menus.ListMenu.PressRename | src/main.py:723-726 | asks to rename the selected row and closes |
| Menus.ListMenu.PressCancel | src/main.py:728-732 | cancels and closes |
| Menus.KeepListing | src/main.py:741-757 | cancel and resume leave the listing loop; view, delete, rename and no action show it again |
| Menus.DeleteRequestAsWritten | src/main.py:795-809 | a confirmed delete passes a namespace's or project's name to the manager |
| Menus.DeleteByNameHitsAnother | src/main.py:799-800 | a project renamed to another project's id: the delete on its row finds the other project |
| Menus.DeleteNamespaceByNameHitsAnother | src/main.py:796-797 | a namespace named like another's id: the delete on its row finds the other namespace |
| Menus.DeleteRequest | src/main.py:795-809 | a confirmed delete passes the row's id, as the rename handlers do (src/main.py:821, 836) |
| Menus.DeleteRequestFindsProject | src/main.py:799-800 | the id-keyed delete finds exactly the project on the selected row |
| Menus.DeleteRequestFindsNamespace | src/main.py:796-797 | the id-keyed delete finds exactly the namespace on the selected row |
| Menus.NextChat | src/main.py:1033-1042 | the first chat at or after a row, or none |
| Menus.PrevChat | src/main.py:1022-1031 | the last chat at or before a row, or none |
| Menus.ResumeMenu.constructor | src/main.py:966-973 | the cursor starts on the first chat, or row 0 when there is none |
| Menus.ResumeMenu.Up | src/main.py:1022-1031 | the cursor moves to the nearest chat above, or stays, so it stays on a chat |
| Menus.ResumeMenu.Down | src/main.py:1033-1042 | the cursor moves to the nearest chat below, or stays, so it stays on a chat |
| Menus.ResumeMenu.Enter | src/main.py:1044-1049 | on a chat, that chat is chosen and the picker closes |
| Menus.ResumeMenu.PressCancel | src/main.py:1051-1054 | closes with no chat chosen |
| Menus.EnterPicksChat | src/main.py:966-1049 | whenever the display holds a chat, the cursor is on a chat |

## Left out

- Terminal output, prompts, colours, Markdown rendering and the formatted
  rows of both pickers are not modelled. The confirmation prompt before a
  delete and the new-name prompt before a rename are input, so the model
  stops at the request each key press makes.
- Directory creation (`mkdir`), the project directory handling of
  `delete_project`, and `delete_chats=True` (`shutil.rmtree`) touch only
  directories. The namespace store keeps the set of directory names it
  manages; the others keep none.
- `list_projects(include_stats=True)`, `list_namespaces(include_stats=True)`
  and `_get_last_activity` only add display fields.
- `parse_quoted_flag` (src/main.py:81-112) is a regular-expression search
  used only by commands outside this model.
- Ids come from an MD5 of the clock, so they are a parameter (`id`). The
  clock is the parameter `now`.
- JSON reading and writing of the index files: each constructor takes the
  index as read (`None` for a missing or unreadable file), and every
  method states the new index, which is what gets saved.
- A failing file read in `load_chat` (caught, giving no messages) and in
  `load_summary` (caught, giving nothing) is not modelled; files in
  `files` are always readable.
- `Text.Lower`, `Text.Capitalize`, the `\w` class and `Text.IsDigit` (the
  `\d` of the transcript header pattern) are ASCII-only. The source's
  `str.lower`, `str.capitalize` and `re` are Unicode-aware.
- Timestamps are compared as strings, as in the source; their format is
  assumed, not checked.
- TranscriptFormat.DecodeTranscript: proved only for messages whose
  content holds no "## Message" and whose header times and providers hold
  no `)`, and whose times (and assistant providers) are non-empty. The reader's lookahead stops a body at any "## Message", so
  other transcripts are not read back faithfully.
- ChatStore.ChatManager.ReadBack: proved only for chats whose header holds
  no "## Message", that is, whose id, name, provider, times and project
  hold none, besides the message conditions of DecodeTranscript.
  `create_chat` accepts any explicit name, and a name holding a block
  header makes the reader find a block inside the front matter.
- SummaryStore.LoadReadsBody: proved only for front-matter values with no
  line break and no trailing `---`. Any other value ends the front matter
  early.
- `load_summary` also stores the loaded text into the index entry in
  memory, because the lookup returns the entry itself. The model returns
  a separate `LoadedSummary` and leaves the index unchanged.
- `list_chats` and `list_summaries` hand out the index's own
  dictionaries, so later changes to a listed entry would reach the index.
  The model returns values, so this aliasing is not captured.
- The chat row's "rename" in the `/list` browser calls `rename_chat`,
  which `ChatManager` does not define. The resulting error is caught and
  printed, so the model has no chat rename.
- Menus.ListMenu.constructor requires a non-empty display. The source
  shows "Nothing to display" instead (src/main.py:647-649), and
  `Browser.ListDisplayEmpty` shows that this happens only when the store
  is empty.
- Menus.ResumeMenu.constructor requires a non-empty display. The source
  shows "No chats available" for an empty one, which
  `ResumeBrowser.ResumeShowsChat` shows cannot happen once there are
  chats on offer.
- Args.ParseSubcommand: the source raises `IndexError` for text made only
  of whitespace; the model returns an error value there.
- Where the source and its docstrings disagree, the model follows the
  code. For example, a `parse_flag` value followed by nothing gives `''`
  and keeps the text, and `rename_namespace`'s rollback keeps the new
  update time.

## Findings

| source | as written | input that shows it | evidently intended | confidence | as-written member | corrected member |
|---|---|---|---|---|---|---|
| src/main.py:799-800 | the `/list` browser deletes a project by passing its name to `delete_project`, which looks the argument up as an id first | project "Alpha" (id `alpha`) renamed to "beta", and project "Beta" with id `beta`: deleting the row of the renamed project deletes "Beta" | pass the project's id, as the rename handler on the same browser does (src/main.py:836) | high; not executed | Menus.DeleteByNameHitsAnother | Menus.DeleteRequestFindsProject |
| src/main.py:796-797 | the `/list` browser deletes a namespace by passing its name to `delete_namespace`, which looks the argument up as an id first | namespace "0d9e8f7a" (id `5f3c2a1b`) beside a namespace whose id is `0d9e8f7a`: deleting the first row deletes the second namespace | pass the namespace's id, as the rename handler does (src/main.py:821) | medium; not executed | Menus.DeleteNamespaceByNameHitsAnother | Menus.DeleteRequestFindsNamespace |
