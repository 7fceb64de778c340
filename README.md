# GDNAnnotServer in Dafny

A model of the annotation server that hands opinions from the Grand Débat corpus to human
annotators. It covers these parts:

- **The opinion table** (`data.dfy`, module `Data`). It models `GDNData` in data.py. The
  table is a class `OpinionTable` holding a sequence of rows. Each row has its opinion, its
  count of finished annotations (-1 once reported), an in-progress flag and two model slots.
  - `NextData` keeps the two `while` loops of `next_data`. It is proved against `Choose`, a
    first-match function over the table.
  - Completion, reporting, release, marking and lookup are in-place updates, each stated
    as a function of the old rows. The model query only reads the rows.
  - Start-up (`Start`) merges the per-annotator journals (`Merge`, for
    `collect_all_annotations`). It then replays them over the corpus (`LoadData`, the two
    loops of `load_data`).
  - Pandas selections are modelled as they behave. An assignment through `.loc` updates
    every row carrying the id. `.iloc[0]` reads the first such row and raises `IndexError`
    when there is none. Lemmas that need ids to be unique say so.
- **The annotator session** (`users.dfy`, module `Users`). It models `User` in user.py. It is a
  class with the session fields. The `annotators/` directory is a `Disk` object holding:
  - the set of token directories;
  - the pickled records, as a map from token to record;
  - the two append-only journals, as maps from token to lines.
- **Segment grouping, prompt assembly and the token** (`utils.dfy`, module `Utils`). It covers
  `process_segments`, the text accumulation and prompt of `extract_argument`, and `get_token`.
- **The handlers that chain them** (`app.dfy`, module `App`). It covers fetching the next
  opinion, switching opinion, reporting, asking a model, and saving summaries (app.py).

Values shared by all modules (errors, opinions, journal records and lines) are in `common.dfy`.

Python exceptions are values of `Result`. `IndexError` comes from `.iloc[0]` on an empty
selection or `random.choice` on an empty list. `OverflowError` means no opinion is left.
`KeyError` is an unknown segment type. `ValueError` is an unknown or unreadable session.
`TypeError` is arithmetic on a missing start time, or `__init__` returning a value.

The model follows the code, including these behaviours:

- **Completion has no guard** (data.py:106-113). Completing a reported row moves it from -1
  to 0. Completing a row at two annotations moves it to three (`Data.FinishIsUnguarded`). The
  "count never exceeds two" and "reports are permanent" invariants therefore hold only along
  the allocation path. They are proved in that form (`Data.CompletionAfterChoiceAtMostTwo`,
  `Data.ReportIsPermanent`).
- **Lookup by id has no guard either** (data.py:120-124). `get_data_from_id` returns and
  marks in progress a reported or fully annotated row.
- **Registering a known token is not a no-op** (user.py:17-19). `User(token)` on an existing
  directory makes `__init__` return a value, and Python rejects that with `TypeError`
  (`Users.Register`).
- **`get_next` tests the current opinion for truthiness** (app.py:121). An annotator whose
  current opinion has id 0 is given a new opinion (`App.HasCurrent`).

## Model

| member | source | states |
|---|---|---|
| Users.Initial | user.py:36-48 | A new session has no current opinion, an empty done list, no start time and no last model. |
| Users.Load | user.py:65-74 | Definition of loading a session: loading succeeds exactly when the token's record exists and is readable, and then gives that record; otherwise `ValueError`. |
| Users.LoadAfterSave | user.py:54-74 | Saving a session and loading it under its token gives the same session back. |
| Users.SaveIsolated | user.py:54-62 | Saving one annotator's session does not change what loads for any other token. |
| Users.Append | user.py:108-124 | After one write, the journal is its old lines (none if there was no file) followed by exactly the new record. Other annotators' journals are untouched. |
| Users.User.NumAnnotatedBatch | user.py:51-52 | The number of done items, reports and empty entries included. A report or a saved annotation raises it by exactly one (`ReportData`, `SaveAnnotation`). |
| Users.User.CanBeSecondAnnotator | user.py:76-77 | More than 8 done items. Once it holds it keeps holding: `ReportData` and `SaveAnnotation` ensure so, and no other operation changes the done list. |
| Users.User.Create | user.py:36-48 | Creation makes the token directory with two empty journals and stores the initial session. |
| Users.User.FromSnapshot | user.py:65-72 | The object rebuilt from a record has exactly the record's fields. |
| Users.User.SaveUser | user.py:54-62 | Only this token's record changes, and it loads back as the current fields. |
| Users.User.WriteJsonl | user.py:108-124 | The chosen journal gains one line after all its old lines. The other journal is unchanged. |
| Users.User.NewOpinion | user.py:79-83 | The opinion becomes current and the clock starts. The done list and the other fields are unchanged. The session is saved. |
| Users.User.SaveLastLlm | user.py:86-88 | Only the last used model changes, and the session is saved. |
| Users.User.ReportData | user.py:90-95 | One record goes to the reports journal. The previous current opinion (possibly none) is appended to the done list, and nothing is current. The done count goes up by exactly one, so second-pass eligibility once reached is kept. The session is saved. |
| Users.User.SaveAnnotation | user.py:97-105 | Same as a report, but into the annotations journal, with `time` (elapsed since the start) and `date` added. The done count goes up by exactly one, so second-pass eligibility once reached is kept. Without a start time it raises `TypeError` and nothing changes. |
| Users.Register | user.py:12-23 | An existing token directory gives `TypeError` and changes nothing. Otherwise the token directory is created with two empty journals, and a fresh session is created, stored as the initial one, and loads back as it. |
| Users.LoadUser | user.py:65-74 | A fresh object equal to the stored session, or `ValueError`. |
| Data.Lookup | data.py:120-121 | The index of the first row with the id. None exactly when no row carries it. |
| Data.LookupIgnoresFlags | data.py:100-104 | Setting or clearing a flag does not move the row that `.iloc[0]` reads. |
| Data.FinishFailsOnlyOnUnknownId | data.py:106-113 | Completion raises `IndexError` exactly when no row carries the id. |
| Data.SetFlagChangesOneRow | data.py:100-104 | With unique ids, marking or releasing an id changes that one row's flag and nothing else. |
| Data.FinishIsUnguarded | data.py:106-113 | Completion takes a reported row from -1 to 0 and a row at 2 to 3, filling the first model slot if it is empty and the second otherwise. |
| Data.Scan | data.py:73-94 | The first row of the whole table that has the given count, is not in progress and is not in the done list. None exactly when there is none. |
| Data.FirstFreeIsScan | data.py:73-94 | Scanning the filtered rows with a given count, as `next_data` does, finds the row `Scan` finds in the whole table. |
| Data.ChooseIsFirstMatch | data.py:72-97 | For an eligible annotator, the choice is the first available row with one annotation if there is one. Otherwise it is the first available row with none, and otherwise nothing. |
| Data.ChooseIsSafe | data.py:72-97 | A chosen row is in the table, has count 0 or 1, is not in progress and is not in the done list. A count-1 row goes only to an eligible annotator. Nothing is chosen exactly when no row qualifies. |
| Data.Choose | data.py:72-97 | Definition of the allocation choice: the second-pass scan over rows with one annotation for an eligible annotator, else the first-pass scan over rows with none. Its properties are `ChooseIsFirstMatch` and `ChooseIsSafe`. |
| Data.NoDoubleAssignment | data.py:77-93 | Once an allocation marks a row in progress, the next allocation does not hand that row out. |
| Data.ApplyKeepsHeld | data.py:100-117 | Only a release, a report or a completion of an id clears the in-progress flag of its rows. |
| Data.HeldIsPermanent | data.py:100-117 | An opinion in progress stays in progress over any run of operations that does not release, report or complete it. |
| Data.NoDoubleAssignmentRun | data.py:72-117 | An opinion handed out by an allocation stays in progress, and no later allocation hands it out, over any run of operations until a release, a report or a completion of it. |
| Data.CompletionAfterChoiceAtMostTwo | data.py:72-113 | A row handed out and then completed ends at one or two annotations. |
| Data.ApplyKeepsWithdrawn | data.py:100-124 | No table operation except completing that same id brings a reported opinion back. |
| Data.WithdrawnIsPermanent | data.py:115-117 | Reported opinions stay at -1 over any run of operations that does not complete them. |
| Data.ReportIsPermanent | data.py:115-117 | After a report, and any run of operations without a completion of that id, the allocation never hands the id out. |
| Data.FlagChangesNoCount | data.py:100-104 | Marking or releasing changes only the in-progress flag of the rows with that id. |
| Data.ReleaseThenFetch | data.py:100-124 | Releasing and then fetching an id keeps every count and leaves that id in progress. |
| Data.CountForStep | data.py:27-36 | The one-line step of the record count's definition, used by the replay invariants: one more journal line adds one to an opinion's count exactly when it is a record about that opinion. |
| Data.CreditStep | data.py:36-40 | Replaying one annotation record moves every row of its opinion one annotation further, the first replay filling the first model slot and later ones the second. It fails exactly when the opinion is not in the corpus. |
| Data.ReplayAnnotations | data.py:25-44 | After the annotations journal, each opinion's row carries the number of records about it and the placeholder in that many slots. A record about an opinion missing from the corpus raises `IndexError`. |
| Data.ReplayReports | data.py:46-64 | After the reports journal, exactly the rows of reported opinions are at -1. Every other field of every row is unchanged. |
| Data.LoadData | data.py:25-66 | Start-up rows: each opinion's count is the number of annotation records about it, and its model slots are filled with the placeholder in order. A report forces -1. Blank and unreadable lines are skipped. A record about an opinion missing from the corpus raises `IndexError`. |
| Data.TaggedOrigin | data.py:141-164 | Every line of a merged journal is the tagged copy of one of that journal's records. |
| Data.Tagged | data.py:155-164 | Definition of one journal's contribution: its records, blank and unreadable lines dropped, each tagged with the annotator. Its properties are `TaggedSpec`, `TaggedConcat` and `TaggedCount`. |
| Data.TaggedSpec | data.py:141-164 | One journal merged: every line is a tagged record of the journal, every record appears tagged, and there is one line per record. |
| Data.TaggedConcat | data.py:155-164 | Tagging goes line by line: tagging two journal parts one after the other gives the two tagged parts in the same order. |
| Data.TaggedCount | data.py:155-164 | Tagging keeps, for every opinion, the number of records about it. |
| Data.Merge | data.py:141-164 | Definition of the merged file: the tagged journals of the listed entries in listing order, an entry without a journal adding nothing. Its properties are `MergeSpec`, `MergeCount` and `MergeMentions`. |
| Data.MergeCount | data.py:141-164 | For every opinion, the merged annotations file holds as many records about it as the listed journals hold together, so the start-up counts are the sums over the annotators' journals. |
| Data.MergeMentions | data.py:167-189 | The merged reports file mentions an opinion exactly when the journal of some listed annotator does, so an opinion is reported at start-up exactly when some annotator reported it. |
| Data.MergeSpec | data.py:141-189 | The merged file holds every readable record of every listed annotator, tagged. Every merged line comes from one of those journals. |
| Data.ScanPass | data.py:75-83 | The loop over one pass's candidates returns the first one not in progress and not in the done list, or nothing. |
| Data.OpinionTable.NextData | data.py:68-97 | The returned opinion is the choice of `Choose`, and only its flag is set. With no candidate it raises `OverflowError` and the table is unchanged. |
| Data.OpinionTable.CancelOpinionAnnotation | data.py:100-101 | Only the in-progress flag of that id is cleared. |
| Data.OpinionTable.SetOpinionAnnotation | data.py:103-104 | Only the in-progress flag of that id is set. |
| Data.OpinionTable.AddFinishedAnnotation | data.py:106-113 | The row is released and its count goes up by one. The model goes into the first slot if it is empty, else the second. An unknown id raises `IndexError` and leaves the table unchanged. |
| Data.OpinionTable.AddReportedAnnotation | data.py:115-117 | The row is released and marked -1. |
| Data.OpinionTable.GetDataFromId | data.py:120-124 | Returns the first row with the id and marks every row with it in progress. An unknown id raises `IndexError`. |
| Data.OpinionTable.GetUsedLlm | data.py:126-133 | The filled model slots, first slot first: at most two names, none empty. An unknown id raises `IndexError`. |
| Data.Start | data.py:9-66 | The table is built from the merged journals replayed over the corpus. Start-up fails exactly when an annotation record names an opinion outside the corpus. |
| Utils.AddToGroupSpec | utils.py:49-51 | Adding a segment extends exactly the group of its colour, opening it at the end if the colour is new. |
| Utils.ColorsSpec | utils.py:47-53 | The group keys never repeat, and they are exactly the colours that occur. |
| Utils.ProcessSegments | utils.py:47-53 | One group per colour in order of first occurrence. Each group holds that colour's segments, under their ids, in their original order. |
| Utils.GroupMembership | utils.py:50-51 | A segment is in a colour's group exactly when that is its colour. A colour that does not occur has an empty group. |
| Utils.GroupCount | utils.py:47-53 | The number of groups is the number of distinct colours. |
| Utils.SegmentInOneGroup | utils.py:47-53 | Every segment sits in the group of its own colour and in no other. |
| Utils.JoinedSnoc | utils.py:17-21 | The separator goes before a new text only when the accumulated text is non-empty. |
| Utils.JoinedEmpty | utils.py:19-21 | A type's accumulated text is empty exactly when all its segment texts are. |
| Utils.TypeTextsSpec | utils.py:12-21 | The accumulated text of each type is that type's segment texts joined by the separator, where empty texts before the first non-empty one add nothing and every later text, empty or not, is preceded by the separator. |
| Utils.AllKnownSpec | utils.py:17-19 | The prefix test used by the loop holds exactly when every segment's type is a known one. |
| Utils.CollectTexts | utils.py:12-21 | The three texts accumulated over the segments in order. The first segment of an unknown type raises `KeyError`, and only such a segment does. |
| Utils.Prompt | utils.py:25-40 | Definition of the prompt: the header with the opinion text and the theme, then one heading-and-text line per non-empty type text, claim, premise and solution in that order. Its properties are `PromptShape` and `PromptLines`. |
| Utils.PromptShape | utils.py:25-40 | The prompt starts with the header. It is the bare header exactly when all three texts are empty. |
| Utils.PromptLines | utils.py:32-40 | A non-empty claim text gives the claim line right after the header, and a non-empty solution text gives the solution line at the very end of the prompt. |
| Utils.ExtractArgument | utils.py:9-45 | The model is queried with the prompt built from the accumulated texts. An unknown type raises `KeyError` before any query. |
| Utils.Split | utils.py:58 | A split always has at least one piece. |
| Utils.SplitNoSpace | utils.py:58 | No piece of a split contains a space. |
| Utils.LastPiece | utils.py:58 | The last piece is a suffix of the string, preceded by a space unless it is the whole string. A single piece is the whole string. |
| Utils.GetToken | utils.py:55-61 | No header gives no token. Otherwise the token is the header's last space-free suffix that starts the header or follows a space. |
| App.HasCurrent | app.py:121 | Definition of the truthiness test on the current opinion: present and not 0. It is the branch condition of `GetNext`. |
| App.GetNext | app.py:116-133 | An annotator with a (truthy) current opinion gets it again: the opinion of the first row with that id, which is marked in progress. Their session is unchanged, and an unknown id raises `IndexError`. Anyone else gets the choice of `Choose`, which becomes current. With no candidate the reply is a `400`. |
| App.SwitchToCurrentReleasesIt | app.py:144-150 | Switching to the opinion one is on leaves every row of it not in progress. |
| App.SwitchToCurrentExample | app.py:144-150 | For a concrete current opinion, no allocation can hand it out before the switch, and the allocation hands it out after. |
| App.SwitchFixedSpec | app.py:144-150 | With release first, the new opinion ends in progress and a different previous one is released. Other rows are unchanged, and no count or model slot moves. |
| App.SwitchOpinion | app.py:136-151 | The reply is the opinion of the first row with the new id. The table after the switch as written, and the new opinion becomes current. The session is saved. An unknown id raises `IndexError` before anything changes. |
| App.SwitchOpinionFixed | app.py:144-150 | The corrected switch: the reply is the opinion of the first row with the new id, the table as `SwitchedRowsFixed` says, and the new opinion becomes current. The session is saved. |
| App.Translated | app.py:159-161 | Definition of the journal's reason: the English label for a known reason, and null for any other reason or none. |
| App.Report | app.py:154-173 | The opinion is withdrawn (-1, released). One record with the translated reason goes to the annotator's reports journal. Their current opinion moves to the done list, and the session is saved. |
| App.WithLlm | app.py:234-236 | The record gains `llm` (the last model, or null) and keeps all its other fields. |
| App.WithLlmKeys | app.py:234-236 | The labelled record's keys are exactly the original keys plus `llm`: nothing else is added. |
| App.SaveSummaries | app.py:230-246 | The introduction example stores nothing. Otherwise the table is credited with the last model, then the record goes to the journal and the session is saved. Without a start time, the table is credited but the journal write raises `TypeError`. |
| App.Unused | app.py:191-192 | The models not yet used on the opinion: a model is in the result exactly when it is in the model list and not among the used ones. |
| App.UnusedInOrder | app.py:191-192 | The unused models keep the order of the model list: each sits at a position of the list, and the positions strictly increase. |
| App.GroupsKnownIff | app.py:195-205 | The colour groups hold only known types exactly when the whole segment map does, so grouping does not change whether a `KeyError` is raised. |
| App.AskModel | app.py:195-205 | One answer per colour group, in order, each the model's answer to that group's prompt. A group holding an unknown type raises `KeyError`. |
| App.ProcessOpinion | app.py:176-208 | No segments or no text gives a `400`. Otherwise, with a known id, a model left and only known types, the reply is an answer. The model is the one at the drawn index among the unused models, and each colour group gets its answer. The model becomes the annotator's last one, and the session is saved. An unknown id, no model left, or an unknown type raise. |

## Left out

- File locks, the temporary-file-and-rename writes and pickling are left out. The session records and journals are maps on a `Disk` object.
- Concurrency between request handlers is not modelled, and neither is the table's lack of any lock. The model is sequential.
- Disk failures (unwritable directories, a missing corpus file) are not modelled.
- The directory listing order of `collect_all_annotations` is not computed. It is a parameter (`listing`).
- The text form of the journals (newlines, `strip`, `json.loads`) is abstracted. Each line is blank, unreadable or a record, and a record carries its opinion id and a map of other fields.
- Records with no `opinion` or `opinionId` key, which would raise `KeyError` during replay, are not modelled.
- Utils.CollectTexts, Utils.ProcessSegments, App.AskModel and App.ProcessOpinion: every segment carries its `type`, `text` and `color` keys, so the `KeyError` that a segment without one of them raises (utils.py:18, 21 and 51) is not modelled.
- App.SwitchOpinion, App.SwitchOpinionFixed and App.ProcessOpinion: the opinion id arrives already parsed as an integer, so the `ValueError` or `TypeError` that `int(data.get("opinionId"))` raises on a missing or malformed id (app.py:141 and 182) is not modelled.
- The opinion object nested in a journal record keeps only its id.
- Clock readings (`time.time()`, `datetime.today()`) are inputs (`now`, `date`).
- The random model draw (app.py:192) is an index `pick` into the unused models.
- The model clients (groqLLM.py) are opaque functions. `ExtractArgument` takes one as `query`, from a prompt to an optional answer. `ProcessOpinion` takes `llms`, which gives the client for a model name. groqLLM.py is not part of this model.
- `User.__str__`, logging and the `print` calls are left out, because they affect no state.
- Flask routing, CORS, the `/`, `/user-info` and `/check-token` routes, and token loading from the request are not part of this model. Each handler receives the loaded session.
- `introductionExample` is an opinion id of another type. It is the boolean `introduction`.
- Utils.ProcessSegments: requires distinct segment ids, which a JSON object guarantees.
- Utils.ProcessSegments: represents the `defaultdict` of dicts as a list of (colour, segments) pairs in insertion order.
- Utils.CollectTexts: adds the separator and the text in one map update instead of two. The resulting text is the same.
- App.SwitchOpinion: releases the previous opinion only when there is one. `cancel_opinion_annotation(None)` selects no row, so this is equivalent.

## Findings

| source | as written | input that shows it | evidently intended | confidence | as-written member | corrected member |
|---|---|---|---|---|---|---|
| app.py:144-150 | The switch handler marks the new opinion in progress, then releases the previous one. | Switching to the opinion one is already on (current 7, new 7): the row ends not in progress, and the next allocation may hand it to another annotator. | Release the previous opinion first, then mark the new one, so the opinion being worked on stays in progress. | not executed; medium | App.SwitchToCurrentExample | App.SwitchFixedSpec |
