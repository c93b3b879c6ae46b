# Smart Reception AI Agent — a verified model of its core

Smart Reception AI Agent is a Streamlit application for a front desk. It
takes a recorded call, has a hosted speech model transcribe it, has a hosted
language model extract a structured analysis (caller, intent, sentiment,
priority, department, two summaries), and stores the result as a support
ticket in SQLite. A dashboard lists the tickets with filters and pages.

This project models the logic behind that flow in Dafny and proves what it
guarantees:

- `config.dfy` (`Config`) holds the closed vocabularies of intents,
  priorities, sentiments and departments.
- `values.dfy` (`Values`) holds the JSON-like values of a Python
  `Dict[str, Any]`.
- `text.dfy` (`Text`) holds the parts of Python's `str` the core relies on:
  `lower`, `strip`, `join` and `in`.
- `ai_core.dfy` (`AiCore`) covers three things:
  - the `validate_analysis` gate;
  - the two fallback records of `analyze_call`;
  - the system and user prompts.

  The remote call is an input `Reply`: a decoded object, a reply that is not
  JSON, or a failed call.
- `db.dfy` (`Db`) models the `tickets` table as the class `TicketStore`. It
  holds whether the table exists, the rows in insertion order and the
  AUTOINCREMENT counter. It covers:
  - `init_db`;
  - `insert_ticket`, which writes `created_at` into the caller's dictionary
    (class `TicketData`);
  - the two newest-first fetches;
  - the count.
- `audio.dfy` (`Audio`) models `get_file_extension` with POSIX
  `os.path.splitext`.
- `app.dfy` (`App`) covers the dashboard logic and the pipeline:
  - `apply_filters`;
  - the page arithmetic and the session page counter (class `Pager`);
  - the priority pill and badge classes;
  - the "Process Audio" pipeline, which merges the transcript into the
    analysis and inserts it.

The pipeline never calls `validate_analysis`. The model proves this gap
exists (`App.InvalidAnalysisIsStored`): an analysis with an
out-of-vocabulary intent fails the validator and is stored anyway.

Facts of the code that the model keeps as they are:

- `validate_analysis` is imported at app.py:7 and never called, so nothing
  is validated before it is inserted.
- `ORDER BY created_at DESC` at db.py:89 and db.py:113 has no tie-break, so
  the fetch contracts state only non-increasing `created_at`.
- A negative `LIMIT` is accepted and means "no limit", as SQLite defines it.
  A caller is not required to pass a non-negative limit.

## Model

| member | source | states |
|---|---|---|
| AiCore.ValidateAnalysisCharacterized | ai_core.py:133-167 | the validator accepts a record exactly when all eight keys are present and intent, sentiment, priority and department each hold a string of their vocabulary |
| AiCore.InVocabulary | ai_core.py:155-165 | `value in VOCABULARY`: true exactly when the value is the string of one of the entries, so None, numbers and lists never pass |
| AiCore.ValidateAnalysis | ai_core.py:133-167 | `validate_analysis`: the presence loop over the eight keys, then the four vocabulary tests; characterised by the lemmas below |
| AiCore.WellFormedAnalysis | ai_core.py:143-165 | the independent statement of a valid record: the key set includes the eight keys and each categorical field holds a string of its vocabulary |
| AiCore.ValidateRejectsMissingKey | ai_core.py:143-152 | any of the eight required keys missing makes the record invalid |
| AiCore.ValidateIgnoresFreeFields | ai_core.py:143-167 | the verdict does not depend on the values of the caller and summary fields (None passes) nor on keys outside the eight |
| AiCore.AllPresent | ai_core.py:150-152 | the presence loop succeeds exactly when every listed key is in the record |
| AiCore.FallbackShapeValidates | ai_core.py:107-131 | any record with the shared fallback values and a long summary passes the validator |
| AiCore.FallbackBase | ai_core.py:110-116 | the shared fallback fields: no caller details, other/neutral/medium/General, "Analysis failed" |
| AiCore.ParseFallback | ai_core.py:105-118 | the non-JSON fallback validates, has exactly the eight keys plus error and raw_response, keeps the reply text and prefixes error and long summary as the source does |
| AiCore.CallFallback | ai_core.py:119-131 | the failed-call fallback validates, has no raw_response, and error and long summary both carry "Failed to analyze call: " and the message |
| AiCore.AnalyzeCall | ai_core.py:46-131 | a decoded object is returned unchanged; either failure gives a validating fallback with an error key, only known keys and a string long summary |
| AiCore.ParsedReplyIsNotValidated | ai_core.py:103-104 | a decoded object with an unknown intent is returned as is and fails the validator |
| AiCore.UserPrompt | ai_core.py:90 | the user prompt starts with the fixed preamble and the rest is the transcript verbatim |
| AiCore.UserPromptInjective | ai_core.py:90 | different transcripts give different user prompts |
| AiCore.SchemaLine | ai_core.py:70-73 | one schema line: the quoted field name and "one of: " followed by the vocabulary joined by ", " |
| AiCore.PromptAround | ai_core.py:63-87 | the system prompt text around its four schema lines, in source order |
| AiCore.SystemPrompt | ai_core.py:63-87 | the system prompt, with the head and tail text of the source |
| AiCore.SchemaLineListsVocabulary | ai_core.py:70-73 | a schema line holds "one of: " and the vocabulary joined by ", ", and so each vocabulary value |
| AiCore.PromptAroundListsVocabularies | ai_core.py:63-87 | whatever surrounds the four schema lines, the prompt names every vocabulary value |
| AiCore.SystemPromptListsVocabularies | ai_core.py:63-87 | the system prompt names every intent, sentiment, priority and department |
| Db.Params | db.py:54-65 | the INSERT parameters are read exactly when created_at and the seven required keys are present; they are the ten columns in order with None for absent caller fields; otherwise a KeyError |
| Db.Bindable | db.py:49-65 | a value sqlite3 can bind: not a list or a dict, and an int only within the signed 64-bit range |
| Db.FirstUnbindable | db.py:49-65 | binding left to right, the first parameter sqlite3 cannot bind (a list, a dict, or an int outside the signed 64-bit range), or none when every parameter binds |
| Db.FirstNullViolation | db.py:14-26 | a NOT NULL column given None with every earlier NOT NULL column given a value, so the first in table-column order; none exactly when no NOT NULL column gets None |
| Db.ColumnText | db.py:49-67 | the text a TEXT NOT NULL column keeps for a bound string, int or bool; characterised by `Db.ColumnTextReadsBack` |
| Db.ColumnTextReadsBack | db.py:49-67 | a string is kept as given, an int's text reads back as that int, and a bool is stored as the int 1 or 0 |
| Db.Storable | db.py:14-26 | the ten parameters are all bindable and the eight NOT NULL columns get no None |
| Db.RowOf | db.py:14-26 | the stored row has the given id, and caller name and contact are NULL exactly when None was given for them |
| Db.Stored | db.py:14-26 | a TEXT column gives back text or NULL, and a string or None comes back unchanged |
| Db.InsertionOk | db.py:49-67 | a successful insert read every parameter, found the table and stored a row built from storable parameters |
| Db.Insertion | db.py:49-67 | the INSERT with its errors in the order Python raises them: KeyError while building the tuple, then no such table, then the first unbindable parameter, then the first NOT NULL column given None; otherwise the row with the given id |
| Db.RowDict | db.py:97 | `dict(row)`: the id as an integer, text columns as strings, NULL caller details as None |
| Db.InsertionSucceedsIff | db.py:49-65 | with the table in place an insert succeeds exactly when every NOT NULL column's key holds a non-None value and every column's value binds: no list or dict, no int outside the signed 64-bit range |
| Db.InsertableIsInserted | db.py:49-65 | a record with every NOT NULL value present and every value bindable (64-bit ints only) is stored |
| Db.InsertedIsInsertable | db.py:49-65 | a stored record had every NOT NULL value present and every value bindable, so an int beyond 64 bits is never stored |
| Db.OutOfRangeIntIsNotStored | db.py:49-65 | an int outside the signed 64-bit range in any column makes the insert raise, so no row is stored |
| Db.InsertionOfText | db.py:49-65 | a record of strings (caller details strings or None) is stored field for field |
| Db.InsertionRoundTrip | db.py:49-67 | reading back the stored row gives the new id and, for each column, the value passed in (64-bit integers and booleans as text) |
| Db.InsertionIgnoresExtraKeys | db.py:50-65 | keys that are not columns, such as error and raw_response, change nothing about the insert |
| Db.ParamsIgnoresExtraKeys | db.py:54-65 | keys that are not columns do not change the parameter tuple |
| Db.InsertionId | db.py:67 | a stored row carries the id it was inserted with |
| Db.WithTimestamp | db.py:46-47 | created_at is added with the current time only when absent, and a supplied value is kept |
| Db.TextLeTotal | db.py:89 | the BINARY text order compares any two created_at values |
| Db.TextLeTransitive | db.py:89 | the BINARY text order is transitive |
| Db.TextLe | db.py:89 | the BINARY collation order on created_at: code point by code point, a proper prefix first |
| Db.NewestFirst | db.py:89 | ORDER BY created_at DESC: no row is newer than one before it |
| Db.SortNewestFirst | db.py:111-114 | one ordering the engine may produce for ORDER BY created_at DESC; proved a newest-first permutation below |
| Db.InsertNewestPermutes | db.py:87-91 | inserting a row into the ordering adds exactly that row |
| Db.InsertNewestCorrect | db.py:87-91 | inserting a row into a newest-first list keeps it newest first and adds exactly that row |
| Db.PrependNewest | db.py:87-91 | a row no older than the head of a newest-first list can go in front |
| Db.SortNewestFirstCorrect | db.py:111-114 | the ordering is a permutation of the rows with non-increasing created_at |
| Db.PrefixIsNewest | db.py:87-91 | the first k rows of a newest-first list are newest first, drawn from the list, and no row left out is newer than one kept |
| Db.PrefixMultiset | db.py:87-91 | the rows left out by a LIMIT are the rest of the ordering |
| Db.LaterNotNewer | db.py:87-91 | in a newest-first list no row after position k is newer than one before it |
| Db.LimitCount | db.py:90 | LIMIT lets through the limit when it is between zero and the row count, and every row for a negative or larger limit |
| Db.AppendNextId | db.py:15 | appending the row with the next AUTOINCREMENT id keeps ids increasing and larger than every earlier id |
| Db.TicketData.constructor | db.py:32 | the caller's dictionary holds the given fields |
| Db.TicketStore.constructor | db.py:7-9 | a new database file has no table, no rows and no id assigned |
| Db.TicketStore.InitDb | db.py:7-30 | the table exists afterwards and rows and counter are unchanged, so a second call changes nothing |
| Db.TicketStore.InsertTicket | db.py:32-71 | the caller's dictionary gains created_at only if absent; on success exactly one row is appended, with an id above every earlier one that is returned; on an error nothing is stored and the error is raised |
| Db.TicketStore.FetchRecentTickets | db.py:73-98 | `limit` defaults to 5; no table raises; otherwise LIMIT many rows, newest first, drawn from the table, and no row left out is newer than a row returned |
| Db.TicketStore.FetchAllTickets | db.py:100-121 | no table raises; otherwise every row exactly once, newest first |
| Db.TicketStore.GetTicketCount | db.py:123-137 | no table raises; otherwise the number of rows |
| Db.FirstTicket | db.py:7-137 | on a fresh file, after init_db an accepted record gets id 1, the count is 1 and the five most recent tickets are just that row |
| Db.SingleRowFetched | db.py:87-91 | one row drawn from a one-row table is that row |
| Audio.LastIndexOf | utils/audio.py:34 | the last position of the character, with none after it, or -1 |
| Audio.SplitExt | utils/audio.py:34 | POSIX `os.path.splitext`: the extension starts at the last dot of the last path component when a non-dot character precedes it; characterised by the lemmas below |
| Audio.SplitExtParts | utils/audio.py:34 | splitext splits a name into root and extension that concatenate to it; the extension is empty or a dot followed by no dot or separator, after a non-dot stem |
| Audio.SplitExtOfJoin | utils/audio.py:34 | a root with a stem followed by a well-formed extension splits back into those two parts |
| Audio.HiddenNameHasNoExtension | utils/audio.py:34-35 | a name whose only dot leads it, such as ".ogg", has no extension |
| Audio.DotlessNameHasNoExtension | utils/audio.py:34-35 | a name without a dot has no extension |
| Audio.MimeExtension | utils/audio.py:40-56 | a known MIME type gives its table entry and any other or missing type gives ".tmp" |
| Audio.NameExtension | utils/audio.py:33-36 | the extension of a set, non-empty name is empty or a well-formed extension, and then a proper suffix of the name |
| Audio.GetFileExtension | utils/audio.py:22-56 | the result is always a dot followed by no dot or separator, so non-empty and starting with "." |
| Audio.NameExtensionWins | utils/audio.py:33-36 | a name with an extension gives that extension lower-cased, whatever the MIME type |
| Audio.NameExtensionIsSuffix | utils/audio.py:33-36 | the lower-cased extension is how the lower-cased name ends |
| Audio.MimeTypeDecidesWithoutNameExtension | utils/audio.py:38-56 | without a name extension the MIME lookup decides |
| Audio.MimeExamples | utils/audio.py:42-53 | audio/x-wav gives ".wav"; audio/x-m4a and application/octet-stream give ".m4a" |
| Audio.DefaultExamples | utils/audio.py:55-56 | an unknown or missing MIME type with a dotless name gives ".tmp" |
| Audio.NameExample | utils/audio.py:33-36 | "Call.WAV" gives ".wav" even with an mp3 MIME type |
| Audio.HiddenNameExample | utils/audio.py:34-53 | ".ogg" falls through to the MIME lookup |
| Text.Lower | app.py:1151 | lower-casing keeps the length and maps each character |
| Text.LowerIdempotent | app.py:1155 | lower-casing twice is lower-casing once |
| Text.Strip | app.py:1151 | the stripped query is a contiguous piece of the query, with only white space removed before and after it, and neither starts nor ends with white space |
| Text.IsSpace | app.py:1151 | the characters Python's `str.isspace()` accepts, which `strip()` removes |
| Text.LeadingSpaces | app.py:1151 | the index of the first character that is not white space, every character before it being white space |
| Text.TrailingSpaceStart | app.py:1151 | one past the last character that is not white space, every character from it on being white space |
| Text.StripIsTrimBoth | app.py:1151 | stripping both ends is stripping the start, then the end |
| Text.TrimStart | app.py:1151 | only leading white space is removed, and what remains does not start with white space |
| Text.TrimEnd | app.py:1151 | only trailing white space is removed, and what remains does not end with white space |
| Text.Join | app.py:1158 | `sep.join(parts)`: the parts in order with `sep` between neighbours; characterised by `Text.JoinContainsPart` |
| Text.Contains | app.py:1159 | `sub in s`; `Text.ContainsAt` and `Text.ContainsWitness` prove it true exactly when `sub` occurs at some position |
| Text.ContainsAt | app.py:1159 | an occurrence at a known position makes `sub in s` true |
| Text.ContainsWitness | app.py:1159 | `sub in s` gives a position where `sub` occurs |
| Text.DecimalString | db.py:49-67 | Python's `str(n)` and SQLite's text for an integer: a minus sign exactly for negatives, then digits |
| Text.Digits | db.py:49-67 | the decimal digits of a natural number, without a leading zero |
| Text.DecimalRoundTrip | db.py:49-67 | the text of an integer reads back as that integer, so different integers get different texts |
| Text.JoinContainsPart | app.py:1158 | each part of a join occurs in the joined text |
| Values.Get | db.py:56-57 | `dict.get(key)`: the value, or None when the key is absent |
| App.ApplyFilters | app.py:1149-1162 | the loop keeps exactly the tickets, in order, that pass the department, priority and normalised-query filters |
| App.Keeps | app.py:1153-1160 | a ticket passes when the department filter is empty, "All" or equal, the priority filter empty, "All" or equal ignoring case, and the query empty or found in the search text |
| App.Filtered | app.py:1149-1162 | the order-preserving filter the loop is proved against |
| App.SearchText | app.py:1158 | the caller name, intent, department and transcript joined by single spaces |
| App.CallerNameText | app.py:1158 | `str()` of the caller name: a NULL name is the text "None" |
| App.NormalizeQuery | app.py:1151 | the query stripped, then lower-cased |
| App.FilteredIsSubsequence | app.py:1149-1162 | the filtered list is a subsequence of the input |
| App.FilteredMembership | app.py:1153-1160 | a ticket is kept exactly when it matches the department exactly, the priority ignoring case, and contains the stripped lower-cased query in its lower-cased search text (a NULL caller name searched as "None") |
| App.NoFiltersKeepsAll | app.py:1151-1161 | with department and priority empty or "All" and a blank query the output is the input |
| App.FilteredAppend | app.py:1152-1161 | one more ticket in the input adds it to the end of the output exactly when it passes the filters |
| App.TotalPages | app.py:1289-1291 | at least one page; for a non-empty list the fewest pages of ten that hold every ticket |
| App.Slice | app.py:1296 | Python's `s[start:end]`: as many items as lie between the bounds clipped to the length, the k-th being s[start+k] |
| App.Page | app.py:1294-1296 | min(10, len - (page-1)*10) tickets when the page starts inside the list and none otherwise, the k-th being filtered[(page-1)*10+k] |
| App.PageNonEmptyIff | app.py:1289-1298 | a page has tickets exactly when the list is non-empty and the page is within total_pages; every page before the last is full |
| App.PagesCoverAll | app.py:1289-1296 | pages 1 to total_pages laid end to end are the filtered list |
| App.Pager.constructor | app.py:1282-1283 | the first visit starts on page 1 with no filters seen |
| App.Pager.SyncFilters | app.py:1282-1287 | a filter change resets the page to 1 and records the filters; unchanged filters keep the page |
| App.Pager.Previous | app.py:1375-1377 | the page goes back by one only when above 1 |
| App.Pager.Next | app.py:1379-1381 | the page goes on by one only when below total_pages, so it never passes it |
| App.Pager.BackToMain | app.py:1384-1393 | the page is reset to 1 |
| App.PriorityClass | app.py:1198-1199 | the pill class is always one of the four priorities |
| App.PriorityClassCharacterized | app.py:1198-1199 | the class is the lower-cased priority when that is a known priority, and "low" otherwise (an empty priority included) |
| App.PriorityClassIgnoresCase | app.py:1326-1327 | a priority and its lower-cased form get the same class |
| App.SentimentBadge | app.py:1044-1052 | a sentiment badge names a known sentiment and is empty otherwise |
| App.PriorityBadge | app.py:1053-1063 | a priority badge names a known priority and is empty otherwise |
| App.FixedBadges | app.py:1041-1067 | intent and department badges do not depend on the value; an unknown category has no class |
| App.BadgeClass | app.py:1041-1067 | `get_badge_class`: fixed classes for intent and department, a class per known sentiment and priority, "" otherwise |
| App.MergedTicketData | app.py:965-968 | the merged record has the analysis keys plus transcript; analysis values win; the transcript is used when the analysis has none |
| App.ProcessAudio | app.py:888-1022 | a failed save or transcription stores nothing; otherwise the analysed, merged record is inserted unvalidated and the outcome is the insert's id or error; the AUTOINCREMENT counter advances by one exactly when a row is stored; the temporary file is removed whenever it was saved |
| App.StoreTicket | app.py:964-970 | the merged record is inserted; the new row and its id, or the insert's error, become the outcome; the counter advances by one on success and stays on error |
| App.TextAnalysisIsStored | app.py:965-970 | an analysis of strings is always stored, with its values, the transcript and the current time |
| App.FallbackAnalysisIsStored | app.py:940-970 | after a failed analysis the fallback is stored as other/neutral/medium/General with no caller details |
| App.InvalidAnalysisIsStored | app.py:7 | an analysis that fails validate_analysis is still stored, since the pipeline never calls it |

## Left out

- The remote services are not modelled: `transcribe_audio`, the Gemini calls and `json.loads`. Their outcomes are the inputs `Transcription` and `Reply`. A failure of `genai.configure` or `genai.GenerativeModel`, which run before the `try` of `analyze_call` (ai_core.py:57, 60), is not modelled: it leaves `analyze_call`, the handler at app.py:1017-1022 catches it and nothing is stored, but `Reply` has no case for it.
- A JSON reply that decodes to something other than an object (a list, a number) is not modelled. `Reply.Parsed` always carries a record.
- Floating-point JSON values and the nested contents of arrays and objects are not modelled. `Value.Structured` stands for any array or object, which sqlite3 refuses to bind.
- `Text.Lower` covers ASCII letters only. Python's Unicode case mapping is not modelled.
- `Audio.SplitExt` follows POSIX `os.path.splitext`. The Windows variant, which also splits on backslashes, is not modelled.
- `datetime.now().isoformat()` is not modelled: the timestamp is the parameter `now`. The dashboard's date formatting with `fromisoformat`/`strftime` is not modelled either.
- File I/O is not modelled: `save_uploaded_file` and `cleanup_temp_file` become the flags `saved` and `tempRemoved`. A failure inside `cleanup_temp_file` is not modelled.
- The Streamlit widgets, HTML, CSS and JavaScript, `safe_rerun` and the session keys other than the page counter are not modelled.
- The five-ticket display limit on the main page is not modelled, nor are the department dropdown options built from the stored rows.
- Database connections, commits and concurrent writers are not modelled. The table is held in memory and each operation is atomic.
- SQLite's largest rowid (2^63 - 1) is not modelled: the id counter is unbounded.
- Db.Insertion: which exception class sqlite3 raises for an out-of-range int (OverflowError, or ProgrammingError in some versions) is not distinguished; the model raises `Overflow` with the column, and stores nothing either way.
- Db.TicketStore.FetchRecentTickets: the order of rows with equal `created_at` is not modelled, because the SQL leaves it to the engine. The contract states newest-first order, the count and which rows may be chosen, not one exact sequence.
- Db.TicketStore.FetchAllTickets: the order of rows with equal `created_at` is not modelled, for the same reason.
- `Pager.lastFilters` is `None` before the first filter sync. It stands for the initial `(None, None, None)`, which no real filter tuple equals.
- The integer-to-text conversion for TEXT columns (`Text.DecimalString`) follows SQLite's rendering of integers. Booleans bind as 1 and 0.
