# MindVault+ core, modelled in Dafny

MindVault+ is a terminal note-taking tool. Each note is stored with a timestamp, a
sentiment label and keyword tags. This project models its three pieces of logic:

- **The classifier** (`analyzer.py`, module `Analyzer`). `auto_tag` lower-cases the note
  and walks a fixed keyword table in declaration order (focus, growth, burnout). It keeps
  every tag one of whose trigger words is a substring of the note, and joins the kept
  tags with `", "`. With no match it returns `"uncategorized"`. `analyze_sentiment`
  maps a polarity score to `positive` (above 0.1), `negative` (below -0.1) or `neutral`.
  The method `AutoTag` keeps the source's loops and is proved equal to the function
  `AutoTagOf`. The lemmas about `AutoTagOf` state what the source promises.
- **The terminal UI's note table** (`model.py`, module `NoteStore`). This is an
  append-only SQLite table with AUTOINCREMENT ids. The class `Vault` holds whether the
  table exists, the rows and the id counter. `InitDb` is `CREATE TABLE IF NOT EXISTS`.
  `InsertNote` appends one row. `GetRecentNotes` answers `ORDER BY id DESC LIMIT n`.
- **The command-line tool's note table** (`mindvault_cli.py`, module `Cli`). This is a
  separate file with its own schema: `content` is `NOT NULL` and `tags` is never filled.
  `SaveNote` stores the note with its sentiment label. `ListRecentNotes` answers
  `ORDER BY timestamp DESC LIMIT n`. `SearchNotes` answers
  `WHERE content LIKE '%kw%' ORDER BY timestamp DESC`. The code leaves the order of
  equal timestamps to the engine, so the contracts admit every tie order.
  `SearchAnswersAgree` proves that all admissible answers still agree on the rows and on
  the order of timestamps.

Supporting modules:
- `Text`: ASCII lower-casing, substring search, join, and reading a joined tag string back.
- `Sql`: the SQLite semantics the tables rely on. These are `LIMIT` (a negative limit
  means no limit), the BINARY text collation behind `ORDER BY timestamp`, and `LIKE`
  (`%`, `_`, ASCII case folding).
- `Tui`: the UI's submit handler, which is where the classifier meets the table.

The timestamp and the polarity score are parameters. The database is in memory.

Behaviour the code does not have, and the model therefore does not either:
- Timestamp ties are not broken by id. The CLI's query orders by timestamp alone, so
  no tie order is promised.
- There is no search by tag and no list-all operation.
- Inserting a note does not return its id. `insert_note` returns nothing.
- Empty content is not refused on insert. The UI handler (`Tui.SubmitNote`) and the
  CLI's dispatch (`if args.note:`) skip empty input. `insert_note` and `save_note`
  themselves accept any string; a whitespace-only note reaches `save_note`.

## Model

| member | source | states |
|---|---|---|
| Analyzer.AutoTag | analyzer.py:3-14 | The loop over the keyword table, with the `any` scan inside it, returns exactly `AutoTagOf(content)`. |
| Analyzer.AnyWordOccurs | analyzer.py:12 | The short-circuiting `any(word in text ...)` is true iff some word of the list is a substring of the text. |
| Analyzer.MatchedTags | analyzer.py:10-13 | The `matched_tags` list: the names of the entries that the text triggers, in table order, never more than the table has. |
| Analyzer.AutoTagOf | analyzer.py:14 | The tag string is never empty. |
| Analyzer.MatchedTagsMember | analyzer.py:10-13 | For any keyword table, a tag name is kept iff the entry's own trigger words include one that occurs in the text. |
| Analyzer.MatchedTagsUnfold | analyzer.py:5-13 | For the fixed table, the kept tags are focus, then growth, then burnout, each present iff its word list triggers. |
| Analyzer.TagTriggers | analyzer.py:5-12 | `focus` is kept iff the lower-cased note contains focus, study or work. `growth` is kept iff it contains learn, improve or skill. `burnout` is kept iff it contains tired, exhausted or burnout. |
| Analyzer.TagsInDeclaredOrder | analyzer.py:11-13 | Kept tags are in declaration order (focus before growth before burnout), each at most once, and nothing else is kept. |
| Analyzer.UncategorizedIffNoTrigger | analyzer.py:14 | The result is `"uncategorized"` iff none of the nine trigger words occurs in the lower-cased note. Otherwise it is the kept tags joined with `", "`. |
| Analyzer.JoinedTagsNotUncategorized | analyzer.py:14 | A join of tag names can never be mistaken for `"uncategorized"`. |
| Analyzer.ParseAutoTag | analyzer.py:14 | Round trip: splitting the returned string at `", "` (or reading `"uncategorized"` as none) gives back exactly the kept tags, in order. |
| Analyzer.AutoTagIgnoresCase | analyzer.py:12 | A note and its lower-cased form get the same tag string. |
| Analyzer.SubstringExamples | analyzer.py:12 | Matching is by substring and ignores case: "Working" triggers focus and "skills" triggers growth. |
| Analyzer.AnalyzeSentiment | analyzer.py:19-24 | The result is always one of the three labels. `positive` iff polarity > 0.1, `negative` iff polarity < -0.1, and `neutral` iff polarity lies in [-0.1, 0.1], with both bounds included. |
| Analyzer.SentimentMonotone | analyzer.py:19-24 | A higher polarity never gets a more negative label. |
| Text.Contains | analyzer.py:12 | Python's `word in text`: some position of the text starts an exact copy of the word. |
| Text.Join | analyzer.py:14 | Python's `", ".join(parts)`: the parts with the separator between them; a non-empty first part gives the result's first character. |
| Text.Lower | analyzer.py:12 | Lower-casing keeps the length and maps every character through ASCII lower-casing. |
| Text.LowerIdempotent | analyzer.py:12 | Lower-casing twice is the same as lower-casing once. |
| Text.SplitJoin | analyzer.py:14 | Splitting a `", "`-join of comma-free names gives back the names. |
| Sql.Limit | model.py:30 | `LIMIT n` returns a prefix of length min(n, rows). A negative n returns all rows. |
| Sql.TextLe | mindvault_cli.py:52 | SQLite's BINARY collation on text: compare by code point at the first difference, and a proper prefix sorts first. |
| Sql.TextLeTotal | mindvault_cli.py:52 | Any two timestamps are comparable under the BINARY collation. |
| Sql.TextLeTransitive | mindvault_cli.py:52 | The BINARY collation is transitive. |
| Sql.TextLeAntisymmetric | mindvault_cli.py:52 | Two texts that each sort no later than the other are equal. |
| Sql.Like | mindvault_cli.py:62 | SQLite's `s LIKE p` without ESCAPE: `%` matches any run of characters, `_` one character, and any other character matches itself ignoring ASCII case. |
| Sql.LikePercentMatchesAll | mindvault_cli.py:62 | The pattern `%` matches every string. |
| Sql.LikePrefix | mindvault_cli.py:62 | For a wildcard-free `k`, `t LIKE k%` holds iff `t` starts with `k`, ignoring ASCII case. |
| Sql.LikeLeadingPercent | mindvault_cli.py:62 | `s LIKE %q` holds iff `q` matches some suffix of `s`. |
| Sql.LikeKeyword | mindvault_cli.py:62 | For a keyword without `%` or `_`, `s LIKE '%kw%'` holds iff the lower-cased `s` contains the lower-cased keyword. |
| Sql.Utf8Length | mindvault_cli.py:62 | The UTF-8 byte length of a string, between one and four bytes per character. The engine measures a LIKE pattern in these bytes. |
| Sql.Utf8LengthAppend | mindvault_cli.py:62 | The byte length of a concatenation is the sum of the byte lengths. |
| Sql.LikePatternTooComplex | mindvault_cli.py:62 | LIKE refuses a pattern of more than 50000 UTF-8 bytes (SQLITE_MAX_LIKE_PATTERN_LENGTH). |
| NoteStore.RecentNotes | model.py:30 | The answer has min(limit, rows) rows (all rows for a negative limit). Its i-th row is the i-th newest row inserted. |
| NoteStore.RecentNewestFirst | model.py:30 | When ids increase with insertion, the answer's ids strictly decrease. |
| NoteStore.RecentHoldsSuffix | model.py:30 | Every row among the last min(limit, rows) inserted is in the answer. |
| NoteStore.RecentAreLargestIds | model.py:30 | The answer is drawn from the table, and every row left out has a smaller id than every row returned. |
| NoteStore.RecentAfterInsert | model.py:18-33 | After an append, a query with any nonzero limit n returns the new row and then the old table's answer for n - 1 (a negative limit means no limit on both sides). Limit 1 returns just the new row. |
| NoteStore.Vault.constructor | model.py:4 | A database file starts with no table, no rows and id counter 0. |
| NoteStore.Vault.InitDb | model.py:6-16 | Afterwards the table exists, and rows and id counter are unchanged, so calling it again changes nothing. |
| NoteStore.Vault.InsertNote | model.py:18-24 | Appends exactly one row holding the given content, tags, sentiment and timestamp. Its id is one more than the counter and larger than every existing id. Existing rows are unchanged and the table invariant holds. |
| NoteStore.Vault.GetRecentNotes | model.py:26-33 | Returns `RecentNotes(rows, limit)` (limit defaults to 10) and leaves the rows and the counter unchanged. |
| Cli.AnalyzeSentiment | mindvault_cli.py:29-37 | Same three-way threshold mapping as the classifier's: above 0.1, below -0.1, else neutral. |
| Cli.SentimentAgreesWithAnalyzer | mindvault_cli.py:29-37 | The tool's copy agrees with the classifier's on every polarity. |
| Cli.IsRecentAnswer | mindvault_cli.py:52 | The admissible answers to `ORDER BY timestamp DESC LIMIT limit`: min(limit, rows) rows (all rows for a negative limit), newest first, drawn from the table with multiplicity, and no row left out is newer than a row returned. |
| Cli.IsSearchAnswer | mindvault_cli.py:62 | The admissible answers to `WHERE content LIKE pattern ORDER BY timestamp DESC`: exactly the matching rows, each as often as in the table, newest first, in any order among equal timestamps. |
| Cli.Matching | mindvault_cli.py:62 | A row is kept iff it is in the table and its content matches the LIKE pattern. The result is a sub-multiset of the table. |
| Cli.InsertByTimestamp | mindvault_cli.py:52 | Inserting into newest-first rows keeps them newest first and adds exactly one row. |
| Cli.SortByTimestamp | mindvault_cli.py:52 | The engine's sort returns a newest-first permutation of its input. |
| Cli.LimitOfSortedIsRecentAnswer | mindvault_cli.py:52 | Cutting a newest-first permutation after `limit` rows gives an admissible LIMIT answer. It has the right size, is newest first and is drawn from the table, and no row left out is newer than one returned. |
| Cli.SearchFindsKeyword | mindvault_cli.py:62 | For a wildcard-free keyword, a search answer holds exactly the rows whose content contains the keyword ignoring ASCII case: no false positives and no false negatives. It is a reordering of part of the table. |
| Cli.NewestFirstUniqueUpToTies | mindvault_cli.py:52 | Two newest-first orderings of the same rows list the same timestamps in the same order. |
| Cli.SearchAnswersAgree | mindvault_cli.py:62 | All admissible search answers contain the same rows and the same timestamp sequence. Only the order among equal timestamps is open. |
| Cli.SearchPatternTooComplex | mindvault_cli.py:62 | The pattern `%keyword%` is too long for LIKE exactly when the keyword takes 49999 or more UTF-8 bytes. |
| Cli.CliVault.constructor | mindvault_cli.py:9 | The tool's own database file starts with no table, no rows and id counter 0. |
| Cli.CliVault.InitDb | mindvault_cli.py:12-26 | Afterwards the table exists, and rows and id counter are unchanged (idempotent). |
| Cli.CliVault.SaveNote | mindvault_cli.py:39-47 | With the table present, appends one row with the note, the label for its polarity, NULL tags, the given timestamp and the next id, leaving other rows unchanged. Without the table it fails and changes nothing. |
| Cli.CliVault.ListRecentNotes | mindvault_cli.py:49-57 | Fails iff the table is missing. Otherwise it returns an admissible `ORDER BY timestamp DESC LIMIT limit` answer (limit defaults to 10) and does not modify the table. |
| Cli.CliVault.SearchNotes | mindvault_cli.py:59-67 | Fails with no-such-table iff the table is missing. With the table present, fails with pattern-too-complex iff there is a row and `'%kw%'` exceeds the LIKE length limit. Otherwise it returns exactly the rows matching `'%kw%'`, newest first, and does not modify the table. |
| Tui.SubmitNote | mindvault_tui.py:47-60 | Blank input leaves the database exactly as it was and shows nothing. Otherwise the table exists afterwards, the counter goes up by one, and the handler appends the note under that id with `AutoTagOf(content)` and the sentiment label. The reloaded view of ten notes starts with that note. |

## Left out

- The polarity computation (a lexicon library): the score is a `real` parameter.
- Floating point: the thresholds are the exact rational 1/10, not the binary double closest to 0.1.
- The SQLite engine itself: connections, commits, the files named by `DB_NAME` and `DB_PATH`, and creating the directory. The tables are in memory.
- Storage failures other than a missing table and an over-long LIKE pattern (an unreadable or unwritable file, a full disk): not modelled.
- Text the engine cannot encode: Dafny characters are Unicode scalar values, so a Python string holding a lone surrogate (as undecodable command-line bytes become) is outside the model. Binding such a string fails before the query runs.
- The clock: `datetime.now()` becomes a timestamp parameter. That the fixed-width formats sort chronologically as text is not proved.
- Unicode lower-casing: `str.lower` is modelled on ASCII letters only. Python also lower-cases other letters, for example the Kelvin sign to `k`. The trigger words themselves are ASCII.
- Wildcards in the search keyword: `LIKE` is modelled in full, so `%` and `_` act as wildcards. The substring theorem `Cli.SearchFindsKeyword` is stated only for keywords without them.
- Column lists of the SELECT statements: the queries return whole rows. The columns chosen only feed printing.
- Printing, argparse dispatch and the script's top-level flow (`init_db()` and then one command).
- The UI beyond its submit handler: widgets, the async event loop, log formatting (including the 16-character timestamp cut), stripping the input, and the catch-all exception handler. `Tui.SubmitNote` receives text that is already stripped.
- AUTOINCREMENT exhaustion at 2^63-1: the id counter is an unbounded integer.
- Cli.CliVault.ListRecentNotes: promises no order among equal timestamps, nor which tied row is kept at the limit. The code leaves both to the engine.
