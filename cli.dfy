/**
 * The command-line tool's helpers. The tool keeps its own note table, in a different
 * SQLite file from the terminal UI's, with columns
 * `notes(id, content NOT NULL, sentiment, tags, timestamp)`.
 */
module Cli {
  import opened Text
  import opened Sql
  import Analyzer

  /** One row of the table; `tags` is a nullable column that this tool never fills. */
  datatype Note = Note(id: int, content: string, sentiment: string, tags: Option<string>, timestamp: string)

  /** `list_recent_notes` returns ten rows unless told otherwise. */
  const DefaultLimit: int := 10

  /** The tool's own copy of `analyze_sentiment`: the label for a polarity score. */
  function AnalyzeSentiment(polarity: real): (mood: string)
    ensures mood == "positive" || mood == "negative" || mood == "neutral"
    ensures mood == "positive" <==> polarity > 0.1
    ensures mood == "negative" <==> polarity < -0.1
    ensures mood == "neutral" <==> -0.1 <= polarity <= 0.1
  {
    if polarity > 0.1 then "positive"
    else if polarity < -0.1 then "negative"
    else "neutral"
  }

  /** The tool's copy and the classifier's agree on every polarity. */
  lemma SentimentAgreesWithAnalyzer(polarity: real)
    ensures AnalyzeSentiment(polarity) == Analyzer.AnalyzeSentiment(polarity)
  {
  }

  /** Rows in `ORDER BY timestamp DESC` order: no row has a later timestamp than one before it. */
  ghost predicate NewestFirst(rows: seq<Note>) {
    forall i, j :: 0 <= i < j < |rows| ==> TextLe(rows[j].timestamp, rows[i].timestamp)
  }

  /**
   * The answers the engine may give to `ORDER BY timestamp DESC LIMIT limit` over
   * `table`: the right number of rows, newest first, taken from the table, and no row
   * left out is newer than a row returned. Rows with equal timestamps may come in any
   * order, and at the cut-off any of them may be the one kept.
   */
  ghost predicate IsRecentAnswer(table: seq<Note>, answer: seq<Note>, limit: int) {
    && |answer| == (if 0 <= limit < |table| then limit else |table|)
    && NewestFirst(answer)
    && multiset(answer) <= multiset(table)
    && forall x, y :: x in answer && y in multiset(table) - multiset(answer) ==> TextLe(y.timestamp, x.timestamp)
  }

  /** The rows whose content matches the LIKE pattern, in table order. */
  function Matching(table: seq<Note>, pattern: string): (r: seq<Note>)
    ensures multiset(r) <= multiset(table)
    ensures forall x :: x in r <==> x in table && Like(x.content, pattern)
  {
    if table == [] then []
    else
      assert table == [table[0]] + table[1..];
      (if Like(table[0].content, pattern) then [table[0]] else []) + Matching(table[1..], pattern)
  }

  /**
   * The answers the engine may give to `WHERE content LIKE pattern ORDER BY timestamp DESC`:
   * exactly the matching rows, each as often as in the table, newest first, in any
   * order among equal timestamps.
   */
  ghost predicate IsSearchAnswer(table: seq<Note>, answer: seq<Note>, pattern: string) {
    NewestFirst(answer) && multiset(answer) == multiset(Matching(table, pattern))
  }

  lemma NewestFirstTail(rows: seq<Note>)
    requires rows != [] && NewestFirst(rows)
    ensures NewestFirst(rows[1..])
    ensures forall z :: z in rows[1..] ==> TextLe(z.timestamp, rows[0].timestamp)
  {
    forall z | z in rows[1..] ensures TextLe(z.timestamp, rows[0].timestamp) {
      var j :| 0 <= j < |rows[1..]| && rows[1..][j] == z;
      assert rows[j + 1] == z;
    }
  }

  /** Putting `y` in front of newest-first rows that are all no newer than `y` keeps them newest first. */
  lemma PrependNewest(y: Note, rest: seq<Note>)
    requires NewestFirst(rest)
    requires forall z :: z in rest ==> TextLe(z.timestamp, y.timestamp)
    ensures NewestFirst([y] + rest)
  {
    var r := [y] + rest;
    forall i, j | 0 <= i < j < |r| ensures TextLe(r[j].timestamp, r[i].timestamp) {
      if i == 0 {
        assert r[j] == rest[j - 1] && rest[j - 1] in rest;
      } else {
        assert r[i] == rest[i - 1] && r[j] == rest[j - 1];
      }
    }
  }

  /** Places `x` into newest-first rows, in front of the first row that is no newer. */
  function InsertByTimestamp(x: Note, rows: seq<Note>): (r: seq<Note>)
    requires NewestFirst(rows)
    ensures NewestFirst(r)
    ensures multiset(r) == multiset(rows) + multiset{x}
  {
    if rows == [] then [x]
    else if TextLe(rows[0].timestamp, x.timestamp) then
      NewestFirstTail(rows);
      assert forall z :: z in rows ==> TextLe(z.timestamp, x.timestamp) by {
        forall z | z in rows ensures TextLe(z.timestamp, x.timestamp) {
          if z != rows[0] {
            assert z in rows[1..] by { assert rows == [rows[0]] + rows[1..]; }
            TextLeTransitive(z.timestamp, rows[0].timestamp, x.timestamp);
          }
        }
      }
      PrependNewest(x, rows);
      [x] + rows
    else
      NewestFirstTail(rows);
      TextLeTotal(rows[0].timestamp, x.timestamp);
      var rest := InsertByTimestamp(x, rows[1..]);
      assert forall z :: z in rest ==> TextLe(z.timestamp, rows[0].timestamp) by {
        forall z | z in rest ensures TextLe(z.timestamp, rows[0].timestamp) {
          assert z in multiset(rest);
          assert z == x || z in multiset(rows[1..]);
        }
      }
      PrependNewest(rows[0], rest);
      assert rows == [rows[0]] + rows[1..];
      [rows[0]] + rest
  }

  /**
   * The engine's sort for `ORDER BY timestamp DESC`: newest first and a permutation
   * of its input. It fixes one order among equal timestamps, which no contract below
   * promises to callers.
   */
  function SortByTimestamp(rows: seq<Note>): (r: seq<Note>)
    ensures NewestFirst(r)
    ensures multiset(r) == multiset(rows)
  {
    if rows == [] then []
    else
      assert rows == [rows[0]] + rows[1..];
      InsertByTimestamp(rows[0], SortByTimestamp(rows[1..]))
  }

  /** Cutting newest-first rows after `limit` answers the LIMIT query over the rows. */
  lemma LimitOfSortedIsRecentAnswer(table: seq<Note>, sorted: seq<Note>, limit: int)
    requires NewestFirst(sorted) && multiset(sorted) == multiset(table)
    ensures IsRecentAnswer(table, Limit(sorted, limit), limit)
  {
    var answer := Limit(sorted, limit);
    var k := |answer|;
    var rest := sorted[k..];
    assert sorted == answer + rest;
    assert NewestFirst(answer) by {
      forall i, j | 0 <= i < j < k ensures TextLe(answer[j].timestamp, answer[i].timestamp) {
        assert answer[i] == sorted[i] && answer[j] == sorted[j];
      }
    }
    assert multiset(table) == multiset(answer) + multiset(rest);
    assert multiset(table) - multiset(answer) == multiset(rest);
    assert answer == sorted[..k];
    forall x: Note, y: Note | x in answer && y in multiset(rest)
      ensures TextLe(y.timestamp, x.timestamp)
    {
      LaterRowsNoNewer(sorted, k, x, y);
    }
  }

  /** In newest-first rows, no row after position `k` is newer than a row before it. */
  lemma LaterRowsNoNewer(sorted: seq<Note>, k: int, x: Note, y: Note)
    requires NewestFirst(sorted) && 0 <= k <= |sorted|
    requires x in sorted[..k] && y in sorted[k..]
    ensures TextLe(y.timestamp, x.timestamp)
  {
    var i :| 0 <= i < k && sorted[..k][i] == x;
    var j :| 0 <= j < |sorted| - k && sorted[k..][j] == y;
    assert sorted[i] == x && sorted[k + j] == y;
  }

  /**
   * A search answer holds exactly the rows whose content contains the keyword,
   * ignoring ASCII case: no false positives and no false negatives, for a keyword in
   * which neither `%` nor `_` acts as a wildcard. It is a reordering of part of the
   * table.
   */
  lemma SearchFindsKeyword(table: seq<Note>, answer: seq<Note>, keyword: string)
    requires NoWildcards(keyword)
    requires IsSearchAnswer(table, answer, "%" + keyword + "%")
    ensures forall x :: x in answer <==> x in table && Contains(Lower(x.content), Lower(keyword))
    ensures multiset(answer) <= multiset(table)
  {
    var pattern := "%" + keyword + "%";
    forall x ensures x in answer <==> x in table && Contains(Lower(x.content), Lower(keyword)) {
      assert x in answer <==> x in multiset(answer);
      assert x in Matching(table, pattern) <==> x in multiset(Matching(table, pattern));
      LikeKeyword(x.content, keyword);
    }
  }

  /** The timestamp column of a result, in result order. */
  function Timestamps(rows: seq<Note>): (ts: seq<string>)
    ensures |ts| == |rows|
    ensures forall i :: 0 <= i < |rows| ==> ts[i] == rows[i].timestamp
  {
    seq(|rows|, i requires 0 <= i < |rows| => rows[i].timestamp)
  }

  /** Removing one row from newest-first rows leaves them newest first. */
  lemma NewestFirstRemove(b: seq<Note>, j: int)
    requires NewestFirst(b) && 0 <= j < |b|
    ensures NewestFirst(b[..j] + b[j + 1..])
  {
    var c := b[..j] + b[j + 1..];
    forall p, q | 0 <= p < q < |c| ensures TextLe(c[q].timestamp, c[p].timestamp) {
      var p' := if p < j then p else p + 1;
      var q' := if q < j then q else q + 1;
      assert c[p] == b[p'] && c[q] == b[q'];
    }
  }

  /**
   * In newest-first `b` holding the same rows as newest-first `a`, every row up to an
   * occurrence of `a`'s first row shares that row's timestamp.
   */
  lemma LeadingTies(a: seq<Note>, b: seq<Note>, j: int)
    requires NewestFirst(a) && NewestFirst(b) && multiset(a) == multiset(b)
    requires a != [] && 0 <= j < |b| && b[j] == a[0]
    ensures forall k :: 0 <= k <= j ==> b[k].timestamp == a[0].timestamp
  {
    var top := a[0].timestamp;
    TextLeTotal(top, top);
    assert b[0] in multiset(a);
    var i :| 0 <= i < |a| && a[i] == b[0];
    assert TextLe(b[0].timestamp, top);
    forall k | 0 <= k <= j ensures b[k].timestamp == top {
      TextLeTotal(b[k].timestamp, b[k].timestamp);
      assert TextLe(top, b[k].timestamp);
      assert TextLe(b[k].timestamp, b[0].timestamp);
      TextLeTransitive(b[k].timestamp, b[0].timestamp, top);
      TextLeAntisymmetric(b[k].timestamp, top);
    }
  }

  /** Taking the first row off `a` and one occurrence of it off `b` keeps the multisets equal. */
  lemma RemoveMatchingRow(a: seq<Note>, b: seq<Note>, j: int)
    requires multiset(a) == multiset(b)
    requires a != [] && 0 <= j < |b| && b[j] == a[0]
    ensures multiset(b[..j] + b[j + 1..]) == multiset(a[1..])
  {
    assert b == b[..j] + [b[j]] + b[j + 1..];
    assert multiset(b) == multiset(b[..j]) + multiset{b[j]} + multiset(b[j + 1..]);
    assert multiset(b[..j] + b[j + 1..]) == multiset(b[..j]) + multiset(b[j + 1..]);
    assert a == [a[0]] + a[1..];
    assert multiset(a) == multiset{a[0]} + multiset(a[1..]);
    assert multiset(b[..j] + b[j + 1..]) == multiset(b) - multiset{a[0]};
    assert multiset(a[1..]) == multiset(a) - multiset{a[0]};
  }

  /**
   * Two newest-first orderings of the same rows differ only among equal timestamps:
   * they list the same timestamps in the same order.
   */
  lemma {:induction false} NewestFirstUniqueUpToTies(a: seq<Note>, b: seq<Note>)
    requires NewestFirst(a) && NewestFirst(b)
    requires multiset(a) == multiset(b)
    ensures Timestamps(a) == Timestamps(b)
    decreases |a|
  {
    assert |a| == |multiset(a)| == |multiset(b)| == |b|;
    if a != [] {
      assert a[0] in multiset(b);
      var j :| 0 <= j < |b| && b[j] == a[0];
      LeadingTies(a, b, j);
      var b' := b[..j] + b[j + 1..];
      NewestFirstRemove(b, j);
      RemoveMatchingRow(a, b, j);
      NewestFirstTail(a);
      NewestFirstUniqueUpToTies(a[1..], b');
      forall k | 0 < k < |a| ensures a[k].timestamp == b[k].timestamp {
        assert Timestamps(a[1..])[k - 1] == Timestamps(b')[k - 1];
        assert a[1..][k - 1] == a[k];
        if k - 1 < j {
          assert b'[k - 1] == b[k - 1];
        } else {
          assert b'[k - 1] == b[k];
        }
      }
    }
  }

  /**
   * Every admissible answer to a search lists the same rows, as a multiset, with the
   * same timestamps in the same order: only the order among equal timestamps is open.
   */
  lemma SearchAnswersAgree(table: seq<Note>, a: seq<Note>, b: seq<Note>, pattern: string)
    requires IsSearchAnswer(table, a, pattern) && IsSearchAnswer(table, b, pattern)
    ensures multiset(a) == multiset(b)
    ensures Timestamps(a) == Timestamps(b)
  {
    NewestFirstUniqueUpToTies(a, b);
  }

  /**
   * The search pattern `%keyword%` is too long for LIKE exactly when the keyword
   * takes 49999 or more bytes in UTF-8.
   */
  lemma SearchPatternTooComplex(keyword: string)
    ensures LikePatternTooComplex("%" + keyword + "%") <==> Utf8Length(keyword) >= MaxLikePatternLength - 1
  {
    Utf8LengthAppend("%", keyword);
    Utf8LengthAppend("%" + keyword, "%");
    assert Utf8Length("%") == 1;
  }

  /** The tool's database file: whether the table exists yet, its rows, and the id counter. */
  class CliVault {
    /** Whether `CREATE TABLE notes` has run on this file. */
    var hasTable: bool
    /** The rows, in insertion order. */
    var notes: seq<Note>
    /** The largest id AUTOINCREMENT has handed out (SQLite keeps it in `sqlite_sequence`). */
    var lastId: int

    /**
     * No table means no rows; ids are positive, strictly increasing and at most the
     * counter; every row carries a classifier label and no tags.
     */
    ghost predicate Valid()
      reads this
    {
      && (!hasTable ==> notes == [] && lastId == 0)
      && lastId >= 0
      && (forall i, j :: 0 <= i < j < |notes| ==> notes[i].id < notes[j].id)
      && (forall i :: 0 <= i < |notes| ==> 1 <= notes[i].id <= lastId)
      && (forall i :: 0 <= i < |notes| ==> notes[i].tags == None)
      && (forall i :: 0 <= i < |notes| ==> notes[i].sentiment in {"positive", "negative", "neutral"})
    }

    /** A database file in which the table has not been created. */
    constructor ()
      ensures Valid() && !hasTable && notes == [] && lastId == 0
    {
      hasTable := false;
      notes := [];
      lastId := 0;
    }

    /** `init_db`: CREATE TABLE IF NOT EXISTS; an existing table keeps all its rows. */
    method InitDb()
      requires Valid()
      modifies this
      ensures Valid() && hasTable
      ensures notes == old(notes) && lastId == old(lastId)
    {
      hasTable := true;
    }

    /**
     * `save_note`: appends the note with the label for its polarity, no tags, the
     * next AUTOINCREMENT id and the clock reading `now`. It does not create the
     * table, so on a file without one the INSERT fails and nothing changes.
     */
    method SaveNote(note: string, polarity: real, now: string) returns (outcome: Result<()>)
      requires Valid()
      modifies this
      ensures Valid() && hasTable == old(hasTable)
      ensures outcome.Err? <==> !old(hasTable)
      ensures outcome.Err? ==> notes == old(notes) && lastId == old(lastId)
      ensures outcome.Ok? ==> lastId == old(lastId) + 1
      ensures outcome.Ok? ==> notes == old(notes) + [Note(lastId, note, AnalyzeSentiment(polarity), None, now)]
    {
      if !hasTable {
        return Err(NoSuchTable);
      }
      var sentiment := AnalyzeSentiment(polarity);
      lastId := lastId + 1;
      notes := notes + [Note(lastId, note, sentiment, None, now)];
      return Ok(());
    }

    /**
     * `list_recent_notes`: the query `ORDER BY timestamp DESC LIMIT limit`, failing
     * when the table was never created. The table is only read.
     */
    method ListRecentNotes(limit: int := DefaultLimit) returns (answer: Result<seq<Note>>)
      ensures answer.Err? <==> !hasTable
      ensures answer.Ok? ==> IsRecentAnswer(notes, answer.value, limit)
    {
      if !hasTable {
        return Err(NoSuchTable);
      }
      var sorted := SortByTimestamp(notes);
      LimitOfSortedIsRecentAnswer(notes, sorted, limit);
      return Ok(Limit(sorted, limit));
    }

    /**
     * `search_notes`: the query `WHERE content LIKE '%keyword%' ORDER BY timestamp DESC`,
     * failing when the table was never created, or when the pattern is too long for
     * LIKE and there is a row to test it on. The table is only read.
     */
    method SearchNotes(keyword: string) returns (answer: Result<seq<Note>>)
      ensures answer.Err? <==> !hasTable || (notes != [] && LikePatternTooComplex("%" + keyword + "%"))
      ensures !hasTable ==> answer == Err(NoSuchTable)
      ensures hasTable && answer.Err? ==> answer.error == PatternTooComplex
      ensures answer.Ok? ==> IsSearchAnswer(notes, answer.value, "%" + keyword + "%")
    {
      if !hasTable {
        return Err(NoSuchTable);
      }
      var pattern := "%" + keyword + "%";
      if notes != [] && LikePatternTooComplex(pattern) {
        return Err(PatternTooComplex);
      }
      return Ok(SortByTimestamp(Matching(notes, pattern)));
    }
  }
}
