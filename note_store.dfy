/**
 * The note table behind the terminal UI: `notes(id, content, tags, sentiment, timestamp)`
 * in a local SQLite file, kept here as an in-memory, append-only table.
 */
module NoteStore {
  import opened Sql

  /** One row of the table. */
  datatype Note = Note(id: int, content: string, tags: string, sentiment: string, timestamp: string)

  /** `get_recent_notes` returns ten rows unless told otherwise. */
  const DefaultLimit: int := 10

  /** Ids strictly increase along the table's insertion order. */
  ghost predicate IdsIncreasing(notes: seq<Note>) {
    forall i, j :: 0 <= i < j < |notes| ==> notes[i].id < notes[j].id
  }

  function Reversed(notes: seq<Note>): (r: seq<Note>) {
    seq(|notes|, i requires 0 <= i < |notes| => notes[|notes| - 1 - i])
  }

  /**
   * The answer to `SELECT * FROM notes ORDER BY id DESC LIMIT limit` over a table
   * stored in id order: the last `limit` rows inserted, the newest first.
   */
  function RecentNotes(notes: seq<Note>, limit: int): (r: seq<Note>)
    ensures |r| == if 0 <= limit < |notes| then limit else |notes|
    ensures forall i :: 0 <= i < |r| ==> r[i] == notes[|notes| - 1 - i]
  {
    Limit(Reversed(notes), limit)
  }

  /** The rows come back in strictly descending id order. */
  lemma RecentNewestFirst(notes: seq<Note>, limit: int)
    requires IdsIncreasing(notes)
    ensures var r := RecentNotes(notes, limit);
      forall i, j :: 0 <= i < j < |r| ==> r[i].id > r[j].id
  {
    var r := RecentNotes(notes, limit);
    forall i, j | 0 <= i < j < |r| ensures r[i].id > r[j].id {
      assert r[i] == notes[|notes| - 1 - i] && r[j] == notes[|notes| - 1 - j];
    }
  }

  /** Every row among the last `|RecentNotes(notes, limit)|` rows of the table is returned. */
  lemma RecentHoldsSuffix(notes: seq<Note>, limit: int, j: int)
    requires |notes| - |RecentNotes(notes, limit)| <= j < |notes|
    ensures notes[j] in RecentNotes(notes, limit)
  {
    assert RecentNotes(notes, limit)[|notes| - 1 - j] == notes[j];
  }

  /**
   * The rows come from the table, and every row left out has a smaller id than
   * every row returned: the answer is the `limit` rows with the largest ids.
   */
  lemma RecentAreLargestIds(notes: seq<Note>, limit: int)
    requires IdsIncreasing(notes)
    ensures forall x :: x in RecentNotes(notes, limit) ==> x in notes
    ensures forall x, y :: x in RecentNotes(notes, limit) && y in notes && y !in RecentNotes(notes, limit) ==> y.id < x.id
  {
    var r := RecentNotes(notes, limit);
    var n := |notes|;
    forall x | x in r ensures x in notes {
      var i :| 0 <= i < |r| && r[i] == x;
      assert notes[n - 1 - i] == x;
    }
    forall x, y | x in r && y in notes && y !in r ensures y.id < x.id {
      var i :| 0 <= i < |r| && r[i] == x;
      var j :| 0 <= j < n && notes[j] == y;
      if j >= n - |r| {
        RecentHoldsSuffix(notes, limit, j);
        assert false;
      }
      assert notes[n - 1 - i] == x && j < n - 1 - i;
    }
  }

  /**
   * Right after a row is appended, a query with a nonzero limit starts with that row,
   * followed by the answer to the same query, one row shorter, on the old table (a
   * negative limit means no limit, before and after).
   */
  lemma {:induction false} RecentAfterInsert(notes: seq<Note>, n: Note, limit: int)
    requires limit != 0
    ensures RecentNotes(notes + [n], limit) == [n] + RecentNotes(notes, limit - 1)
    ensures RecentNotes(notes + [n], 1) == [n]
  {
    var a := RecentNotes(notes + [n], limit);
    var b := [n] + RecentNotes(notes, limit - 1);
    assert |a| == |b|;
    forall i | 0 <= i < |a| ensures a[i] == b[i] {
      if i > 0 {
        assert (notes + [n])[|notes| - i] == notes[|notes| - 1 - (i - 1)];
      }
    }
    assert RecentNotes(notes, 0) == [];
  }

  /** The database file: whether the table exists yet, its rows, and the id counter. */
  class Vault {
    /** Whether `CREATE TABLE notes` has run on this file. */
    var hasTable: bool
    /** The rows, in insertion order. */
    var notes: seq<Note>
    /** The largest id AUTOINCREMENT has handed out (SQLite keeps it in `sqlite_sequence`). */
    var lastId: int

    /** No table means no rows; ids are positive, strictly increasing and at most the counter. */
    ghost predicate Valid()
      reads this
    {
      && (!hasTable ==> notes == [] && lastId == 0)
      && lastId >= 0
      && IdsIncreasing(notes)
      && forall i :: 0 <= i < |notes| ==> 1 <= notes[i].id <= lastId
    }

    /** A database file in which the table has not been created. */
    constructor ()
      ensures Valid() && !hasTable && notes == [] && lastId == 0
    {
      hasTable := false;
      notes := [];
      lastId := 0;
    }

    /** `init_db`: CREATE TABLE IF NOT EXISTS; an existing table keeps all its rows. */
    method InitDb()
      requires Valid()
      modifies this
      ensures Valid() && hasTable
      ensures notes == old(notes) && lastId == old(lastId)
    {
      hasTable := true;
    }

    /**
     * `insert_note`: ensures the table exists, then appends one row holding the given
     * values and the next AUTOINCREMENT id. `timestamp` is the clock reading taken at
     * the call.
     */
    method InsertNote(content: string, tags: string, sentiment: string, timestamp: string)
      requires Valid()
      modifies this
      ensures Valid() && hasTable
      ensures lastId == old(lastId) + 1
      ensures notes == old(notes) + [Note(lastId, content, tags, sentiment, timestamp)]
      ensures forall x :: x in old(notes) ==> x.id < lastId
    {
      InitDb();
      lastId := lastId + 1;
      notes := notes + [Note(lastId, content, tags, sentiment, timestamp)];
    }

    /**
     * `get_recent_notes`: ensures the table exists, then answers
     * `ORDER BY id DESC LIMIT limit`. The rows are left as they were.
     */
    method GetRecentNotes(limit: int := DefaultLimit) returns (result: seq<Note>)
      requires Valid()
      modifies this
      ensures Valid() && hasTable
      ensures notes == old(notes) && lastId == old(lastId)
      ensures result == RecentNotes(notes, limit)
    {
      InitDb();
      result := RecentNotes(notes, limit);
    }
  }
}
