/** The terminal UI's submit handler: the one place where the classifier meets the note table. */
module Tui {
  import Analyzer
  import NoteStore

  /**
   * Handles one submitted line, already stripped of surrounding blanks: blank input is
   * ignored; otherwise the note is tagged, classified and inserted, and the log is
   * reloaded with the ten newest notes, which start with the one just added.
   */
  method SubmitNote(vault: NoteStore.Vault, content: string, polarity: real, now: string)
    returns (added: bool, shown: seq<NoteStore.Note>)
    requires vault.Valid()
    modifies vault
    ensures vault.Valid()
    ensures added <==> content != ""
    ensures !added ==> unchanged(vault) && shown == []
    ensures added ==> vault.hasTable && vault.lastId == old(vault.lastId) + 1
    ensures added ==>
              vault.notes == old(vault.notes) +
                [NoteStore.Note(vault.lastId, content, Analyzer.AutoTagOf(content), Analyzer.AnalyzeSentiment(polarity), now)]
    ensures added ==> shown == NoteStore.RecentNotes(vault.notes, 10)
    ensures added ==> shown[0] == vault.notes[|vault.notes| - 1]
  {
    if content == "" {
      return false, [];
    }
    var tags := Analyzer.AutoTag(content);
    var sentiment := Analyzer.AnalyzeSentiment(polarity);
    vault.InsertNote(content, tags, sentiment, now);
    shown := vault.GetRecentNotes(10);
    added := true;
  }
}
