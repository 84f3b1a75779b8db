// The journal as a file: its entries and the object that appends to it and
// replaces it (storage/journal.go).

module JournalFile {
  import opened TransitionRing
  import opened Incidents

  datatype Mute = Mute(identity: string, status: string, reason: string, createdAt: int, updatedAt: int, expiresAt: int)

  datatype JournalEntry =
    | TransitionEntry(identity: string, transition: Transition)
    | IncidentEntry(incident: StoredIncident)
    | MuteEntry(mute: Mute)

  // How many bytes an entry takes as one line of JSON.
  type LineSize = JournalEntry -> nat

  function SizeOf(lineSize: LineSize, file: seq<JournalEntry>): nat {
    if file == [] then 0 else SizeOf(lineSize, file[..|file| - 1]) + lineSize(file[|file| - 1])
  }

  class Journal {
    const maxSize: nat
    const retention: int
    const lineSize: LineSize
    var file: seq<JournalEntry>
    var size: nat

    ghost predicate Valid()
      reads this
    {
      size == SizeOf(lineSize, file)
    }

    // Opens a file for appending; its size is read from the file system.
    constructor (file: seq<JournalEntry>, maxSize: nat, retention: int, lineSize: LineSize)
      ensures Valid() && this.file == file
      ensures this.maxSize == maxSize && this.retention == retention && this.lineSize == lineSize
    {
      this.maxSize, this.retention, this.lineSize := maxSize, retention, lineSize;
      this.file, this.size := file, SizeOf(lineSize, file);
    }

    method AppendEntry(entry: JournalEntry)
      requires Valid()
      modifies this
      ensures Valid() && file == old(file) + [entry]
    {
      file := file + [entry];
      size := size + lineSize(entry);
      assert file[..|file| - 1] == old(file);
    }

    // Writes the entries to a new file and puts it in the place of the old one.
    method Rewrite(entries: seq<JournalEntry>)
      modifies this
      ensures Valid() && file == entries
    {
      var written: nat := 0;
      for i := 0 to |entries|
        invariant written == SizeOf(lineSize, entries[..i])
      {
        assert entries[..i + 1][..i] == entries[..i];
        written := written + lineSize(entries[i]);
      }
      assert entries[..|entries|] == entries;
      file, size := entries, written;
    }

    predicate NeedsCompaction()
      reads this
    {
      size > maxSize
    }
  }
}
