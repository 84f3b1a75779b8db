// The part of MemoryStore that holds mutes (storage/storage.go).

module MuteStore {
  import opened Basics
  import opened JournalFile
  import opened MuteRecovery

  // strings.ToLower, as far as it can give one of the letters of a status.
  function LowerOne(c: char): char {
    if 'A' <= c <= 'Z' then c - 'A' + 'a' else if c == '\U{0130}' then 'i' else c
  }

  function Lower(s: string): string { seq(|s|, i requires 0 <= i < |s| => LowerOne(s[i])) }

  // ParseStatus gives no error.
  predicate KnownStatus(s: string) { Lower(s) in ["pass", "warn", "fail", "down"] }

  class MuteStore {
    var mutes: Mutes

    constructor ()
      ensures mutes == map[]
    {
      mutes := map[];
    }

    // UpsertMute, up to the rebuilding of the layers.
    method Upsert(mute: Mute, now: int, journal: Journal?) returns (accepted: Result<Mute>)
      requires journal != null ==> journal.Valid()
      modifies this, journal
      ensures accepted.Ok? == (mute.identity != "" && KnownStatus(mute.status) && mute.expiresAt > now)
      ensures accepted.Ok? ==>
        mutes == Active(old(mutes)[mute.identity := accepted.value], now) && accepted.value.identity == mute.identity
        && accepted.value == mute.(updatedAt := now, createdAt := if mute.createdAt == ZERO_TIME then now else mute.createdAt)
      ensures accepted.Err? ==> mutes == old(mutes)
      ensures journal != null ==> (journal.Valid() &&
        journal.file == old(journal.file) + (if accepted.Ok? then [MuteEntry(accepted.value)] else []))
    {
      if mute.identity == "" {
        return Err("missing identity");
      }
      if !KnownStatus(mute.status) {
        return Err("unknown status");
      }
      var m := mute;
      if m.createdAt == ZERO_TIME {
        m := m.(createdAt := now);
      }
      m := m.(updatedAt := now);
      if m.expiresAt <= now {
        return Err("expires_at must be in the future");
      }
      mutes := mutes[m.identity := m];
      var swept := SweepExpired(now);
      if journal != null {
        journal.AppendEntry(MuteEntry(m));
      }
      return Ok(m);
    }

    method SweepExpired(now: int) returns (expired: bool)
      modifies this
      ensures mutes == Active(old(mutes), now) && expired == (mutes != old(mutes))
    {
      expired := false;
      var rest := mutes.Keys;
      ghost var gone: set<string> := {};
      while rest != {}
        invariant rest <= old(mutes).Keys && mutes == old(mutes) - gone
        invariant forall id :: id in gone <==> id in old(mutes) && id !in rest && old(mutes)[id].expiresAt <= now
        invariant expired == (gone != {})
        decreases rest
      {
        ghost var some := SomeElement(rest);
        var id :| id in rest;
        rest := rest - {id};
        if mutes[id].expiresAt <= now {
          mutes := mutes - {id};
          gone := gone + {id};
          expired := true;
        }
      }
      assert mutes == Active(old(mutes), now);
      if gone != {} {
        ghost var id := SomeElement(gone);
        assert id in old(mutes) && id !in mutes;
      }
    }

    method Delete(identity: string) returns (found: bool)
      modifies this
      ensures found == (identity in old(mutes)) && mutes == old(mutes) - {identity}
    {
      found := identity in mutes;
      mutes := mutes - {identity};
    }

    // replayMute.
    method Replay(mute: Mute, now: int)
      modifies this
      ensures mutes == if mute.identity != "" && mute.expiresAt > now then old(mutes)[mute.identity := mute] else old(mutes)
    {
      if mute.identity == "" || mute.expiresAt <= now {
        return;
      }
      mutes := mutes[mute.identity := mute];
    }

    // The part of compactJournal that lists the mutes.
    method ListMutes(now: int) returns (entries: seq<JournalEntry>)
      requires forall id :: id in mutes ==> id != "" && mutes[id].identity == id
      ensures CompactedMutes(entries, mutes, now)
      ensures forall e :: e in entries ==> e.MuteEntry?
    {
      entries := [];
      var rest := mutes.Keys;
      while rest != {}
        invariant rest <= mutes.Keys
        invariant Upserted(entries) == Active(mutes - rest, now) && OnlyLast(entries)
        invariant forall e :: e in entries ==> IsMute(e) && e.mute.identity in mutes && e.mute == mutes[e.mute.identity]
        decreases rest
      {
        ghost var some := SomeElement(rest);
        var id :| id in rest;
        rest := rest - {id};
        if mutes[id].expiresAt > now {
          ListOne(entries, mutes[id]);
          entries := entries + [MuteEntry(mutes[id])];
        }
      }
      assert mutes - {} == mutes;
    }
  }

  lemma ListOne(entries: seq<JournalEntry>, mute: Mute)
    requires OnlyLast(entries) && mute.identity != "" && mute.identity !in Upserted(entries)
    ensures Upserted(entries + [MuteEntry(mute)]) == Upserted(entries)[mute.identity := mute]
    ensures OnlyLast(entries + [MuteEntry(mute)])
  {
    var more := entries + [MuteEntry(mute)];
    assert more[..|entries|] == entries;
    LastUpsert(entries);
  }
}
