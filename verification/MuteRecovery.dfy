// What the journal keeps of the mutes (UpsertMute and replayMute in
// storage/storage.go). A replay skips upserts that have expired, and so may bring
// back an earlier one that has not.

module MuteRecovery {
  import opened Basics
  import opened JournalFile

  type Mutes = map<string, Mute>

  // Replaying at a given time.
  function ReplayedMutes(file: seq<JournalEntry>, now: int): Mutes {
    if file == [] then map[] else
      var before, e := ReplayedMutes(file[..|file| - 1], now), file[|file| - 1];
      if e.MuteEntry? && e.mute.identity != "" && e.mute.expiresAt > now then before[e.mute.identity := e.mute] else before
  }

  // What the store itself holds: the last upsert of each identity.
  function Upserted(file: seq<JournalEntry>): Mutes {
    if file == [] then map[] else
      var before, e := Upserted(file[..|file| - 1]), file[|file| - 1];
      if e.MuteEntry? && e.mute.identity != "" then before[e.mute.identity := e.mute] else before
  }

  function Active(mutes: Mutes, now: int): Mutes { map id | id in mutes && mutes[id].expiresAt > now :: mutes[id] }

  predicate IsMute(e: JournalEntry) { e.MuteEntry? && e.mute.identity != "" }

  // Of an identity's upserts that are still active, a replay takes the last.
  lemma {:induction false} ReplayTakesLastActive(file: seq<JournalEntry>, now: int)
    ensures forall id :: id in ReplayedMutes(file, now) ==>
      exists i :: 0 <= i < |file| && IsMute(file[i]) && file[i].mute == ReplayedMutes(file, now)[id] && file[i].mute.identity == id
    ensures forall i :: 0 <= i < |file| && IsMute(file[i]) && file[i].mute.expiresAt > now ==> file[i].mute.identity in ReplayedMutes(file, now)
    ensures forall id :: id in Upserted(file) && Upserted(file)[id].expiresAt > now ==>
      id in ReplayedMutes(file, now) && ReplayedMutes(file, now)[id] == Upserted(file)[id]
  {
    if file != [] {
      var rest, e := file[..|file| - 1], file[|file| - 1];
      ReplayTakesLastActive(rest, now);
      assert forall i :: 0 <= i < |rest| ==> rest[i] == file[i];
      forall id | id in ReplayedMutes(file, now)
        ensures exists i :: 0 <= i < |file| && IsMute(file[i]) && file[i].mute == ReplayedMutes(file, now)[id] && file[i].mute.identity == id
      {
        if IsMute(e) && e.mute.expiresAt > now && e.mute.identity == id {
          assert file[|file| - 1] == e;
        } else {
          var i :| 0 <= i < |rest| && IsMute(rest[i]) && rest[i].mute == ReplayedMutes(rest, now)[id] && rest[i].mute.identity == id;
          assert file[i] == rest[i];
        }
      }
    }
  }

  lemma {:induction false} LastUpsert(file: seq<JournalEntry>)
    ensures forall i :: 0 <= i < |file| && IsMute(file[i]) ==> file[i].mute.identity in Upserted(file)
    ensures forall id :: id in Upserted(file) ==> Upserted(file)[id].identity == id
  {
    if file != [] {
      LastUpsert(file[..|file| - 1]);
      assert forall i :: 0 <= i < |file| - 1 ==> file[..|file| - 1][i] == file[i];
    }
  }

  // Whatever is journaled and still active has not been replaced by an upsert
  // that has expired since.
  ghost predicate NoneOutlives(file: seq<JournalEntry>, now: int) {
    forall i :: 0 <= i < |file| && IsMute(file[i]) && file[i].mute.expiresAt > now ==>
      file[i].mute.identity in Upserted(file) && Upserted(file)[file[i].mute.identity].expiresAt > now
  }

  // A restart at a given time recovers the active mutes exactly when no journaled
  // mute outlives the last upsert of its identity at that time.
  lemma MutesRecoverExactly(file: seq<JournalEntry>, now: int)
    ensures ReplayedMutes(file, now) == Active(Upserted(file), now) <==> NoneOutlives(file, now)
  {
    LastUpsert(file);
    ReplayTakesLastActive(file, now);
    ReplayedAreActive(file, now);
    if NoneOutlives(file, now) {
      forall id | id in ReplayedMutes(file, now) ensures id in Active(Upserted(file), now) {
        var i :| 0 <= i < |file| && IsMute(file[i]) && file[i].mute == ReplayedMutes(file, now)[id] && file[i].mute.identity == id;
      }
    }
  }

  // A mute that was cut short is back after a restart at any time from its new
  // expiry to its old one.
  lemma ShortenedComesBack(file: seq<JournalEntry>, i: nat, now: int)
    requires i < |file| && IsMute(file[i]) && file[i].mute.identity in Upserted(file)
    requires Upserted(file)[file[i].mute.identity].expiresAt <= now < file[i].mute.expiresAt
    ensures file[i].mute.identity in ReplayedMutes(file, now) && file[i].mute.identity !in Active(Upserted(file), now)
  {
    ReplayTakesLastActive(file, now);
  }

  // No mute that is active at some time from t on is cut short.
  ghost predicate NeverShortenedFrom(file: seq<JournalEntry>, t: int) {
    forall i :: 0 <= i < |file| && IsMute(file[i]) && file[i].mute.expiresAt > t ==>
      file[i].mute.identity in Upserted(file) && file[i].mute.expiresAt <= Upserted(file)[file[i].mute.identity].expiresAt
  }

  ghost predicate RecoversFrom(file: seq<JournalEntry>, t: int) {
    forall now :: now >= t ==> ReplayedMutes(file, now) == Active(Upserted(file), now)
  }

  // Every restart still to come recovers the active mutes exactly when no mute
  // not yet expired was cut short.
  lemma MutesRecoverUnlessShortened(file: seq<JournalEntry>, t: int)
    ensures RecoversFrom(file, t) <==> NeverShortenedFrom(file, t)
  {
    LastUpsert(file);
    if NeverShortenedFrom(file, t) {
      forall now | now >= t ensures ReplayedMutes(file, now) == Active(Upserted(file), now) {
        MutesRecoverExactly(file, now);
      }
    } else {
      var i :| 0 <= i < |file| && IsMute(file[i]) && file[i].mute.expiresAt > t &&
        !(file[i].mute.identity in Upserted(file) && file[i].mute.expiresAt <= Upserted(file)[file[i].mute.identity].expiresAt);
      ShortenedComesBack(file, i, Max(t, Upserted(file)[file[i].mute.identity].expiresAt));
    }
  }

  lemma {:induction false} ReplayedAreActive(file: seq<JournalEntry>, now: int)
    ensures forall id :: id in ReplayedMutes(file, now) ==> ReplayedMutes(file, now)[id].expiresAt > now
  {
    if file != [] { ReplayedAreActive(file[..|file| - 1], now); }
  }

  // ------------------------------------------------------------------- runs

  datatype History = History(mutes: Mutes, file: seq<JournalEntry>, clock: int)

  datatype Action =
    | Upsert(mute: Mute, now: int)
    | Delete(identity: string, now: int, file: seq<JournalEntry>)
    | SweepExpired(now: int)
    | Compact(now: int, file: seq<JournalEntry>)
    | Restart(now: int, file: seq<JournalEntry>)

  // A file as compaction writes it: each active mute once.
  ghost predicate CompactedMutes(file: seq<JournalEntry>, mutes: Mutes, now: int) {
    Upserted(file) == Active(mutes, now) && OnlyLast(file)
  }

  // Every mute in the file is the last of its identity.
  ghost predicate OnlyLast(file: seq<JournalEntry>) {
    forall i :: 0 <= i < |file| && IsMute(file[i]) ==>
      file[i].mute.identity in Upserted(file) && file[i].mute == Upserted(file)[file[i].mute.identity]
  }

  function TimeOf(a: Action): int { a.now }

  // One step, at a time not before the last one. UpsertMute refuses a missing
  // identity and an expiry that is not in the future, and drops what has expired;
  // DeleteMute of a known mute compacts the file, and so does a restart with what
  // it has replayed.
  ghost function Do(h: History, a: Action): History {
    if TimeOf(a) < h.clock then h else
      match a
      case Upsert(mute, now) =>
        if mute.identity == "" || mute.expiresAt <= now then h.(clock := now) else
          History(Active(h.mutes[mute.identity := mute], now), h.file + [MuteEntry(mute)], now)
      case Delete(identity, now, file) =>
        if identity in h.mutes && CompactedMutes(file, h.mutes - {identity}, now)
        then History(h.mutes - {identity}, file, now) else h.(clock := now)
      case SweepExpired(now) => History(Active(h.mutes, now), h.file, now)
      case Compact(now, file) => if CompactedMutes(file, h.mutes, now) then h.(file := file, clock := now) else h.(clock := now)
      case Restart(now, file) =>
        var mutes := ReplayedMutes(h.file, now);
        if CompactedMutes(file, mutes, now) then History(mutes, file, now) else h.(clock := now)
  }

  ghost function Run(actions: seq<Action>): History {
    if actions == [] then History(map[], [], 0) else Do(Run(actions[..|actions| - 1]), actions[|actions| - 1])
  }

  // From the present on, the file's last upserts are the store's mutes.
  ghost predicate Mirrors(h: History) {
    forall now :: now >= h.clock ==> Active(h.mutes, now) == Active(Upserted(h.file), now)
  }

  lemma ActiveOfActive(mutes: Mutes, t: int, now: int)
    requires t <= now
    ensures Active(Active(mutes, t), now) == Active(mutes, now)
  {}

  lemma UpsertMirrors(h: History, mute: Mute, now: int)
    requires Mirrors(h) && mute.identity != "" && mute.expiresAt > now && now >= h.clock
    ensures Mirrors(History(Active(h.mutes[mute.identity := mute], now), h.file + [MuteEntry(mute)], now))
  {
    var file := h.file + [MuteEntry(mute)];
    assert file[..|file| - 1] == h.file;
    forall t | t >= now ensures Active(Active(h.mutes[mute.identity := mute], now), t) == Active(Upserted(file), t) {
      ActiveOfActive(h.mutes[mute.identity := mute], now, t);
      ActiveUpdate(h.mutes, mute, t);
      ActiveUpdate(Upserted(h.file), mute, t);
    }
  }

  lemma ActiveUpdate(mutes: Mutes, mute: Mute, t: int)
    ensures Active(mutes[mute.identity := mute], t) ==
      if mute.expiresAt > t then Active(mutes, t)[mute.identity := mute] else Active(mutes, t) - {mute.identity}
  {}

  lemma {:induction false} RunMirrors(actions: seq<Action>)
    ensures Mirrors(Run(actions))
  {
    if actions == [] {
      assert Upserted([]) == map[];
    } else {
      hide Upserted, OnlyLast, Active, ReplayedMutes;
      var a, before := actions[|actions| - 1], Run(actions[..|actions| - 1]);
      RunMirrors(actions[..|actions| - 1]);
      if TimeOf(a) >= before.clock {
        match a
        case Upsert(mute, now) => if mute.identity != "" && mute.expiresAt > now { UpsertMirrors(before, mute, now); }
        case Delete(identity, now, _) => forall t | t >= now { ActiveOfActive(before.mutes - {identity}, now, t); }
        case SweepExpired(now) => forall t | t >= now { ActiveOfActive(before.mutes, now, t); }
        case Compact(now, _) => forall t | t >= now { ActiveOfActive(before.mutes, now, t); }
        case Restart(now, _) => forall t | t >= now { ActiveOfActive(ReplayedMutes(before.file, now), now, t); }
      }
    }
  }

  // A restart any time after a run, other restarts included, recovers the active
  // mutes exactly when no journaled mute outlives the last upsert of its identity.
  lemma RestartRecovers(actions: seq<Action>, now: int)
    requires now >= Run(actions).clock
    ensures ReplayedMutes(Run(actions).file, now) == Active(Run(actions).mutes, now) <==> NoneOutlives(Run(actions).file, now)
  {
    hide Run, Upserted, NoneOutlives, Active, ReplayedMutes;
    RunMirrors(actions);
    MutesRecoverExactly(Run(actions).file, now);
  }

  // Right after the file was compacted it does.
  lemma CompactedRecovers(file: seq<JournalEntry>, mutes: Mutes, t: int, now: int)
    requires CompactedMutes(file, mutes, t) && now >= t
    ensures NoneOutlives(file, now) && ReplayedMutes(file, now) == Active(mutes, now)
  {
    MutesRecoverExactly(file, now);
    ActiveOfActive(mutes, t, now);
  }
}
