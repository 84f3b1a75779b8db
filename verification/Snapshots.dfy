// Display snapshots and the history cut the display formats make on them
// (state.go, registry_display.go).

module Snapshots {
  import opened Basics

  datatype Status = Pass | Warn | Fail | Down

  function Rank(s: Status): nat {
    match s case Pass => 0 case Warn => 1 case Fail => 2 case Down => 3
  }

  function StatusName(s: Status): string {
    match s case Pass => "pass" case Warn => "warn" case Fail => "fail" case Down => "down"
  }

  datatype HistoryEntry = HistoryEntry(timestamp: int, status: Status, reason: string)

  // History is newest first.
  datatype Snapshot = Snapshot(
    name: string,
    scrapedFrom: string,
    scrapePath: string,
    status: Status,
    reason: string,
    changedAt: int,
    history: seq<HistoryEntry>,
    checks: seq<Snapshot>)

  function Limited(snap: Snapshot, limit: nat): Snapshot {
    snap.(history := if |snap.history| > limit then snap.history[..limit] else snap.history,
          checks := LimitedAll(snap.checks, limit))
  }

  function LimitedAll(snaps: seq<Snapshot>, limit: nat): seq<Snapshot> {
    if snaps == [] then [] else [Limited(snaps[0], limit)] + LimitedAll(snaps[1..], limit)
  }

  lemma {:induction false} LimitedAllAt(snaps: seq<Snapshot>, limit: nat, i: nat)
    requires i < |snaps|
    ensures |LimitedAll(snaps, limit)| == |snaps| && LimitedAll(snaps, limit)[i] == Limited(snaps[i], limit)
  {
    if |snaps| > 1 { LimitedAllAt(snaps[1..], limit, if i == 0 then 0 else i - 1); }
  }

  lemma {:induction false} LimitedAllSnoc(snaps: seq<Snapshot>, snap: Snapshot, limit: nat)
    ensures LimitedAll(snaps + [snap], limit) == LimitedAll(snaps, limit) + [Limited(snap, limit)]
  {
    if snaps != [] {
      assert (snaps + [snap])[1..] == snaps[1..] + [snap];
      LimitedAllSnoc(snaps[1..], snap, limit);
    }
  }

  // snapshotsWithHistoryLimit; with limit 0 it is snapshotsWithoutHistory.
  method LimitHistory(snaps: seq<Snapshot>, limit: nat) returns (out: seq<Snapshot>)
    ensures out == LimitedAll(snaps, limit)
    decreases snaps
  {
    out := [];
    for i := 0 to |snaps|
      invariant out == LimitedAll(snaps[..i], limit)
    {
      var snap := snaps[i];
      var history := snap.history;
      if |history| > limit {
        history := history[..limit];
      }
      var checks := LimitHistory(snap.checks, limit);
      assert snaps[..i + 1] == snaps[..i] + [snap];
      LimitedAllSnoc(snaps[..i], snap, limit);
      out := out + [snap.(history := history, checks := checks)];
    }
    assert snaps[..|snaps|] == snaps;
  }

  const DEFAULT_HISTORY_LIMIT := 4

  // displayDocumentWithFormat on the states of a document.
  function Displayed(snaps: seq<Snapshot>, format: string): Result<seq<Snapshot>> {
    if format == "" then Ok(LimitedAll(snaps, DEFAULT_HISTORY_LIMIT))
    else if format == "verbose" then Ok(snaps)
    else if format == "short" then Ok(LimitedAll(snaps, 0))
    else Err("unsupported state display format")
  }
}
