// Delivery of escalation events from a source to the store through one scraper
// (escalation.go, scraper/escalations.go, IngestEscalations in storage/storage.go).
//
// Requests may be lost, late or repeated: the source may handle any request ever
// sent, at any time and any number of times, even one sent before a restart. The
// source restarts under a fresh epoch and forgets everything; the scraper may
// restart too and forgets its watermark.

module EscalationProtocol {
  import opened Basics
  import opened Cursor
  import opened EscalationModel
  import opened EventOrder

  datatype Stored = Stored(key: EventKey, event: Event)

  datatype World = World(
    src: Source,
    past: map<string, seq<Entry>>,   // what earlier epochs of the source appended
    mark: string,                    // the scraper's watermark
    waiting: bool,                   // a tick is under way
    reply: Option<Doc>,              // the reply that has reached it
    sent: set<string>,               // the cursors of all requests ever sent
    ingested: set<Stored>)           // what was handed to a successful ingest

  datatype Config = Config(policy: Policy, origin: string)

  datatype Action =
    | StartIncident(spec: Spec, now: int)
    | AddLog(id: nat, ts: int, topic: string, message: string)
    | CloseIncident(id: nat, now: int, reason: string)
    | Restart(epoch: string)
    | Send
    | Serve(cursor: string, now: int)
    | Ingest(ok: bool)
    | GiveUp
    | ScraperRestart

  function StoredOf(cfg: Config, e: Entry): Stored {
    Stored(EventKey(IncidentKey(cfg.origin, e.id, e.createdAt), e.event.cursor), e.event)
  }

  // What ingesting a document stores.
  function Delivered(cfg: Config, doc: Doc): set<Stored> {
    set i, j | 0 <= i < |doc.incidents| && 0 <= j < |doc.incidents[i].events| ::
      Stored(EventKey(IncidentKey(cfg.origin, doc.incidents[i].id, doc.incidents[i].createdAt), doc.incidents[i].events[j].cursor),
             doc.incidents[i].events[j])
  }

  function Begin(epoch: string): World {
    World(NewSource(epoch), map[], "", false, None, {}, {})
  }

  // One step. An action that is not possible changes nothing.
  function Do(cfg: Config, w: World, a: Action): World {
    match a
    case StartIncident(spec, now) =>
      if w.src.nextSeq < MAX_UINT64 then w.(src := Start(w.src, cfg.policy, spec, now)) else w
    case AddLog(id, ts, topic, message) =>
      if w.src.nextSeq < MAX_UINT64 then w.(src := Add(w.src, id, ts, topic, message)) else w
    case CloseIncident(id, now, reason) =>
      if w.src.nextSeq < MAX_UINT64 then w.(src := Close(w.src, id, now, reason)) else w
    case Restart(epoch) =>
      if EpochOk(epoch) && epoch != w.src.epoch && epoch !in w.past
      then w.(src := NewSource(epoch), past := w.past[w.src.epoch := w.src.log]) else w
    case Send => w.(sent := w.sent + {w.mark}, waiting := true, reply := None)
    case Serve(cursor, now) =>
      if cursor !in w.sent then w else
        var src := Served(w.src, cursor, now);
        w.(src := src, reply := if w.waiting && cursor == w.mark then Some(DocOf(src, cursor)) else w.reply)
    case Ingest(ok) =>
      if !(w.waiting && w.reply.Some?) then w
      else if !ok then w.(waiting := false, reply := None)
      else w.(waiting := false, reply := None, mark := w.reply.value.watermark,
              ingested := w.ingested + Delivered(cfg, w.reply.value))
    case GiveUp => w.(waiting := false, reply := None)
    case ScraperRestart => w.(mark := "", waiting := false, reply := None)
  }

  function Run(cfg: Config, w: World, actions: seq<Action>): World {
    if actions == [] then w else Do(cfg, Run(cfg, w, actions[..|actions| - 1]), actions[|actions| - 1])
  }

  // ------------------------------------------------------------- the invariant

  function Logs(w: World): map<string, seq<Entry>> { w.past[w.src.epoch := w.src.log] }

  // The stored form of something that was really appended, now or in an earlier epoch.
  ghost predicate Genuine(cfg: Config, logs: map<string, seq<Entry>>, p: Stored) {
    exists e, k :: e in logs && 0 <= k < |logs[e]| && p == StoredOf(cfg, logs[e][k])
  }

  ghost predicate LogsOk(logs: map<string, seq<Entry>>) {
    forall e :: e in logs ==> LogOk(logs[e], e)
  }

  // A cursor that some epoch of the source gave out, or none.
  ghost predicate Issued(c: string, logs: map<string, seq<Entry>>) {
    c == "" || exists n, e :: e in logs && 0 < n <= |logs[e]| && c == FormatCursor(n, e)
  }

  // The entry's incident has expired, or the entry has been ingested.
  ghost predicate Settled(cfg: Config, w: World, k: nat)
    requires k < |w.src.log|
  {
    w.src.log[k].id !in w.src.incidents || StoredOf(cfg, w.src.log[k]) in w.ingested
  }

  // All events at or below a cursor are settled.
  ghost predicate Covered(cfg: Config, w: World, c: string) {
    && ParseCursor(c, w.src.epoch) <= |w.src.log|
    && forall k :: 0 <= k < ParseCursor(c, w.src.epoch) ==> Settled(cfg, w, k)
  }

  ghost predicate ReplyOk(cfg: Config, w: World, doc: Doc) {
    && Issued(doc.watermark, Logs(w))
    && ParseCursor(doc.watermark, w.src.epoch) <= |w.src.log|
    && (forall k :: 0 <= k < ParseCursor(doc.watermark, w.src.epoch) ==>
          Settled(cfg, w, k) || StoredOf(cfg, w.src.log[k]) in Delivered(cfg, doc))
    && (forall p :: p in Delivered(cfg, doc) ==> Genuine(cfg, Logs(w), p))
  }

  // The entry's incident is alive and has been acknowledged up to it.
  ghost predicate AckedAt(s: Source, k: nat)
    requires k < |s.log|
  {
    s.log[k].id in s.incidents && k < s.incidents[s.log[k].id].ackedSeq
  }

  // What was acknowledged was ingested.
  ghost predicate AckedIngested(cfg: Config, w: World)
  {
    forall k :: 0 <= k < |w.src.log| && AckedAt(w.src, k) ==> StoredOf(cfg, w.src.log[k]) in w.ingested
  }

  ghost predicate Inv(cfg: Config, w: World) {
    && SourceOk(w.src) && w.src.epoch !in w.past && LogsOk(Logs(w))
    && AckedIngested(cfg, w)
    && Issued(w.mark, Logs(w)) && Covered(cfg, w, w.mark)
    && (forall c :: c in w.sent ==> Issued(c, Logs(w)) && Covered(cfg, w, c))
    && (w.reply.Some? ==> ReplyOk(cfg, w, w.reply.value))
    && (forall p :: p in w.ingested ==> Genuine(cfg, Logs(w), p))
  }

  // ------------------------------------------------------- what a document holds

  lemma {:induction false} EventsOfMember(log: seq<Entry>, id: nat, lo: nat, k: nat)
    requires lo <= k < |log| && log[k].id == id
    ensures log[k].event in EventsOf(log, id, lo)
  {
    if k < |log| - 1 {
      assert log[..|log| - 1][k] == log[k];
      EventsOfMember(log[..|log| - 1], id, lo, k);
    }
  }

  lemma {:induction false} EventsOfGenuine(log: seq<Entry>, id: nat, lo: nat, x: Event)
    requires x in EventsOf(log, id, lo)
    ensures exists k :: lo <= k < |log| && log[k].id == id && log[k].event == x
  {
    var rest, e := log[..|log| - 1], log[|log| - 1];
    if e.id == id && e.event == x {
      assert log[|log| - 1].event == x;
    } else {
      EventsOfGenuine(rest, id, lo, x);
      var k :| lo <= k < |rest| && rest[k].id == id && rest[k].event == x;
      assert log[k] == rest[k];
    }
  }

  lemma {:induction false} SnapshotsHold(order: seq<nat>, incidents: map<nat, Incident>, n: nat, id: nat)
    requires id in order && id in incidents && Shown(incidents[id], n)
    ensures SnapshotOf(incidents[id], n) in Snapshots(order, incidents, n)
  {
    if order[|order| - 1] != id {
      assert order == order[..|order| - 1] + [order[|order| - 1]];
      SnapshotsHold(order[..|order| - 1], incidents, n, id);
    }
  }

  lemma {:induction false} SnapshotsOnly(order: seq<nat>, incidents: map<nat, Incident>, n: nat, x: IncidentDoc)
    requires x in Snapshots(order, incidents, n)
    ensures exists id :: id in incidents && x == SnapshotOf(incidents[id], n)
  {
    var last := order[|order| - 1];
    if !(last in incidents && Shown(incidents[last], n) && x == SnapshotOf(incidents[last], n)) {
      SnapshotsOnly(order[..|order| - 1], incidents, n, x);
    }
  }

  // The events a document carries for an incident.
  lemma SnapshotEvents(s: Source, id: nat, after: string)
    requires SourceOk(s) && id in s.incidents
    ensures var n := ParseCursor(after, s.epoch);
            var inc := s.incidents[id];
            SnapshotOf(inc, n).events == EventsOf(s.log, id, if inc.ackedSeq < n then n else inc.ackedSeq)
  {
    hide ParseCursor;
    AfterEventsOf(s.log, s.epoch, "", id, s.incidents[id].ackedSeq, ParseCursor(after, s.epoch));
  }

  lemma DeliveredAt(cfg: Config, doc: Doc, i: nat, x: Event)
    requires i < |doc.incidents| && x in doc.incidents[i].events
    ensures Stored(EventKey(IncidentKey(cfg.origin, doc.incidents[i].id, doc.incidents[i].createdAt), x.cursor), x) in Delivered(cfg, doc)
  {
    var j :| 0 <= j < |doc.incidents[i].events| && doc.incidents[i].events[j] == x;
  }

  // A document asked for after n delivers every buffered event past n.
  lemma DocComplete(cfg: Config, s: Source, after: string, k: nat)
    requires SourceOk(s) && k < |s.log| && s.log[k].id in s.incidents
    requires ParseCursor(after, s.epoch) <= k && s.incidents[s.log[k].id].ackedSeq <= k
    ensures StoredOf(cfg, s.log[k]) in Delivered(cfg, DocOf(s, after))
  {
    hide ParseCursor, FormatCursor, After, Delivered, EventsOf;
    var id, n := s.log[k].id, ParseCursor(after, s.epoch);
    var inc, doc := s.incidents[id], DocOf(s, after);
    SnapshotEvents(s, id, after);
    EventsOfMember(s.log, id, if inc.ackedSeq < n then n else inc.ackedSeq, k);
    EventsOfMember(s.log, id, inc.ackedSeq, k);
    assert Shown(inc, n);
    SnapshotsHold(s.order, s.incidents, n, id);
    var i :| 0 <= i < |doc.incidents| && doc.incidents[i] == SnapshotOf(inc, n);
    DeliveredAt(cfg, doc, i, s.log[k].event);
  }

  // And nothing it delivers is made up.
  lemma DocGenuine(cfg: Config, s: Source, after: string, logs: map<string, seq<Entry>>, p: Stored)
    requires SourceOk(s) && s.epoch in logs && logs[s.epoch] == s.log
    requires p in Delivered(cfg, DocOf(s, after))
    ensures Genuine(cfg, logs, p)
  {
    hide ParseCursor, FormatCursor, After, EventsOf;
    var doc, n := DocOf(s, after), ParseCursor(after, s.epoch);
    var i, j :| 0 <= i < |doc.incidents| && 0 <= j < |doc.incidents[i].events| &&
      p == Stored(EventKey(IncidentKey(cfg.origin, doc.incidents[i].id, doc.incidents[i].createdAt), doc.incidents[i].events[j].cursor),
                  doc.incidents[i].events[j]);
    SnapshotsOnly(s.order, s.incidents, n, doc.incidents[i]);
    var id :| id in s.incidents && doc.incidents[i] == SnapshotOf(s.incidents[id], n);
    SnapshotEvents(s, id, after);
    var lo := if s.incidents[id].ackedSeq < n then n else s.incidents[id].ackedSeq;
    EventsOfGenuine(s.log, id, lo, doc.incidents[i].events[j]);
    var k :| lo <= k < |s.log| && s.log[k].id == id && s.log[k].event == doc.incidents[i].events[j];
    assert p == StoredOf(cfg, logs[s.epoch][k]);
  }

  // ------------------------------------------------------------ every step keeps it

  // The source moved on within its epoch: its log grew, no incident came back,
  // and no acknowledgement went further than allowed.
  ghost predicate Forward(s: Source, s': Source) {
    && s'.epoch == s.epoch && |s.log| <= |s'.log|
    && (forall k :: 0 <= k < |s.log| ==> s'.log[k] == s.log[k])
    && (forall k :: 0 <= k < |s.log| && s.log[k].id in s'.incidents ==> s.log[k].id in s.incidents)
  }

  // Every acknowledgement of s' is one of s, or reaches no further than n.
  ghost predicate AcksWithin(s: Source, s': Source, n: nat) {
    forall id :: id in s'.incidents ==>
      s'.incidents[id].ackedSeq <= n || (id in s.incidents && s'.incidents[id].ackedSeq <= s.incidents[id].ackedSeq)
  }

  lemma IssuedLater(c: string, logs: map<string, seq<Entry>>, logs': map<string, seq<Entry>>)
    requires Issued(c, logs)
    requires forall e :: e in logs ==> e in logs' && |logs[e]| <= |logs'[e]|
    ensures Issued(c, logs')
  {
    if c != "" {
      var n, e :| e in logs && 0 < n <= |logs[e]| && c == FormatCursor(n, e);
      assert e in logs' && 0 < n <= |logs'[e]|;
    }
  }

  lemma GenuineLater(cfg: Config, logs: map<string, seq<Entry>>, logs': map<string, seq<Entry>>, p: Stored)
    requires Genuine(cfg, logs, p)
    requires forall e :: e in logs ==> e in logs' && logs[e] <= logs'[e]
    ensures Genuine(cfg, logs', p)
  {
    var e, k :| e in logs && 0 <= k < |logs[e]| && p == StoredOf(cfg, logs[e][k]);
    assert logs'[e][k] == logs[e][k];
  }

  lemma CoveredLater(cfg: Config, w: World, w': World, c: string)
    requires Covered(cfg, w, c) && Forward(w.src, w'.src) && w.ingested <= w'.ingested
    ensures Covered(cfg, w', c)
  {
    hide ParseCursor;
    forall k | 0 <= k < ParseCursor(c, w.src.epoch) ensures Settled(cfg, w', k) {
      assert Settled(cfg, w, k);
    }
  }

  lemma LogsGrow(w: World, w': World)
    requires Forward(w.src, w'.src) && w'.past == w.past
    ensures forall e :: e in Logs(w) ==> e in Logs(w') && Logs(w)[e] <= Logs(w')[e]
  {}

  lemma ReplyLater(cfg: Config, w: World, w': World, doc: Doc)
    requires ReplyOk(cfg, w, doc) && Forward(w.src, w'.src) && w'.past == w.past && w.ingested <= w'.ingested
    ensures ReplyOk(cfg, w', doc)
  {
    hide ParseCursor, Delivered, Issued, Genuine;
    LogsGrow(w, w');
    IssuedLater(doc.watermark, Logs(w), Logs(w'));
    forall k | 0 <= k < ParseCursor(doc.watermark, w.src.epoch)
      ensures Settled(cfg, w', k) || StoredOf(cfg, w'.src.log[k]) in Delivered(cfg, doc)
    {
      assert Settled(cfg, w, k) || StoredOf(cfg, w.src.log[k]) in Delivered(cfg, doc);
    }
    forall p | p in Delivered(cfg, doc) ensures Genuine(cfg, Logs(w'), p) {
      GenuineLater(cfg, Logs(w), Logs(w'), p);
    }
  }

  // Any step of the source within its epoch that acknowledges at most n, where
  // everything up to n is settled.
  lemma SourceStep(cfg: Config, w: World, s': Source, c: string)
    requires Inv(cfg, w) && SourceOk(s') && Forward(w.src, s')
    requires Covered(cfg, w, c) && AcksWithin(w.src, s', ParseCursor(c, w.src.epoch))
    ensures Inv(cfg, w.(src := s'))
  {
    hide ParseCursor, Delivered, Issued, Genuine, FormatCursor, ReplyOk, SourceOk;
    var w' := w.(src := s');
    LogsGrow(w, w');
    assert LogsOk(Logs(w')) by { SourceLogOk(s'); }
    forall k | 0 <= k < |s'.log| && AckedAt(s', k)
      ensures StoredOf(cfg, s'.log[k]) in w.ingested
    {
      AckedWasIngested(cfg, w, s', c, k);
    }
    IssuedLater(w.mark, Logs(w), Logs(w'));
    CoveredLater(cfg, w, w', w.mark);
    forall d | d in w.sent ensures Issued(d, Logs(w')) && Covered(cfg, w', d) {
      IssuedLater(d, Logs(w), Logs(w'));
      CoveredLater(cfg, w, w', d);
    }
    if w.reply.Some? { ReplyLater(cfg, w, w', w.reply.value); }
    forall p | p in w.ingested ensures Genuine(cfg, Logs(w'), p) {
      GenuineLater(cfg, Logs(w), Logs(w'), p);
    }
  }

  lemma SourceLogOk(s: Source)
    requires SourceOk(s)
    ensures LogOk(s.log, s.epoch)
  {}

  lemma AckedWasIngested(cfg: Config, w: World, s': Source, c: string, k: nat)
    requires Inv(cfg, w) && SourceOk(s') && Forward(w.src, s')
    requires Covered(cfg, w, c) && AcksWithin(w.src, s', ParseCursor(c, w.src.epoch))
    requires k < |s'.log| && AckedAt(s', k)
    ensures StoredOf(cfg, s'.log[k]) in w.ingested
  {
    hide ParseCursor, Delivered, Issued, Genuine, FormatCursor, ReplyOk, LogsOk, EventsOf;
    var id := s'.log[k].id;
    if k < ParseCursor(c, w.src.epoch) {
      assert Settled(cfg, w, k);
    } else {
      assert AckedAt(w.src, k);
      assert IncidentOk(w.src.log, w.src.incidents[id]);
    }
  }

  lemma AppendForward(s: Source, id: nat, ts: int, topic: string, message: string)
    requires id in s.incidents
    ensures Forward(s, Append(s, id, ts, topic, message)) && AcksWithin(s, Append(s, id, ts, topic, message), 0)
  {}

  lemma StartForward(s: Source, policy: Policy, spec: Spec, now: int)
    requires SourceOk(s)
    ensures Forward(s, Start(s, policy, spec, now)) && AcksWithin(s, Start(s, policy, spec, now), 0)
  {
    hide FormatCursor, OverBudget, IncidentOk, LogOk, OrderOk;
    var live := Expire(s, now);
    if !OverBudget(live, policy) {
      AppendForward(Opened(live, policy, spec, now), live.nextID + 1, now, "incident", "created");
    }
  }

  lemma ServedForward(s: Source, c: string, now: int)
    ensures Forward(s, Served(s, c, now)) && AcksWithin(s, Served(s, c, now), ParseCursor(c, s.epoch))
  {}

  lemma NothingCovered(cfg: Config, w: World)
    requires SourceOk(w.src)
    ensures Covered(cfg, w, "") && ParseCursor("", w.src.epoch) == 0
  {}

  lemma ServedReply(cfg: Config, w: World, c: string, now: int)
    requires Inv(cfg, w) && c in w.sent
    requires Inv(cfg, w.(src := Served(w.src, c, now)))
    ensures ReplyOk(cfg, w.(src := Served(w.src, c, now)), DocOf(Served(w.src, c, now), c))
  {
    hide ParseCursor, FormatCursor, Delivered, Snapshots, Served, Genuine, EventsOf;
    var w' := w.(src := Served(w.src, c, now));
    var s, doc := w'.src, DocOf(w'.src, c);
    ServedForward(w.src, c, now);
    WatermarkIs(s, Logs(w'));
    forall k | 0 <= k < |s.log| ensures Settled(cfg, w', k) || StoredOf(cfg, s.log[k]) in Delivered(cfg, doc) {
      if s.log[k].id in s.incidents && ParseCursor(c, s.epoch) <= k && s.incidents[s.log[k].id].ackedSeq <= k {
        DocComplete(cfg, s, c, k);
      } else {
        assert Covered(cfg, w', c);
        assert AckedIngested(cfg, w');
      }
    }
    forall p | p in Delivered(cfg, doc) ensures Genuine(cfg, Logs(w'), p) {
      DocGenuine(cfg, s, c, Logs(w'), p);
    }
  }

  lemma WatermarkIs(s: Source, logs: map<string, seq<Entry>>)
    requires SourceOk(s) && s.epoch in logs && logs[s.epoch] == s.log
    ensures Issued(FormatCursor(s.nextSeq, s.epoch), logs)
    ensures ParseCursor(FormatCursor(s.nextSeq, s.epoch), s.epoch) == |s.log|
  {
    CursorRoundTrip(s.nextSeq, s.epoch, s.epoch);
    if s.nextSeq > 0 { assert s.epoch in logs && 0 < s.nextSeq <= |logs[s.epoch]|; }
  }

  // Under a fresh epoch every cursor given out before reads as none.
  lemma ForeignCursor(c: string, logs: map<string, seq<Entry>>, epoch: string)
    requires Issued(c, logs) && LogsOk(logs) && epoch !in logs && EpochOk(epoch)
    ensures ParseCursor(c, epoch) == 0
  {
    if c != "" {
      var n, e :| e in logs && 0 < n <= |logs[e]| && c == FormatCursor(n, e);
      assert LogOk(logs[e], e);
      CursorRoundTrip(n, e, epoch);
    }
  }

  lemma RestartStep(cfg: Config, w: World, epoch: string)
    requires Inv(cfg, w) && EpochOk(epoch) && epoch != w.src.epoch && epoch !in w.past
    ensures Inv(cfg, Do(cfg, w, Restart(epoch)))
  {
    hide ParseCursor, FormatCursor, Delivered, Genuine, Issued, Settled;
    var w' := Do(cfg, w, Restart(epoch));
    NewOk(epoch);
    assert forall e :: e in Logs(w) ==> e in Logs(w') && Logs(w)[e] == Logs(w')[e];
    forall c | c == w.mark || c in w.sent || (w.reply.Some? && c == w.reply.value.watermark)
      ensures Issued(c, Logs(w')) && ParseCursor(c, epoch) == 0
    {
      IssuedLater(c, Logs(w), Logs(w'));
      ForeignCursor(c, Logs(w), epoch);
    }
    forall p | p in w.ingested || (w.reply.Some? && p in Delivered(cfg, w.reply.value)) ensures Genuine(cfg, Logs(w'), p) {
      GenuineLater(cfg, Logs(w), Logs(w'), p);
    }
  }

  lemma IngestStep(cfg: Config, w: World)
    requires Inv(cfg, w) && w.waiting && w.reply.Some?
    ensures Inv(cfg, Do(cfg, w, Ingest(true)))
  {
    hide ParseCursor, FormatCursor, Delivered, Genuine, Issued, SourceOk, LogsOk;
    var w', doc := Do(cfg, w, Ingest(true)), w.reply.value;
    assert Forward(w.src, w'.src);
    forall c | c in w.sent ensures Covered(cfg, w', c) {
      CoveredLater(cfg, w, w', c);
    }
    forall k | 0 <= k < ParseCursor(doc.watermark, w.src.epoch) ensures Settled(cfg, w', k) {
      assert Settled(cfg, w, k) || StoredOf(cfg, w.src.log[k]) in Delivered(cfg, doc);
    }
  }

  lemma StepKeepsInv(cfg: Config, w: World, a: Action)
    requires Inv(cfg, w)
    ensures Inv(cfg, Do(cfg, w, a))
  {
    hide ParseCursor, FormatCursor, Delivered, Genuine, Issued, Settled, ReplyOk, SourceOk, LogsOk, Start, Add, Close, Served, Logs;
    InvSourceOk(cfg, w);
    NothingCovered(cfg, w);
    match a
    case StartIncident(spec, now) =>
      if w.src.nextSeq < MAX_UINT64 {
        StartOk(w.src, cfg.policy, spec, now);
        StartForward(w.src, cfg.policy, spec, now);
        SourceStep(cfg, w, Start(w.src, cfg.policy, spec, now), "");
      }
    case AddLog(id, ts, topic, message) =>
      if w.src.nextSeq < MAX_UINT64 {
        AddOk(w.src, id, ts, topic, message);
        AddForward(w.src, id, ts, topic, message);
        SourceStep(cfg, w, Add(w.src, id, ts, topic, message), "");
      }
    case CloseIncident(id, now, reason) =>
      if w.src.nextSeq < MAX_UINT64 {
        CloseOk(w.src, id, now, reason);
        CloseForward(w.src, id, now, reason);
        SourceStep(cfg, w, Close(w.src, id, now, reason), "");
      }
    case Restart(epoch) =>
      if EpochOk(epoch) && epoch != w.src.epoch && epoch !in w.past { RestartStep(cfg, w, epoch); }
    case Send => ScraperStep(cfg, w, Do(cfg, w, a));
    case Serve(cursor, now) =>
      if cursor in w.sent {
        ServedOk(w.src, cursor, now);
        ServedForward(w.src, cursor, now);
        SourceStep(cfg, w, Served(w.src, cursor, now), cursor);
        ServedReply(cfg, w, cursor, now);
        ScraperStep(cfg, w.(src := Served(w.src, cursor, now)), Do(cfg, w, a));
      }
    case Ingest(ok) =>
      if w.waiting && w.reply.Some? {
        if ok { IngestStep(cfg, w); } else { ScraperStep(cfg, w, Do(cfg, w, a)); }
      }
    case GiveUp => ScraperStep(cfg, w, Do(cfg, w, a));
    case ScraperRestart => ScraperStep(cfg, w, Do(cfg, w, a));
  }

  lemma InvSourceOk(cfg: Config, w: World)
    requires Inv(cfg, w)
    ensures SourceOk(w.src)
  {}

  lemma AddForward(s: Source, id: nat, ts: int, topic: string, message: string)
    ensures Forward(s, Add(s, id, ts, topic, message)) && AcksWithin(s, Add(s, id, ts, topic, message), 0)
  {
    if id in s.incidents { AppendForward(s, id, ts, topic, message); }
  }

  lemma CloseForward(s: Source, id: nat, now: int, reason: string)
    ensures Forward(s, Close(s, id, now, reason)) && AcksWithin(s, Close(s, id, now, reason), 0)
  {
    if id in s.incidents {
      AppendForward(s.(incidents := s.incidents[id := s.incidents[id].(status := Closed)]), id, now, "incident", reason);
    }
  }

  // Steps of the scraper that ingest nothing: its watermark stays or is
  // forgotten, it sends what it holds, and it takes in a reply.
  lemma ScraperStep(cfg: Config, w: World, w': World)
    requires Inv(cfg, w)
    requires w' == w.(mark := w'.mark, waiting := w'.waiting, reply := w'.reply, sent := w'.sent)
    requires w'.mark == w.mark || w'.mark == ""
    requires forall c :: c in w'.sent ==> c in w.sent || c == w.mark
    requires w'.reply.Some? ==> ReplyOk(cfg, w, w'.reply.value)
    ensures Inv(cfg, w')
  {
    hide ParseCursor, Delivered, Genuine, SourceOk, LogsOk, AckedAt;
    InvSourceOk(cfg, w);
    NothingCovered(cfg, w);
    assert Logs(w') == Logs(w);
    assert AckedIngested(cfg, w');
    assert Issued(w'.mark, Logs(w)) && Covered(cfg, w, w'.mark);
    CoveredLater(cfg, w, w', w'.mark);
    forall c | c in w'.sent ensures Issued(c, Logs(w')) && Covered(cfg, w', c) {
      assert Covered(cfg, w, c);
      CoveredLater(cfg, w, w', c);
    }
    assert w'.reply.Some? ==> ReplyOk(cfg, w', w'.reply.value);
  }

  lemma {:induction false} RunKeepsInv(cfg: Config, epoch: string, actions: seq<Action>)
    requires EpochOk(epoch)
    ensures Inv(cfg, Run(cfg, Begin(epoch), actions))
  {
    if actions == [] {
      NewOk(epoch);
    } else {
      hide Inv, Do;
      RunKeepsInv(cfg, epoch, actions[..|actions| - 1]);
      StepKeepsInv(cfg, Run(cfg, Begin(epoch), actions[..|actions| - 1]), actions[|actions| - 1]);
    }
  }

  // ------------------------------------------------------- how long incidents last

  // What an incident is given: its own time to live, or that of the policy.
  function TimeToLive(policy: Policy, spec: Spec): int { if spec.ttl > 0 then spec.ttl else policy.ttl }

  // The source looks at its clock, for what has outlived its time, when an incident
  // is started and when it serves a request.
  function Looked(w: World, a: Action): Option<int> {
    match a
    case StartIncident(_, now) => if w.src.nextSeq < MAX_UINT64 then Some(now) else None
    case Serve(cursor, now) => if cursor in w.sent then Some(now) else None
    case _ => None
  }

  // The incident that a step opens, if it does, and when its time will be over.
  function Opens(cfg: Config, w: World, a: Action): map<nat, int> {
    if a.StartIncident? && Do(cfg, w, a).src.nextID > w.src.nextID
    then map[Do(cfg, w, a).src.nextID := a.now + TimeToLive(cfg.policy, a.spec)] else map[]
  }

  // When the time of each incident of the current epoch is over.
  function Ends(cfg: Config, epoch: string, actions: seq<Action>): map<nat, int> {
    if actions == [] then map[] else
      var rest, a := actions[..|actions| - 1], actions[|actions| - 1];
      var w := Run(cfg, Begin(epoch), rest);
      if Do(cfg, w, a).src.epoch != w.src.epoch then map[] else Ends(cfg, epoch, rest) + Opens(cfg, w, a)
  }

  // Those whose time is over at a time; no end at all is the zero time.
  function Over(ends: map<nat, int>, now: int): set<nat> { set id | id in ends && ends[id] != ZERO_TIME && ends[id] < now }

  // Those that the source has looked at since.
  function Outlived(cfg: Config, epoch: string, actions: seq<Action>): set<nat> {
    if actions == [] then {} else
      var rest, a := actions[..|actions| - 1], actions[|actions| - 1];
      var w := Run(cfg, Begin(epoch), rest);
      if Do(cfg, w, a).src.epoch != w.src.epoch then {} else
        Outlived(cfg, epoch, rest) + (match Looked(w, a) case None => {} case Some(now) => Over(Ends(cfg, epoch, rest), now))
  }

  // What a source holds, by what was opened and what was outlived.
  ghost predicate LifeOk(s: Source, ends: map<nat, int>, gone: set<nat>) {
    && s.incidents.Keys == ends.Keys - gone && gone <= ends.Keys
    && (forall id :: id in ends ==> id <= s.nextID)
    && (forall id :: id in s.incidents ==> s.incidents[id].expiresAt == ends[id])
    && (forall k :: 0 <= k < |s.log| ==> s.log[k].id in ends)
  }

  lemma ExpireLife(s: Source, ends: map<nat, int>, gone: set<nat>, now: int)
    requires LifeOk(s, ends, gone)
    ensures LifeOk(Expire(s, now), ends, gone + Over(ends, now))
  {}

  lemma AppendLife(s: Source, ends: map<nat, int>, gone: set<nat>, id: nat, ts: int, topic: string, message: string)
    requires LifeOk(s, ends, gone) && id in s.incidents
    ensures LifeOk(Append(s, id, ts, topic, message), ends, gone)
  {
    hide FormatCursor;
  }

  lemma OpenedLife(s: Source, ends: map<nat, int>, gone: set<nat>, policy: Policy, spec: Spec, now: int)
    requires LifeOk(s, ends, gone)
    ensures LifeOk(Opened(s, policy, spec, now), ends[s.nextID + 1 := now + TimeToLive(policy, spec)], gone)
  {}

  lemma StartLife(s: Source, ends: map<nat, int>, gone: set<nat>, policy: Policy, spec: Spec, now: int)
    requires LifeOk(s, ends, gone)
    ensures var s' := Start(s, policy, spec, now);
            LifeOk(s', if s'.nextID > s.nextID then ends[s'.nextID := now + TimeToLive(policy, spec)] else ends, gone + Over(ends, now))
  {
    hide LifeOk, Expire, Opened, Append, OverBudget, TimeToLive, Over;
    var live := Expire(s, now);
    ExpireLife(s, ends, gone, now);
    ExpireKeeps(s, now);
    if !OverBudget(live, policy) {
      OpenedIs(live, policy, spec, now);
      OpenedLife(live, ends, gone + Over(ends, now), policy, spec, now);
      var begun := Opened(live, policy, spec, now);
      AppendLife(begun, ends[live.nextID + 1 := now + TimeToLive(policy, spec)], gone + Over(ends, now), live.nextID + 1, now, "incident", "created");
      AppendNumbers(begun, live.nextID + 1, now, "incident", "created");
    }
  }

  lemma OpenedIs(s: Source, policy: Policy, spec: Spec, now: int)
    ensures s.nextID + 1 in Opened(s, policy, spec, now).incidents && Opened(s, policy, spec, now).nextID == s.nextID + 1
  {}

  lemma AppendNumbers(s: Source, id: nat, ts: int, topic: string, message: string)
    requires id in s.incidents
    ensures Append(s, id, ts, topic, message).nextID == s.nextID && Append(s, id, ts, topic, message).epoch == s.epoch
  {}

  lemma AddLife(s: Source, ends: map<nat, int>, gone: set<nat>, id: nat, ts: int, topic: string, message: string)
    requires LifeOk(s, ends, gone)
    ensures LifeOk(Add(s, id, ts, topic, message), ends, gone)
  {
    hide LifeOk, Append;
    if id in s.incidents { AppendLife(s, ends, gone, id, ts, topic, message); }
  }

  lemma CloseLife(s: Source, ends: map<nat, int>, gone: set<nat>, id: nat, now: int, reason: string)
    requires LifeOk(s, ends, gone)
    ensures LifeOk(Close(s, id, now, reason), ends, gone)
  {
    hide Append;
    if id in s.incidents {
      AppendLife(s.(incidents := s.incidents[id := s.incidents[id].(status := Closed)]), ends, gone, id, now, "incident", reason);
    }
  }

  lemma AckLife(s: Source, ends: map<nat, int>, gone: set<nat>, n: nat)
    requires LifeOk(s, ends, gone)
    ensures LifeOk(Ack(s, n), ends, gone)
  {
    hide After;
  }

  lemma ServedLife(s: Source, ends: map<nat, int>, gone: set<nat>, cursor: string, now: int)
    requires LifeOk(s, ends, gone)
    ensures LifeOk(Served(s, cursor, now), ends, gone + Over(ends, now))
  {
    hide LifeOk, Expire, Ack, ParseCursor;
    ExpireLife(s, ends, gone, now);
    AckLife(Expire(s, now), ends, gone + Over(ends, now), ParseCursor(cursor, s.epoch));
  }

  // A source holds exactly the incidents that it opened in the current epoch and
  // whose time was not over at any Start or request since.
  lemma {:induction false} HeldExactlyWhileAlive(cfg: Config, epoch: string, actions: seq<Action>)
    ensures LifeOk(Run(cfg, Begin(epoch), actions).src, Ends(cfg, epoch, actions), Outlived(cfg, epoch, actions))
  {
    if actions != [] {
      hide LifeOk, Do, Opens, Looked, Over;
      var rest, a := actions[..|actions| - 1], actions[|actions| - 1];
      HeldExactlyWhileAlive(cfg, epoch, rest);
      StepLife(cfg, Run(cfg, Begin(epoch), rest), a, Ends(cfg, epoch, rest), Outlived(cfg, epoch, rest));
    }
  }

  lemma StepLife(cfg: Config, w: World, a: Action, ends: map<nat, int>, gone: set<nat>)
    requires LifeOk(w.src, ends, gone)
    ensures var w' := Do(cfg, w, a);
            if w'.src.epoch != w.src.epoch then LifeOk(w'.src, map[], {})
            else LifeOk(w'.src, ends + Opens(cfg, w, a), gone + (match Looked(w, a) case None => {} case Some(now) => Over(ends, now)))
  {
    hide LifeOk, Start, Add, Close, Served, DocOf, Delivered, Over, TimeToLive;
    assert ends + map[] == ends && gone + {} == gone;
    match a
    case StartIncident(spec, now) =>
      if w.src.nextSeq < MAX_UINT64 {
        StartLife(w.src, ends, gone, cfg.policy, spec, now);
        StartEpoch(w.src, cfg.policy, spec, now);
        var n := Start(w.src, cfg.policy, spec, now).nextID;
        assert ends + map[n := now + TimeToLive(cfg.policy, spec)] == ends[n := now + TimeToLive(cfg.policy, spec)];
      }
    case AddLog(id, ts, topic, message) =>
      if w.src.nextSeq < MAX_UINT64 { AddLife(w.src, ends, gone, id, ts, topic, message); AddForward(w.src, id, ts, topic, message); }
    case CloseIncident(id, now, reason) =>
      if w.src.nextSeq < MAX_UINT64 { CloseLife(w.src, ends, gone, id, now, reason); CloseForward(w.src, id, now, reason); }
    case Restart(epoch) => NewLife(epoch);
    case Serve(cursor, now) =>
      if cursor in w.sent { ServedLife(w.src, ends, gone, cursor, now); ServedEpoch(w.src, cursor, now); }
    case _ =>
  }

  lemma NewLife(epoch: string)
    ensures LifeOk(NewSource(epoch), map[], {})
  {}

  lemma StartEpoch(s: Source, policy: Policy, spec: Spec, now: int)
    ensures Start(s, policy, spec, now).epoch == s.epoch
  {}

  lemma ServedEpoch(s: Source, cursor: string, now: int)
    ensures Served(s, cursor, now).epoch == s.epoch
  {}

  // What a step opens.
  lemma OpenedInEnds(cfg: Config, epoch: string, actions: seq<Action>, id: nat)
    requires id in Ends(cfg, epoch, actions)
    ensures exists k :: 0 <= k < |actions| && actions[k].StartIncident? &&
              Ends(cfg, epoch, actions)[id] == actions[k].now + TimeToLive(cfg.policy, actions[k].spec)
  {
    var rest, a := actions[..|actions| - 1], actions[|actions| - 1];
    if id !in Opens(cfg, Run(cfg, Begin(epoch), rest), a) {
      OpenedInEnds(cfg, epoch, rest, id);
      var k :| 0 <= k < |rest| && rest[k].StartIncident? && Ends(cfg, epoch, rest)[id] == rest[k].now + TimeToLive(cfg.policy, rest[k].spec);
      assert actions[k] == rest[k];
    } else {
      assert actions[|actions| - 1] == a;
    }
  }

  // The source within one epoch, from some point of a run on.
  ghost predicate NoRestart(cfg: Config, epoch: string, before: seq<Action>, later: seq<Action>) {
    forall j :: 0 <= j <= |later| ==> Run(cfg, Begin(epoch), before + later[..j]).src.epoch == Run(cfg, Begin(epoch), before).src.epoch
  }

  // At one of the steps after it the source looks at its clock past a time.
  ghost predicate LookedPast(cfg: Config, epoch: string, before: seq<Action>, later: seq<Action>, end: int) {
    exists j :: 0 <= j < |later| && LookedPastAt(cfg, epoch, before, later, j, end)
  }

  ghost predicate LookedPastAt(cfg: Config, epoch: string, before: seq<Action>, later: seq<Action>, j: nat, end: int)
    requires j < |later|
  {
    var seen := Looked(Run(cfg, Begin(epoch), before + later[..j]), later[j]);
    seen.Some? && end < seen.value
  }

  // An incident opened at some time is held, through whatever follows, until the
  // source looks at its clock past that time and the time it was given: then it is
  // gone, for good. If that sum is the zero time it never goes.
  lemma LivesItsTime(cfg: Config, epoch: string, actions: seq<Action>, spec: Spec, now: int, later: seq<Action>)
    requires var start := actions + [StartIncident(spec, now)];
             && Run(cfg, Begin(epoch), start).src.nextID > Run(cfg, Begin(epoch), actions).src.nextID
             && NoRestart(cfg, epoch, start, later)
    ensures var start := actions + [StartIncident(spec, now)];
            var id := Run(cfg, Begin(epoch), start).src.nextID;
            var end := now + TimeToLive(cfg.policy, spec);
            id in Run(cfg, Begin(epoch), start + later).src.incidents <==> end == ZERO_TIME || !LookedPast(cfg, epoch, start, later, end)
  {
    hide Run, Ends, Outlived, LookedPast, TimeToLive, NoRestart;
    var start := actions + [StartIncident(spec, now)];
    var id, end := Run(cfg, Begin(epoch), start).src.nextID, now + TimeToLive(cfg.policy, spec);
    OpensNew(cfg, epoch, actions, spec, now);
    StaysUntilPast(cfg, epoch, start, later, id, end);
    HeldExactlyWhileAlive(cfg, epoch, start + later);
  }

  lemma OpensNew(cfg: Config, epoch: string, actions: seq<Action>, spec: Spec, now: int)
    requires Run(cfg, Begin(epoch), actions + [StartIncident(spec, now)]).src.nextID > Run(cfg, Begin(epoch), actions).src.nextID
    ensures var start := actions + [StartIncident(spec, now)];
            var id := Run(cfg, Begin(epoch), start).src.nextID;
            && id in Ends(cfg, epoch, start) && Ends(cfg, epoch, start)[id] == now + TimeToLive(cfg.policy, spec)
            && id !in Outlived(cfg, epoch, start)
  {
    hide Start, TimeToLive;
    var start := actions + [StartIncident(spec, now)];
    assert start[..|actions|] == actions;
    var w := Run(cfg, Begin(epoch), actions);
    HeldExactlyWhileAlive(cfg, epoch, actions);
    StartEpoch(w.src, cfg.policy, spec, now);
  }

  lemma {:induction false} StaysUntilPast(cfg: Config, epoch: string, start: seq<Action>, later: seq<Action>, id: nat, end: int)
    requires NoRestart(cfg, epoch, start, later)
    requires id in Ends(cfg, epoch, start) && Ends(cfg, epoch, start)[id] == end && id !in Outlived(cfg, epoch, start)
    ensures id in Ends(cfg, epoch, start + later) && Ends(cfg, epoch, start + later)[id] == end
    ensures id in Outlived(cfg, epoch, start + later) <==> end != ZERO_TIME && LookedPast(cfg, epoch, start, later, end)
  {
    hide Run, Do, Looked, Opens;
    if later == [] {
      assert start + later == start;
    } else {
      var rest, a := later[..|later| - 1], later[|later| - 1];
      var all := start + later;
      assert all[..|all| - 1] == start + rest && later[..|later|] == later;
      forall j | 0 <= j <= |rest| ensures rest[..j] == later[..j] {}
      StaysUntilPast(cfg, epoch, start, rest, id, end);
      assert later[..|rest|] == rest;
      var w := Run(cfg, Begin(epoch), start + rest);
      OneEpoch(cfg, epoch, start, later);
      KeepsNumber(cfg, epoch, start + rest, a, id);
      PastSnoc(cfg, epoch, start, rest, a, end);
      assert rest + [a] == later;
    }
  }

  lemma OneEpoch(cfg: Config, epoch: string, start: seq<Action>, later: seq<Action>)
    requires NoRestart(cfg, epoch, start, later) && later != []
    ensures Do(cfg, Run(cfg, Begin(epoch), start + later[..|later| - 1]), later[|later| - 1]).src.epoch ==
            Run(cfg, Begin(epoch), start + later[..|later| - 1]).src.epoch
  {
    hide Do;
    assert later[..|later|] == later && (start + later)[..|start + later| - 1] == start + later[..|later| - 1];
  }

  // No later incident takes the number of an earlier one.
  lemma KeepsNumber(cfg: Config, epoch: string, actions: seq<Action>, a: Action, id: nat)
    requires id in Ends(cfg, epoch, actions)
    ensures id !in Opens(cfg, Run(cfg, Begin(epoch), actions), a)
  {
    hide Do, Run;
    HeldExactlyWhileAlive(cfg, epoch, actions);
  }

  lemma PastSnoc(cfg: Config, epoch: string, start: seq<Action>, rest: seq<Action>, a: Action, end: int)
    ensures var seen := Looked(Run(cfg, Begin(epoch), start + rest), a);
            LookedPast(cfg, epoch, start, rest + [a], end) <==>
              LookedPast(cfg, epoch, start, rest, end) || (seen.Some? && end < seen.value)
  {
    hide Run, Looked;
    var later := rest + [a];
    assert later[..|rest|] == rest;
    forall j | 0 <= j < |rest| ensures later[..j] == rest[..j] && later[j] == rest[j] {}
    if LookedPast(cfg, epoch, start, rest, end) {
      var j :| 0 <= j < |rest| && LookedPastAt(cfg, epoch, start, rest, j, end);
      assert LookedPastAt(cfg, epoch, start, later, j, end);
    }
    if Looked(Run(cfg, Begin(epoch), start + rest), a).Some? && end < Looked(Run(cfg, Begin(epoch), start + rest), a).value {
      assert LookedPastAt(cfg, epoch, start, later, |rest|, end);
    }
    if LookedPast(cfg, epoch, start, later, end) {
      var j :| 0 <= j < |later| && LookedPastAt(cfg, epoch, start, later, j, end);
      if j < |rest| { assert LookedPastAt(cfg, epoch, start, rest, j, end); }
    }
  }

  // --------------------------------------------------------------- the results

  ghost predicate Buffered(s: Source, k: nat)
    requires k < |s.log|
  {
    s.log[k].id in s.incidents && s.log[k].event in s.incidents[s.log[k].id].events
  }

  // An incident that has been appended to and is not held any more had its time.
  lemma GoneIsOutlived(cfg: Config, epoch: string, actions: seq<Action>, k: nat)
    requires k < |Run(cfg, Begin(epoch), actions).src.log|
    ensures var s := Run(cfg, Begin(epoch), actions).src;
            s.log[k].id in Ends(cfg, epoch, actions) && (s.log[k].id !in s.incidents <==> s.log[k].id in Outlived(cfg, epoch, actions))
  {
    hide Run, Ends, Outlived;
    HeldExactlyWhileAlive(cfg, epoch, actions);
  }

  // Whatever is lost, late, repeated or restarted: an event of the current epoch
  // is buffered, or was handed to a successful ingest, or some Start or request
  // came after its incident's time.
  lemma NothingAcknowledgedIsLost(cfg: Config, epoch: string, actions: seq<Action>, k: nat)
    requires EpochOk(epoch)
    requires k < |Run(cfg, Begin(epoch), actions).src.log|
    ensures var w := Run(cfg, Begin(epoch), actions);
            Buffered(w.src, k) || StoredOf(cfg, w.src.log[k]) in w.ingested || w.src.log[k].id in Outlived(cfg, epoch, actions)
  {
    hide Outlived, Ends;
    RunKeepsInv(cfg, epoch, actions);
    GoneIsOutlived(cfg, epoch, actions, k);
    var s := Run(cfg, Begin(epoch), actions).src;
    if s.log[k].id in s.incidents && s.incidents[s.log[k].id].ackedSeq <= k {
      EventsOfMember(s.log, s.log[k].id, s.incidents[s.log[k].id].ackedSeq, k);
    }
  }

  // Every event of the current epoch at or below the scraper's watermark was
  // ingested, unless some Start or request came after its incident's time.
  lemma WatermarkIsIngested(cfg: Config, epoch: string, actions: seq<Action>, k: nat)
    requires EpochOk(epoch)
    requires var w := Run(cfg, Begin(epoch), actions); k < ParseCursor(w.mark, w.src.epoch)
    ensures var w := Run(cfg, Begin(epoch), actions);
            k < |w.src.log| && (StoredOf(cfg, w.src.log[k]) in w.ingested || w.src.log[k].id in Outlived(cfg, epoch, actions))
  {
    hide Run, ParseCursor, Inv, Outlived, Ends;
    RunKeepsInv(cfg, epoch, actions);
    var w := Run(cfg, Begin(epoch), actions);
    MarkCovered(cfg, w);
    GoneIsOutlived(cfg, epoch, actions, k);
    assert Settled(cfg, w, k);
  }

  // Two appended events, in whatever epochs, share a stored key only if they are
  // the same event.
  lemma KeysTellEventsApart(cfg: Config, logs: map<string, seq<Entry>>, d: string, i: nat, e: string, j: nat)
    requires LogsOk(logs) && d in logs && e in logs && i < |logs[d]| && j < |logs[e]|
    requires StoredOf(cfg, logs[d][i]).key == StoredOf(cfg, logs[e][j]).key
    ensures d == e && i == j
  {
    assert LogOk(logs[d], d) && LogOk(logs[e], e);
    CursorsDiffer(i + 1, d, j + 1, e);
  }

  // Redelivery is harmless: over the whole run, across restarts, a stored key
  // only ever receives one event, and only events that were really appended.
  lemma StoredOnce(cfg: Config, epoch: string, actions: seq<Action>, p: Stored, q: Stored)
    requires EpochOk(epoch)
    requires p in Run(cfg, Begin(epoch), actions).ingested && q in Run(cfg, Begin(epoch), actions).ingested
    ensures Genuine(cfg, Logs(Run(cfg, Begin(epoch), actions)), p)
    ensures p.key == q.key ==> p == q
  {
    RunKeepsInv(cfg, epoch, actions);
    if p.key == q.key { GenuineOnce(cfg, Logs(Run(cfg, Begin(epoch), actions)), p, q); }
  }

  lemma GenuineOnce(cfg: Config, logs: map<string, seq<Entry>>, p: Stored, q: Stored)
    requires LogsOk(logs) && Genuine(cfg, logs, p) && Genuine(cfg, logs, q) && p.key == q.key
    ensures p == q
  {
    var d, i :| d in logs && 0 <= i < |logs[d]| && p == StoredOf(cfg, logs[d][i]);
    var e, j :| e in logs && 0 <= j < |logs[e]| && q == StoredOf(cfg, logs[e][j]);
    KeysTellEventsApart(cfg, logs, d, i, e, j);
  }

  // An undisturbed tick: a request, its reply, and an ingest that works.
  function Tick(cfg: Config, epoch: string, actions: seq<Action>, now: int): seq<Action> {
    actions + [Send] + [Serve(Run(cfg, Begin(epoch), actions).mark, now)] + [Ingest(true)]
  }

  // From any reachable state, one undisturbed tick delivers every event of the
  // current epoch, unless some Start or request came after its incident's time.
  lemma OneGoodTickDelivers(cfg: Config, epoch: string, actions: seq<Action>, now: int, k: nat)
    requires EpochOk(epoch)
    requires k < |Run(cfg, Begin(epoch), Tick(cfg, epoch, actions, now)).src.log|
    ensures var w := Run(cfg, Begin(epoch), Tick(cfg, epoch, actions, now));
            StoredOf(cfg, w.src.log[k]) in w.ingested || w.src.log[k].id in Outlived(cfg, epoch, Tick(cfg, epoch, actions, now))
  {
    hide Inv, Served, Delivered, ParseCursor, FormatCursor, Snapshots, Run, Outlived, Ends;
    var w := Run(cfg, Begin(epoch), actions);
    var ticked := Tick(cfg, epoch, actions, now);
    RunKeepsInv(cfg, epoch, actions);
    RunSnoc(cfg, epoch, actions, Send);
    RunSnoc(cfg, epoch, actions + [Send], Serve(w.mark, now));
    RunSnoc(cfg, epoch, actions + [Send] + [Serve(w.mark, now)], Ingest(true));
    var a := Do(cfg, w, Send);
    StepKeepsInv(cfg, w, Send);
    var b := Do(cfg, a, Serve(w.mark, now));
    StepKeepsInv(cfg, a, Serve(w.mark, now));
    var c := Do(cfg, b, Ingest(true));
    StepKeepsInv(cfg, b, Ingest(true));
    InvSourceOk(cfg, b);
    WatermarkIs(b.src, Logs(b));
    MarkCovered(cfg, c);
    assert Settled(cfg, c, k);
    GoneIsOutlived(cfg, epoch, ticked, k);
  }

  lemma RunSnoc(cfg: Config, epoch: string, actions: seq<Action>, a: Action)
    ensures Run(cfg, Begin(epoch), actions + [a]) == Do(cfg, Run(cfg, Begin(epoch), actions), a)
  {
    assert (actions + [a])[..|actions|] == actions;
  }

  lemma MarkCovered(cfg: Config, w: World)
    requires Inv(cfg, w)
    ensures Covered(cfg, w, w.mark)
  {
    hide ParseCursor, Delivered, Genuine, Issued, SourceOk, LogsOk, AckedAt;
  }

  lemma {:induction false} EventsOfNumbered(log: seq<Entry>, epoch: string, id: nat, lo: nat)
    requires LogOk(log, epoch)
    ensures var events := EventsOf(log, id, lo);
            && (forall i :: 0 <= i < |events| ==> lo < ParseCursor(events[i].cursor, epoch) <= |log|)
            && (forall i, j :: 0 <= i < j < |events| ==> ParseCursor(events[i].cursor, epoch) < ParseCursor(events[j].cursor, epoch))
  {
    hide ParseCursor, FormatCursor;
    if |log| > lo {
      var rest, e := log[..|log| - 1], log[|log| - 1];
      EventsOfNumbered(rest, epoch, id, lo);
      assert e.event.cursor == FormatCursor(|log|, epoch);
      CursorRoundTrip(|log|, epoch, epoch);
      if e.id != id { assert EventsOf(log, id, lo) == EventsOf(rest, id, lo); }
    }
  }

  // In every reachable state an incident buffers exactly what was appended to it
  // past its acknowledged number, numbered in increasing order, and one that is
  // closed still has something to acknowledge.
  lemma BuffersHoldTheUnacknowledged(cfg: Config, epoch: string, actions: seq<Action>, id: nat)
    requires EpochOk(epoch)
    requires id in Run(cfg, Begin(epoch), actions).src.incidents
    ensures var s := Run(cfg, Begin(epoch), actions).src;
            var inc := s.incidents[id];
            && inc.events == EventsOf(s.log, id, inc.ackedSeq)
            && inc.ackedSeq <= inc.lastSeq <= s.nextSeq
            && (forall i, j :: 0 <= i < j < |inc.events| ==>
                  ParseCursor(inc.events[i].cursor, s.epoch) < ParseCursor(inc.events[j].cursor, s.epoch))
            && (inc.status == Closed ==> inc.events != [])
  {
    hide Run, ParseCursor, FormatCursor;
    RunKeepsInv(cfg, epoch, actions);
    var s := Run(cfg, Begin(epoch), actions).src;
    InvSourceOk(cfg, Run(cfg, Begin(epoch), actions));
    var inc := s.incidents[id];
    EventsOfNumbered(s.log, s.epoch, id, inc.ackedSeq);
    if inc.status == Closed {
      EventsOfMember(s.log, id, inc.ackedSeq, inc.lastSeq - 1);
    }
  }

  // No step of a source takes back an acknowledgement or an event number.
  lemma NumbersOnlyGrow(cfg: Config, w: World, a: Action, id: nat)
    requires Inv(cfg, w) && !a.Restart?
    requires id in w.src.incidents && id in Do(cfg, w, a).src.incidents
    ensures w.src.incidents[id].ackedSeq <= Do(cfg, w, a).src.incidents[id].ackedSeq
    ensures w.src.incidents[id].lastSeq <= Do(cfg, w, a).src.incidents[id].lastSeq
  {
    hide Start, Add, Close, Served, Inv, DocOf, Delivered, SourceOk;
    InvSourceOk(cfg, w);
    match a
    case StartIncident(spec, now) => StartTakesNothing(w.src, cfg.policy, spec, now, id);
    case AddLog(to, ts, topic, message) => AddTakesNothing(w.src, to, ts, topic, message, id);
    case CloseIncident(to, now, reason) => CloseTakesNothing(w.src, to, now, reason, id);
    case Serve(cursor, now) => ServedTakesNothing(w.src, cursor, now, id);
    case _ =>
  }

  ghost predicate TakesNothing(before: Source, after: Source, id: nat)
    requires id in before.incidents
  {
    id in after.incidents ==>
      && before.incidents[id].ackedSeq <= after.incidents[id].ackedSeq
      && before.incidents[id].lastSeq <= after.incidents[id].lastSeq
  }

  lemma AppendTakesNothing(s: Source, to: nat, ts: int, topic: string, message: string, id: nat)
    requires to in s.incidents && id in s.incidents && s.incidents[id].lastSeq <= s.nextSeq
    ensures TakesNothing(s, Append(s, to, ts, topic, message), id)
  {
    hide FormatCursor;
  }

  lemma StartTakesNothing(s: Source, policy: Policy, spec: Spec, now: int, id: nat)
    requires SourceOk(s) && id in s.incidents
    ensures TakesNothing(s, Start(s, policy, spec, now), id)
  {
    hide Append, Unacknowledged, SourceOk, KeepIds;
    IncidentNumbers(s, id);
    var begun := Opened(Expire(s, now), policy, spec, now);
    if id in begun.incidents {
      AppendTakesNothing(begun, s.nextID + 1, now, "incident", "created", id);
    } else {
      AppendFilesNoOther(begun, s.nextID + 1, now, "incident", "created", id);
    }
  }

  lemma AppendFilesNoOther(s: Source, to: nat, ts: int, topic: string, message: string, id: nat)
    requires to in s.incidents && id !in s.incidents
    ensures id !in Append(s, to, ts, topic, message).incidents
  {}

  lemma AddTakesNothing(s: Source, to: nat, ts: int, topic: string, message: string, id: nat)
    requires SourceOk(s) && id in s.incidents
    ensures TakesNothing(s, Add(s, to, ts, topic, message), id)
  {
    hide Append, SourceOk;
    IncidentNumbers(s, id);
    if to in s.incidents { AppendTakesNothing(s, to, ts, topic, message, id); }
  }

  lemma CloseTakesNothing(s: Source, to: nat, now: int, reason: string, id: nat)
    requires SourceOk(s) && id in s.incidents
    ensures TakesNothing(s, Close(s, to, now, reason), id)
  {
    hide Append, SourceOk;
    IncidentNumbers(s, id);
    if to in s.incidents {
      AppendTakesNothing(s.(incidents := s.incidents[to := s.incidents[to].(status := Closed)]), to, now, "incident", reason, id);
    }
  }

  lemma ServedTakesNothing(s: Source, cursor: string, now: int, id: nat)
    requires SourceOk(s) && id in s.incidents
    ensures TakesNothing(s, Served(s, cursor, now), id)
  {
    hide ParseCursor, After, SourceOk, KeepIds;
    IncidentNumbers(s, id);
  }

  lemma IncidentNumbers(s: Source, id: nat)
    requires SourceOk(s) && id in s.incidents
    ensures id <= s.nextID && s.incidents[id].ackedSeq <= s.incidents[id].lastSeq <= s.nextSeq
  {
    assert IncidentOk(s.log, s.incidents[id]);
  }
}
