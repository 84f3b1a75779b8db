// The escalation protocol and the store it delivers to, run together: an
// acknowledged event is in the store, or the store had a reason of its own.

module EscalationDelivery {
  import opened Basics
  import opened Cursor
  import opened EscalationModel
  import opened EventOrder
  import opened EventListing
  import opened Incidents
  import P = EscalationProtocol

  // annotateEscalationScrape: the scraper writes its name on what it passes on.
  function Annotated(doc: Doc, source: string): seq<Incoming> {
    seq(|doc.incidents|, i requires 0 <= i < |doc.incidents| => Incoming(source, source, doc.incidents[i]))
  }

  // lost: the events whose incident a sweep of the store found closed and idle for
  // longer than the time to live, and that no later reply has brought again.
  datatype System = System(w: P.World, sink: Sink, lost: set<P.Stored>)

  datatype Bounds = Bounds(cap: nat, ttl: int)

  datatype Action =
    | Net(action: P.Action, at: int)
    | SweepStore(now: int)
    | AcknowledgeStored(source: string, id: nat, at: int)

  ghost function IngestDoc(s: Sink, source: string, incoming: seq<Incoming>, at: int, b: Bounds): (r: Sink)
    requires SinkOk(s, b.cap)
    ensures SinkOk(r, b.cap)
  {
    if incoming == [] then s else
      var before := IngestDoc(s, source, incoming[..|incoming| - 1], at, b);
      StepKeepsSink(before, Ingest(source, incoming[|incoming| - 1], at), b.cap, b.ttl);
      Do(before, Ingest(source, incoming[|incoming| - 1], at), b.cap, b.ttl)
  }

  ghost function SweepAll(y: System, now: int, b: Bounds): (r: System)
    requires SinkOk(y.sink, b.cap)
    ensures SinkOk(r.sink, b.cap)
  {
    StepKeepsSink(y.sink, SweepAt(now), b.cap, b.ttl);
    System(y.w, Do(y.sink, SweepAt(now), b.cap, b.ttl),
           y.lost + set p | p in y.w.ingested && p.key.incident in y.sink.table && ClosedAndIdle(y.sink.table[p.key.incident], now, b.ttl))
  }

  ghost function Step(cfg: P.Config, b: Bounds, y: System, a: Action): (r: System)
    requires SinkOk(y.sink, b.cap)
    ensures SinkOk(r.sink, b.cap)
  {
    match a
    case Net(action, at) =>
      var w := P.Do(cfg, y.w, action);
      if action.Ingest? && action.ok && y.w.waiting && y.w.reply.Some? then
        var sink := IngestDoc(y.sink, cfg.origin, Annotated(y.w.reply.value, cfg.origin), at, b);
        SweepAll(System(w, sink, y.lost - P.Delivered(cfg, y.w.reply.value)), at, b)
      else y.(w := w)
    case SweepStore(now) => SweepAll(y, now, b)
    case AcknowledgeStored(source, id, at) =>
      StepKeepsSink(y.sink, AcknowledgeOne(source, id, at), b.cap, b.ttl);
      y.(sink := Do(y.sink, AcknowledgeOne(source, id, at), b.cap, b.ttl))
  }

  ghost function RunAll(cfg: P.Config, b: Bounds, epoch: string, actions: seq<Action>): (y: System)
    ensures SinkOk(y.sink, b.cap)
  {
    if actions == [] then System(P.Begin(epoch), Sink(map[], map[]), {})
    else Step(cfg, b, RunAll(cfg, b, epoch, actions[..|actions| - 1]), actions[|actions| - 1])
  }

  // The event arrived at the store, which has not forgotten its incident since.
  ghost predicate Arrived(seen: Seen, p: P.Stored) {
    p.key.incident in seen && p.key in seen[p.key.incident] && seen[p.key.incident][p.key].event == p.event
  }

  ghost predicate Together(cfg: P.Config, b: Bounds, y: System) {
    && P.Inv(cfg, y.w) && SinkOk(y.sink, b.cap)
    && (forall p :: p in y.w.ingested ==> p in y.lost || Arrived(y.sink.seen, p))
    && y.lost <= y.w.ingested
  }

  // ------------------------------------------------------------ what an ingest stores

  lemma {:induction false} PutHolds(m: Events, incident: IncidentKey, events: seq<Event>, at: int, key: EventKey, e: Event)
    requires key.incident == incident
    requires forall i :: 0 <= i < |events| && events[i].cursor == key.cursor ==> events[i] == e
    requires (key in m && m[key].event == e) || exists i :: 0 <= i < |events| && events[i].cursor == key.cursor
    ensures key in Put(m, incident, events, at) && Put(m, incident, events, at)[key].event == e
  {
    if events != [] {
      var rest, last := events[..|events| - 1], events[|events| - 1];
      assert forall i :: 0 <= i < |rest| ==> rest[i] == events[i];
      if last.cursor == key.cursor {
        assert events[|events| - 1] == e;
      } else {
        if !(key in m && m[key].event == e) {
          var i :| 0 <= i < |events| && events[i].cursor == key.cursor;
          assert rest[i].cursor == key.cursor;
        }
        PutHolds(m, incident, rest, at, key, e);
      }
    }
  }

  // An incoming incident holds an event under p's key.
  ghost predicate CarriesOne(incoming: Incoming, source: string, p: P.Stored) {
    KeyFor(source, incoming) == p.key.incident
    && exists j :: 0 <= j < |incoming.doc.events| && incoming.doc.events[j].cursor == p.key.cursor
  }

  // Whatever it holds under p's key is p's event.
  ghost predicate AgreesOne(incoming: Incoming, source: string, p: P.Stored) {
    KeyFor(source, incoming) == p.key.incident ==>
      forall j :: 0 <= j < |incoming.doc.events| && incoming.doc.events[j].cursor == p.key.cursor ==> incoming.doc.events[j] == p.event
  }

  lemma StepHolds(s: Sink, source: string, incoming: Incoming, at: int, b: Bounds, p: P.Stored)
    requires SinkOk(s, b.cap) && AllNumbered(incoming.doc.events) && AgreesOne(incoming, source, p)
    requires Arrived(s.seen, p) || CarriesOne(incoming, source, p)
    ensures Arrived(Do(s, Ingest(source, incoming, at), b.cap, b.ttl).seen, p)
  {
    hide Put, KeyFor, IngestOne;
    if KeyFor(source, incoming) == p.key.incident {
      PutHolds(SeenAt(s.seen, p.key.incident), p.key.incident, incoming.doc.events, at, p.key, p.event);
    }
  }

  ghost predicate Agrees(incoming: seq<Incoming>, source: string, p: P.Stored) {
    forall i :: 0 <= i < |incoming| ==> AgreesOne(incoming[i], source, p)
  }

  ghost predicate Carries(incoming: seq<Incoming>, source: string, p: P.Stored) {
    exists i :: 0 <= i < |incoming| && CarriesOne(incoming[i], source, p)
  }

  lemma {:induction false} IngestHolds(s: Sink, source: string, incoming: seq<Incoming>, at: int, b: Bounds, p: P.Stored)
    requires SinkOk(s, b.cap) && AllIncomingNumbered(incoming) && Agrees(incoming, source, p)
    requires Arrived(s.seen, p) || Carries(incoming, source, p)
    ensures Arrived(IngestDoc(s, source, incoming, at, b).seen, p)
  {
    hide SinkOk, Do, CarriesOne, AgreesOne, AllNumbered, Arrived;
    if incoming != [] {
      var rest, last := incoming[..|incoming| - 1], incoming[|incoming| - 1];
      assert forall i :: 0 <= i < |rest| ==> rest[i] == incoming[i];
      assert incoming[|incoming| - 1] == last;
      if Arrived(s.seen, p) || Carries(rest, source, p) {
        IngestHolds(s, source, rest, at, b, p);
      }
      StepHolds(IngestDoc(s, source, rest, at, b), source, last, at, b, p);
    }
  }

  // What a document delivers is what ingesting it hands to the store.
  lemma DeliveredIsCarried(cfg: P.Config, doc: Doc, p: P.Stored)
    requires p in P.Delivered(cfg, doc)
    ensures Carries(Annotated(doc, cfg.origin), cfg.origin, p)
  {
    var i, j :| 0 <= i < |doc.incidents| && 0 <= j < |doc.incidents[i].events| &&
      p == P.Stored(EventKey(IncidentKey(cfg.origin, doc.incidents[i].id, doc.incidents[i].createdAt), doc.incidents[i].events[j].cursor),
                    doc.incidents[i].events[j]);
    var incoming := Annotated(doc, cfg.origin);
    assert incoming[i].doc.events[j].cursor == p.key.cursor;
    assert CarriesOne(incoming[i], cfg.origin, p);
  }

  // The events of a reply are events the source appended.
  lemma ReplyEvents(cfg: P.Config, logs: map<string, seq<Entry>>, doc: Doc, i: nat, j: nat) returns (p: P.Stored)
    requires P.LogsOk(logs) && forall q :: q in P.Delivered(cfg, doc) ==> P.Genuine(cfg, logs, q)
    requires i < |doc.incidents| && j < |doc.incidents[i].events|
    ensures p == P.Stored(EventKey(IncidentKey(cfg.origin, doc.incidents[i].id, doc.incidents[i].createdAt), doc.incidents[i].events[j].cursor),
                          doc.incidents[i].events[j])
    ensures P.Genuine(cfg, logs, p) && SeqNumber(p.key.cursor).Some?
  {
    p := P.Stored(EventKey(IncidentKey(cfg.origin, doc.incidents[i].id, doc.incidents[i].createdAt), doc.incidents[i].events[j].cursor),
                  doc.incidents[i].events[j]);
    P.DeliveredAt(cfg, doc, i, doc.incidents[i].events[j]);
    var e, k :| e in logs && 0 <= k < |logs[e]| && p == P.StoredOf(cfg, logs[e][k]);
    assert LogOk(logs[e], e);
    IssuedIsNumbered(p.key.incident, k + 1, e);
  }

  lemma ReplyIsNumbered(cfg: P.Config, logs: map<string, seq<Entry>>, doc: Doc)
    requires P.LogsOk(logs) && forall q :: q in P.Delivered(cfg, doc) ==> P.Genuine(cfg, logs, q)
    ensures AllIncomingNumbered(Annotated(doc, cfg.origin))
  {
    hide SeqNumber, P.LogsOk, P.Genuine, P.Delivered;
    var incoming := Annotated(doc, cfg.origin);
    forall i | 0 <= i < |incoming| ensures AllNumbered(incoming[i].doc.events) {
      forall j | 0 <= j < |incoming[i].doc.events| ensures SeqNumber(incoming[i].doc.events[j].cursor).Some? {
        var p := ReplyEvents(cfg, logs, doc, i, j);
      }
    }
  }

  // A reply has one event at most for any key in use.
  lemma ReplyAgrees(cfg: P.Config, logs: map<string, seq<Entry>>, doc: Doc, p: P.Stored)
    requires P.LogsOk(logs) && P.Genuine(cfg, logs, p)
    requires forall q :: q in P.Delivered(cfg, doc) ==> P.Genuine(cfg, logs, q)
    ensures Agrees(Annotated(doc, cfg.origin), cfg.origin, p)
  {
    hide SeqNumber, P.LogsOk, P.Genuine, P.Delivered;
    var incoming := Annotated(doc, cfg.origin);
    forall i, j | 0 <= i < |incoming| && KeyFor(cfg.origin, incoming[i]) == p.key.incident
      && 0 <= j < |incoming[i].doc.events| && incoming[i].doc.events[j].cursor == p.key.cursor
      ensures incoming[i].doc.events[j] == p.event
    {
      var q := ReplyEvents(cfg, logs, doc, i, j);
      P.GenuineOnce(cfg, logs, p, q);
    }
    forall i | 0 <= i < |incoming| ensures AgreesOne(incoming[i], cfg.origin, p) {
      assert KeyFor(cfg.origin, incoming[i]) == p.key.incident ==>
        forall j :: 0 <= j < |incoming[i].doc.events| && incoming[i].doc.events[j].cursor == p.key.cursor ==> incoming[i].doc.events[j] == p.event;
    }
  }

  // -------------------------------------------------------------- every step keeps it

  lemma IngestTogether(cfg: P.Config, b: Bounds, y: System, at: int, p: P.Stored)
    requires Together(cfg, b, y) && y.w.waiting && y.w.reply.Some?
    requires p in y.w.ingested || p in P.Delivered(cfg, y.w.reply.value)
    ensures p in y.lost - P.Delivered(cfg, y.w.reply.value)
         || Arrived(IngestDoc(y.sink, cfg.origin, Annotated(y.w.reply.value, cfg.origin), at, b).seen, p)
  {
    hide SinkOk, P.Delivered, P.Genuine, P.LogsOk, P.AckedIngested, P.Covered, P.Issued, SourceOk, IngestDoc, Arrived;
    var logs, doc := P.Logs(y.w), y.w.reply.value;
    ReplyIsNumbered(cfg, logs, doc);
    ReplyAgrees(cfg, logs, doc, p);
    if p in P.Delivered(cfg, doc) { DeliveredIsCarried(cfg, doc, p); }
    if p !in y.lost - P.Delivered(cfg, doc) {
      IngestHolds(y.sink, cfg.origin, Annotated(doc, cfg.origin), at, b, p);
    }
  }

  lemma SweepTogether(b: Bounds, y: System, now: int, p: P.Stored)
    requires SinkOk(y.sink, b.cap) && p in y.w.ingested && (p in y.lost || Arrived(y.sink.seen, p))
    ensures p in SweepAll(y, now, b).lost || Arrived(SweepAll(y, now, b).sink.seen, p)
  {}

  lemma StepKeepsTogether(cfg: P.Config, b: Bounds, y: System, a: Action)
    requires Together(cfg, b, y)
    ensures Together(cfg, b, Step(cfg, b, y, a))
  {
    hide SinkOk, P.Inv, P.Delivered, SweepAll, IngestDoc, Arrived, Sweep, Start, Add, Close, Served, DocOf;
    match a
    case Net(action, at) =>
      P.StepKeepsInv(cfg, y.w, action);
      if action.Ingest? && action.ok && y.w.waiting && y.w.reply.Some? {
        var w := P.Do(cfg, y.w, action);
        var incoming := Annotated(y.w.reply.value, cfg.origin);
        var z := System(w, IngestDoc(y.sink, cfg.origin, incoming, at, b), y.lost - P.Delivered(cfg, y.w.reply.value));
        SweepKeepsWorld(z, at, b);
        forall p | p in w.ingested
          ensures p in SweepAll(z, at, b).lost || Arrived(SweepAll(z, at, b).sink.seen, p)
        {
          IngestTogether(cfg, b, y, at, p);
          SweepTogether(b, z, at, p);
        }
      } else {
        OnlyIngestStores(cfg, y.w, action);
      }
    case SweepStore(now) =>
      SweepKeepsWorld(y, now, b);
      forall p | p in y.w.ingested
        ensures p in SweepAll(y, now, b).lost || Arrived(SweepAll(y, now, b).sink.seen, p)
      {
        SweepTogether(b, y, now, p);
      }
    case AcknowledgeStored(source, id, at) =>
  }

  lemma SweepKeepsWorld(y: System, now: int, b: Bounds)
    requires SinkOk(y.sink, b.cap)
    ensures SweepAll(y, now, b).w == y.w
    ensures y.lost <= y.w.ingested ==> SweepAll(y, now, b).lost <= y.w.ingested
  {}

  lemma OnlyIngestStores(cfg: P.Config, w: P.World, action: P.Action)
    requires !(action.Ingest? && action.ok && w.waiting && w.reply.Some?)
    ensures P.Do(cfg, w, action).ingested == w.ingested
  {}

  lemma {:induction false} RunKeepsTogether(cfg: P.Config, b: Bounds, epoch: string, actions: seq<Action>)
    requires EpochOk(epoch)
    ensures Together(cfg, b, RunAll(cfg, b, epoch, actions))
  {
    hide P.Inv, SinkOk, Step;
    if actions == [] {
      P.RunKeepsInv(cfg, epoch, []);
    } else {
      RunKeepsTogether(cfg, b, epoch, actions[..|actions| - 1]);
      StepKeepsTogether(cfg, b, RunAll(cfg, b, epoch, actions[..|actions| - 1]), actions[|actions| - 1]);
    }
  }

  // ------------------------------------------------------------------- the result

  // What the source and the scraper did.
  function NetActions(actions: seq<Action>): seq<P.Action> {
    if actions == [] then [] else
      var a := actions[|actions| - 1];
      NetActions(actions[..|actions| - 1]) + (if a.Net? then [a.action] else [])
  }

  lemma {:induction false} WorldIsRun(cfg: P.Config, b: Bounds, epoch: string, actions: seq<Action>)
    ensures RunAll(cfg, b, epoch, actions).w == P.Run(cfg, P.Begin(epoch), NetActions(actions))
  {
    if actions != [] {
      hide P.Do, SweepAll, IngestDoc, Do;
      var rest, a := actions[..|actions| - 1], actions[|actions| - 1];
      WorldIsRun(cfg, b, epoch, rest);
      StepWorld(cfg, b, RunAll(cfg, b, epoch, rest), a);
      if a.Net? { P.RunSnoc(cfg, epoch, NetActions(rest), a.action); } else { assert NetActions(rest) + [] == NetActions(rest); }
    }
  }

  lemma StepWorld(cfg: P.Config, b: Bounds, y: System, a: Action)
    requires SinkOk(y.sink, b.cap)
    ensures Step(cfg, b, y, a).w == if a.Net? then P.Do(cfg, y.w, a.action) else y.w
  {
    hide P.Do, IngestDoc, Do;
  }

  // An event of the current epoch is buffered at its source; or it is stored; or
  // the store holds cap newer events of that incident; or since its last delivery
  // the store found its incident closed and idle for longer than the time to live;
  // or some Start or request came to the source after its incident's time.
  lemma NothingIsLostEndToEnd(cfg: P.Config, b: Bounds, epoch: string, actions: seq<Action>, k: nat)
    requires EpochOk(epoch)
    requires k < |RunAll(cfg, b, epoch, actions).w.src.log|
    ensures var y := RunAll(cfg, b, epoch, actions);
            var p := P.StoredOf(cfg, y.w.src.log[k]);
            || P.Buffered(y.w.src, k)
            || StoredOrCrowdedOut(y.sink.table, p, b.cap)
            || p in y.lost
            || y.w.src.log[k].id in P.Outlived(cfg, epoch, NetActions(actions))
  {
    hide P.Delivered, RunAll, Arrived, P.Covered, P.Issued, P.Genuine, P.LogsOk, SinkOk, P.ReplyOk, P.Outlived, P.Ends, P.Run;
    RunKeepsTogether(cfg, b, epoch, actions);
    WorldIsRun(cfg, b, epoch, actions);
    P.GoneIsOutlived(cfg, epoch, NetActions(actions), k);
    var y := RunAll(cfg, b, epoch, actions);
    var s := y.w.src;
    if s.log[k].id in s.incidents {
      if s.incidents[s.log[k].id].ackedSeq <= k {
        assert IncidentOk(s.log, s.incidents[s.log[k].id]);
        P.EventsOfMember(s.log, s.log[k].id, s.incidents[s.log[k].id].ackedSeq, k);
      } else {
        assert P.AckedAt(s, k);
        var p := P.StoredOf(cfg, s.log[k]);
        if Arrived(y.sink.seen, p) { ArrivedIsStored(y.sink, p, b); }
      }
    }
  }

  ghost predicate StoredOrCrowdedOut(table: Table, p: P.Stored, cap: nat) {
    && p.key.incident in table
    && var list := table[p.key.incident].events;
       (exists i :: 0 <= i < |list| && list[i].key == p.key && list[i].event == p.event)
       || (|list| == cap && forall e :: e in list ==> Newer(e.key, p.key))
  }

  lemma ArrivedIsStored(s: Sink, p: P.Stored, b: Bounds)
    requires SinkOk(s, b.cap) && Arrived(s.seen, p)
    ensures StoredOrCrowdedOut(s.table, p, b.cap)
  {
    hide Newer, Top, Ordered, OneIncident;
    var k := p.key.incident;
    var list := s.table[k].events;
    MapOfMembers(list);
    KeptList(list, s.seen[k], k, b.cap);
    if p.key in MapOf(list) {
      assert MapOf(list)[p.key] == s.seen[k][p.key];
      var i :| 0 <= i < |list| && list[i] == MapOf(list)[p.key];
      assert s.seen[k][p.key].key == p.key;
    }
  }
}
