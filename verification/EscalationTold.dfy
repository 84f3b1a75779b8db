// What a source holds and shows, told by what was asked of it (escalation.go).

module EscalationTold {
  import opened Basics
  import opened Cursor
  import opened EscalationModel
  import opened EscalationProtocol

  // An event as it was asked for.
  datatype Said = Said(id: nat, timestamp: int, topic: string, message: string)

  // An incident as it was asked for.
  datatype Face = Face(title: string, status: Status, createdAt: int, expiresAt: int, updatedAt: int)

  // A Start opened an incident.
  predicate Opened(cfg: Config, w: World, a: Action) { a.StartIncident? && Do(cfg, w, a).src.nextID > w.src.nextID }

  // The source still holds the incident, and has a number left.
  predicate Takes(w: World, id: nat) { id in w.src.incidents && w.src.nextSeq < MAX_UINT64 }

  function SaidBy(cfg: Config, w: World, a: Action): seq<Said> {
    match a
    case StartIncident(_, now) => if Opened(cfg, w, a) then [Said(w.src.nextID + 1, now, "incident", "created")] else []
    case AddLog(id, ts, topic, message) => if Takes(w, id) then [Said(id, ts, topic, message)] else []
    case CloseIncident(id, now, reason) => if Takes(w, id) then [Said(id, now, "incident", reason)] else []
    case _ => []
  }

  // Everything asked for in the current epoch that was taken, in order.
  function Words(cfg: Config, epoch: string, actions: seq<Action>): seq<Said> {
    if actions == [] then [] else
      var rest, a := actions[..|actions| - 1], actions[|actions| - 1];
      var w := Run(cfg, Begin(epoch), rest);
      if Do(cfg, w, a).src.epoch != w.src.epoch then [] else Words(cfg, epoch, rest) + SaidBy(cfg, w, a)
  }

  // Nothing is left of the incident to acknowledge.
  predicate Cleared(s: Source, id: nat) { id in s.incidents && s.incidents[id].events == [] }

  function Acknowledge(faces: map<nat, Face>, s: Source): map<nat, Face> {
    map id | id in faces :: if faces[id].status == Closed && Cleared(s, id) then faces[id].(status := Acknowledged) else faces[id]
  }

  function FacesAfter(cfg: Config, w: World, a: Action, faces: map<nat, Face>): map<nat, Face> {
    match a
    case StartIncident(spec, now) =>
      if Opened(cfg, w, a) then faces[w.src.nextID + 1 := Face(spec.title, Open, now, now + TimeToLive(cfg.policy, spec), now)] else faces
    case AddLog(id, ts, _, _) => if Takes(w, id) && id in faces then faces[id := faces[id].(updatedAt := ts)] else faces
    case CloseIncident(id, now, _) => if Takes(w, id) && id in faces then faces[id := faces[id].(status := Closed, updatedAt := now)] else faces
    case Serve(cursor, _) => if cursor in w.sent then Acknowledge(faces, Do(cfg, w, a).src) else faces
    case _ => faces
  }

  // The incidents opened in the current epoch: open until closed, acknowledged by
  // the first request after that which leaves nothing of them to acknowledge.
  function Faces(cfg: Config, epoch: string, actions: seq<Action>): map<nat, Face> {
    if actions == [] then map[] else
      var rest, a := actions[..|actions| - 1], actions[|actions| - 1];
      var w := Run(cfg, Begin(epoch), rest);
      if Do(cfg, w, a).src.epoch != w.src.epoch then map[] else FacesAfter(cfg, w, a, Faces(cfg, epoch, rest))
  }

  predicate LooksLike(inc: Incident, face: Face) {
    && inc.title == face.title && inc.status == face.status && inc.createdAt == face.createdAt
    && inc.expiresAt == face.expiresAt && inc.lastUpdatedAt == face.updatedAt
  }

  ghost predicate LooksRight(s: Source, faces: map<nat, Face>) {
    forall id :: id in s.incidents ==> id in faces && LooksLike(s.incidents[id], faces[id])
  }

  predicate IsAsSaid(e: Entry, said: Said) {
    e.id == said.id && e.event.timestamp == said.timestamp && e.event.topic == said.topic && e.event.message == said.message
  }

  ghost predicate SaidRight(log: seq<Entry>, words: seq<Said>) {
    |log| == |words| && forall k :: 0 <= k < |log| ==> IsAsSaid(log[k], words[k])
  }

  // ------------------------------------------------------------------- every step

  lemma ExpiredLooks(s: Source, faces: map<nat, Face>, now: int)
    requires LooksRight(s, faces)
    ensures LooksRight(Expire(s, now), faces) && Expire(s, now).log == s.log
  {}

  lemma AppendSays(s: Source, id: nat, ts: int, topic: string, message: string, words: seq<Said>)
    requires id in s.incidents && SaidRight(s.log, words)
    ensures SaidRight(Append(s, id, ts, topic, message).log, words + [Said(id, ts, topic, message)])
  {
    hide FormatCursor;
  }

  lemma AppendLooks(s: Source, id: nat, ts: int, topic: string, message: string, faces: map<nat, Face>)
    requires id in s.incidents && LooksRight(s, faces)
    ensures LooksRight(Append(s, id, ts, topic, message), faces[id := faces[id].(updatedAt := ts)])
  {
    hide FormatCursor;
  }

  lemma StartTold(s: Source, policy: Policy, spec: Spec, now: int, faces: map<nat, Face>, words: seq<Said>)
    requires SourceOk(s) && LooksRight(s, faces) && SaidRight(s.log, words)
    ensures var s', id := Start(s, policy, spec, now), s.nextID + 1;
            if s'.nextID > s.nextID
            then LooksRight(s', faces[id := Face(spec.title, Open, now, now + TimeToLive(policy, spec), now)])
                 && SaidRight(s'.log, words + [Said(id, now, "incident", "created")])
            else LooksRight(s', faces) && SaidRight(s'.log, words)
  {
    hide Append, OverBudget, LooksRight, SaidRight, SourceOk, Expire;
    ExpiredLooks(s, faces, now);
    ExpireKeeps(s, now);
    var live, id := Expire(s, now), s.nextID + 1;
    if !OverBudget(live, policy) {
      var begun, face := EscalationModel.Opened(live, policy, spec, now), Face(spec.title, Open, now, now + TimeToLive(policy, spec), now);
      OpenedLooks(live, policy, spec, now, faces);
      AppendLooks(begun, id, now, "incident", "created", faces[id := face]);
      AppendSays(begun, id, now, "incident", "created", words);
      AppendNumbers(begun, id, now, "incident", "created");
      assert faces[id := face][id := face] == faces[id := face];
    }
  }

  lemma OpenedLooks(s: Source, policy: Policy, spec: Spec, now: int, faces: map<nat, Face>)
    requires LooksRight(s, faces)
    ensures LooksRight(EscalationModel.Opened(s, policy, spec, now),
                       faces[s.nextID + 1 := Face(spec.title, Open, now, now + TimeToLive(policy, spec), now)])
  {}

  lemma CloseTold(s: Source, id: nat, now: int, reason: string, faces: map<nat, Face>, words: seq<Said>)
    requires id in s.incidents && LooksRight(s, faces) && SaidRight(s.log, words)
    ensures LooksRight(Close(s, id, now, reason), faces[id := faces[id].(status := Closed, updatedAt := now)])
    ensures SaidRight(Close(s, id, now, reason).log, words + [Said(id, now, "incident", reason)])
  {
    hide Append, SaidRight;
    var closed, shut := s.(incidents := s.incidents[id := s.incidents[id].(status := Closed)]), faces[id := faces[id].(status := Closed)];
    assert LooksRight(closed, shut);
    AppendLooks(closed, id, now, "incident", reason, shut);
    AppendSays(closed, id, now, "incident", reason, words);
    assert shut[id := shut[id].(updatedAt := now)] == faces[id := faces[id].(status := Closed, updatedAt := now)];
  }

  // A closed incident has something left to acknowledge.
  lemma ClosedHasMore(s: Source, id: nat)
    requires SourceOk(s) && id in s.incidents
    ensures s.incidents[id].events == [] <==> s.incidents[id].ackedSeq >= s.incidents[id].lastSeq
    ensures s.incidents[id].status == Closed ==> s.incidents[id].events != []
  {
    var inc := s.incidents[id];
    assert IncidentOk(s.log, inc);
    if inc.ackedSeq < inc.lastSeq {
      EventsOfMember(s.log, id, inc.ackedSeq, inc.lastSeq - 1);
    } else {
      EventsOfNone(s.log, id, inc.ackedSeq);
    }
  }

  lemma ServedTold(s: Source, cursor: string, now: int, faces: map<nat, Face>)
    requires SourceOk(s) && LooksRight(s, faces)
    ensures LooksRight(Served(s, cursor, now), Acknowledge(faces, Served(s, cursor, now)))
    ensures Served(s, cursor, now).log == s.log
  {
    hide SourceOk, ParseCursor, After, Expire;
    var live, after := Expire(s, now), Served(s, cursor, now);
    ServedOk(s, cursor, now);
    ExpireOk(s, now);
    ExpiredLooks(s, faces, now);
    forall id | id in after.incidents ensures LooksLike(after.incidents[id], Acknowledge(faces, after)[id]) {
      ClosedHasMore(after, id);
      ClosedHasMore(live, id);
    }
  }

  lemma StepTold(cfg: Config, w: World, a: Action, faces: map<nat, Face>, words: seq<Said>)
    requires SourceOk(w.src) && LooksRight(w.src, faces) && SaidRight(w.src.log, words)
    ensures var w' := Do(cfg, w, a);
            w'.src.epoch == w.src.epoch ==> LooksRight(w'.src, FacesAfter(cfg, w, a, faces)) && SaidRight(w'.src.log, words + SaidBy(cfg, w, a))
  {
    hide SourceOk, LooksRight, SaidRight, Start, Append, Close, Served, Acknowledge, DocOf, Delivered, EpochOk;
    assert words + [] == words;
    match a
    case StartIncident(spec, now) => StartTold(w.src, cfg.policy, spec, now, faces, words);
    case AddLog(id, ts, topic, message) =>
      if Takes(w, id) {
        AppendLooks(w.src, id, ts, topic, message, faces);
        AppendSays(w.src, id, ts, topic, message, words);
        HasFace(w.src, faces, id);
      }
    case CloseIncident(id, now, reason) =>
      if Takes(w, id) {
        CloseTold(w.src, id, now, reason, faces, words);
        HasFace(w.src, faces, id);
      } else {
        NothingClosed(w.src, id, now, reason);
      }
    case Serve(cursor, now) => ServedTold(w.src, cursor, now, faces);
    case _ =>
  }

  lemma HasFace(s: Source, faces: map<nat, Face>, id: nat)
    requires LooksRight(s, faces) && id in s.incidents
    ensures id in faces
  {}

  lemma NothingClosed(s: Source, id: nat, now: int, reason: string)
    ensures id !in s.incidents ==> Close(s, id, now, reason) == s
  {}

  // Over any run: the events of the current epoch are those asked for, each once and
  // in the order asked; and every incident still held has the title it was given,
  // the times it was started, updated and is to expire at, and the status that its
  // closing and the requests since make it.
  lemma {:induction false} RunTold(cfg: Config, epoch: string, actions: seq<Action>)
    requires EpochOk(epoch)
    ensures var s := Run(cfg, Begin(epoch), actions).src;
            SaidRight(s.log, Words(cfg, epoch, actions)) && LooksRight(s, Faces(cfg, epoch, actions))
  {
    if actions != [] {
      hide SourceOk, LooksRight, SaidRight, Do, FacesAfter, SaidBy, Inv, EpochOk;
      var rest, a := actions[..|actions| - 1], actions[|actions| - 1];
      var w := Run(cfg, Begin(epoch), rest);
      RunTold(cfg, epoch, rest);
      RunKeepsInv(cfg, epoch, rest);
      InvSourceOk(cfg, w);
      StepTold(cfg, w, a, Faces(cfg, epoch, rest), Words(cfg, epoch, rest));
      NewEpochTold(cfg, w, a);
    }
  }

  lemma NewEpochTold(cfg: Config, w: World, a: Action)
    ensures var s := Do(cfg, w, a).src;
            s.epoch != w.src.epoch ==> LooksRight(s, map[]) && SaidRight(s.log, [])
  {
    hide Start, Add, Close, Served, DocOf, Delivered;
    match a
    case StartIncident(spec, now) => StartEpoch(w.src, cfg.policy, spec, now);
    case AddLog(id, ts, topic, message) => AddForward(w.src, id, ts, topic, message);
    case CloseIncident(id, now, reason) => CloseForward(w.src, id, now, reason);
    case Serve(cursor, now) => ServedEpoch(w.src, cursor, now);
    case _ =>
  }

  // ------------------------------------------------------------------- a document

  // The events of an incident past a cursor that nobody has acknowledged yet.
  function Unread(s: Source, id: nat, n: nat): seq<Event>
    requires id in s.incidents
  {
    EventsOf(s.log, id, if s.incidents[id].ackedSeq < n then n else s.incidents[id].ackedSeq)
  }

  lemma ShownExactly(s: Source, id: nat, after: string)
    requires SourceOk(s) && id in s.incidents
    ensures var n := ParseCursor(after, s.epoch);
            && SnapshotOf(s.incidents[id], n).events == Unread(s, id, n)
            && (Shown(s.incidents[id], n) <==> Unread(s, id, n) != [])
  {
    hide ParseCursor;
    var inc, n := s.incidents[id], ParseCursor(after, s.epoch);
    SnapshotEvents(s, id, after);
    ClosedHasMore(s, id);
    assert IncidentOk(s.log, inc);
    var lo := if inc.ackedSeq < n then n else inc.ackedSeq;
    if lo < inc.lastSeq {
      EventsOfMember(s.log, id, lo, inc.lastSeq - 1);
    } else {
      EventsOfNone(s.log, id, lo);
    }
  }

  ghost predicate IdsFrom(docs: seq<IncidentDoc>, order: seq<nat>) { forall doc :: doc in docs ==> doc.id in order }

  ghost predicate IdsApart(docs: seq<IncidentDoc>) { forall i, j :: 0 <= i < j < |docs| ==> docs[i].id != docs[j].id }

  lemma {:induction false} SnapshotIds(order: seq<nat>, incidents: map<nat, Incident>, n: nat)
    requires EscalationModel.Distinct(order) && forall id :: id in incidents ==> incidents[id].id == id
    ensures IdsFrom(Snapshots(order, incidents, n), order) && IdsApart(Snapshots(order, incidents, n))
  {
    if order != [] {
      hide Shown, After;
      var rest, last := order[..|order| - 1], order[|order| - 1];
      SnapshotIds(rest, incidents, n);
      assert last !in rest && order == rest + [last];
      if last in incidents && Shown(incidents[last], n) {
        OneMoreDoc(Snapshots(rest, incidents, n), rest, SnapshotOf(incidents[last], n));
      }
    }
  }

  lemma OneMoreDoc(docs: seq<IncidentDoc>, order: seq<nat>, doc: IncidentDoc)
    requires IdsFrom(docs, order) && IdsApart(docs) && doc.id !in order
    ensures IdsFrom(docs + [doc], order + [doc.id]) && IdsApart(docs + [doc])
  {
    forall i | 0 <= i < |docs| ensures docs[i].id != doc.id { assert docs[i] in docs; }
  }

  // What a document says of an incident.
  ghost predicate DocRight(doc: IncidentDoc, s: Source, faces: map<nat, Face>, n: nat) {
    && doc.id in s.incidents && doc.id in faces
    && doc.title == faces[doc.id].title && doc.status == faces[doc.id].status && doc.createdAt == faces[doc.id].createdAt
    && doc.expiresAt == faces[doc.id].expiresAt && doc.lastUpdatedAt == faces[doc.id].updatedAt
    && doc.events == Unread(s, doc.id, n) != []
  }

  ghost predicate Lists(docs: seq<IncidentDoc>, id: nat) { exists i :: 0 <= i < |docs| && docs[i].id == id }

  // In every reachable state a document has each incident that has something unread
  // past the cursor once, and no other; it shows the incident as it was asked for,
  // with exactly that; and its watermark is the number of the last event of all.
  lemma DocumentTells(cfg: Config, epoch: string, actions: seq<Action>, after: string)
    requires EpochOk(epoch)
    ensures var s := Run(cfg, Begin(epoch), actions).src;
            var doc, n := DocOf(s, after), ParseCursor(after, s.epoch);
            && doc.watermark == FormatCursor(|Words(cfg, epoch, actions)|, s.epoch)
            && (forall id :: Lists(doc.incidents, id) <==> id in s.incidents && Unread(s, id, n) != [])
            && IdsApart(doc.incidents)
            && (forall i :: 0 <= i < |doc.incidents| ==> DocRight(doc.incidents[i], s, Faces(cfg, epoch, actions), n))
  {
    hide Run, Words, Faces, Inv, ParseCursor, FormatCursor, SourceOk, Shown, SnapshotOf, Snapshots, Unread, EpochOk;
    RunTold(cfg, epoch, actions);
    RunKeepsInv(cfg, epoch, actions);
    InvSourceOk(cfg, Run(cfg, Begin(epoch), actions));
    DocOfTells(Run(cfg, Begin(epoch), actions).src, Faces(cfg, epoch, actions), after);
    LogIsNumbered(Run(cfg, Begin(epoch), actions).src);
  }

  lemma LogIsNumbered(s: Source)
    requires SourceOk(s)
    ensures s.nextSeq == |s.log|
  {}

  lemma DocOfTells(s: Source, faces: map<nat, Face>, after: string)
    requires SourceOk(s) && LooksRight(s, faces)
    ensures var docs, n := DocOf(s, after).incidents, ParseCursor(after, s.epoch);
            && (forall id :: Lists(docs, id) <==> id in s.incidents && Unread(s, id, n) != [])
            && IdsApart(docs)
            && (forall i :: 0 <= i < |docs| ==> DocRight(docs[i], s, faces, n))
  {
    hide ParseCursor, FormatCursor, Shown, Unread, IncidentOk, After, Snapshots, LogOk;
    var docs, n := DocOf(s, after).incidents, ParseCursor(after, s.epoch);
    SnapshotIds(s.order, s.incidents, n);
    forall i | 0 <= i < |docs| ensures DocRight(docs[i], s, faces, n) {
      ListedIsShown(s, n, docs[i]);
      ShownExactly(s, docs[i].id, after);
    }
    forall id | id in s.incidents && Unread(s, id, n) != [] ensures Lists(docs, id) {
      ShownExactly(s, id, after);
      SnapshotsHold(s.order, s.incidents, n, id);
      var i :| 0 <= i < |docs| && docs[i] == SnapshotOf(s.incidents[id], n);
    }
  }

  lemma ListedIsShown(s: Source, n: nat, x: IncidentDoc)
    requires SourceOk(s) && x in Snapshots(s.order, s.incidents, n)
    ensures x.id in s.incidents && x == SnapshotOf(s.incidents[x.id], n) && Shown(s.incidents[x.id], n)
  {
    OnlyShown(s.order, s.incidents, n, x);
  }

  lemma {:induction false} OnlyShown(order: seq<nat>, incidents: map<nat, Incident>, n: nat, x: IncidentDoc)
    requires x in Snapshots(order, incidents, n) && forall id :: id in incidents ==> incidents[id].id == id
    ensures x.id in incidents && x == SnapshotOf(incidents[x.id], n) && Shown(incidents[x.id], n)
  {
    hide Shown;
    var last := order[|order| - 1];
    if !(last in incidents && Shown(incidents[last], n) && x == SnapshotOf(incidents[last], n)) {
      OnlyShown(order[..|order| - 1], incidents, n, x);
    }
  }

  // --------------------------------------------------------------------- the budget

  // The incidents with something to acknowledge.
  function Waiting(incidents: map<nat, Incident>): set<nat> { set id | id in incidents && incidents[id].events != [] }

  // A Start is refused exactly if there is a budget, and that many of the incidents
  // still within their time have something left to acknowledge.
  lemma RefusedExactly(s: Source, policy: Policy, spec: Spec, now: int)
    requires SourceOk(s)
    ensures Start(s, policy, spec, now).nextID == s.nextID <==>
              policy.maxUnacknowledged > 0 && |Waiting(Expire(s, now).incidents)| >= policy.maxUnacknowledged
  {
    hide SourceOk, Expire, Append;
    var live := Expire(s, now);
    ExpireOk(s, now);
    ExpireKeeps(s, now);
    forall id | id in live.incidents ensures id in Waiting(live.incidents) <==> id in Pending(live.incidents) {
      ClosedHasMore(live, id);
    }
    assert Waiting(live.incidents) == Pending(live.incidents);
    OpenedIs(live, policy, spec, now);
    AppendNumbers(EscalationModel.Opened(live, policy, spec, now), live.nextID + 1, now, "incident", "created");
  }
}
