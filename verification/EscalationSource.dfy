// The escalation source as the object it is (Escalations and localIncident in
// escalation.go), proved against the functions of EscalationModel.dfy. The clock is
// read by the caller and passed in.

module EscalationSource {
  import opened Basics
  import opened Cursor
  import opened EscalationModel

  class LocalIncident {
    const id: nat
    const title: string
    var status: Status
    const createdAt: int
    const expiresAt: int
    var lastUpdatedAt: int
    var events: seq<Event>
    var lastSeq: nat
    var ackedSeq: nat

    ghost function Model(): Incident
      reads this
    {
      Incident(id, title, status, createdAt, expiresAt, lastUpdatedAt, events, lastSeq, ackedSeq)
    }

    constructor (id: nat, title: string, now: int, expiresAt: int)
      ensures Model() == Incident(id, title, Open, now, expiresAt, now, [], 0, 0)
    {
      this.id, this.title, this.createdAt, this.expiresAt := id, title, now, expiresAt;
      status, lastUpdatedAt, events, lastSeq, ackedSeq := Open, now, [], 0, 0;
    }

    method Append(n: nat, now: int, event: Event)
      modifies this
      ensures Model() == old(Model()).(lastSeq := n, lastUpdatedAt := now, events := old(events) + [event])
    {
      lastSeq := n;
      lastUpdatedAt := now;
      events := events + [event];
    }

    // One turn of the loop of ackLocked.
    method Acknowledge(n: nat, epoch: string)
      modifies this
      ensures Model() == AckIncident(old(Model()), epoch, n)
    {
      if n > ackedSeq {
        ackedSeq := if n < lastSeq then n else lastSeq;
      }
      events := EventsAfter(epoch, n);
      if status == Closed && ackedSeq >= lastSeq {
        status := Acknowledged;
      }
    }

    method EventsAfter(epoch: string, n: nat) returns (kept: seq<Event>)
      ensures kept == After(events, epoch, n)
    {
      kept := [];
      for i := 0 to |events|
        invariant kept == After(events[..i], epoch, n)
      {
        assert events[..i + 1][..i] == events[..i];
        if ParseCursor(events[i].cursor, epoch) > n {
          kept := kept + [events[i]];
        }
      }
      assert events[..|events|] == events;
    }

    method TakeSnapshot(n: nat) returns (doc: IncidentDoc)
      ensures doc == SnapshotOf(Model(), n)
    {
      var shown := EventsAfter("", n);
      doc := IncidentDoc(id, title, status, createdAt, expiresAt, lastUpdatedAt, shown);
    }
  }

  class Escalations {
    const policy: Policy
    const epoch: string
    var nextID: nat
    var nextSeq: nat
    var incidents: map<nat, LocalIncident>
    var order: seq<nat>
    ghost var log: seq<Entry>

    // Every incident is filed under its own id, and the list of ids misses none.
    ghost predicate Valid()
      reads this`incidents, this`order
    {
      forall id :: id in incidents ==> incidents[id].id == id && id in order
    }

    ghost function Table(): map<nat, Incident>
      reads this`incidents, incidents.Values
    {
      map id | id in incidents :: incidents[id].Model()
    }

    ghost function Model(): Source
      reads this, incidents.Values
    {
      Source(epoch, nextID, nextSeq, Table(), order, log)
    }

    constructor (policy: Policy, epoch: string)
      ensures Valid() && Model() == NewSource(epoch) && this.policy == policy
    {
      this.policy, this.epoch := policy, epoch;
      nextID, nextSeq, incidents, order, log := 0, 0, map[], [], [];
    }

    method DropExpired(now: int)
      requires Valid()
      modifies this`incidents, this`order
      ensures Valid() && forall id :: id in incidents ==> id in old(incidents) && incidents[id] == old(incidents[id])
      ensures Model() == Expire(old(Model()), now)
    {
      hide KeepIds, Expired;
      ghost var table := Table();
      var kept := RemoveExpired(now);
      KeepIdsMember(order, table, now);
      order := kept;
      assert Table() == Survivors(table, now);
    }

    // The loop of dropExpiredLocked, which gives the ids that stay.
    method RemoveExpired(now: int) returns (kept: seq<nat>)
      requires Valid()
      modifies this`incidents
      ensures forall id :: id in incidents <==> id in old(incidents) && !Expired(old(incidents[id].Model()), now)
      ensures forall id :: id in incidents ==> incidents[id] == old(incidents[id])
      ensures kept == KeepIds(order, old(Table()), now)
    {
      hide KeepIds;
      ghost var table := Table();
      kept := [];
      KeepIdsNone(table, now);
      for i := 0 to |order|
        invariant incidents.Keys <= old(incidents.Keys)
        invariant forall id :: id in old(incidents) ==> (id !in incidents <==> id in order[..i] && Expired(table[id], now))
        invariant forall id :: id in incidents ==> incidents[id] == old(incidents[id])
        invariant kept == KeepIds(order[..i], table, now)
      {
        var id := order[i];
        KeepIdsSnoc(order, i, table, now);
        if id !in incidents {
          continue;
        }
        if incidents[id].expiresAt != ZERO_TIME && now > incidents[id].expiresAt {
          incidents := incidents - {id};
        } else {
          kept := kept + [id];
        }
      }
      assert order[..|order|] == order;
    }

    method CountUnacknowledged() returns (count: nat)
      ensures count == Unacknowledged(Table())
    {
      var rest := incidents.Keys;
      ghost var counted: set<nat> := {};
      count := 0;
      while rest != {}
        invariant rest <= incidents.Keys
        invariant counted == set id | id in incidents && id !in rest && incidents[id].lastSeq > incidents[id].ackedSeq
        invariant count == |counted|
        decreases rest
      {
        ghost var some := SomeElement(rest);
        var id :| id in rest;
        if incidents[id].lastSeq > incidents[id].ackedSeq {
          count := count + 1;
          counted := counted + {id};
        }
        rest := rest - {id};
      }
      assert counted == Pending(Table());
    }

    method AcknowledgeUpTo(n: nat)
      requires Valid()
      modifies incidents.Values
      ensures Model() == Ack(old(Model()), n)
    {
      var rest := incidents.Keys;
      while rest != {}
        invariant rest <= incidents.Keys
        invariant forall id :: id in incidents ==>
          incidents[id].Model() == if id in rest then old(incidents[id].Model()) else AckIncident(old(incidents[id].Model()), epoch, n)
        decreases rest
      {
        hide AckIncident;
        ghost var some := SomeElement(rest);
        var id :| id in rest;
        incidents[id].Acknowledge(n, epoch);
        rest := rest - {id};
      }
    }

    method AppendEvent(id: nat, now: int, topic: string, message: string)
      requires Valid() && id in incidents
      modifies this`nextSeq, this`log, incidents[id]
      ensures Model() == Append(old(Model()), id, now, topic, message)
    {
      hide FormatCursor;
      ghost var before := Table();
      var inc := incidents[id];
      nextSeq := nextSeq + 1;
      var event := Event(FormatCursor(nextSeq, epoch), now, topic, message);
      inc.Append(nextSeq, now, event);
      log := log + [Entry(id, inc.createdAt, event)];
      assert Table() == before[id := inc.Model()];
    }

    method Start(spec: Spec, now: int) returns (handle: Option<nat>)
      requires Valid()
      modifies this
      ensures Valid() && forall id :: id in incidents ==> fresh(incidents[id]) || (id in old(incidents) && incidents[id] == old(incidents[id]))
      ensures Model() == EscalationModel.Start(old(Model()), policy, spec, now)
      ensures handle == if OverBudget(Expire(old(Model()), now), policy) then None else Some(nextID)
    {
      hide Expire, Append, Unacknowledged, Opened;
      DropExpired(now);
      if policy.maxUnacknowledged > 0 {
        var pending := CountUnacknowledged();
        if pending >= policy.maxUnacknowledged {
          return None;
        }
      }
      OpenIncident(spec, now);
      return Some(nextID);
    }

    // The part of Start past the budget check.
    method OpenIncident(spec: Spec, now: int)
      requires Valid()
      modifies this
      ensures Valid() && forall id :: id in incidents ==> fresh(incidents[id]) || (id in old(incidents) && incidents[id] == old(incidents[id]))
      ensures nextID == old(nextID) + 1
      ensures Model() == Append(Opened(old(Model()), policy, spec, now), nextID, now, "incident", "created")
    {
      hide Append, Opened;
      FileIncident(spec, now);
      AppendEvent(nextID, now, "incident", "created");
    }

    // Files the incident under the next id, without an event yet.
    method FileIncident(spec: Spec, now: int)
      requires Valid()
      modifies this`nextID, this`incidents, this`order
      ensures Valid() && nextID == old(nextID) + 1 && nextID in incidents && fresh(incidents[nextID])
      ensures forall id :: id in incidents && id != nextID ==> id in old(incidents) && incidents[id] == old(incidents[id])
      ensures Model() == Opened(old(Model()), policy, spec, now)
    {
      ghost var live := Table();
      var ttl := spec.ttl;
      if ttl <= 0 {
        ttl := policy.ttl;
      }
      nextID := nextID + 1;
      var inc := new LocalIncident(nextID, spec.title, now, now + ttl);
      incidents := incidents[nextID := inc];
      order := order + [nextID];
      assert Table() == live[nextID := inc.Model()];
    }

    // Escalation.add: AddLog and AddData, the latter with the zero time.
    method AddEvent(id: nat, ts: int, topic: string, message: string, now: int)
      requires Valid()
      modifies this, incidents.Values
      ensures Valid()
      ensures Model() == Add(old(Model()), id, if ts == ZERO_TIME then now else ts, topic, message)
    {
      if id !in incidents {
        return;
      }
      var at := ts;
      if at == ZERO_TIME {
        at := now;
      }
      AppendEvent(id, at, topic, message);
    }

    method CloseIncident(id: nat, reason: string, now: int)
      requires Valid()
      modifies this, incidents.Values
      ensures Valid()
      ensures Model() == Close(old(Model()), id, now, reason)
    {
      if id !in incidents {
        return;
      }
      incidents[id].status := Closed;
      AppendEvent(id, now, "incident", reason);
    }

    method EscalationDisplay(after: string, ack: string, now: int) returns (doc: Doc)
      requires Valid()
      modifies this, incidents.Values
      ensures Valid()
      ensures Model() == Served(old(Model()), ack, now)
      ensures doc == DocOf(Model(), after)
    {
      DropExpired(now);
      var ackSeq := ParseCursor(ack, epoch);
      if ackSeq > 0 {
        AcknowledgeUpTo(ackSeq);
      }
      var afterSeq := ParseCursor(after, epoch);
      var shown := ShownAfter(afterSeq);
      doc := Doc(FormatCursor(nextSeq, epoch), shown);
    }

    method ShownAfter(n: nat) returns (docs: seq<IncidentDoc>)
      ensures docs == Snapshots(order, Table(), n)
    {
      docs := [];
      for i := 0 to |order|
        invariant docs == Snapshots(order[..i], Table(), n)
      {
        var id := order[i];
        assert order[..i + 1][..i] == order[..i];
        if id !in incidents || incidents[id].lastSeq <= n {
          continue;
        }
        if |incidents[id].events| == 0 && incidents[id].ackedSeq >= incidents[id].lastSeq {
          continue;
        }
        var snapshot := incidents[id].TakeSnapshot(n);
        docs := docs + [snapshot];
      }
      assert order[..|order|] == order;
    }
  }

  lemma KeepIdsNone(incidents: map<nat, Incident>, now: int)
    ensures KeepIds([], incidents, now) == []
  {}

  lemma KeepIdsSnoc(order: seq<nat>, i: nat, incidents: map<nat, Incident>, now: int)
    requires i < |order|
    ensures order[..i + 1] == order[..i] + [order[i]]
    ensures KeepIds(order[..i + 1], incidents, now) == KeepIds(order[..i], incidents, now) +
      (if order[i] in incidents && !Expired(incidents[order[i]], now) then [order[i]] else [])
  {
    assert order[..i + 1][..i] == order[..i];
  }
}
