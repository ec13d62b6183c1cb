/** `core/extension_devices.py` and the batch endpoint of `api/extension_ingest.py`: workstation events are
    delivered at least once, and stored exactly once in a hash chain.

    The table is the one tenant's part of `extension_events`: every query is restricted to a tenant, or to
    a device, and a device belongs to one tenant. */
module ExtensionEvents {
  import opened Basics
  import opened JsonText
  import opened Timestamps
  import opened HashChain

  /** One delivery of an event.  `payload` is the JSON object, its keys sorted; `received` is the server's clock. */
  datatype Event = Event(device: string, id: string, source: string, payload: Json, received: Instant)

  datatype Row = Row(event: Event, prev: string, hash: string)

  const KEYS := ["device", "event", "payload", "source", "tenant"]

  const SIGNED_KEYS := ["data", "received_at"]

  function SignedColumn(e: Event, i: int): Json { if i == 0 then e.payload else Str(CanonicalTs(e.received)) }

  function Column(tenant: string, e: Event, i: int): Json {
    match i
    case 0 => Str(e.device)
    case 1 => Str(e.id)
    case 2 => Record(SIGNED_KEYS, j => SignedColumn(e, j))
    case 3 => Str(e.source)
    case _ => Str(tenant)
  }

  /** What is chained: identity, source, and the payload with its reception time. */
  function EventText(tenant: string, e: Event): string { Text(Record(KEYS, Columns(tenant, e))) }

  function Columns(tenant: string, e: Event): int -> Json { i => Column(tenant, e, i) }

  lemma SignedInjective(d: Event, e: Event)
    requires Column("", d, 2) == Column("", e, 2)
    ensures d.payload == e.payload && d.received == e.received
  {
    var f, g := Column("", d, 2).fields, Column("", e, 2).fields;
    assert f[0].value == g[0].value && f[1].value == g[1].value;
    CanonicalTsInjective(d.received, e.received);
  }

  predicate SameColumn(t: string, d: Event, u: string, e: Event, i: int) { Column(t, d, i) == Column(u, e, i) }

  lemma ExactColumn(t: string, e: Event, i: int)
    requires Exact(e.payload)
    ensures Exact(Column(t, e, i))
  {
  }

  /** The chained text binds tenant, device, event id, source, payload and reception time. */
  lemma EventTextInjective(t: string, d: Event, u: string, e: Event)
    requires Exact(d.payload) && Exact(e.payload) && EventText(t, d) == EventText(u, e)
    ensures t == u && d == e
  {
    forall i ensures Exact(Columns(t, d)(i)) && Exact(Columns(u, e)(i)) { ExactColumn(t, d, i); ExactColumn(u, e, i); }
    RecordInjective(KEYS, Columns(t, d), Columns(u, e));
    forall i | 0 <= i < 5 ensures SameColumn(t, d, u, e, i) {
      assert Columns(t, d)(i) == Columns(u, e)(i);
    }
    assert SameColumn(t, d, u, e, 0) && SameColumn(t, d, u, e, 1) && SameColumn(t, d, u, e, 2);
    assert SameColumn(t, d, u, e, 3) && SameColumn(t, d, u, e, 4);
    SignedInjective(d, e);
  }

  function ToLink(tenant: string, r: Row): Link { Link(EventText(tenant, r.event), r.prev, r.hash) }

  function Links(tenant: string, rows: seq<Row>): seq<Link> {
    if rows == [] then [] else Links(tenant, rows[..|rows| - 1]) + [ToLink(tenant, rows[|rows| - 1])]
  }

  /** The unique key `(device_id, event_id)`. */
  predicate SameKey(d: Event, e: Event) { d.device == e.device && d.id == e.id }

  /** A delivery that repeats a stored event: same key, same source, same payload. */
  predicate SameEvent(d: Event, e: Event) { SameKey(d, e) && d.source == e.source && d.payload == e.payload }

  /** `select source, payload ... where device_id = .. and event_id = ..` */
  function Find(rows: seq<Row>, e: Event): Option<Event> {
    if rows == [] then None
    else if SameKey(rows[|rows| - 1].event, e) then Some(rows[|rows| - 1].event)
    else Find(rows[..|rows| - 1], e)
  }

  function NewRow(sha: Sha, tenant: string, rows: seq<Row>, e: Event): Row {
    var l := NextLink(sha, Links(tenant, rows), EventText(tenant, e));
    Row(e, l.prev, l.hash)
  }

  /** `event_id_conflict` */
  datatype Conflict = EventIdConflict

  /** The table after one delivery: unchanged by a repetition, refused on a conflict. */
  function Recorded(sha: Sha, tenant: string, rows: seq<Row>, e: Event): Result<seq<Row>, Conflict> {
    var duplicate := Find(rows, e);
    if duplicate.None? then Ok(rows + [NewRow(sha, tenant, rows, e)])
    else if SameEvent(duplicate.value, e) then Ok(rows)
    else Err(EventIdConflict)
  }

  /** The table after the deliveries of one batch, all or nothing. */
  function Ingested(sha: Sha, tenant: string, rows: seq<Row>, batch: seq<Event>): Result<seq<Row>, Conflict> {
    if batch == [] then Ok(rows)
    else
      var before := Ingested(sha, tenant, rows, batch[..|batch| - 1]);
      if before.Err? then before else Recorded(sha, tenant, before.value, batch[|batch| - 1])
  }

  class EventStore {
    const tenant: string
    var rows: seq<Row>

    constructor (tenant: string)
      ensures rows == [] && this.tenant == tenant
    {
      this.tenant := tenant;
      rows := [];
    }

    /** `record`, one transaction under the tenant's lock */
    method Record(sha: Sha, e: Event) returns (r: Result<(), Conflict>)
      modifies this
      ensures r.Ok? <==> Recorded(sha, tenant, old(rows), e).Ok?
      ensures rows == if r.Ok? then Recorded(sha, tenant, old(rows), e).value else old(rows)
    {
      var duplicate := Find(rows, e);
      if duplicate.Some? {
        if duplicate.value.source != e.source || duplicate.value.payload != e.payload {
          return Err(EventIdConflict);
        }
        FoundHasKey(rows, e);
        return Ok(());
      }
      var prev := Tip(Links(tenant, rows));
      var digest := sha(prev + EventText(tenant, e));
      rows := rows + [Row(e, prev, digest)];
      r := Ok(());
    }

    /** The batch endpoint: one transaction, rolled back when a record raises. */
    method IngestBatch(sha: Sha, batch: seq<Event>) returns (r: Result<(), Conflict>)
      modifies this
      ensures r.Ok? <==> Ingested(sha, tenant, old(rows), batch).Ok?
      ensures rows == if r.Ok? then Ingested(sha, tenant, old(rows), batch).value else old(rows)
    {
      ghost var before := rows;
      var savepoint := rows;
      for k := 0 to |batch|
        invariant savepoint == before
        invariant Ingested(sha, tenant, before, batch[..k]) == Ok(rows)
      {
        IngestStep(sha, tenant, before, batch, k);
        var one := Record(sha, batch[k]);
        if one.Err? {
          rows := savepoint;
          ConflictStays(sha, tenant, before, batch, k + 1);
          return Err(EventIdConflict);
        }
      }
      assert batch[..|batch|] == batch;
      r := Ok(());
    }

    /** `verify` */
    method Verify(sha: Sha) returns (ok: bool)
      ensures ok <==> Chained(sha, Links(tenant, rows))
    {
      hide Chained, Links, Tip, EventText;
      var previous := GENESIS;
      NoEvents(sha, tenant, rows);
      for k := 0 to |rows|
        invariant Chained(sha, Links(tenant, rows[..k])) && previous == Tip(Links(tenant, rows[..k]))
      {
        var row := rows[k];
        VerifyStep(sha, tenant, rows, k);
        if row.prev != previous || row.hash != sha(row.prev + EventText(tenant, row.event)) {
          if Chained(sha, Links(tenant, rows)) { EarlierEvents(sha, tenant, rows, k + 1); }
          return false;
        }
        previous := row.hash;
      }
      assert rows[..|rows|] == rows;
      ok := true;
    }
  }

  // ---------------------------------------------------------------- facts about the table

  lemma {:induction false} FoundHasKey(rows: seq<Row>, e: Event)
    ensures Find(rows, e).Some? <==> exists r <- rows :: SameKey(r.event, e)
    ensures Find(rows, e).Some? ==>
              SameKey(Find(rows, e).value, e) && exists r <- rows :: r.event == Find(rows, e).value
  {
    if rows != [] {
      FoundHasKey(rows[..|rows| - 1], e);
      assert rows == rows[..|rows| - 1] + [rows[|rows| - 1]];
    }
  }

  lemma LinksStep(tenant: string, rows: seq<Row>, k: nat)
    requires k < |rows|
    ensures Links(tenant, rows[..k + 1]) == Links(tenant, rows[..k]) + [ToLink(tenant, rows[k])]
    ensures Links(tenant, rows[..k + 1])[..|Links(tenant, rows[..k])|] == Links(tenant, rows[..k])
  {
    assert rows[..k + 1][..k] == rows[..k];
  }

  lemma {:induction false} LinksPrefix(tenant: string, rows: seq<Row>, k: nat)
    requires k <= |rows|
    ensures |Links(tenant, rows)| == |rows| && Links(tenant, rows)[..k] == Links(tenant, rows[..k])
  {
    if rows != [] {
      var front := rows[..|rows| - 1];
      if k < |rows| {
        LinksPrefix(tenant, front, k);
        assert front[..k] == rows[..k];
      } else {
        LinksPrefix(tenant, front, k - 1);
        assert rows[..k] == rows;
      }
    }
  }

  lemma NoEvents(sha: Sha, tenant: string, rows: seq<Row>)
    ensures Chained(sha, Links(tenant, rows[..0])) && Tip(Links(tenant, rows[..0])) == GENESIS
  {
  }

  /** One round of `verify`: the rows so far form a chain, and the next one extends it or not. */
  lemma VerifyStep(sha: Sha, tenant: string, rows: seq<Row>, k: nat)
    requires k < |rows| && Chained(sha, Links(tenant, rows[..k]))
    ensures Chained(sha, Links(tenant, rows[..k + 1]))
            <==> rows[k].prev == Tip(Links(tenant, rows[..k]))
                 && rows[k].hash == sha(rows[k].prev + EventText(tenant, rows[k].event))
    ensures Tip(Links(tenant, rows[..k + 1])) == rows[k].hash
  {
    hide Links, EventText;
    LinksStep(tenant, rows, k);
  }

  lemma EarlierEvents(sha: Sha, tenant: string, rows: seq<Row>, k: nat)
    requires k <= |rows| && Chained(sha, Links(tenant, rows))
    ensures Chained(sha, Links(tenant, rows[..k]))
  {
    LinksPrefix(tenant, rows, k);
    PrefixChained(sha, Links(tenant, rows), k);
  }

  lemma IngestStep(sha: Sha, tenant: string, rows: seq<Row>, batch: seq<Event>, k: nat)
    requires k < |batch| && Ingested(sha, tenant, rows, batch[..k]).Ok?
    ensures Ingested(sha, tenant, rows, batch[..k + 1])
            == Recorded(sha, tenant, Ingested(sha, tenant, rows, batch[..k]).value, batch[k])
  {
    assert batch[..k + 1][..k] == batch[..k];
  }

  lemma {:induction false} ConflictStays(sha: Sha, tenant: string, rows: seq<Row>, batch: seq<Event>, k: nat)
    requires k <= |batch| && Ingested(sha, tenant, rows, batch[..k]).Err?
    ensures Ingested(sha, tenant, rows, batch).Err?
  {
    if k == |batch| {
      assert batch[..k] == batch;
    } else {
      assert batch[..|batch| - 1][..k] == batch[..k];
      ConflictStays(sha, tenant, rows, batch[..|batch| - 1], k);
    }
  }

  // ---------------------------------------------------------------- any schedule of batches

  /** The table after any sequence of batches: a refused batch leaves no trace. */
  function Stored(sha: Sha, tenant: string, batches: seq<seq<Event>>): seq<Row> {
    if batches == [] then []
    else
      var before := Stored(sha, tenant, batches[..|batches| - 1]);
      var after := Ingested(sha, tenant, before, batches[|batches| - 1]);
      if after.Ok? then after.value else before
  }

  /** The deliveries of the accepted batches, in order. */
  function Accepted(sha: Sha, tenant: string, batches: seq<seq<Event>>): seq<Event> {
    if batches == [] then []
    else
      var before := Accepted(sha, tenant, batches[..|batches| - 1]);
      if Ingested(sha, tenant, Stored(sha, tenant, batches[..|batches| - 1]), batches[|batches| - 1]).Ok?
      then before + batches[|batches| - 1]
      else before
  }

  predicate HasKey(events: seq<Event>, e: Event) { exists d <- events :: SameKey(d, e) }

  /** The reference: keep the first delivery of each key. */
  function FirstOfEach(deliveries: seq<Event>): seq<Event> {
    if deliveries == [] then []
    else
      var before, e := FirstOfEach(deliveries[..|deliveries| - 1]), deliveries[|deliveries| - 1];
      if HasKey(before, e) then before else before + [e]
  }

  function Events(rows: seq<Row>): seq<Event> {
    if rows == [] then [] else Events(rows[..|rows| - 1]) + [rows[|rows| - 1].event]
  }

  ghost predicate UniqueKeys(events: seq<Event>) {
    forall i, j :: 0 <= i < j < |events| ==> !SameKey(events[i], events[j])
  }

  /** Each accepted delivery repeats the stored event of its key. */
  ghost predicate AllStored(deliveries: seq<Event>, stored: seq<Event>) {
    forall d <- deliveries :: StoredAs(stored, d)
  }

  ghost predicate StoredAs(stored: seq<Event>, d: Event) { exists e <- stored :: SameEvent(e, d) }

  /** The table stores exactly the first accepted delivery of each key, in order. */
  ghost predicate ExactlyOnce(rows: seq<Row>, deliveries: seq<Event>) {
    && Events(rows) == FirstOfEach(deliveries)
    && UniqueKeys(Events(rows))
    && AllStored(deliveries, Events(rows))
  }

  lemma {:induction false} EventsOf(rows: seq<Row>, e: Event)
    ensures e in Events(rows) <==> exists r <- rows :: r.event == e
    ensures |Events(rows)| == |rows|
  {
    if rows != [] {
      EventsOf(rows[..|rows| - 1], e);
      assert rows == rows[..|rows| - 1] + [rows[|rows| - 1]];
    }
  }

  lemma FindInEvents(rows: seq<Row>, e: Event)
    ensures Find(rows, e).Some? <==> HasKey(Events(rows), e)
    ensures Find(rows, e).Some? ==> Find(rows, e).value in Events(rows)
  {
    FoundHasKey(rows, e);
    forall r <- rows ensures r.event in Events(rows) { EventsOf(rows, r.event); }
    forall d <- Events(rows) ensures exists r <- rows :: r.event == d { EventsOf(rows, d); }
    if Find(rows, e).Some? { EventsOf(rows, Find(rows, e).value); }
  }

  lemma AppendRow(rows: seq<Row>, r: Row)
    ensures Events(rows + [r]) == Events(rows) + [r.event]
  {
    assert (rows + [r])[..|rows|] == rows;
  }

  lemma RecordKeepsChain(sha: Sha, tenant: string, rows: seq<Row>, e: Event)
    requires Chained(sha, Links(tenant, rows)) && Recorded(sha, tenant, rows, e).Ok?
    ensures Chained(sha, Links(tenant, Recorded(sha, tenant, rows, e).value))
  {
    assert (rows + [NewRow(sha, tenant, rows, e)])[..|rows|] == rows;
    AppendKeepsChain(sha, Links(tenant, rows), EventText(tenant, e));
  }

  lemma {:induction false} IngestKeepsChain(sha: Sha, tenant: string, rows: seq<Row>, batch: seq<Event>)
    requires Chained(sha, Links(tenant, rows)) && Ingested(sha, tenant, rows, batch).Ok?
    ensures Chained(sha, Links(tenant, Ingested(sha, tenant, rows, batch).value))
  {
    if batch != [] {
      var front := batch[..|batch| - 1];
      IngestKeepsChain(sha, tenant, rows, front);
      RecordKeepsChain(sha, tenant, Ingested(sha, tenant, rows, front).value, batch[|batch| - 1]);
    }
  }

  lemma StoredGrows(stored: seq<Event>, more: seq<Event>, deliveries: seq<Event>)
    requires AllStored(deliveries, stored)
    ensures AllStored(deliveries, stored + more)
  {
    forall d <- deliveries ensures StoredAs(stored + more, d) {
      assert StoredAs(stored, d);
      var x :| x in stored && SameEvent(x, d);
      assert x in stored + more;
    }
  }

  lemma RecordKeepsOnce(sha: Sha, tenant: string, rows: seq<Row>, deliveries: seq<Event>, e: Event)
    requires ExactlyOnce(rows, deliveries) && Recorded(sha, tenant, rows, e).Ok?
    ensures ExactlyOnce(Recorded(sha, tenant, rows, e).value, deliveries + [e])
  {
    FindInEvents(rows, e);
    assert (deliveries + [e])[..|deliveries|] == deliveries;
    if Find(rows, e).None? {
      AppendRow(rows, NewRow(sha, tenant, rows, e));
      StoredGrows(Events(rows), [e], deliveries);
      assert e in Events(rows) + [e] && SameEvent(e, e);
      assert StoredAs(Events(rows) + [e], e);
    } else {
      assert StoredAs(Events(rows), e);
    }
  }

  lemma {:induction false} IngestKeepsOnce(sha: Sha, tenant: string, rows: seq<Row>, deliveries: seq<Event>,
      batch: seq<Event>)
    requires ExactlyOnce(rows, deliveries) && Ingested(sha, tenant, rows, batch).Ok?
    ensures ExactlyOnce(Ingested(sha, tenant, rows, batch).value, deliveries + batch)
  {
    hide ExactlyOnce;
    if batch == [] {
      assert deliveries + batch == deliveries;
    } else {
      var front, e := batch[..|batch| - 1], batch[|batch| - 1];
      IngestKeepsOnce(sha, tenant, rows, deliveries, front);
      RecordKeepsOnce(sha, tenant, Ingested(sha, tenant, rows, front).value, deliveries + front, e);
      assert deliveries + batch == deliveries + front + [e];
    }
  }

  /** At-least-once delivery, exactly-once storage: for every schedule of retried, overlapping and conflicting
      batches, the table holds the first accepted delivery of each event and its chain verifies. */
  lemma {:induction false} DeliveryIsExactlyOnce(sha: Sha, tenant: string, batches: seq<seq<Event>>)
    ensures ExactlyOnce(Stored(sha, tenant, batches), Accepted(sha, tenant, batches))
    ensures Chained(sha, Links(tenant, Stored(sha, tenant, batches)))
  {
    if batches != [] {
      var front, batch := batches[..|batches| - 1], batches[|batches| - 1];
      DeliveryIsExactlyOnce(sha, tenant, front);
      if Ingested(sha, tenant, Stored(sha, tenant, front), batch).Ok? {
        IngestKeepsOnce(sha, tenant, Stored(sha, tenant, front), Accepted(sha, tenant, front), batch);
        IngestKeepsChain(sha, tenant, Stored(sha, tenant, front), batch);
      }
    }
  }

  /** Two events that have the same key have the same content. */
  predicate Compatible(d: Event, e: Event) {
    d.device == e.device && d.id == e.id ==> d.source == e.source && d.payload == e.payload
  }

  /** One delivery is refused exactly when a stored event has its key and other content, whenever each was received. */
  lemma RecordedIff(sha: Sha, tenant: string, rows: seq<Row>, e: Event)
    requires UniqueKeys(Events(rows))
    ensures Recorded(sha, tenant, rows, e).Ok? <==> forall d <- Events(rows) :: Compatible(d, e)
  {
    FindInEvents(rows, e);
    FoundHasKey(rows, e);
    if Find(rows, e).Some? {
      var f := Find(rows, e).value;
      forall d <- Events(rows) | SameKey(d, e) ensures d == f { SameKeySameEvent(Events(rows), d, f); }
    }
  }

  lemma SameKeySameEvent(events: seq<Event>, d: Event, e: Event)
    requires UniqueKeys(events) && d in events && e in events && SameKey(d, e)
    ensures d == e
  {
    var i :| 0 <= i < |events| && events[i] == d;
    var j :| 0 <= j < |events| && events[j] == e;
    assert SameKey(events[i], events[j]) && SameKey(events[j], events[i]);
  }

  lemma UniqueFront(events: seq<Event>)
    requires UniqueKeys(events) && events != []
    ensures UniqueKeys(events[..|events| - 1]) && !HasKey(events[..|events| - 1], events[|events| - 1])
  {
    hide SameKey;
    var front, e := events[..|events| - 1], events[|events| - 1];
    assert forall i :: 0 <= i < |front| ==> front[i] == events[i] && !SameKey(events[i], events[|front|]);
  }

  lemma {:induction false} UniqueAreFirst(events: seq<Event>)
    requires UniqueKeys(events)
    ensures FirstOfEach(events) == events
  {
    if events != [] {
      UniqueFront(events);
      hide UniqueKeys, HasKey;
      UniqueAreFirst(events[..|events| - 1]);
      assert events == events[..|events| - 1] + [events[|events| - 1]];
    }
  }

  lemma {:induction false} FirstsAreDelivered(deliveries: seq<Event>)
    ensures forall e <- FirstOfEach(deliveries) :: e in deliveries
  {
    if deliveries != [] { FirstsAreDelivered(deliveries[..|deliveries| - 1]); }
  }

  lemma StoredIsItself(rows: seq<Row>)
    requires UniqueKeys(Events(rows))
    ensures ExactlyOnce(rows, Events(rows))
  {
    UniqueAreFirst(Events(rows));
    forall d <- Events(rows) ensures StoredAs(Events(rows), d) { assert SameEvent(d, d); }
  }

  /** No event of the batch has the key of a stored one, or of an earlier one of the batch, and other content. */
  ghost predicate Agrees(stored: seq<Event>, batch: seq<Event>) {
    forall j :: 0 <= j < |batch| ==> JoinsIn(stored, batch[..j], batch[j])
  }

  ghost predicate JoinsIn(stored: seq<Event>, earlier: seq<Event>, e: Event) {
    (forall d <- stored :: Compatible(d, e)) && forall d <- earlier :: Compatible(d, e)
  }

  /** A batch is accepted exactly when it agrees with what is stored and with itself: nothing else is refused. */
  lemma {:induction false} BatchAcceptedIff(sha: Sha, tenant: string, rows: seq<Row>, batch: seq<Event>)
    requires UniqueKeys(Events(rows))
    ensures Ingested(sha, tenant, rows, batch).Ok? <==> Agrees(Events(rows), batch)
  {
    if batch != [] {
      hide Recorded, JoinsIn, Events, UniqueKeys, ExactlyOnce;
      var front, e := batch[..|batch| - 1], batch[|batch| - 1];
      BatchAcceptedIff(sha, tenant, rows, front);
      LastAgrees(Events(rows), batch);
      var before := Ingested(sha, tenant, rows, front);
      if before.Ok? {
        StoredIsItself(rows);
        IngestKeepsOnce(sha, tenant, rows, Events(rows), front);
        OnceIsUnique(before.value, Events(rows) + front);
        RecordedIff(sha, tenant, before.value, e);
        AfterBatch(rows, before.value, front, e);
      }
    }
  }

  lemma OnceIsUnique(rows: seq<Row>, deliveries: seq<Event>)
    requires ExactlyOnce(rows, deliveries)
    ensures UniqueKeys(Events(rows))
  {
  }

  lemma LastAgrees(stored: seq<Event>, batch: seq<Event>)
    requires batch != []
    ensures var front, e := batch[..|batch| - 1], batch[|batch| - 1];
            Agrees(stored, batch) <==> Agrees(stored, front) && JoinsIn(stored, front, e)
  {
    hide JoinsIn;
    var front := batch[..|batch| - 1];
    assert forall j :: 0 <= j < |front| ==> front[j] == batch[j] && front[..j] == batch[..j];
  }

  /** The last delivery fits what is stored by then exactly if it fits what was stored and delivered. */
  lemma AfterBatch(rows: seq<Row>, after: seq<Row>, front: seq<Event>, e: Event)
    requires ExactlyOnce(after, Events(rows) + front)
    ensures (forall d <- Events(after) :: Compatible(d, e)) <==> JoinsIn(Events(rows), front, e)
  {
    hide Events, Compatible, UniqueKeys, JoinsIn;
    FirstsAreDelivered(Events(rows) + front);
    AgreeThrough(Events(rows) + front, Events(after), e);
    JoinsBoth(Events(rows), front, e);
  }

  lemma AgreeThrough(all: seq<Event>, stored: seq<Event>, e: Event)
    requires AllStored(all, stored) && forall d <- stored :: d in all
    ensures (forall d <- stored :: Compatible(d, e)) <==> forall d <- all :: Compatible(d, e)
  {
    if forall d <- stored :: Compatible(d, e) {
      forall d <- all ensures Compatible(d, e) {
        assert StoredAs(stored, d);
        var x :| x in stored && SameEvent(x, d);
      }
    }
  }

  lemma JoinsBoth(stored: seq<Event>, earlier: seq<Event>, e: Event)
    ensures JoinsIn(stored, earlier, e) <==> forall d <- stored + earlier :: Compatible(d, e)
  {
    hide Compatible;
    assert forall d <- stored :: d in stored + earlier;
    assert forall d <- earlier :: d in stored + earlier;
  }

  /** The row found for a stored event is that event: keys are unique. */
  lemma FindStored(rows: seq<Row>, e: Event)
    requires UniqueKeys(Events(rows)) && StoredAs(Events(rows), e)
    ensures Find(rows, e).Some? && SameEvent(Find(rows, e).value, e)
  {
    var x :| x in Events(rows) && SameEvent(x, e);
    FindInEvents(rows, e);
    FoundHasKey(rows, e);
    var y := Find(rows, e).value;
    var i :| 0 <= i < |Events(rows)| && Events(rows)[i] == x;
    var j :| 0 <= j < |Events(rows)| && Events(rows)[j] == y;
    assert SameKey(x, y) && SameKey(y, x);
  }

  /** A batch of deliveries that were all accepted before is accepted again, at any later moment and with any
      reception times, and changes nothing. */
  lemma {:induction false} RetryChangesNothing(sha: Sha, tenant: string, rows: seq<Row>, retry: seq<Event>)
    requires UniqueKeys(Events(rows)) && AllStored(retry, Events(rows))
    ensures Ingested(sha, tenant, rows, retry) == Ok(rows)
  {
    if retry != [] {
      var front, e := retry[..|retry| - 1], retry[|retry| - 1];
      assert forall d <- front :: d in retry;
      RetryChangesNothing(sha, tenant, rows, front);
      FindStored(rows, e);
    }
  }
}
