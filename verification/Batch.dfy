/** Batch upload of a gateway's events and its checkpoints: what each event of a batch comes to, the books the
    response keeps, the retry subset and its replay, and the totals that checkpoints are held against.

    The store is one gateway's: its rows of access and of device events. What the environment contributes to an
    event (a random id, a working disk) is a parameter. */
module Batch {
  import opened Text
  import opened Wrappers

  /** An uploaded event; `occurredAt` is None when the time stamp does not parse. */
  datatype Event = Event(eventId: string, requestId: string, idempotencyKey: string, occurredAt: Option<int>,
                         body: string)

  datatype Row = Row(id: string, key: string)

  datatype Luck = Luck(randomId: Option<string>, persists: bool)

  datatype Outcome = Accepted(id: string, key: string, deduplicated: bool) | Failed(retryable: bool)

  /** The switch for test failures and the id prefix it applies to. */
  datatype Config = Config(forceRetryable: bool, forcePrefix: string)

  /** The ids already failed on purpose, and the stored rows, newest first. */
  datatype Ledger = Ledger(seen: set<string>, rows: seq<Row>)

  type Lucks = nat -> Luck

  // ---- One event ----

  function Prefix(cfg: Config): string {
    if Trim(cfg.forcePrefix) == "" then "force-retry-" else Trim(cfg.forcePrefix)
  }

  predicate Forced(cfg: Config, seen: set<string>, e: Event) {
    var id := Trim(e.eventId);
    cfg.forceRetryable && id != "" && Prefix(cfg) <= id && id !in seen
  }

  function Key(e: Event): string {
    if Trim(e.idempotencyKey) != "" then Trim(e.idempotencyKey)
    else if Trim(e.requestId) != "" then Trim(e.requestId)
    else Trim(e.eventId)
  }

  function FindByKey(rows: seq<Row>, key: string): (r: Option<Row>)
    ensures r.Some? <==> key != "" && exists row :: row in rows && row.key == key
    ensures r.Some? ==> r.value in rows && r.value.key == key
  {
    if key == "" || rows == [] then None
    else if rows[0].key == key then Some(rows[0])
    else FindByKey(rows[1..], key)
  }

  function FindById(rows: seq<Row>, id: string): (r: Option<Row>)
    ensures r.Some? <==> id != "" && exists row :: row in rows && row.id == id
    ensures r.Some? ==> r.value in rows && r.value.id == id
  {
    if id == "" || rows == [] then None
    else if rows[0].id == id then Some(rows[0])
    else FindById(rows[1..], id)
  }

  /** The event service: deduplicate by key, then by id, else store. A failing disk leaves the row in memory. */
  function Ingest(rows: seq<Row>, e: Event, luck: Luck): (Outcome, seq<Row>) {
    var key, id := Key(e), Trim(e.eventId);
    var byKey, byId := FindByKey(rows, key), FindById(rows, id);
    if byKey.Some? then (Accepted(byKey.value.id, byKey.value.key, true), rows)
    else if byId.Some? then (Accepted(byId.value.id, byId.value.key, true), rows)
    else if id == "" && luck.randomId == None then (Failed(true), rows)
    else
      var row := Row(if id == "" then luck.randomId.value else id, key);
      (if luck.persists then Accepted(row.id, row.key, false) else Failed(true), [row] + rows)
  }

  function Handle(cfg: Config, l: Ledger, e: Event, luck: Luck): (Outcome, Ledger) {
    if e.occurredAt == None then (Failed(false), l)
    else if Forced(cfg, l.seen, e) then (Failed(true), l.(seen := l.seen + {Trim(e.eventId)}))
    else
      var (outcome, rows) := Ingest(l.rows, e, luck);
      (outcome, l.(rows := rows))
  }

  // ---- A list of events ----

  function LedgerAfter(cfg: Config, l: Ledger, events: seq<Event>, lucks: Lucks): Ledger {
    if events == [] then l
    else
      var n := |events| - 1;
      Handle(cfg, LedgerAfter(cfg, l, events[..n], lucks), events[n], lucks(n)).1
  }

  /** What the event at `i` comes to, given those before it. */
  function OutcomeAt(cfg: Config, l: Ledger, events: seq<Event>, lucks: Lucks, i: nat): Outcome
    requires i < |events|
  {
    Handle(cfg, LedgerAfter(cfg, l, events[..i], lucks), events[i], lucks(i)).0
  }

  function Outcomes(cfg: Config, l: Ledger, events: seq<Event>, lucks: Lucks): (r: seq<Outcome>)
    ensures |r| == |events|
  {
    if events == [] then []
    else
      var n := |events| - 1;
      Outcomes(cfg, l, events[..n], lucks) + [OutcomeAt(cfg, l, events, lucks, n)]
  }

  lemma {:induction false} OutcomesAre(cfg: Config, l: Ledger, events: seq<Event>, lucks: Lucks)
    ensures forall i :: 0 <= i < |events| ==> Outcomes(cfg, l, events, lucks)[i] == OutcomeAt(cfg, l, events, lucks, i)
  {
    hide Handle;
    if events != [] {
      var n := |events| - 1;
      OutcomesAre(cfg, l, events[..n], lucks);
      forall i | 0 <= i < n
        ensures OutcomeAt(cfg, l, events[..n], lucks, i) == OutcomeAt(cfg, l, events, lucks, i)
      {
        assert events[..n][..i] == events[..i];
      }
    }
  }

  /** With the switch on, an id fails on purpose exactly at its first readable upload, and never again. */
  lemma ForcedAtFirstReadable(cfg: Config, l: Ledger, events: seq<Event>, lucks: Lucks, i: nat)
    requires i < |events|
    ensures var id := Trim(events[i].eventId);
            Forced(cfg, LedgerAfter(cfg, l, events[..i], lucks).seen, events[i])
            <==> Forceable(cfg, id) && id !in l.seen
                 && forall j :: 0 <= j < i && events[j].occurredAt.Some? ==> Trim(events[j].eventId) != id
  {
    var id := Trim(events[i].eventId);
    if Forceable(cfg, id) {
      SeenAre(cfg, l, events[..i], lucks, id);
      assert forall j :: 0 <= j < i ==> events[..i][j] == events[j];
    }
  }

  predicate Forceable(cfg: Config, id: string) {
    var prefix := Trim(cfg.forcePrefix);
    cfg.forceRetryable && id != "" && (if prefix == "" then "force-retry-" <= id else prefix <= id)
  }

  lemma {:induction false} SeenAre(cfg: Config, l: Ledger, events: seq<Event>, lucks: Lucks, id: string)
    requires Forceable(cfg, id)
    ensures id in LedgerAfter(cfg, l, events, lucks).seen
       <==> id in l.seen || exists j :: 0 <= j < |events| && events[j].occurredAt.Some? && Trim(events[j].eventId) == id
  {
    hide Handle, Forceable;
    if events != [] {
      var n := |events| - 1;
      SeenAre(cfg, l, events[..n], lucks, id);
      HandleSees(cfg, LedgerAfter(cfg, l, events[..n], lucks), events[n], lucks(n), id);
      assert forall j :: 0 <= j < n ==> events[..n][j] == events[j];
    }
  }

  lemma HandleSees(cfg: Config, l: Ledger, e: Event, luck: Luck, id: string)
    requires Forceable(cfg, id)
    ensures id in Handle(cfg, l, e, luck).1.seen <==> id in l.seen || (e.occurredAt.Some? && Trim(e.eventId) == id)
  {
  }

  predicate Created(o: Outcome) { o.Accepted? && !o.deduplicated }
  predicate Duplicate(o: Outcome) { o.Accepted? && o.deduplicated }
  predicate Failure(o: Outcome) { o.Failed? }
  predicate Retryable(o: Outcome) { o.Failed? && o.retryable }

  function Count(outcomes: seq<Outcome>, p: Outcome -> bool): nat {
    if outcomes == [] then 0
    else Count(outcomes[..|outcomes| - 1], p) + if p(outcomes[|outcomes| - 1]) then 1 else 0
  }

  /** The events with a retryable failure, in order. */
  function RetrySubset(events: seq<Event>, outcomes: seq<Outcome>): seq<Event>
    requires |events| == |outcomes|
  {
    if events == [] then []
    else
      var n := |events| - 1;
      RetrySubset(events[..n], outcomes[..n]) + if Retryable(outcomes[n]) then [events[n]] else []
  }

  /** The positions of the retryable failures, in order. */
  function RetryIndices(outcomes: seq<Outcome>): seq<nat> {
    if outcomes == [] then []
    else
      var n := |outcomes| - 1;
      RetryIndices(outcomes[..n]) + if Retryable(outcomes[n]) then [n] else []
  }

  /** Positions below `n`, in strictly increasing order. */
  ghost predicate Positions(at: seq<nat>, n: nat) {
    && (forall j, k :: 0 <= j < k < |at| ==> at[j] < at[k])
    && (forall j :: 0 <= j < |at| ==> at[j] < n)
  }

  lemma PositionsGrow(at: seq<nat>, n: nat)
    requires Positions(at, n)
    ensures Positions(at, n + 1) && Positions(at + [n], n + 1)
  {
  }

  lemma {:induction false} RetryIndicesAscend(outcomes: seq<Outcome>)
    ensures Positions(RetryIndices(outcomes), |outcomes|)
    ensures |RetryIndices(outcomes)| == Count(outcomes, Retryable)
  {
    hide Positions, Retryable;
    if outcomes == [] {
      NoPositions();
    } else {
      var n := |outcomes| - 1;
      RetryIndicesAscend(outcomes[..n]);
      PositionsGrow(RetryIndices(outcomes[..n]), n);
      assert RetryIndices(outcomes[..n]) + [] == RetryIndices(outcomes[..n]);
    }
  }

  lemma NoPositions()
    ensures Positions([], 0)
  {
  }

  lemma {:induction false} RetryIndicesAre(outcomes: seq<Outcome>, i: nat)
    ensures i in RetryIndices(outcomes) <==> i < |outcomes| && Retryable(outcomes[i])
  {
    hide Retryable;
    if outcomes != [] {
      var n := |outcomes| - 1;
      RetryIndicesAre(outcomes[..n], i);
    }
  }

  lemma {:induction false} RetrySubsetIs(events: seq<Event>, outcomes: seq<Outcome>)
    requires |events| == |outcomes|
    ensures var retry, at := RetrySubset(events, outcomes), RetryIndices(outcomes);
            |retry| == |at| && forall j :: 0 <= j < |at| ==> at[j] < |events| && retry[j] == events[at[j]]
  {
    if events != [] {
      var n := |events| - 1;
      RetrySubsetIs(events[..n], outcomes[..n]);
    }
  }

  /** As a set, the retry subset is the events whose outcome can be retried. */
  lemma {:induction false} RetrySubsetHas(events: seq<Event>, outcomes: seq<Outcome>, e: Event)
    requires |events| == |outcomes|
    ensures e in RetrySubset(events, outcomes)
       <==> exists i :: 0 <= i < |events| && Retryable(outcomes[i]) && events[i] == e
  {
    var retry, at := RetrySubset(events, outcomes), RetryIndices(outcomes);
    RetrySubsetIs(events, outcomes);
    if e in retry {
      var j :| 0 <= j < |retry| && retry[j] == e;
      assert at[j] in at;
      RetryIndicesAre(outcomes, at[j]);
    }
    forall i | 0 <= i < |events| && Retryable(outcomes[i]) && events[i] == e
      ensures e in retry
    {
      RetryIndicesAre(outcomes, i);
      var j :| 0 <= j < |at| && at[j] == i;
      assert retry[j] == e;
    }
  }

  datatype Entry = Entry(index: nat, eventId: string, outcome: Outcome)

  /** One half of the response. */
  datatype Part = Part(created: nat, deduplicated: nat, failed: nat, retryable: nat,
                       results: seq<Entry>, retry: seq<Event>)

  function EntryFor(index: nat, e: Event, o: Outcome): Entry {
    Entry(index, if o.Accepted? then o.id else Trim(e.eventId), o)
  }

  function Entries(events: seq<Event>, outcomes: seq<Outcome>): seq<Entry>
    requires |events| == |outcomes|
  {
    if events == [] then []
    else
      var n := |events| - 1;
      Entries(events[..n], outcomes[..n]) + [EntryFor(n, events[n], outcomes[n])]
  }

  /** The books of a list: the counters, the results and the retry subset that belong to its outcomes. */
  function PartOf(events: seq<Event>, outcomes: seq<Outcome>): Part
    requires |events| == |outcomes|
  {
    Part(Count(outcomes, Created), Count(outcomes, Duplicate), Count(outcomes, Failure), Count(outcomes, Retryable),
         Entries(events, outcomes), RetrySubset(events, outcomes))
  }

  function Enter(part: Part, index: nat, e: Event, o: Outcome): Part {
    Part(part.created + (if Created(o) then 1 else 0), part.deduplicated + (if Duplicate(o) then 1 else 0),
         part.failed + (if Failure(o) then 1 else 0), part.retryable + (if Retryable(o) then 1 else 0),
         part.results + [EntryFor(index, e, o)], part.retry + if Retryable(o) then [e] else [])
  }

  lemma EnterKeepsBooks(events: seq<Event>, outcomes: seq<Outcome>, e: Event, o: Outcome)
    requires |events| == |outcomes|
    ensures PartOf(events + [e], outcomes + [o]) == Enter(PartOf(events, outcomes), |events|, e, o)
  {
    assert (outcomes + [o])[..|outcomes|] == outcomes && (events + [e])[..|events|] == events;
  }

  /** The loop over one list of a batch. */
  method ProcessEvents(cfg: Config, before: Ledger, events: seq<Event>, lucks: Lucks)
    returns (part: Part, after: Ledger)
    ensures after == LedgerAfter(cfg, before, events, lucks)
    ensures part == PartOf(events, Outcomes(cfg, before, events, lucks))
  {
    hide Handle;
    after := before;
    var created, deduplicated, failed, retryable := 0, 0, 0, 0;
    var results: seq<Entry>, retry: seq<Event> := [], [];
    for i := 0 to |events|
      invariant after == LedgerAfter(cfg, before, events[..i], lucks)
      invariant Part(created, deduplicated, failed, retryable, results, retry)
             == PartOf(events[..i], Outcomes(cfg, before, events[..i], lucks))
    {
      var e := events[i];
      ghost var part' := Part(created, deduplicated, failed, retryable, results, retry);
      ghost var outcomes := Outcomes(cfg, before, events[..i], lucks);
      assert events[..i + 1] == events[..i] + [e] && events[..i + 1][..i] == events[..i];
      var outcome: Outcome;
      outcome, after := HandleEvent(cfg, after, e, lucks(i));
      EnterKeepsBooks(events[..i], outcomes, e, outcome);
      match outcome {
        case Failed(canRetry) =>
          failed := failed + 1;
          results := results + [Entry(i, Trim(e.eventId), outcome)];
          if canRetry {
            retryable := retryable + 1;
            retry := retry + [e];
          }
        case Accepted(id, key, dup) =>
          if dup {
            deduplicated := deduplicated + 1;
          } else {
            created := created + 1;
          }
          results := results + [Entry(i, id, outcome)];
      }
      assert Part(created, deduplicated, failed, retryable, results, retry) == Enter(part', i, e, outcome);
    }
    assert events[..|events|] == events;
    part := Part(created, deduplicated, failed, retryable, results, retry);
  }

  method HandleEvent(cfg: Config, before: Ledger, e: Event, luck: Luck) returns (outcome: Outcome, after: Ledger)
    ensures (outcome, after) == Handle(cfg, before, e, luck)
  {
    after := before;
    if e.occurredAt == None {
      return Failed(false), after;
    }
    if Forced(cfg, before.seen, e) {
      return Failed(true), after.(seen := after.seen + {Trim(e.eventId)});
    }
    var ingested := Ingest(before.rows, e, luck);
    return ingested.0, after.(rows := ingested.1);
  }

  // ---- The books balance ----

  /** `retry` is `events` at the positions `at`: all those that can be retried, each once, in order. */
  ghost predicate IsSelection(events: seq<Event>, outcomes: seq<Outcome>, at: seq<nat>, retry: seq<Event>)
    requires |events| == |outcomes| && |at| == |retry|
  {
    && Positions(at, |events|)
    && (forall i: nat :: i in at <==> i < |events| && Retryable(outcomes[i]))
    && (forall j :: 0 <= j < |at| ==> retry[j] == events[at[j]])
  }

  lemma {:induction false} RetrySubsetSelects(events: seq<Event>, outcomes: seq<Outcome>)
    requires |events| == |outcomes|
    ensures |RetryIndices(outcomes)| == |RetrySubset(events, outcomes)| == Count(outcomes, Retryable)
    ensures IsSelection(events, outcomes, RetryIndices(outcomes), RetrySubset(events, outcomes))
  {
    var at := RetryIndices(outcomes);
    RetryIndicesAscend(outcomes);
    RetrySubsetIs(events, outcomes);
    forall i: nat
      ensures i in at <==> i < |events| && Retryable(outcomes[i])
    {
      RetryIndicesAre(outcomes, i);
    }
  }

  /** received = created + deduplicated + failed; every index has its one result, in order; the retry subset
      selects what failed and can be retried, each once and in order. */
  lemma BooksBalance(events: seq<Event>, outcomes: seq<Outcome>)
    requires |events| == |outcomes|
    ensures var part := PartOf(events, outcomes);
            && |events| == part.created + part.deduplicated + part.failed
            && |part.retry| == part.retryable <= part.failed
            && |part.results| == |events|
            && (forall i :: 0 <= i < |events| ==>
                  var o := outcomes[i];
                  part.results[i] == Entry(i, if o.Accepted? then o.id else Trim(events[i].eventId), o))
            && (exists at: seq<nat> :: |at| == |part.retry| && IsSelection(events, outcomes, at, part.retry))
  {
    CountsPartition(outcomes);
    RetrySubsetSelects(events, outcomes);
    EntriesAre(events, outcomes);
    assert IsSelection(events, outcomes, RetryIndices(outcomes), RetrySubset(events, outcomes));
  }

  lemma {:induction false} EntriesAre(events: seq<Event>, outcomes: seq<Outcome>)
    requires |events| == |outcomes|
    ensures |Entries(events, outcomes)| == |events|
    ensures forall i :: 0 <= i < |events| ==> Entries(events, outcomes)[i] == EntryFor(i, events[i], outcomes[i])
  {
    if events != [] {
      EntriesAre(events[..|events| - 1], outcomes[..|events| - 1]);
    }
  }

  lemma {:induction false} CountsPartition(outcomes: seq<Outcome>)
    ensures Count(outcomes, Created) + Count(outcomes, Duplicate) + Count(outcomes, Failure) == |outcomes|
    ensures Count(outcomes, Retryable) <= Count(outcomes, Failure)
  {
    if outcomes != [] {
      CountsPartition(outcomes[..|outcomes| - 1]);
    }
  }

  /** Events that were stored in memory but reported as failed, because the disk did not work. */
  function Unreported(cfg: Config, l: Ledger, events: seq<Event>, lucks: Lucks): nat {
    if events == [] then 0
    else
      var n := |events| - 1;
      var before := LedgerAfter(cfg, l, events[..n], lucks);
      var (o, after) := Handle(cfg, before, events[n], lucks(n));
      Unreported(cfg, l, events[..n], lucks) + if o.Failed? && after.rows != before.rows then 1 else 0
  }

  lemma HandleGrows(cfg: Config, l: Ledger, e: Event, luck: Luck)
    ensures var (o, after) := Handle(cfg, l, e, luck);
            && l.seen <= after.seen
            && (forall row :: row in l.rows ==> row in after.rows)
            && |after.rows| == |l.rows| + (if Created(o) || after.rows != l.rows then 1 else 0)
            && (Created(o) ==> after.rows != l.rows)
            && (Duplicate(o) ==> after.rows == l.rows)
            && (luck.persists && o.Failed? ==> after.rows == l.rows)
  {
  }

  /** The store grows by exactly the created events, plus those a failing disk left unreported. */
  lemma {:induction false} StoreGrowsByCreated(cfg: Config, l: Ledger, events: seq<Event>, lucks: Lucks)
    ensures |LedgerAfter(cfg, l, events, lucks).rows|
         == |l.rows| + Count(Outcomes(cfg, l, events, lucks), Created) + Unreported(cfg, l, events, lucks)
  {
    if events != [] {
      var n := |events| - 1;
      StoreGrowsByCreated(cfg, l, events[..n], lucks);
      HandleGrows(cfg, LedgerAfter(cfg, l, events[..n], lucks), events[n], lucks(n));
    }
  }

  /** With a working disk nothing is left unreported. */
  lemma {:induction false} WorkingDiskReports(cfg: Config, l: Ledger, events: seq<Event>, lucks: Lucks)
    requires forall i :: lucks(i).persists
    ensures Unreported(cfg, l, events, lucks) == 0
  {
    if events != [] {
      var n := |events| - 1;
      WorkingDiskReports(cfg, l, events[..n], lucks);
      HandleGrows(cfg, LedgerAfter(cfg, l, events[..n], lucks), events[n], lucks(n));
    }
  }

  /** No two rows share a non-blank key, whatever is uploaded: an idempotency key is stored at most once. */
  predicate KeysDistinct(rows: seq<Row>) {
    forall i, j :: 0 <= i < j < |rows| && rows[i].key != "" ==> rows[i].key != rows[j].key
  }

  lemma {:induction false} KeysStayDistinct(cfg: Config, l: Ledger, events: seq<Event>, lucks: Lucks)
    requires KeysDistinct(l.rows)
    ensures KeysDistinct(LedgerAfter(cfg, l, events, lucks).rows)
  {
    if events != [] {
      var n := |events| - 1;
      KeysStayDistinct(cfg, l, events[..n], lucks);
      var before := LedgerAfter(cfg, l, events[..n], lucks);
      assert FindByKey(before.rows, Key(events[n])).Some?
        <==> Key(events[n]) != "" && exists row :: row in before.rows && row.key == Key(events[n]);
    }
  }

  // ---- What an outcome means ----

  /** Not retryable exactly when the time does not parse, a duplicate exactly when stored before under key or id,
      created exactly when new and the environment delivers. */
  lemma OutcomeMeans(cfg: Config, l: Ledger, events: seq<Event>, lucks: Lucks, i: nat)
    requires i < |events|
    ensures var e, o, before := events[i], OutcomeAt(cfg, l, events, lucks, i), LedgerAfter(cfg, l, events[..i], lucks);
            var goesIn := e.occurredAt.Some? && !Forced(cfg, before.seen, e);
            && (o == Failed(false) <==> e.occurredAt == None)
            && (Duplicate(o) <==> goesIn && Known(before.rows, e))
            && (Created(o) <==> goesIn && !Known(before.rows, e) && lucks(i).persists
                                && (Trim(e.eventId) != "" || lucks(i).randomId.Some?))
  {
    var e, before := events[i], LedgerAfter(cfg, l, events[..i], lucks);
    if e.occurredAt.Some? && !Forced(cfg, before.seen, e) {
      IngestMeans(before.rows, e, lucks(i));
    }
  }

  lemma IngestMeans(rows: seq<Row>, e: Event, luck: Luck)
    ensures var o := Ingest(rows, e, luck).0;
            && o != Failed(false)
            && (Duplicate(o) <==> Known(rows, e))
            && (Created(o) <==> !Known(rows, e) && luck.persists && (Trim(e.eventId) != "" || luck.randomId.Some?))
  {
  }

  /** The first of the three names that is not blank, trimmed. */
  predicate FirstName(e: Event, key: string) {
    var named, asked, id := Trim(e.idempotencyKey), Trim(e.requestId), Trim(e.eventId);
    && (named != "" ==> key == named)
    && (named == "" && asked != "" ==> key == asked)
    && (named == "" && asked == "" ==> key == id)
  }

  /** The newest stored row that satisfies `p`. */
  ghost predicate NewestWith(rows: seq<Row>, row: Row, p: Row -> bool) {
    exists i :: 0 <= i < |rows| && rows[i] == row && p(row) && forall j :: 0 <= j < i ==> !p(rows[j])
  }

  lemma {:induction false} FoundByKey(rows: seq<Row>, key: string)
    requires FindByKey(rows, key).Some?
    ensures NewestWith(rows, FindByKey(rows, key).value, (row: Row) => row.key == key)
  {
    if rows[0].key != key {
      FoundByKey(rows[1..], key);
      NewestLater(rows, FindByKey(rows, key).value, (row: Row) => row.key == key);
    }
  }

  lemma {:induction false} FoundById(rows: seq<Row>, id: string)
    requires FindById(rows, id).Some?
    ensures NewestWith(rows, FindById(rows, id).value, (row: Row) => row.id == id)
  {
    if rows[0].id != id {
      FoundById(rows[1..], id);
      NewestLater(rows, FindById(rows, id).value, (row: Row) => row.id == id);
    }
  }

  lemma NewestLater(rows: seq<Row>, row: Row, p: Row -> bool)
    requires rows != [] && !p(rows[0]) && NewestWith(rows[1..], row, p)
    ensures NewestWith(rows, row, p)
  {
    var i :| 0 <= i < |rows| - 1 && rows[1..][i] == row && p(row) && forall j :: 0 <= j < i ==> !p(rows[1..][j]);
    assert rows[i + 1] == row;
    forall j | 0 <= j < i + 1
      ensures !p(rows[j])
    {
      assert j > 0 ==> rows[j] == rows[1..][j - 1];
    }
  }

  /** What is stored and reported. The key is the idempotency key, else the request id, else the event id. A created
      event is stored in front under that key, with its own id or a random one, and reported so; a duplicate is reported
      as the newest row with the key, or failing that with the id, and stores nothing. */
  lemma IngestStores(rows: seq<Row>, e: Event, luck: Luck, key: string)
    requires FirstName(e, key)
    ensures var (o, after) := Ingest(rows, e, luck);
            var id := Trim(e.eventId);
            && (after == rows || (exists row :: after == [row] + rows && row.key == key
                                             && (if id != "" then row.id == id else luck.randomId == Some(row.id))))
            && (Created(o) ==> after == [Row(o.id, o.key)] + rows)
            && (Duplicate(o) ==>
                  && after == rows
                  && if key != "" && exists row :: row in rows && row.key == key
                     then NewestWith(rows, Row(o.id, o.key), (row: Row) => row.key == key)
                     else NewestWith(rows, Row(o.id, o.key), (row: Row) => row.id == id))
  {
    assert key == Key(e);
    if FindByKey(rows, key).Some? {
      FoundByKey(rows, key);
    } else if FindById(rows, Trim(e.eventId)).Some? {
      FoundById(rows, Trim(e.eventId));
    } else {
      assert forall row :: ([row] + rows)[0] == row;
    }
  }

  // ---- Replaying the retry subset ----

  predicate Works(luck: Luck) {
    luck.randomId.Some? && luck.persists
  }

  /** The event is stored, under its key or under its id. */
  predicate Known(rows: seq<Row>, e: Event) {
    FindByKey(rows, Key(e)).Some? || FindById(rows, Trim(e.eventId)).Some?
  }

  /** Nothing stored or forced is ever forgotten. */
  lemma {:induction false} Monotone(cfg: Config, l: Ledger, events: seq<Event>, lucks: Lucks, n: nat)
    requires n <= |events|
    ensures var part, whole := LedgerAfter(cfg, l, events[..n], lucks), LedgerAfter(cfg, l, events, lucks);
            && part.seen <= whole.seen
            && (forall row :: row in part.rows ==> row in whole.rows)
  {
    hide Handle;
    if n < |events| {
      var m := |events| - 1;
      assert events[..m][..n] == events[..n];
      Monotone(cfg, l, events[..m], lucks, n);
      HandleGrows(cfg, LedgerAfter(cfg, l, events[..m], lucks), events[m], lucks(m));
    } else {
      assert events[..n] == events;
    }
  }

  lemma KnownStays(rows: seq<Row>, later: seq<Row>, e: Event)
    requires Known(rows, e) && forall row :: row in rows ==> row in later
    ensures Known(later, e)
  {
  }

  /** An event with any identity that is accepted is stored from then on. */
  lemma AcceptedIsKnown(cfg: Config, l: Ledger, events: seq<Event>, lucks: Lucks, i: nat)
    requires i < |events| && OutcomeAt(cfg, l, events, lucks, i).Accepted? && Key(events[i]) != ""
    ensures Known(LedgerAfter(cfg, l, events, lucks).rows, events[i])
  {
    var before, e := LedgerAfter(cfg, l, events[..i], lucks), events[i];
    var after := Handle(cfg, before, e, lucks(i)).1;
    assert events[..i + 1][..i] == events[..i];
    assert after == LedgerAfter(cfg, l, events[..i + 1], lucks);
    assert Known(after.rows, e) by {
      assert after.rows == before.rows || after.rows[0].key == Key(e);
      assert after.rows == before.rows || after.rows[0] in after.rows;
    }
    Monotone(cfg, l, events, lucks, i + 1);
    KnownStays(after.rows, LedgerAfter(cfg, l, events, lucks).rows, e);
  }

  /** Every retryable failure of the run was one of those forced for testing. */
  ghost predicate OnlyForcedFailures(cfg: Config, l: Ledger, events: seq<Event>, lucks: Lucks) {
    forall i :: 0 <= i < |events| && Retryable(OutcomeAt(cfg, l, events, lucks, i))
            ==> Forced(cfg, LedgerAfter(cfg, l, events[..i], lucks).seen, events[i])
  }

  lemma ForcedIsSeen(cfg: Config, l: Ledger, events: seq<Event>, lucks: Lucks, i: nat)
    requires i < |events| && events[i].occurredAt.Some?
    requires Forced(cfg, LedgerAfter(cfg, l, events[..i], lucks).seen, events[i])
    ensures Trim(events[i].eventId) in LedgerAfter(cfg, l, events, lucks).seen
  {
    assert events[..i + 1][..i] == events[..i];
    Monotone(cfg, l, events, lucks, i + 1);
  }

  lemma WorkingStoreAccepts(rows: seq<Row>, e: Event, luck: Luck)
    requires Works(luck)
    ensures Ingest(rows, e, luck).0.Accepted?
  {
  }

  /** A readable event that has been forced before is accepted by a working store. */
  lemma SeenIsAccepted(cfg: Config, l: Ledger, events: seq<Event>, lucks: Lucks, i: nat)
    requires i < |events| && events[i].occurredAt.Some? && Trim(events[i].eventId) in l.seen && Works(lucks(i))
    ensures OutcomeAt(cfg, l, events, lucks, i).Accepted?
  {
    var before := LedgerAfter(cfg, l, events[..i], lucks);
    assert events[..i][..0] == [];
    Monotone(cfg, l, events[..i], lucks, 0);
    WorkingStoreAccepts(before.rows, events[i], lucks(i));
  }

  lemma {:induction false} NoFailures(outcomes: seq<Outcome>)
    requires forall i :: 0 <= i < |outcomes| ==> outcomes[i].Accepted?
    ensures Count(outcomes, Failure) == 0
  {
    if outcomes != [] {
      NoFailures(outcomes[..|outcomes| - 1]);
    }
  }

  function RetryOf(cfg: Config, l: Ledger, events: seq<Event>, lucks: Lucks): seq<Event> {
    RetrySubset(events, Outcomes(cfg, l, events, lucks))
  }

  lemma RetriedWere(cfg: Config, l: Ledger, events: seq<Event>, lucks: Lucks, e: Event)
    ensures e in RetryOf(cfg, l, events, lucks)
       <==> exists i :: 0 <= i < |events| && events[i] == e && Retryable(OutcomeAt(cfg, l, events, lucks, i))
  {
    OutcomesAre(cfg, l, events, lucks);
    RetrySubsetHas(events, Outcomes(cfg, l, events, lucks), e);
  }

  /** If only forced failures occurred, replaying the retry subset once, at any later time and with a working
      store, fails nowhere: its own retry subset is empty. */
  lemma ReplayEmptiesRetrySubset(cfg: Config, l: Ledger, events: seq<Event>, lucks: Lucks, later: Ledger,
                                 replayLucks: Lucks)
    requires OnlyForcedFailures(cfg, l, events, lucks)
    requires LedgerAfter(cfg, l, events, lucks).seen <= later.seen
    requires forall i :: Works(replayLucks(i))
    ensures var retry := RetryOf(cfg, l, events, lucks);
            && RetryOf(cfg, later, retry, replayLucks) == []
            && forall k :: 0 <= k < |retry| ==> OutcomeAt(cfg, later, retry, replayLucks, k).Accepted?
  {
    var retry := RetryOf(cfg, l, events, lucks);
    forall k | 0 <= k < |retry|
      ensures retry[k].occurredAt.Some? && Trim(retry[k].eventId) in later.seen
    {
      assert retry[k] in retry;
      RetriedWere(cfg, l, events, lucks, retry[k]);
      var i :| 0 <= i < |events| && events[i] == retry[k] && Retryable(OutcomeAt(cfg, l, events, lucks, i));
      ForcedIsSeen(cfg, l, events, lucks, i);
    }
    forall k | 0 <= k < |retry|
      ensures OutcomeAt(cfg, later, retry, replayLucks, k).Accepted?
    {
      SeenIsAccepted(cfg, later, retry, replayLucks, k);
    }
    OutcomesAre(cfg, later, retry, replayLucks);
    NoFailures(Outcomes(cfg, later, retry, replayLucks));
    CountsPartition(Outcomes(cfg, later, retry, replayLucks));
    RetrySubsetSelects(retry, Outcomes(cfg, later, retry, replayLucks));
  }

  /** So after one replay every event that has an identity and a readable time is stored. */
  lemma ReplayStoresEverything(cfg: Config, l: Ledger, events: seq<Event>, lucks: Lucks, later: Ledger,
                               replayLucks: Lucks, i: nat)
    requires OnlyForcedFailures(cfg, l, events, lucks)
    requires var once := LedgerAfter(cfg, l, events, lucks);
             once.seen <= later.seen && forall row :: row in once.rows ==> row in later.rows
    requires forall i :: Works(replayLucks(i))
    requires i < |events| && events[i].occurredAt.Some? && Key(events[i]) != ""
    ensures Known(LedgerAfter(cfg, later, RetryOf(cfg, l, events, lucks), replayLucks).rows, events[i])
  {
    var once, retry := LedgerAfter(cfg, l, events, lucks), RetryOf(cfg, l, events, lucks);
    if Retryable(OutcomeAt(cfg, l, events, lucks, i)) {
      ReplayEmptiesRetrySubset(cfg, l, events, lucks, later, replayLucks);
      RetriedWere(cfg, l, events, lucks, events[i]);
      var k :| 0 <= k < |retry| && retry[k] == events[i];
      AcceptedIsKnown(cfg, later, retry, replayLucks, k);
    } else {
      AcceptedIsKnown(cfg, l, events, lucks, i);
      KnownStays(once.rows, later.rows, events[i]);
      assert retry[..0] == [];
      Monotone(cfg, later, retry, replayLucks, 0);
      KnownStays(later.rows, LedgerAfter(cfg, later, retry, replayLucks).rows, events[i]);
    }
  }
}
