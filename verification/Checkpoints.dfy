/** The server side of a gateway's upload queues: batches add to a queue's ingest total, checkpoints report how many
    events a gateway takes as acknowledged and are held against that total. */
module Checkpoints {
  import opened Batch
  import opened Text
  import opened Wrappers

  const MAX_ITEMS := 200

  /** One gateway's queues and events. `totals` are the recorded ingest totals, `acked` the latest checkpoints. */
  datatype State = State(seen: set<string>, access: seq<Row>, device: seq<Row>,
                         totals: map<string, nat>, acked: map<string, nat>)

  datatype Upload = Upload(queue: string, access: seq<Event>, device: seq<Event>,
                           accessLucks: Lucks, deviceLucks: Lucks)

  datatype Report = Report(queue: string, checkpointId: string, ackedCount: int, timeReadable: bool)

  datatype Verdict = Recorded | ExceedsTotal | BadTime | MissingId | Negative | Regression

  function QueueName(queue: string): string {
    if Trim(queue) == "" then "default" else Trim(queue)
  }

  function TotalOf(s: State, q: string): nat {
    if q in s.totals then s.totals[q] else 0
  }

  function AddTo(totals: map<string, nat>, q: string, created: nat): map<string, nat> {
    if created == 0 then totals else totals[q := (if q in totals then totals[q] else 0) + created]
  }

  /** What a checkpoint is held against: the recorded total, for the default queue failing that the stored events. */
  function Limit(s: State, q: string): Option<nat> {
    if q in s.totals then Some(s.totals[q])
    else if q == "default" then Some(|s.access| + |s.device|)
    else None
  }

  /** The total a response reports for a queue: the recorded one, else what is stored, and zero for other queues. */
  function ReportedTotal(s: State, q: string): nat {
    if q in s.totals then s.totals[q] else if q == "default" then |s.access| + |s.device| else 0
  }

  predicate Admissible(u: Upload) {
    0 < |u.access| + |u.device| <= MAX_ITEMS
  }

  function AccessAfter(cfg: Config, s: State, u: Upload): Ledger {
    LedgerAfter(cfg, Ledger(s.seen, s.access), u.access, u.accessLucks)
  }

  function DeviceBefore(cfg: Config, s: State, u: Upload): Ledger {
    Ledger(AccessAfter(cfg, s, u).seen, s.device)
  }

  function DeviceAfter(cfg: Config, s: State, u: Upload): Ledger {
    LedgerAfter(cfg, DeviceBefore(cfg, s, u), u.device, u.deviceLucks)
  }

  function AccessOutcomes(cfg: Config, s: State, u: Upload): seq<Outcome> {
    Outcomes(cfg, Ledger(s.seen, s.access), u.access, u.accessLucks)
  }

  function DeviceOutcomes(cfg: Config, s: State, u: Upload): seq<Outcome> {
    Outcomes(cfg, DeviceBefore(cfg, s, u), u.device, u.deviceLucks)
  }

  /** How many events of an upload satisfy `p`. */
  function Tally(cfg: Config, s: State, u: Upload, p: Outcome -> bool): nat {
    Count(AccessOutcomes(cfg, s, u), p) + Count(DeviceOutcomes(cfg, s, u), p)
  }

  function Uploaded(cfg: Config, s: State, u: Upload, q: string): State {
    State(DeviceAfter(cfg, s, u).seen, AccessAfter(cfg, s, u).rows, DeviceAfter(cfg, s, u).rows,
          AddTo(s.totals, q, Tally(cfg, s, u, Created)), s.acked)
  }

  function AfterUpload(cfg: Config, s: State, u: Upload): State {
    if Admissible(u) then Uploaded(cfg, s, u, QueueName(u.queue)) else s
  }

  function Judge(s: State, r: Report): Verdict {
    var q := QueueName(r.queue);
    if r.ackedCount >= 0 && Limit(s, q).Some? && r.ackedCount > Limit(s, q).value then ExceedsTotal
    else if !r.timeReadable then BadTime
    else if Trim(r.checkpointId) == "" then MissingId
    else if r.ackedCount < 0 then Negative
    else if q in s.acked && r.ackedCount < s.acked[q] then Regression
    else Recorded
  }

  function AfterReport(s: State, r: Report): State {
    if Judge(s, r) == Recorded then s.(acked := s.acked[QueueName(r.queue) := r.ackedCount]) else s
  }

  /** The report's count is more than the events its queue is known to have received. */
  predicate Over(s: State, q: string, count: int) {
    || (q in s.totals && count > s.totals[q])
    || (q == "default" && q !in s.totals && count > |s.access| + |s.device|)
  }

  /** What each verdict means. A blank queue name stands for the default queue. */
  lemma VerdictMeans(s: State, r: Report)
    ensures var v, q := Judge(s, r), if Trim(r.queue) == "" then "default" else Trim(r.queue);
            var proper := !Over(s, q, r.ackedCount) && r.timeReadable && Trim(r.checkpointId) != "";
            && (v == ExceedsTotal <==> Over(s, q, r.ackedCount))
            && (v == BadTime <==> !Over(s, q, r.ackedCount) && !r.timeReadable)
            && (v == MissingId <==> !Over(s, q, r.ackedCount) && r.timeReadable && Trim(r.checkpointId) == "")
            && (v == Negative <==> proper && r.ackedCount < 0)
            && (v == Regression <==> proper && r.ackedCount >= 0 && q in s.acked && r.ackedCount < s.acked[q])
            && (v == Recorded ==> r.ackedCount >= 0 && AfterReport(s, r) == s.(acked := s.acked[q := r.ackedCount]))
            && (v != Recorded ==> AfterReport(s, r) == s)
  {
  }

  // ---- The server ----

  /** The batch response: its two halves and the hint on how to go on. */
  datatype Response = Response(access: Part, device: Part, ackedIncrement: int, ingestedTotal: nat,
                               statusCode: string, nextAction: string, retrySubsetPresent: bool)

  function QueueStatusCode(failed: nat, retryable: nat): string {
    if retryable > 0 then "QUEUE_RETRY_SUBSET_REQUIRED"
    else if failed > 0 then "QUEUE_PARTIAL_NON_RETRYABLE"
    else "QUEUE_READY_TO_CHECKPOINT"
  }

  function NextAction(failed: nat, retryable: nat): string {
    if retryable > 0 then "replay_retry_subset_then_report_checkpoint"
    else if failed > 0 then "report_checkpoint_with_non_retryable_failures"
    else "report_checkpoint"
  }

  predicate AsksReplay(nextAction: string) {
    nextAction == "replay_retry_subset_then_report_checkpoint"
  }

  predicate SaysReady(statusCode: string) {
    statusCode == "QUEUE_READY_TO_CHECKPOINT"
  }

  function Respond(access: Part, device: Part, received: nat): Response {
    var failed, retryable := access.failed + device.failed, access.retryable + device.retryable;
    Response(access, device, received - failed, 0,
             QueueStatusCode(failed, retryable), NextAction(failed, retryable), retryable > 0)
  }

  /** The response to an upload, but for the total that is looked up. */
  function ResponseTo(cfg: Config, s: State, u: Upload): Response {
    Respond(PartOf(u.access, AccessOutcomes(cfg, s, u)), PartOf(u.device, DeviceOutcomes(cfg, s, u)),
            |u.access| + |u.device|)
  }

  lemma {:induction false} FailuresCounted(outcomes: seq<Outcome>)
    ensures Count(outcomes, Failure) == 0 <==> forall o :: o in outcomes ==> o.Accepted?
  {
    if outcomes != [] {
      var n := |outcomes| - 1;
      FailuresCounted(outcomes[..n]);
      assert outcomes == outcomes[..n] + [outcomes[n]];
      assert outcomes[n] in outcomes;
    }
  }

  /** The hint acknowledges what was accepted, new or duplicate; it asks for a replay exactly when something can
      be retried, and for a plain checkpoint exactly when nothing failed. */
  lemma HintIsTruthful(cfg: Config, s: State, u: Upload)
    ensures var r, access, device := ResponseTo(cfg, s, u), AccessOutcomes(cfg, s, u), DeviceOutcomes(cfg, s, u);
            && r.ackedIncrement == Tally(cfg, s, u, Created) + Tally(cfg, s, u, Duplicate)
            && (r.retrySubsetPresent <==> r.access.retry + r.device.retry != [])
            && (r.retrySubsetPresent <==> AsksReplay(r.nextAction))
            && (SaysReady(r.statusCode) <==> (forall o :: o in access || o in device ==> o.Accepted?))
  {
    hide AccessOutcomes, DeviceOutcomes, Respond, PartOf, Count, AsksReplay, SaysReady;
    AccessLength(cfg, s, u);
    HintBalances(u.access, AccessOutcomes(cfg, s, u), u.device, DeviceOutcomes(cfg, s, u));
  }

  lemma AccessLength(cfg: Config, s: State, u: Upload)
    ensures |AccessOutcomes(cfg, s, u)| == |u.access| && |DeviceOutcomes(cfg, s, u)| == |u.device|
  {
  }

  lemma HintBalances(es: seq<Event>, access: seq<Outcome>, ds: seq<Event>, device: seq<Outcome>)
    requires |es| == |access| && |ds| == |device|
    ensures var r := Respond(PartOf(es, access), PartOf(ds, device), |es| + |ds|);
            && r.access == PartOf(es, access) && r.device == PartOf(ds, device)
            && r.ackedIncrement == Count(access, Created) + Count(device, Created)
                                 + (Count(access, Duplicate) + Count(device, Duplicate))
            && (r.retrySubsetPresent <==> r.access.retry + r.device.retry != [])
            && (r.retrySubsetPresent <==> AsksReplay(r.nextAction))
            && (SaysReady(r.statusCode) <==> (forall o :: o in access || o in device ==> o.Accepted?))
  {
    hide QueueStatusCode, NextAction, AsksReplay, SaysReady, RetrySubset, Entries, Count;
    HintNumbers(es, access, ds, device);
    AllAccepted(access, device);
    CountsPartition(access);
    CountsPartition(device);
    NamesDiffer(Count(access, Failure) + Count(device, Failure), Count(access, Retryable) + Count(device, Retryable));
  }

  lemma HintNumbers(es: seq<Event>, access: seq<Outcome>, ds: seq<Event>, device: seq<Outcome>)
    requires |es| == |access| && |ds| == |device|
    ensures var r := Respond(PartOf(es, access), PartOf(ds, device), |es| + |ds|);
            && r.access == PartOf(es, access) && r.device == PartOf(ds, device)
            && r.ackedIncrement == Count(access, Created) + Count(device, Created)
                                 + (Count(access, Duplicate) + Count(device, Duplicate))
            && (r.retrySubsetPresent <==> r.access.retry + r.device.retry != [])
  {
    hide QueueStatusCode, NextAction, AsksReplay, SaysReady, RetrySubset, Entries, Count;
    CountsPartition(access);
    CountsPartition(device);
    RetrySubsetLength(es, access);
    RetrySubsetLength(ds, device);
  }

  lemma RetrySubsetLength(es: seq<Event>, outcomes: seq<Outcome>)
    requires |es| == |outcomes|
    ensures |RetrySubset(es, outcomes)| == Count(outcomes, Retryable)
  {
    RetrySubsetSelects(es, outcomes);
  }

  lemma AllAccepted(access: seq<Outcome>, device: seq<Outcome>)
    ensures Count(access, Failure) + Count(device, Failure) == 0
       <==> forall o :: o in access || o in device ==> o.Accepted?
  {
    FailuresCounted(access);
    FailuresCounted(device);
  }

  lemma NamesDiffer(failed: nat, retryable: nat)
    ensures AsksReplay(NextAction(failed, retryable)) <==> retryable > 0
    ensures SaysReady(QueueStatusCode(failed, retryable)) <==> retryable == 0 == failed
  {
    assert "report_checkpoint"[2] != "replay_retry_subset_then_report_checkpoint"[3];
  }

  /** Status and next action by what failed: anything that can be retried, only what cannot, or nothing. */
  lemma ResponseNames(cfg: Config, s: State, u: Upload)
    ensures var r, failed, retryable := ResponseTo(cfg, s, u), Tally(cfg, s, u, Failure), Tally(cfg, s, u, Retryable);
            && (retryable > 0 ==> r.statusCode == "QUEUE_RETRY_SUBSET_REQUIRED"
                                  && r.nextAction == "replay_retry_subset_then_report_checkpoint")
            && (retryable == 0 < failed ==> r.statusCode == "QUEUE_PARTIAL_NON_RETRYABLE"
                                            && r.nextAction == "report_checkpoint_with_non_retryable_failures")
            && (retryable == 0 == failed ==> r.statusCode == "QUEUE_READY_TO_CHECKPOINT"
                                             && r.nextAction == "report_checkpoint")
  {
    hide AccessOutcomes, DeviceOutcomes, Count, Entries, RetrySubset;
    AccessLength(cfg, s, u);
  }

  // ---- Where uploaded events go ----

  /** What becomes of a list of events and its store: nothing is lost, every accepted event with an identity is in it,
      and with a working disk it grows by the created ones. */
  ghost predicate Stores(events: seq<Event>, outcomes: seq<Outcome>, before: seq<Row>, after: seq<Row>, works: bool)
    requires |outcomes| == |events|
  {
    && (forall row :: row in before ==> row in after)
    && (forall i :: 0 <= i < |events| && outcomes[i].Accepted? && Key(events[i]) != "" ==> Known(after, events[i]))
    && (works ==> |after| == |before| + Count(outcomes, Created))
  }

  lemma LedgerStores(cfg: Config, l: Ledger, events: seq<Event>, lucks: Lucks, works: bool)
    requires works ==> forall i :: lucks(i).persists
    ensures Stores(events, Outcomes(cfg, l, events, lucks), l.rows, LedgerAfter(cfg, l, events, lucks).rows, works)
  {
    hide Known, Count, Key;
    Monotone(cfg, l, events, lucks, 0);
    assert events[..0] == [];
    OutcomesAre(cfg, l, events, lucks);
    forall i | 0 <= i < |events| && Outcomes(cfg, l, events, lucks)[i].Accepted? && Key(events[i]) != ""
      ensures Known(LedgerAfter(cfg, l, events, lucks).rows, events[i])
    {
      AcceptedIsKnown(cfg, l, events, lucks, i);
    }
    if works {
      StoreGrowsByCreated(cfg, l, events, lucks);
      WorkingDiskReports(cfg, l, events, lucks);
    }
  }

  /** Access events go to the one store and device events to the other. */
  lemma UploadStores(cfg: Config, s: State, u: Upload, works: bool)
    requires 1 <= |u.access| + |u.device| <= 200
    requires works ==> forall i :: u.accessLucks(i).persists && u.deviceLucks(i).persists
    ensures var s' := AfterUpload(cfg, s, u);
            && Stores(u.access, AccessOutcomes(cfg, s, u), s.access, s'.access, works)
            && Stores(u.device, DeviceOutcomes(cfg, s, u), s.device, s'.device, works)
  {
    hide Stores, Tally;
    LedgerStores(cfg, Ledger(s.seen, s.access), u.access, u.accessLucks, works);
    LedgerStores(cfg, DeviceBefore(cfg, s, u), u.device, u.deviceLucks, works);
  }

  lemma FailsIfForced(cfg: Config, l: Ledger, events: seq<Event>, lucks: Lucks, i: nat)
    requires i < |events| && events[i].occurredAt.Some? && Works(lucks(i))
    ensures Outcomes(cfg, l, events, lucks)[i].Failed?
       <==> Forced(cfg, LedgerAfter(cfg, l, events[..i], lucks).seen, events[i])
  {
    OutcomesAre(cfg, l, events, lucks);
    WorkingStoreAccepts(LedgerAfter(cfg, l, events[..i], lucks).rows, events[i], lucks(i));
  }

  /** No event with a readable time has the id. */
  predicate NoneReadable(events: seq<Event>, id: string) {
    forall j :: 0 <= j < |events| && events[j].occurredAt.Some? ==> Trim(events[j].eventId) != id
  }

  /** The two lists share the ids that failed on purpose: with a working store a readable device event fails exactly
      when its id is one to be forced that neither came before this upload, nor with a readable access event of it, nor
      with an earlier readable device event. */
  lemma ForcedOncePerUpload(cfg: Config, s: State, u: Upload, i: nat)
    requires i < |u.device| && u.device[i].occurredAt.Some? && Works(u.deviceLucks(i))
    ensures var id := Trim(u.device[i].eventId);
            DeviceOutcomes(cfg, s, u)[i].Failed?
            <==> Forceable(cfg, id) && id !in s.seen && NoneReadable(u.access, id) && NoneReadable(u.device[..i], id)
  {
    hide Forced, Handle, Outcomes;
    var id, l := Trim(u.device[i].eventId), DeviceBefore(cfg, s, u);
    FailsIfForced(cfg, l, u.device, u.deviceLucks, i);
    ForcedAtFirstReadable(cfg, l, u.device, u.deviceLucks, i);
    if Forceable(cfg, id) {
      SeenAre(cfg, Ledger(s.seen, s.access), u.access, u.accessLucks, id);
    }
  }

  class Server {
    const cfg: Config
    var failureSeen: set<string>
    var accessEvents: seq<Row>
    var deviceEvents: seq<Row>
    var ingestTotals: map<string, nat>
    var ackedCounts: map<string, nat>

    ghost function Abstract(): State
      reads this
    {
      State(failureSeen, accessEvents, deviceEvents, ingestTotals, ackedCounts)
    }

    constructor (cfg: Config, access: seq<Row>, device: seq<Row>)
      ensures this.cfg == cfg && Abstract() == State({}, access, device, map[], map[])
    {
      this.cfg := cfg;
      failureSeen, accessEvents, deviceEvents, ingestTotals, ackedCounts := {}, access, device, map[], map[];
    }

    /** An upload: None when its size is refused. */
    method PostBatch(u: Upload) returns (response: Option<Response>)
      modifies this
      ensures Abstract() == AfterUpload(cfg, old(Abstract()), u)
      ensures response.Some? <==> 1 <= |u.access| + |u.device| <= 200
      ensures response.Some? ==>
        response.value.(ingestedTotal := 0) == ResponseTo(cfg, old(Abstract()), u)
      ensures response.Some? ==>
                var q := if Trim(u.queue) == "" then "default" else Trim(u.queue);
                response.value.ingestedTotal == (if q in ingestTotals then ingestTotals[q]
                                                 else if q == "default" then |accessEvents| + |deviceEvents| else 0)
    {
      if !Admissible(u) {
        return None;
      }
      var accepted := Accept(u, QueueName(u.queue));
      return Some(accepted);
    }

    method Accept(u: Upload, queue: string) returns (r: Response)
      modifies this
      ensures Abstract() == Uploaded(cfg, old(Abstract()), u, queue)
      ensures r.(ingestedTotal := 0) == ResponseTo(cfg, old(Abstract()), u)
      ensures r.ingestedTotal == ReportedTotal(Abstract(), queue)
    {
      var created;
      r, created := Draft(u);
      var total := AddTotal(queue, created);
      r := r.(ingestedTotal := total);
    }

    /** The response but for the total, which is still to be looked up. */
    method Draft(u: Upload) returns (draft: Response, created: nat)
      modifies this`failureSeen, this`accessEvents, this`deviceEvents
      ensures failureSeen == DeviceAfter(cfg, old(Abstract()), u).seen
      ensures accessEvents == AccessAfter(cfg, old(Abstract()), u).rows
      ensures deviceEvents == DeviceAfter(cfg, old(Abstract()), u).rows
      ensures draft == ResponseTo(cfg, old(Abstract()), u)
      ensures created == Tally(cfg, old(Abstract()), u, Created)
    {
      var access, device := Ingest(u);
      draft, created := Respond(access, device, |u.access| + |u.device|), access.created + device.created;
    }

    /** The two loops, access events first. */
    method Ingest(u: Upload) returns (access: Part, device: Part)
      modifies this`failureSeen, this`accessEvents, this`deviceEvents
      ensures failureSeen == DeviceAfter(cfg, old(Abstract()), u).seen
      ensures accessEvents == AccessAfter(cfg, old(Abstract()), u).rows
      ensures deviceEvents == DeviceAfter(cfg, old(Abstract()), u).rows
      ensures access == PartOf(u.access, AccessOutcomes(cfg, old(Abstract()), u))
      ensures device == PartOf(u.device, DeviceOutcomes(cfg, old(Abstract()), u))
    {
      var afterAccess, afterDevice;
      access, afterAccess := ProcessEvents(cfg, Ledger(failureSeen, accessEvents), u.access, u.accessLucks);
      device, afterDevice := ProcessEvents(cfg, Ledger(afterAccess.seen, deviceEvents), u.device, u.deviceLucks);
      failureSeen, accessEvents, deviceEvents := afterDevice.seen, afterAccess.rows, afterDevice.rows;
    }

    /** Adds to the ingest total, and reports it; when nothing was created it only looks it up. */
    method AddTotal(queue: string, created: nat) returns (total: nat)
      modifies this`ingestTotals
      ensures ingestTotals == AddTo(old(ingestTotals), queue, created)
      ensures total == ReportedTotal(Abstract(), queue)
    {
      if created > 0 {
        total := created;
        if queue in ingestTotals {
          total := ingestTotals[queue] + created;
        }
        ingestTotals := ingestTotals[queue := total];
      } else if queue in ingestTotals {
        total := ingestTotals[queue];
      } else if queue == "default" {
        total := |accessEvents| + |deviceEvents|;
      } else {
        total := 0;
      }
    }

    method PostCheckpoint(r: Report) returns (v: Verdict)
      modifies this`ackedCounts
      ensures v == Judge(old(Abstract()), r)
      ensures Abstract() == AfterReport(old(Abstract()), r)
    {
      var queue := QueueName(r.queue);
      if r.ackedCount >= 0 {
        var total: int := -1;
        if queue in ingestTotals {
          total := ingestTotals[queue];
        }
        if total < 0 && queue == "default" {
          total := |accessEvents| + |deviceEvents|;
        }
        if total >= 0 && r.ackedCount > total {
          return ExceedsTotal;
        }
      }
      if !r.timeReadable {
        return BadTime;
      }
      v := Upsert(queue, Trim(r.checkpointId), r.ackedCount);
    }

    method Upsert(queue: string, checkpointId: string, ackedCount: int) returns (v: Verdict)
      modifies this`ackedCounts
      ensures v == if checkpointId == "" then MissingId
                   else if ackedCount < 0 then Negative
                   else if queue in old(ackedCounts) && ackedCount < old(ackedCounts)[queue] then Regression
                   else Recorded
      ensures ackedCounts == if v == Recorded then old(ackedCounts)[queue := ackedCount] else old(ackedCounts)
    {
      if checkpointId == "" {
        return MissingId;
      }
      if ackedCount < 0 {
        return Negative;
      }
      if queue in ackedCounts && ackedCount < ackedCounts[queue] {
        return Regression;
      }
      ackedCounts := ackedCounts[queue := ackedCount];
      return Recorded;
    }
  }

  // ---- Whole runs ----

  datatype Op = Send(upload: Upload) | Ack(report: Report)

  function Next(cfg: Config, s: State, op: Op): State {
    if op.Send? then AfterUpload(cfg, s, op.upload) else AfterReport(s, op.report)
  }

  function After(cfg: Config, s: State, ops: seq<Op>): State {
    if ops == [] then s else Next(cfg, After(cfg, s, ops[..|ops| - 1]), ops[|ops| - 1])
  }

  function CreatedBy(cfg: Config, s: State, op: Op, q: string): nat {
    if op.Send? && Admissible(op.upload) && QueueName(op.upload.queue) == q
    then Tally(cfg, s, op.upload, Created)
    else 0
  }

  /** The events created in queue `q` over a run. */
  function CreatedIn(cfg: Config, s: State, ops: seq<Op>, q: string): nat {
    if ops == [] then 0
    else
      var n := |ops| - 1;
      CreatedIn(cfg, s, ops[..n], q) + CreatedBy(cfg, After(cfg, s, ops[..n]), ops[n], q)
  }

  /** Over any run a queue's total grows by exactly the events created in it; it is recorded as soon as one is. */
  lemma {:induction false} TotalIsCreated(cfg: Config, s: State, ops: seq<Op>, q: string)
    ensures TotalOf(After(cfg, s, ops), q) == TotalOf(s, q) + CreatedIn(cfg, s, ops, q)
    ensures q in After(cfg, s, ops).totals <==> q in s.totals || CreatedIn(cfg, s, ops, q) > 0
  {
    hide Tally, AccessAfter, DeviceAfter, Judge, Admissible;
    if ops != [] {
      TotalIsCreated(cfg, s, ops[..|ops| - 1], q);
    }
  }

  /** Checkpoints never fall back, and totals never fall. */
  lemma {:induction false} WatermarksRise(cfg: Config, s: State, ops: seq<Op>, q: string)
    ensures var s' := After(cfg, s, ops);
            && (q in s.acked ==> q in s'.acked && s.acked[q] <= s'.acked[q])
            && (q in s.totals ==> q in s'.totals && s.totals[q] <= s'.totals[q])
  {
    if ops != [] {
      WatermarksRise(cfg, s, ops[..|ops| - 1], q);
    }
  }

  ghost predicate WithinTotal(s: State, q: string) {
    q in s.acked ==> q in s.totals && s.acked[q] <= s.totals[q]
  }

  /** A well-formed report, no lower than the checkpoint before, of a queue that has no total yet; of the default
      queue also no higher than what is stored. */
  predicate Unbacked(s: State, op: Op, q: string) {
    && op.Ack? && QueueName(op.report.queue) == q && q !in s.totals
    && op.report.timeReadable && Trim(op.report.checkpointId) != "" && Previous(s, q) <= op.report.ackedCount
    && (q == "default" ==> op.report.ackedCount <= |s.access| + |s.device|)
  }

  function Previous(s: State, q: string): nat {
    if q in s.acked then s.acked[q] else 0
  }

  /** One step keeps a queue's checkpoint within its total, unless it records a checkpoint of a queue without one. */
  lemma StepKeepsWithin(cfg: Config, s: State, op: Op, q: string)
    requires WithinTotal(s, q)
    ensures WithinTotal(Next(cfg, s, op), q) <==> !Unbacked(s, op, q)
  {
  }

  /** So in a run that starts without checkpoints and reports no queue before its first total, every checkpoint
      stays within the total. */
  lemma {:induction false} CheckpointsWithinTotals(cfg: Config, s: State, ops: seq<Op>, q: string)
    requires WithinTotal(s, q)
    requires forall i :: 0 <= i < |ops| ==> !Unbacked(After(cfg, s, ops[..i]), ops[i], q)
    ensures WithinTotal(After(cfg, s, ops), q)
  {
    if ops != [] {
      var n := |ops| - 1;
      forall i | 0 <= i < n
        ensures !Unbacked(After(cfg, s, ops[..n][..i]), ops[..n][i], q)
      {
        assert ops[..n][..i] == ops[..i];
      }
      CheckpointsWithinTotals(cfg, s, ops[..n], q);
      StepKeepsWithin(cfg, After(cfg, s, ops[..n]), ops[n], q);
    }
  }

  // ---- Stranded queues ----

  /** A queue whose checkpoint is past what checkpoints are held against. */
  predicate Stranded(s: State, q: string) {
    q in s.acked && Limit(s, q).Some? && s.acked[q] > Limit(s, q).value
  }

  /** Exactly such a queue can have no checkpoint recorded, whatever is reported. */
  lemma StrandedTakesNoReport(s: State, q: string)
    requires QueueName(q) == q
    ensures (exists r: Report :: QueueName(r.queue) == q && Judge(s, r) == Recorded) <==> !Stranded(s, q)
  {
    if !Stranded(s, q) {
      var r := Report(q, "c", Previous(s, q), true);
      TrimLeaves("c");
      assert Judge(s, r) == Recorded;
    }
  }

  /** A checkpoint accepted before its queue had a total strands the queue with the first total exactly when it is
      past the events that upload creates. */
  lemma FirstTotalStrands(cfg: Config, s: State, u: Upload)
    requires Admissible(u) && Tally(cfg, s, u, Created) > 0
    requires var q := QueueName(u.queue); q in s.acked && q !in s.totals
    ensures Stranded(AfterUpload(cfg, s, u), QueueName(u.queue))
       <==> Tally(cfg, s, u, Created) < s.acked[QueueName(u.queue)]
  {
  }

  lemma {:induction false} CaughtUp(cfg: Config, s: State, ops: seq<Op>, q: string)
    requires q in s.acked && q in s.totals
    ensures var s' := After(cfg, s, ops);
            && q in s'.acked && q in s'.totals && s.acked[q] <= s'.acked[q]
            && (s'.totals[q] < s.acked[q] ==> s'.acked[q] == s.acked[q])
            && (s'.totals[q] >= s.acked[q] ==> s'.acked[q] <= s'.totals[q])
  {
    if ops != [] {
      CaughtUp(cfg, s, ops[..|ops| - 1], q);
      TotalStep(cfg, After(cfg, s, ops[..|ops| - 1]), ops[|ops| - 1], q);
    }
  }

  /** Over any run a queue with a total stays stranded exactly until the events created in it since make up for
      what its checkpoint was ahead. */
  lemma StrandedUntilCaughtUp(cfg: Config, s: State, ops: seq<Op>, q: string)
    requires q in s.acked && q in s.totals
    ensures Stranded(After(cfg, s, ops), q) <==> s.totals[q] + CreatedIn(cfg, s, ops, q) < s.acked[q]
  {
    CaughtUp(cfg, s, ops, q);
    TotalIsCreated(cfg, s, ops, q);
  }

  lemma TotalStep(cfg: Config, s: State, op: Op, q: string)
    requires q in s.acked && q in s.totals
    ensures var s' := Next(cfg, s, op);
            && q in s'.acked && q in s'.totals && s.totals[q] <= s'.totals[q]
            && (s'.acked[q] == s.acked[q] || s.acked[q] <= s'.acked[q] <= s.totals[q] == s'.totals[q])
  {
  }

  // ---- Following the hint ----

  /** What a gateway reports that adds the hint's increment to its previous checkpoint, if it has one. */
  function Follow(s: State, u: Upload, increment: nat, checkpointId: string): Report {
    Report(u.queue, checkpointId, Previous(s, QueueName(u.queue)) + increment, true)
  }

  /** Room for the duplicates of an upload: below the total before it, which is zero for a queue that gets its
      first total now; a queue that gets none is held against what is stored, or against nothing. */
  predicate RoomForDuplicates(cfg: Config, s: State, u: Upload) {
    var q, needed := QueueName(u.queue), Previous(s, QueueName(u.queue)) + Tally(cfg, s, u, Duplicate);
    if q in s.totals || Tally(cfg, s, u, Created) > 0 then needed <= TotalOf(s, q)
    else q == "default" ==> needed <= |AccessAfter(cfg, s, u).rows| + |DeviceAfter(cfg, s, u).rows|
  }

  /** The hint's increment counts duplicates, the total does not. A gateway that follows the hint is accepted
      exactly when there is room for the duplicates, whatever its checkpoint and its queue's total were. */
  lemma HintFits(cfg: Config, s: State, u: Upload, checkpointId: string)
    requires Admissible(u) && Trim(checkpointId) != ""
    ensures var increment := Tally(cfg, s, u, Created) + Tally(cfg, s, u, Duplicate);
            Judge(AfterUpload(cfg, s, u), Follow(s, u, increment, checkpointId))
            == if RoomForDuplicates(cfg, s, u) then Recorded else ExceedsTotal
  {
  }

  /** An upload of one readable event has that event's outcome. */
  lemma OneOutcome(cfg: Config, s: State, u: Upload, e: Event, o: Outcome, p: Outcome -> bool)
    requires u.access == [e] && u.device == [] && e.occurredAt.Some? && !cfg.forceRetryable
    requires o == Ingest(s.access, e, u.accessLucks(0)).0
    ensures Tally(cfg, s, u, p) == if p(o) then 1 else 0
  {
    var l, one := Ledger(s.seen, s.access), [o];
    assert u.access[..0] == [];
    assert LedgerAfter(cfg, l, u.access[..0], u.accessLucks) == l;
    assert AccessOutcomes(cfg, s, u) == one;
    assert one[..0] == [];
  }

  lemma OneDuplicate(cfg: Config, s: State, u: Upload, e: Event)
    requires u.access == [e] && u.device == [] && e.occurredAt.Some? && !cfg.forceRetryable && Known(s.access, e)
    ensures Tally(cfg, s, u, Created) == 0 && Tally(cfg, s, u, Duplicate) == 1
  {
    var o := Ingest(s.access, e, u.accessLucks(0)).0;
    IngestMeans(s.access, e, u.accessLucks(0));
    OneOutcome(cfg, s, u, e, o, Created);
    OneOutcome(cfg, s, u, e, o, Duplicate);
  }

  /** One stored and acknowledged event uploaded again: nothing is created, one is acknowledged, and the report
      is refused. */
  lemma HintOvershootsExample(cfg: Config, s: State, u: Upload, e: Event, row: Row)
    requires s == State({}, [row], [], map["default" := 1], map["default" := 1])
    requires u.queue == "default" && u.access == [e] && u.device == []
    requires !cfg.forceRetryable && e.occurredAt.Some? && Known([row], e)
    ensures Tally(cfg, s, u, Created) == 0 && Tally(cfg, s, u, Duplicate) == 1
    ensures Judge(AfterUpload(cfg, s, u), Follow(s, u, 1, "c")) == ExceedsTotal
  {
    hide Tally, Judge, AfterUpload, Follow, Known, Trim;
    OneDuplicate(cfg, s, u, e);
    TrimLeaves("default");
    TrimLeaves("c");
    HintFits(cfg, s, u, "c");
  }

  /** Two stored events, both acknowledged, then one more created: 2 acknowledged, 1 counted, and the queue is
      stranded. */
  lemma FallbackStrandsExample(cfg: Config, s: State, u: Upload, e: Event, row: Row, other: Row)
    requires s == State({}, [row, other], [], map[], map[])
    requires u.queue == "default" && u.access == [e] && u.device == []
    requires !cfg.forceRetryable && e.occurredAt.Some? && Works(u.accessLucks(0)) && !Known([row, other], e)
    ensures var r := Report("default", "c", 2, true);
            Judge(s, r) == Recorded && Stranded(AfterUpload(cfg, AfterReport(s, r), u), "default")
  {
    var r := Report("default", "c", 2, true);
    TrimLeaves("default");
    TrimLeaves("c");
    assert Judge(s, r) == Recorded;
    var s1 := AfterReport(s, r);
    IngestMeans(s1.access, e, u.accessLucks(0));
    OneOutcome(cfg, s1, u, e, Ingest(s1.access, e, u.accessLucks(0)).0, Created);
    hide Tally, AfterUpload, Stranded;
    FirstTotalStrands(cfg, s1, u);
  }
}
