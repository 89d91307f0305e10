/** One tick of the HRIS webhook worker: claims taken from a shared queue become a list of executions to run, and
    every claim is settled with the queue store. What the store, the enterprise service and the processing of a
    receipt answer are parameters. */
module HrisQueue {
  import opened Text
  import opened Wrappers

  datatype Execution = Execution(id: string, kind: string, status: string, executionMode: string, dispatchMode: string)

  datatype Claim = Claim(itemId: string, token: string)

  datatype Queued = Queued(execution: Execution, claim: Option<Claim>)

  /** What is sent to the queue store. */
  datatype Command = Ack(claim: Claim) | Requeue(claim: Claim) | Enqueue(executionId: string)

  /** A claim without item or token cannot be settled: no command is sent for it. */
  predicate Settleable(c: Claim) {
    Trim(c.itemId) != "" && Trim(c.token) != ""
  }

  function AckOf(c: Claim): seq<Command> {
    if Settleable(c) then [Ack(c)] else []
  }

  function Acks(claims: seq<Claim>): seq<Command> {
    if claims == [] then [] else Acks(claims[..|claims| - 1]) + AckOf(claims[|claims| - 1])
  }

  lemma AcksStep(claims: seq<Claim>, c: Claim)
    ensures Acks(claims + [c]) == Acks(claims) + AckOf(c)
  {
    assert (claims + [c])[..|claims|] == claims;
  }

  // ---- Listing ----

  datatype Listing = Listing(items: seq<Queued>, acked: seq<Claim>)

  predicate Has(items: seq<Queued>, id: string) {
    exists q :: q in items && q.execution.id == id
  }

  /** A candidate is listed once, any other claim is acknowledged. */
  function Place(l: Listing, c: Claim, candidate: Option<Execution>): Listing {
    if candidate == None || Has(l.items, candidate.value.id) then l.(acked := l.acked + [c])
    else l.(items := l.items + [Queued(candidate.value, Some(c))])
  }

  /** What the claims come to; a full list stops. */
  function FromClaims(claims: seq<Claim>, lookup: nat -> Option<Execution>, batch: nat): Listing {
    if claims == [] then Listing([], [])
    else
      var n := |claims| - 1;
      var l := FromClaims(claims[..n], lookup, batch);
      if |l.items| >= batch then l else Place(l, claims[n], lookup(n))
  }

  function WithFallback(items: seq<Queued>, fallback: seq<Execution>, batch: nat): seq<Queued> {
    if fallback == [] then items
    else
      var n := |fallback| - 1;
      var sofar := WithFallback(items, fallback[..n], batch);
      if |sofar| >= batch || Has(sofar, fallback[n].id) then sofar else sofar + [Queued(fallback[n], None)]
  }

  function Batch(batchSize: int): nat {
    if batchSize <= 0 then 1 else batchSize
  }

  function Taken(claims: Option<seq<Claim>>, lookup: nat -> Option<Execution>, batchSize: int): Listing {
    FromClaims(if claims.Some? then claims.value else [], lookup, Batch(batchSize))
  }

  lemma NoClaims(lookup: nat -> Option<Execution>, batch: nat)
    ensures FromClaims([], lookup, batch) == Listing([], [])
  {
  }

  lemma ClaimStep(claims: seq<Claim>, lookup: nat -> Option<Execution>, batch: nat, i: nat)
    requires i < |claims| && |FromClaims(claims[..i], lookup, batch).items| < batch
    ensures FromClaims(claims[..i + 1], lookup, batch)
         == Place(FromClaims(claims[..i], lookup, batch), claims[i], lookup(i))
  {
    hide Place;
    assert claims[..i + 1][..i] == claims[..i];
  }

  lemma {:induction false} FullStays(claims: seq<Claim>, lookup: nat -> Option<Execution>, batch: nat, n: nat)
    requires n <= |claims| && |FromClaims(claims[..n], lookup, batch).items| >= batch
    ensures FromClaims(claims, lookup, batch) == FromClaims(claims[..n], lookup, batch)
  {
    if n < |claims| {
      assert claims[..|claims| - 1][..n] == claims[..n];
      FullStays(claims[..|claims| - 1], lookup, batch, n);
    } else {
      assert claims[..n] == claims;
    }
  }

  lemma {:induction false} FullFallbackStays(items: seq<Queued>, fallback: seq<Execution>, batch: nat, n: nat)
    requires n <= |fallback| && |WithFallback(items, fallback[..n], batch)| >= batch
    ensures WithFallback(items, fallback, batch) == WithFallback(items, fallback[..n], batch)
  {
    if n < |fallback| {
      assert fallback[..|fallback| - 1][..n] == fallback[..n];
      FullFallbackStays(items, fallback[..|fallback| - 1], batch, n);
    } else {
      assert fallback[..n] == fallback;
    }
  }

  /** What the enterprise service answers for a listed execution, and how its processing goes. */
  datatype Fate =
    | ClaimFails
    | Cooldown(current: Execution)
    | OtherReason
    | ReceiptMissing
    | RequeueFails
    | Requeued(current: Execution)
    | Completed

  class Worker {
    var commands: seq<Command>

    constructor ()
      ensures commands == []
    {
      commands := [];
    }

    /** `claims` is None when there is no queue store, or claiming fails. */
    method ListQueued(claims: Option<seq<Claim>>, lookup: nat -> Option<Execution>, fallback: seq<Execution>,
                      batchSize: int)
      returns (items: seq<Queued>)
      modifies this
      ensures items == WithFallback(Taken(claims, lookup, batchSize).items, fallback, Batch(batchSize))
      ensures commands == old(commands) + Acks(Taken(claims, lookup, batchSize).acked)
    {
      hide FromClaims, WithFallback;
      var batch := if batchSize <= 0 then 1 else batchSize;
      items := [];
      if claims.Some? {
        var acked;
        items, acked := TakeClaims(claims.value, lookup, batch);
        assert Taken(claims, lookup, batchSize) == Listing(items, acked);
      } else {
        NoClaims(lookup, batch);
      }
      items := TakeFallback(items, fallback, batch);
    }

    method TakeFallback(taken: seq<Queued>, fallback: seq<Execution>, batch: nat) returns (items: seq<Queued>)
      ensures items == WithFallback(taken, fallback, batch)
    {
      items := taken;
      assert fallback[..0] == [];
      if |items| >= batch {
        FullFallbackStays(items, fallback, batch, 0);
        return;
      }
      for i := 0 to |fallback|
        invariant items == WithFallback(taken, fallback[..i], batch) && |items| < batch
      {
        assert fallback[..i + 1][..i] == fallback[..i];
        var known := Listed(items, fallback[i].id);
        if known {
          continue;
        }
        items := items + [Queued(fallback[i], None)];
        if |items| >= batch {
          FullFallbackStays(taken, fallback, batch, i + 1);
          return;
        }
      }
      assert fallback[..|fallback|] == fallback;
    }

    method TakeClaims(claims: seq<Claim>, lookup: nat -> Option<Execution>, batch: nat)
      returns (items: seq<Queued>, acked: seq<Claim>)
      requires batch > 0
      modifies this
      ensures Listing(items, acked) == FromClaims(claims, lookup, batch)
      ensures commands == old(commands) + Acks(acked)
    {
      hide Place;
      items, acked := [], [];
      for i := 0 to |claims|
        invariant Listing(items, acked) == FromClaims(claims[..i], lookup, batch) && |items| < batch
        invariant commands == old(commands) + Acks(acked)
      {
        ClaimStep(claims, lookup, batch, i);
        items, acked := TakeClaim(items, acked, claims[i], lookup(i), old(commands));
        if |items| >= batch {
          FullStays(claims, lookup, batch, i + 1);
          return;
        }
      }
      assert claims[..|claims|] == claims;
    }

    /** `before` is what had been sent before the first claim. */
    method TakeClaim(items: seq<Queued>, acked: seq<Claim>, c: Claim, candidate: Option<Execution>,
                     ghost before: seq<Command>)
      returns (items': seq<Queued>, acked': seq<Claim>)
      requires commands == before + Acks(acked)
      modifies this
      ensures Listing(items', acked') == Place(Listing(items, acked), c, candidate)
      ensures commands == before + Acks(acked')
    {
      items', acked' := items, acked;
      var known := false;
      if candidate.Some? {
        known := Listed(items, candidate.value.id);
      }
      if candidate == None || known {
        Acknowledge(c);
        acked' := acked + [c];
        AcksStep(acked, c);
        assert commands == before + (Acks(acked) + AckOf(c));
      } else {
        items' := items + [Queued(candidate.value, Some(c))];
      }
    }

    method Acknowledge(c: Claim)
      modifies this
      ensures commands == old(commands) + AckOf(c)
    {
      if Settleable(c) {
        commands := commands + [Ack(c)];
      }
    }

    /** Give a claim back, or failing that put the execution into the queue anew. */
    method RequeueItem(q: Queued, current: Execution, applied: bool)
      modifies this
      ensures commands == old(commands) + RequeueOf(q, current, applied)
    {
      if q.claim.Some? && Settleable(q.claim.value) {
        commands := commands + [Requeue(q.claim.value)];
        if applied {
          return;
        }
      }
      if Enqueueable(current) {
        commands := commands + [Enqueue(current.id)];
      }
    }

    /** The receipt runner. `applied` is what the store answers to a requeue. */
    method RunReceipts(items: seq<Queued>, fate: nat -> Fate, applied: nat -> bool) returns (processed: nat)
      modifies this
      ensures commands == old(commands) + Run(items, fate, applied)
      ensures processed == Processed(items, fate) <= |items|
    {
      hide Run, Processed, CommandsFor, Counts;
      processed := 0;
      RunNothing(fate, applied);
      assert items[..0] == [];
      for i := 0 to |items|
        invariant commands == old(commands) + Run(items[..i], fate, applied)
        invariant processed == Processed(items[..i], fate) <= i
      {
        ghost var done := Run(items[..i], fate, applied);
        var counted := RunItem(items[i], fate(i), applied(i));
        assert commands == old(commands) + (done + CommandsFor(items[i], fate(i), applied(i)));
        RunUpTo(items, fate, applied, i);
        if counted {
          processed := processed + 1;
        }
      }
      assert items[..|items|] == items;
    }

    method RunItem(q: Queued, fate: Fate, applied: bool) returns (counted: bool)
      modifies this
      ensures commands == old(commands) + CommandsFor(q, fate, applied)
      ensures counted == Counts(fate)
    {
      match fate {
        case ClaimFails =>
          return false;
        case Cooldown(current) =>
          RequeueItem(q, current, applied);
          return false;
        case OtherReason =>
          AcknowledgeItem(q);
          return false;
        case Requeued(current) =>
          RequeueItem(q, current, applied);
          return true;
        case _ =>
          AcknowledgeItem(q);
          return true;
      }
    }

    method AcknowledgeItem(q: Queued)
      modifies this
      ensures commands == old(commands) + if q.claim.Some? then AckOf(q.claim.value) else []
    {
      if q.claim.Some? {
        Acknowledge(q.claim.value);
      }
    }
  }

  method Listed(items: seq<Queued>, id: string) returns (known: bool)
    ensures known <==> Has(items, id)
  {
    for i := 0 to |items|
      invariant forall j :: 0 <= j < i ==> items[j].execution.id != id
    {
      if items[i].execution.id == id {
        return true;
      }
    }
    return false;
  }

  // ---- Running ----

  predicate Enqueueable(e: Execution) {
    Trim(e.status) == "queued" && Trim(e.executionMode) == "queued" && Trim(e.dispatchMode) == "worker_tick"
  }

  function RequeueOf(q: Queued, current: Execution, applied: bool): seq<Command> {
    var sent := q.claim.Some? && Settleable(q.claim.value);
    (if sent then [Requeue(q.claim.value)] else [])
    + if (sent && applied) || !Enqueueable(current) then [] else [Enqueue(current.id)]
  }

  function CommandsFor(q: Queued, fate: Fate, applied: bool): seq<Command> {
    match fate
    case ClaimFails => []
    case Cooldown(current) => RequeueOf(q, current, applied)
    case Requeued(current) => RequeueOf(q, current, applied)
    case _ => if q.claim.Some? then AckOf(q.claim.value) else []
  }

  function Run(items: seq<Queued>, fate: nat -> Fate, applied: nat -> bool): seq<Command> {
    if items == [] then []
    else
      var n := |items| - 1;
      Run(items[..n], fate, applied) + CommandsFor(items[n], fate(n), applied(n))
  }

  lemma RunNothing(fate: nat -> Fate, applied: nat -> bool)
    ensures Run([], fate, applied) == [] && Processed([], fate) == 0
  {
  }

  lemma RunUpTo(items: seq<Queued>, fate: nat -> Fate, applied: nat -> bool, i: nat)
    requires i < |items|
    ensures Run(items[..i + 1], fate, applied)
         == Run(items[..i], fate, applied) + CommandsFor(items[i], fate(i), applied(i))
    ensures Processed(items[..i + 1], fate) == Processed(items[..i], fate) + if Counts(fate(i)) then 1 else 0
  {
    assert items[..i + 1][..i] == items[..i];
  }

  predicate Counts(fate: Fate) {
    !fate.ClaimFails? && !fate.Cooldown? && !fate.OtherReason?
  }

  function Processed(items: seq<Queued>, fate: nat -> Fate): nat {
    if items == [] then 0
    else Processed(items[..|items| - 1], fate) + if Counts(fate(|items| - 1)) then 1 else 0
  }

  predicate Names(c: Claim) {
    Trim(c.itemId) != "" && Trim(c.token) != ""
  }

  predicate GivenBack(fate: Fate) {
    fate.Cooldown? || fate.Requeued?
  }

  /** What one item sends. A claim that can be settled is requeued exactly when its execution is in cooldown or was
      requeued, and acknowledged exactly when anything else happened short of a failed claim; the execution is enqueued
      anew exactly when its claim was not given back and it is a queued one of the worker tick. */
  lemma ItemSends(q: Queued, fate: Fate, applied: bool, command: Command)
    ensures command in CommandsFor(q, fate, applied)
       <==> match command
            case Requeue(c) => q.claim == Some(c) && Names(c) && GivenBack(fate)
            case Ack(c) => q.claim == Some(c) && Names(c) && !GivenBack(fate) && !fate.ClaimFails?
            case Enqueue(id) =>
              && GivenBack(fate) && fate.current.id == id && !(q.claim.Some? && Names(q.claim.value) && applied)
              && Trim(fate.current.status) == "queued" && Trim(fate.current.executionMode) == "queued"
              && Trim(fate.current.dispatchMode) == "worker_tick"
  {
  }

  /** Over a whole run the commands are those of the items, and nothing else is sent. */
  lemma {:induction false} RunSends(items: seq<Queued>, fate: nat -> Fate, applied: nat -> bool, command: Command)
    ensures command in Run(items, fate, applied)
       <==> exists i :: 0 <= i < |items| && command in CommandsFor(items[i], fate(i), applied(i))
  {
    hide CommandsFor;
    if items != [] {
      var n := |items| - 1;
      RunSends(items[..n], fate, applied, command);
      assert forall i :: 0 <= i < n ==> items[..n][i] == items[i];
    }
  }

  /** The processed count is that of the items whose execution was claimed and came to an end or was requeued. */
  lemma {:induction false} ProcessedAre(items: seq<Queued>, fate: nat -> Fate)
    ensures Processed(items, fate)
         == |set i | 0 <= i < |items| && !fate(i).ClaimFails? && !fate(i).Cooldown? && !fate(i).OtherReason?|
  {
    if items != [] {
      var n := |items| - 1;
      ProcessedAre(items[..n], fate);
      var before := set i | 0 <= i < n && !fate(i).ClaimFails? && !fate(i).Cooldown? && !fate(i).OtherReason?;
      var all := set i | 0 <= i < n + 1 && !fate(i).ClaimFails? && !fate(i).Cooldown? && !fate(i).OtherReason?;
      if fate(n).ClaimFails? || fate(n).Cooldown? || fate(n).OtherReason? {
        assert all == before;
      } else {
        assert all == before + {n};
      }
    }
  }

  // ---- What a tick guarantees ----

  /** The executions that claims and fallback offer, in order. */
  function Offered(claims: seq<Claim>, lookup: nat -> Option<Execution>): seq<Execution> {
    if claims == [] then []
    else
      var n := |claims| - 1;
      Offered(claims[..n], lookup) + if lookup(n).Some? then [lookup(n).value] else []
  }

  predicate Offers(s: seq<Execution>, id: string) {
    exists e :: e in s && e.id == id
  }

  /** First occurrences, by id. */
  function Distinct(s: seq<Execution>): seq<Execution> {
    if s == [] then []
    else
      var n := |s| - 1;
      if Offers(Distinct(s[..n]), s[n].id) then Distinct(s[..n]) else Distinct(s[..n]) + [s[n]]
  }

  function Executions(items: seq<Queued>): seq<Execution> {
    if items == [] then [] else Executions(items[..|items| - 1]) + [items[|items| - 1].execution]
  }

  function Take(s: seq<Execution>, n: nat): seq<Execution> {
    if |s| <= n then s else s[..n]
  }

  lemma {:induction false} ExecutionsAre(items: seq<Queued>)
    ensures |Executions(items)| == |items|
    ensures forall i :: 0 <= i < |items| ==> Executions(items)[i] == items[i].execution
  {
    if items != [] {
      ExecutionsAre(items[..|items| - 1]);
    }
  }

  lemma HasIsOffers(items: seq<Queued>, id: string)
    ensures Has(items, id) <==> Offers(Executions(items), id)
  {
    ExecutionsAre(items);
    if Has(items, id) {
      var q :| q in items && q.execution.id == id;
      assert q.execution in Executions(items);
    }
  }

  lemma DistinctStep(s: seq<Execution>, e: Execution)
    ensures Distinct(s + [e]) == if Offers(Distinct(s), e.id) then Distinct(s) else Distinct(s) + [e]
  {
    assert (s + [e])[..|s|] == s;
  }

  /** Taking a further candidate into a bounded list of distinct ones. */
  lemma TakeStep(s: seq<Execution>, e: Execution, batch: nat)
    ensures var taken := Take(Distinct(s), batch);
            Take(Distinct(s + [e]), batch) == if |taken| >= batch || Offers(taken, e.id) then taken else taken + [e]
  {
    DistinctStep(s, e);
  }

  lemma ExecutionsStep(items: seq<Queued>, q: Queued)
    ensures Executions(items + [q]) == Executions(items) + [q.execution]
  {
    assert (items + [q])[..|items|] == items;
  }

  /** One more candidate for a list that holds the first distinct ones so far. */
  lemma CandidateStep(items: seq<Queued>, s: seq<Execution>, q: Queued, batch: nat)
    requires Executions(items) == Take(Distinct(s), batch)
    ensures Executions(if |items| >= batch || Has(items, q.execution.id) then items else items + [q])
         == Take(Distinct(s + [q.execution]), batch)
  {
    ExecutionsAre(items);
    HasIsOffers(items, q.execution.id);
    ExecutionsStep(items, q);
    TakeStep(s, q.execution, batch);
  }

  lemma {:induction false} ClaimsListDistinct(claims: seq<Claim>, lookup: nat -> Option<Execution>, batch: nat)
    ensures Executions(FromClaims(claims, lookup, batch).items) == Take(Distinct(Offered(claims, lookup)), batch)
  {
    if claims != [] {
      var n := |claims| - 1;
      ClaimsListDistinct(claims[..n], lookup, batch);
      var l, offered := FromClaims(claims[..n], lookup, batch), Offered(claims[..n], lookup);
      if lookup(n).Some? {
        CandidateStep(l.items, offered, Queued(lookup(n).value, Some(claims[n])), batch);
      } else {
        assert Offered(claims, lookup) == offered;
      }
    }
  }

  /** The listing is the first `batch` distinct executions of claims and fallback together, in that order: the
      early exits and the shared seen set compute just that. */
  lemma {:induction false} ListingIsFirstDistinct(items: seq<Queued>, offered: seq<Execution>, fallback: seq<Execution>,
                                                  batch: nat)
    requires Executions(items) == Take(Distinct(offered), batch)
    ensures Executions(WithFallback(items, fallback, batch)) == Take(Distinct(offered + fallback), batch)
  {
    hide Take, Distinct, Executions, Has;
    if fallback == [] {
      assert offered + fallback == offered;
    } else {
      var n := |fallback| - 1;
      ListingIsFirstDistinct(items, offered, fallback[..n], batch);
      var sofar := WithFallback(items, fallback[..n], batch);
      CandidateStep(sofar, offered + fallback[..n], Queued(fallback[n], None), batch);
      assert offered + fallback[..n] + [fallback[n]] == offered + fallback;
    }
  }

  lemma {:induction false} DistinctIds(s: seq<Execution>)
    ensures forall i, j :: 0 <= i < j < |Distinct(s)| ==> Distinct(s)[i].id != Distinct(s)[j].id
  {
    if s != [] {
      DistinctIds(s[..|s| - 1]);
    }
  }

  /** What is asked for at a tick: the configured size, at least one. */
  function Asked(batchSize: int): nat {
    if batchSize >= 1 then batchSize else 1
  }

  /** A tick's listing: the first distinct executions of claims and fallback, or of the fallback alone without claims,
      so at most as many as asked for and none twice. */
  lemma ListingBounded(claims: Option<seq<Claim>>, lookup: nat -> Option<Execution>, fallback: seq<Execution>,
                       batchSize: int)
    ensures var items := WithFallback(Taken(claims, lookup, batchSize).items, fallback, Batch(batchSize));
            && |items| <= Asked(batchSize)
            && (var offered := if claims.Some? then Offered(claims.value, lookup) else [];
                Executions(items) == Take(Distinct(offered + fallback), Asked(batchSize)))
            && forall i, j :: 0 <= i < j < |items| ==> items[i].execution.id != items[j].execution.id
  {
    var taken, batch := if claims.Some? then claims.value else [], Asked(batchSize);
    ClaimsListDistinct(taken, lookup, batch);
    ListingIsFirstDistinct(FromClaims(taken, lookup, batch).items, Offered(taken, lookup), fallback, batch);
    ExecutionsAre(WithFallback(FromClaims(taken, lookup, batch).items, fallback, batch));
    DistinctIds(Offered(taken, lookup) + fallback);
  }

  /** The item carries a claim that was handed out for its own execution. */
  predicate HandedOut(claims: seq<Claim>, lookup: nat -> Option<Execution>, q: Queued) {
    exists i :: 0 <= i < |claims| && q.claim == Some(claims[i]) && lookup(i) == Some(q.execution)
  }

  lemma {:induction false} ClaimsComeAlong(claims: seq<Claim>, lookup: nat -> Option<Execution>, batch: nat, q: Queued)
    requires q in FromClaims(claims, lookup, batch).items
    ensures HandedOut(claims, lookup, q)
  {
    var n := |claims| - 1;
    if q in FromClaims(claims[..n], lookup, batch).items {
      ClaimsComeAlong(claims[..n], lookup, batch, q);
      var i :| 0 <= i < n && q.claim == Some(claims[..n][i]) && lookup(i) == Some(q.execution);
      assert claims[..n][i] == claims[i];
    } else {
      assert q == Queued(lookup(n).value, Some(claims[n]));
    }
  }

  lemma {:induction false} FallbackHasNoClaims(items: seq<Queued>, fallback: seq<Execution>, batch: nat, q: Queued)
    requires q in WithFallback(items, fallback, batch)
    ensures q in items || (q.claim == None && q.execution in fallback)
  {
    if fallback != [] && q in WithFallback(items, fallback[..|fallback| - 1], batch) {
      FallbackHasNoClaims(items, fallback[..|fallback| - 1], batch, q);
    }
  }

  /** Whatever is listed either carries a claim that was handed out for its own execution, or comes from the fallback
      without one; so settling an item's claim never settles another execution's. */
  lemma ListedItemsAre(claims: Option<seq<Claim>>, lookup: nat -> Option<Execution>, fallback: seq<Execution>,
                       batchSize: int, q: Queued)
    requires q in WithFallback(Taken(claims, lookup, batchSize).items, fallback, Batch(batchSize))
    ensures q.claim == None ==> q.execution in fallback
    ensures q.claim.Some? ==> claims.Some? && HandedOut(claims.value, lookup, q)
  {
    var taken := Taken(claims, lookup, batchSize).items;
    FallbackHasNoClaims(taken, fallback, Batch(batchSize), q);
    if q in taken {
      ClaimsComeAlong(if claims.Some? then claims.value else [], lookup, Batch(batchSize), q);
    }
  }

  /** How often `c` is among claims, among the claims of listed items, and settled by commands. */
  function Occurs(claims: seq<Claim>, c: Claim): nat {
    if claims == [] then 0
    else Occurs(claims[..|claims| - 1], c) + if claims[|claims| - 1] == c then 1 else 0
  }

  function Carried(items: seq<Queued>, c: Claim): nat {
    if items == [] then 0
    else Carried(items[..|items| - 1], c) + if items[|items| - 1].claim == Some(c) then 1 else 0
  }

  function Settles(commands: seq<Command>, c: Claim): nat {
    if commands == [] then 0
    else
      var last := commands[|commands| - 1];
      Settles(commands[..|commands| - 1], c) + if !last.Enqueue? && last.claim == c then 1 else 0
  }

  lemma OccursStep(claims: seq<Claim>, last: Claim, c: Claim)
    ensures Occurs(claims + [last], c) == Occurs(claims, c) + if last == c then 1 else 0
  {
    assert (claims + [last])[..|claims|] == claims;
  }

  lemma CarriedStep(items: seq<Queued>, q: Queued, c: Claim)
    ensures Carried(items + [q], c) == Carried(items, c) + if q.claim == Some(c) then 1 else 0
  {
    assert (items + [q])[..|items|] == items;
  }

  /** Wherever one more claim goes, it is listed or acknowledged, and only one of the two. */
  lemma PlaceDisposes(l: Listing, last: Claim, candidate: Option<Execution>, c: Claim)
    ensures var l' := Place(l, last, candidate);
            Carried(l'.items, c) + Occurs(l'.acked, c)
            == Carried(l.items, c) + Occurs(l.acked, c) + if last == c then 1 else 0
  {
    OccursStep(l.acked, last, c);
    if candidate.Some? {
      CarriedStep(l.items, Queued(candidate.value, Some(last)), c);
    }
  }

  /** Until the list is full, every claim is either listed or acknowledged; claims behind the one that fills it
      are neither (FullStays). */
  lemma {:induction false} ListedOrAcknowledged(claims: seq<Claim>, lookup: nat -> Option<Execution>, batch: nat,
                                                c: Claim)
    requires claims != [] ==> |FromClaims(claims[..|claims| - 1], lookup, batch).items| < batch
    ensures var l := FromClaims(claims, lookup, batch);
            Carried(l.items, c) + Occurs(l.acked, c) == Occurs(claims, c)
  {
    if claims != [] {
      var n := |claims| - 1;
      ListedOrAcknowledged(claims[..n], lookup, batch, c);
      PlaceDisposes(FromClaims(claims[..n], lookup, batch), claims[n], lookup(n), c);
    }
  }

  lemma {:induction false} ListsNoMoreThanClaims(claims: seq<Claim>, lookup: nat -> Option<Execution>, batch: nat)
    ensures |FromClaims(claims, lookup, batch).items| <= |claims|
  {
    if claims != [] {
      ListsNoMoreThanClaims(claims[..|claims| - 1], lookup, batch);
    }
  }

  lemma {:induction false} FallbackCarries(items: seq<Queued>, fallback: seq<Execution>, batch: nat, c: Claim)
    ensures Carried(WithFallback(items, fallback, batch), c) == Carried(items, c)
  {
    if fallback != [] {
      var n := |fallback| - 1;
      FallbackCarries(items, fallback[..n], batch, c);
      CarriedStep(WithFallback(items, fallback[..n], batch), Queued(fallback[n], None), c);
    }
  }

  lemma {:induction false} SettlesSum(a: seq<Command>, b: seq<Command>, c: Claim)
    ensures Settles(a + b, c) == Settles(a, c) + Settles(b, c)
  {
    if b == [] {
      assert a + b == a;
    } else {
      var n := |b| - 1;
      SettlesSum(a, b[..n], c);
      assert (a + b)[..|a + b| - 1] == a + b[..n];
    }
  }

  lemma SettlesOne(command: Command, c: Claim)
    ensures Settles([command], c) == if !command.Enqueue? && command.claim == c then 1 else 0
  {
    assert [command][..0] == [];
  }

  lemma AckSettles(last: Claim, c: Claim)
    ensures Settles(AckOf(last), c) == if last == c && Settleable(c) then 1 else 0
  {
    SettlesOne(Ack(last), c);
  }

  lemma {:induction false} AcksSettle(claims: seq<Claim>, c: Claim)
    ensures Settles(Acks(claims), c) == if Settleable(c) then Occurs(claims, c) else 0
  {
    if claims != [] {
      var n := |claims| - 1;
      AcksSettle(claims[..n], c);
      AckSettles(claims[n], c);
      SettlesSum(Acks(claims[..n]), AckOf(claims[n]), c);
    }
  }

  /** How often `c` belongs to an item whose execution could not be claimed: it is left to time out in the store. */
  function LeftOpen(items: seq<Queued>, fate: nat -> Fate, c: Claim): nat {
    if items == [] then 0
    else
      var n := |items| - 1;
      LeftOpen(items[..n], fate, c) + if fate(n).ClaimFails? && items[n].claim == Some(c) then 1 else 0
  }

  /** One item: its claim is settled exactly once, by an ack or a requeue, unless claiming the execution fails. */
  lemma ItemSettledOnce(q: Queued, fate: Fate, applied: bool, c: Claim)
    ensures Settles(CommandsFor(q, fate, applied), c)
         == if q.claim == Some(c) && Settleable(c) && !fate.ClaimFails? then 1 else 0
  {
    if fate.Cooldown? || fate.Requeued? {
      RequeueSettles(q, fate.current, applied, c);
    } else if q.claim.Some? {
      AckSettles(q.claim.value, c);
    }
  }

  lemma RequeueSettles(q: Queued, current: Execution, applied: bool, c: Claim)
    ensures Settles(RequeueOf(q, current, applied), c) == if q.claim == Some(c) && Settleable(c) then 1 else 0
  {
    var sent := q.claim.Some? && Settleable(q.claim.value);
    var back: seq<Command> := if sent then [Requeue(q.claim.value)] else [];
    var anew: seq<Command> := if (sent && applied) || !Enqueueable(current) then [] else [Enqueue(current.id)];
    SettlesSum(back, anew, c);
    SettlesOne(Enqueue(current.id), c);
    if sent {
      SettlesOne(Requeue(q.claim.value), c);
    }
  }

  lemma {:induction false} RunSettles(items: seq<Queued>, fate: nat -> Fate, applied: nat -> bool, c: Claim)
    ensures Settles(Run(items, fate, applied), c)
         == if Settleable(c) then Carried(items, c) - LeftOpen(items, fate, c) else 0
  {
    if items != [] {
      var n := |items| - 1;
      RunSettles(items[..n], fate, applied, c);
      SettlesSum(Run(items[..n], fate, applied), CommandsFor(items[n], fate(n), applied(n)), c);
      ItemSettledOnce(items[n], fate(n), applied(n), c);
    }
  }

  /** A whole tick, listing and running: a claim the store handed out, with no more claims than asked for, is
      settled once for each time it was handed out, unless claiming its execution failed; no other claim is. */
  lemma TickSettlesEveryClaim(claims: seq<Claim>, lookup: nat -> Option<Execution>, fallback: seq<Execution>,
                              batchSize: int, fate: nat -> Fate, applied: nat -> bool, c: Claim)
    requires |claims| <= Asked(batchSize)
    ensures var l := Taken(Some(claims), lookup, batchSize);
            var items := WithFallback(l.items, fallback, Batch(batchSize));
            Settles(Acks(l.acked) + Run(items, fate, applied), c)
            == if Settleable(c) then Occurs(claims, c) - LeftOpen(items, fate, c) else 0
  {
    var batch := Batch(batchSize);
    var l := FromClaims(claims, lookup, batch);
    var items := WithFallback(l.items, fallback, batch);
    if claims != [] {
      ListsNoMoreThanClaims(claims[..|claims| - 1], lookup, batch);
    }
    ListedOrAcknowledged(claims, lookup, batch, c);
    FallbackCarries(l.items, fallback, batch, c);
    RunSettles(items, fate, applied, c);
    AcksSettle(l.acked, c);
    SettlesSum(Acks(l.acked), Run(items, fate, applied), c);
  }
}
