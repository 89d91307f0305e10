/** Alert policies evaluated on new events: cooldowns between notifications, and the capped list of the newest. */
module Alerts {
  import opened Text
  import opened Wrappers

  const MAX_NOTIFICATIONS := 5000
  const SECOND := 1_000_000_000

  datatype Event = Event(id: string, tenantId: string, payload: string)

  /** `matches` is the policy's condition; it is false on events on which evaluation fails. */
  datatype Policy = Policy(id: string, tenantId: string, trigger: string, active: bool, cooldownSeconds: int,
                           matches: Event -> bool)

  datatype Notification = Notification(policy: Policy, eventId: string, key: string, at: int)

  function KeyOf(p: Policy): string {
    p.tenantId + ":" + p.id + ":" + p.trigger
  }

  // ---- The specification ----

  /** When each cooldown key was last notified, and all notifications so far, oldest first. */
  datatype Board = Board(cooldowns: map<string, int>, log: seq<Notification>)

  predicate Concerns(p: Policy, e: Event) {
    !(p.tenantId != "" && e.tenantId != "" && p.tenantId != e.tenantId) && p.matches(e)
  }

  predicate CooldownActive(cooldowns: map<string, int>, key: string, seconds: int, now: int) {
    seconds > 0 && key in cooldowns && now - cooldowns[key] < seconds * SECOND
  }

  function Consider(b: Board, p: Policy, e: Event, now: int): Board {
    if !Concerns(p, e) || CooldownActive(b.cooldowns, KeyOf(p), p.cooldownSeconds, now) then b
    else Board(b.cooldowns[KeyOf(p) := now], b.log + [Notification(p, e.id, KeyOf(p), now)])
  }

  function ConsiderEvents(b: Board, p: Policy, events: seq<Event>, now: int): Board {
    if events == [] then b
    else Consider(ConsiderEvents(b, p, events[..|events| - 1], now), p, events[|events| - 1], now)
  }

  function ConsiderAll(b: Board, policies: seq<Policy>, events: seq<Event>, now: int): Board {
    if policies == [] then b
    else ConsiderEvents(ConsiderAll(b, policies[..|policies| - 1], events, now), policies[|policies| - 1], events, now)
  }

  function ActiveOf(policies: seq<Policy>): seq<Policy> {
    if policies == [] then []
    else
      var p := policies[|policies| - 1];
      ActiveOf(policies[..|policies| - 1]) + if p.active then [p] else []
  }

  /** The events added in front of a newest-first list since its length was `last`. */
  function Added(events: seq<Event>, last: nat): seq<Event> {
    if |events| > last then events[..|events| - last] else []
  }

  // ---- The stored list ----

  function Reverse(log: seq<Notification>): (r: seq<Notification>)
    ensures |r| == |log|
  {
    if log == [] then [] else [log[|log| - 1]] + Reverse(log[..|log| - 1])
  }

  function Capped(s: seq<Notification>): seq<Notification> {
    if |s| > MAX_NOTIFICATIONS then s[..MAX_NOTIFICATIONS] else s
  }

  /** The newest notifications, newest first, at most MAX_NOTIFICATIONS of them. */
  function Newest(log: seq<Notification>): seq<Notification> {
    Capped(Reverse(log))
  }

  lemma NewestAppends(log: seq<Notification>, n: Notification)
    ensures Newest(log + [n]) == Capped([n] + Newest(log))
  {
    assert (log + [n])[..|log|] == log;
  }

  lemma {:induction false} ReverseAt(log: seq<Notification>, i: nat)
    requires i < |log|
    ensures Reverse(log)[i] == log[|log| - 1 - i]
  {
    if i > 0 {
      ReverseAt(log[..|log| - 1], i - 1);
    }
  }

  /** The list shows exactly the last notifications in reverse order of sending. */
  lemma NewestShowsTheLast(log: seq<Notification>, i: nat)
    ensures |Newest(log)| == if |log| < MAX_NOTIFICATIONS then |log| else MAX_NOTIFICATIONS
    ensures i < |Newest(log)| ==> Newest(log)[i] == log[|log| - 1 - i]
  {
    if i < |Newest(log)| {
      ReverseAt(log, i);
    }
  }

  // ---- The scheduler ----

  class Scheduler {
    var alertCooldowns: map<string, int>
    var alertNotifications: seq<Notification>
    var lastAccessCount: nat
    var lastDeviceCount: nat

    ghost var log: seq<Notification>

    ghost predicate Valid()
      reads this
    {
      alertNotifications == Newest(log)
    }

    ghost function Abstract(): Board
      reads this
    {
      Board(alertCooldowns, log)
    }

    constructor ()
      ensures Valid() && Abstract() == Board(map[], []) && lastAccessCount == 0 == lastDeviceCount
    {
      alertCooldowns, alertNotifications, log := map[], [], [];
      lastAccessCount, lastDeviceCount := 0, 0;
    }

    /** One change notification. Without active policies nothing happens, not even to the counters, so the events
        stay new; otherwise every policy sees every event added since the last evaluation. */
    method Evaluate(policies: seq<Policy>, access: seq<Event>, device: seq<Event>, now: int)
      requires Valid()
      modifies this
      ensures Valid()
      ensures var added := Added(access, old(lastAccessCount)) + Added(device, old(lastDeviceCount));
              Abstract() == ConsiderAll(old(Abstract()), ActiveOf(policies), added, now)
      ensures if ActiveOf(policies) == []
              then lastAccessCount == old(lastAccessCount) && lastDeviceCount == old(lastDeviceCount)
              else lastAccessCount == |access| && lastDeviceCount == |device|
    {
      var active := SelectActive(policies);
      if |active| == 0 {
        return;
      }
      var added := TakeAdded(access, lastAccessCount);
      var more := TakeAdded(device, lastDeviceCount);
      added := added + more;
      lastAccessCount, lastDeviceCount := |access|, |device|;
      for i := 0 to |active|
        invariant Valid() && lastAccessCount == |access| && lastDeviceCount == |device|
        invariant Abstract() == ConsiderAll(old(Abstract()), active[..i], added, now)
      {
        assert active[..i + 1][..i] == active[..i];
        EvaluatePolicy(active[i], added, now);
      }
      assert active[..|active|] == active;
    }

    method EvaluatePolicy(policy: Policy, events: seq<Event>, now: int)
      requires Valid()
      modifies this`alertCooldowns, this`alertNotifications, this`log
      ensures Valid() && Abstract() == ConsiderEvents(old(Abstract()), policy, events, now)
    {
      for i := 0 to |events|
        invariant Valid() && Abstract() == ConsiderEvents(old(Abstract()), policy, events[..i], now)
      {
        assert events[..i + 1][..i] == events[..i];
        if !Concerns(policy, events[i]) {
          continue;
        }
        var key := KeyOf(policy);
        if CooldownActive(alertCooldowns, key, policy.cooldownSeconds, now) {
          continue;
        }
        AppendNotification(Notification(policy, events[i].id, key, now));
        alertCooldowns := alertCooldowns[key := now];
      }
      assert events[..|events|] == events;
    }

    method AppendNotification(n: Notification)
      requires Valid()
      modifies this`alertNotifications, this`log
      ensures Valid() && log == old(log) + [n]
    {
      NewestAppends(log, n);
      alertNotifications := [n] + alertNotifications;
      if |alertNotifications| > MAX_NOTIFICATIONS {
        alertNotifications := alertNotifications[..MAX_NOTIFICATIONS];
      }
      log := log + [n];
    }
  }

  method SelectActive(policies: seq<Policy>) returns (active: seq<Policy>)
    ensures active == ActiveOf(policies)
  {
    active := [];
    for i := 0 to |policies|
      invariant active == ActiveOf(policies[..i])
    {
      assert policies[..i + 1][..i] == policies[..i];
      if policies[i].active {
        active := active + [policies[i]];
      }
    }
    assert policies[..|policies|] == policies;
  }

  method TakeAdded(events: seq<Event>, last: nat) returns (added: seq<Event>)
    ensures added == Added(events, last)
  {
    added := [];
    var newCount := |events| - last;
    if newCount > 0 && newCount <= |events| {
      for i := 0 to newCount
        invariant added == events[..i]
      {
        added := added + [events[i]];
      }
    }
  }

  // ---- Every event once ----

  /** A change notification: the events put in front of a list since the one before, and whether any policy is
      active when it is evaluated. */
  datatype Change = Change(added: seq<Event>, active: bool)

  /** The list, newest first. */
  function Stored(changes: seq<Change>): seq<Event> {
    if changes == [] then [] else changes[|changes| - 1].added + Stored(changes[..|changes| - 1])
  }

  /** The scheduler's counter for the list, which only an evaluation with an active policy moves. */
  function Counter(changes: seq<Change>): nat {
    if changes == [] then 0
    else if changes[|changes| - 1].active then |Stored(changes)|
    else Counter(changes[..|changes| - 1])
  }

  /** All events ever handed to an evaluation with an active policy, those of the latest one first. */
  function HandedOut(changes: seq<Change>): seq<Event> {
    if changes == [] then []
    else
      var n := |changes| - 1;
      (if changes[n].active then Added(Stored(changes), Counter(changes[..n])) else []) + HandedOut(changes[..n])
  }

  ghost predicate Seen(stored: seq<Event>, counter: nat, handedOut: seq<Event>) {
    counter <= |stored| && handedOut == stored[|stored| - counter..]
  }

  lemma ChangeKeepsSeen(all: seq<Event>, c: Change, before: seq<Event>, k: nat, out: seq<Event>)
    requires Seen(before, k, out) && all == c.added + before
    ensures c.active ==> Added(all, k) + out == all && Seen(all, |all|, all)
    ensures !c.active ==> Seen(all, k, [] + out)
  {
    assert all == all[..|all| - k] + all[|all| - k..];
  }

  lemma {:induction false} SeenSoFar(changes: seq<Change>)
    ensures Seen(Stored(changes), Counter(changes), HandedOut(changes))
  {
    hide Seen, Added;
    if changes == [] {
      NothingSeen();
    } else {
      var n := |changes| - 1;
      SeenSoFar(changes[..n]);
      var before, k, out := Stored(changes[..n]), Counter(changes[..n]), HandedOut(changes[..n]);
      ChangeKeepsSeen(Stored(changes), changes[n], before, k, out);
    }
  }

  lemma NothingSeen()
    ensures Seen([], 0, [])
  {
  }

  /** Over any run of a list that only grows in front, what was handed out is the list itself, each event once and
      in order, but for those that came after the last evaluation with an active policy; these wait for the
      next one. */
  lemma {:induction false} EachEventSeenOnce(changes: seq<Change>)
    ensures Counter(changes) <= |Stored(changes)|
    ensures HandedOut(changes) == Stored(changes)[|Stored(changes)| - Counter(changes)..]
    ensures changes != [] && changes[|changes| - 1].active ==> HandedOut(changes) == Stored(changes)
  {
    SeenSoFar(changes);
  }

  // ---- Spacing ----

  /** Whenever two notifications share a key, the later one keeps its policy's distance from the earlier one. */
  ghost predicate Spaced(log: seq<Notification>) {
    forall i, j :: 0 <= i < j < |log| && log[i].key == log[j].key && log[j].policy.cooldownSeconds > 0
              ==> log[j].at - log[i].at >= log[j].policy.cooldownSeconds * SECOND
  }

  /** The recorded cooldowns are the times of the latest notifications. */
  ghost predicate Records(b: Board, clock: int) {
    && (forall i :: 0 <= i < |b.log| ==>
          b.log[i].at <= clock && b.log[i].key in b.cooldowns && b.log[i].at <= b.cooldowns[b.log[i].key])
    && (forall key :: key in b.cooldowns ==>
          exists i :: 0 <= i < |b.log| && b.log[i].key == key && b.log[i].at == b.cooldowns[key])
  }

  ghost predicate Inv(b: Board, clock: int) {
    Records(b, clock) && Spaced(b.log)
  }

  lemma ConsiderKeepsInv(b: Board, p: Policy, e: Event, clock: int, now: int)
    requires Inv(b, clock) && clock <= now
    ensures Inv(Consider(b, p, e, now), now)
  {
    var b' := Consider(b, p, e, now);
    if b' != b {
      forall key | key in b'.cooldowns
        ensures exists i :: 0 <= i < |b'.log| && b'.log[i].key == key && b'.log[i].at == b'.cooldowns[key]
      {
        if key == KeyOf(p) {
          assert b'.log[|b.log|].key == key;
        } else {
          var i :| 0 <= i < |b.log| && b.log[i].key == key && b.log[i].at == b.cooldowns[key];
          assert b'.log[i] == b.log[i];
        }
      }
    }
  }

  /** The policy is evaluated on the event: their tenants are not two different ones, and its condition holds. */
  predicate SameTenant(p: Policy, e: Event) {
    p.tenantId == "" || e.tenantId == "" || p.tenantId == e.tenantId
  }

  /** A matching event goes without a notification only within the cooldown of an earlier one with the same key. */
  lemma {:induction false} SuppressedOnlyInCooldown(b: Board, p: Policy, e: Event, clock: int, now: int)
    requires Inv(b, clock) && clock <= now && SameTenant(p, e) && p.matches(e)
    ensures Consider(b, p, e, now) == b
       <==> exists i :: 0 <= i < |b.log| && b.log[i].key == KeyOf(p) && now - b.log[i].at < p.cooldownSeconds * SECOND
  {
    var key := KeyOf(p);
    if key in b.cooldowns {
      var i :| 0 <= i < |b.log| && b.log[i].key == key && b.log[i].at == b.cooldowns[key];
    }
    if Consider(b, p, e, now) != b {
      forall i | 0 <= i < |b.log| && b.log[i].key == key
        ensures now - b.log[i].at >= p.cooldownSeconds * SECOND
      {
        assert b.log[i].at <= b.cooldowns[key];
      }
    } else {
      assert |b.log + [Notification(p, e.id, key, now)]| == |b.log| + 1;
    }
  }

  lemma {:induction false} EventsKeepInv(b: Board, p: Policy, events: seq<Event>, clock: int, now: int)
    requires Inv(b, clock) && clock <= now
    ensures Inv(ConsiderEvents(b, p, events, now), now)
  {
    if events != [] {
      EventsKeepInv(b, p, events[..|events| - 1], clock, now);
      ConsiderKeepsInv(ConsiderEvents(b, p, events[..|events| - 1], now), p, events[|events| - 1], now, now);
    }
  }

  lemma {:induction false} TickKeepsInv(b: Board, policies: seq<Policy>, events: seq<Event>, clock: int, now: int)
    requires Inv(b, clock) && clock <= now
    ensures Inv(ConsiderAll(b, policies, events, now), now)
  {
    if policies != [] {
      TickKeepsInv(b, policies[..|policies| - 1], events, clock, now);
      var before := ConsiderAll(b, policies[..|policies| - 1], events, now);
      EventsKeepInv(before, policies[|policies| - 1], events, now, now);
    }
  }

  datatype Tick = Tick(policies: seq<Policy>, events: seq<Event>, now: int)

  function After(ticks: seq<Tick>): Board {
    if ticks == [] then Board(map[], [])
    else
      var t := ticks[|ticks| - 1];
      ConsiderAll(After(ticks[..|ticks| - 1]), ActiveOf(t.policies), t.events, t.now)
  }

  predicate ClockRuns(ticks: seq<Tick>) {
    forall i, j :: 0 <= i < j < |ticks| ==> ticks[i].now <= ticks[j].now
  }

  /** Over any run, however many events match in one tick and whichever policies are in force, notifications that
      share a cooldown key keep their distance. */
  lemma {:induction false} AlertsAreSpaced(ticks: seq<Tick>)
    requires ClockRuns(ticks)
    ensures Spaced(After(ticks).log)
    ensures ticks != [] ==> Inv(After(ticks), ticks[|ticks| - 1].now)
  {
    if ticks != [] {
      var n := |ticks| - 1;
      AlertsAreSpaced(ticks[..n]);
      var clock := if n == 0 then ticks[n].now else ticks[n - 1].now;
      TickKeepsInv(After(ticks[..n]), ActiveOf(ticks[n].policies), ticks[n].events, clock, ticks[n].now);
    }
  }

  // ---- What is notified ----

  lemma {:induction false} ActiveAre(policies: seq<Policy>, p: Policy)
    ensures p in ActiveOf(policies) <==> p in policies && p.active
  {
    if policies != [] {
      var n := |policies| - 1;
      ActiveAre(policies[..n], p);
      assert policies == policies[..n] + [policies[n]];
    }
  }

  /** The notification is for an event of the tick that an active policy of the same tenant, or of none, matches. */
  ghost predicate Meant(n: Notification, policies: seq<Policy>, events: seq<Event>, now: int) {
    && n.policy in policies && n.key == KeyOf(n.policy) && n.at == now
    && exists e :: e in events && e.id == n.eventId && SameTenant(n.policy, e) && n.policy.matches(e)
  }

  /** `b'` has the notifications of `b` and then only ones that are meant. */
  ghost predicate AddsMeant(b: Board, b': Board, policies: seq<Policy>, events: seq<Event>, now: int) {
    && |b.log| <= |b'.log| && b'.log[..|b.log|] == b.log
    && forall i :: |b.log| <= i < |b'.log| ==> Meant(b'.log[i], policies, events, now)
  }

  lemma MeantMore(b0: Board, b1: Board, b2: Board, policies: seq<Policy>, events: seq<Event>, policies': seq<Policy>,
                  events': seq<Event>, now: int)
    requires AddsMeant(b0, b1, policies, events, now) && AddsMeant(b1, b2, policies', events', now)
    requires (forall p :: p in policies ==> p in policies') && (forall e :: e in events ==> e in events')
    ensures AddsMeant(b0, b2, policies', events', now)
  {
    forall i | |b0.log| <= i < |b2.log|
      ensures Meant(b2.log[i], policies', events', now)
    {
      if i < |b1.log| {
        assert b2.log[..|b1.log|][i] == b1.log[i];
      }
    }
    assert b2.log[..|b0.log|] == b2.log[..|b1.log|][..|b0.log|];
  }

  lemma ConsiderMeant(b: Board, p: Policy, e: Event, policies: seq<Policy>, events: seq<Event>, now: int)
    requires p in policies && e in events
    ensures AddsMeant(b, Consider(b, p, e, now), policies, events, now)
  {
  }

  lemma {:induction false} EventsMeant(b: Board, p: Policy, policies: seq<Policy>, events: seq<Event>, now: int)
    requires p in policies
    ensures AddsMeant(b, ConsiderEvents(b, p, events, now), policies, events, now)
  {
    hide AddsMeant, Consider;
    if events == [] {
      NothingMeant(b, policies, now);
    } else {
      var n := |events| - 1;
      var before := ConsiderEvents(b, p, events[..n], now);
      EventsMeant(b, p, policies, events[..n], now);
      ConsiderMeant(before, p, events[n], policies, events, now);
      MeantMore(b, before, ConsiderEvents(b, p, events, now), policies, events[..n], policies, events, now);
    }
  }

  lemma NothingMeant(b: Board, policies: seq<Policy>, now: int)
    ensures forall events :: AddsMeant(b, b, policies, events, now)
  {
  }

  lemma {:induction false} TickMeant(b: Board, policies: seq<Policy>, events: seq<Event>, now: int)
    ensures AddsMeant(b, ConsiderAll(b, policies, events, now), policies, events, now)
  {
    hide AddsMeant, ConsiderEvents;
    if policies == [] {
      NothingMeant(b, policies, now);
    } else {
      var n := |policies| - 1;
      var before := ConsiderAll(b, policies[..n], events, now);
      TickMeant(b, policies[..n], events, now);
      EventsMeant(before, policies[n], policies, events, now);
      MeantMore(b, before, ConsiderAll(b, policies, events, now), policies[..n], events, policies, events, now);
    }
  }

  /** Over any run, every notification belongs to a tick in which its policy was active, and to one of that tick's
      events, which the policy matches and whose tenant is not a different one. */
  lemma {:induction false} NotificationsAreMeant(ticks: seq<Tick>, i: nat)
    requires i < |After(ticks).log|
    ensures exists k :: 0 <= k < |ticks| && After(ticks).log[i].policy.active
                     && Meant(After(ticks).log[i], ticks[k].policies, ticks[k].events, ticks[k].now)
  {
    var n := |ticks| - 1;
    var before, t := After(ticks[..n]), ticks[n];
    TickMeant(before, ActiveOf(t.policies), t.events, t.now);
    if i < |before.log| {
      NotificationsAreMeant(ticks[..n], i);
      assert After(ticks).log[..|before.log|][i] == before.log[i];
      var k :| 0 <= k < n && Meant(before.log[i], ticks[..n][k].policies, ticks[..n][k].events, ticks[..n][k].now);
      assert ticks[..n][k] == ticks[k];
    } else {
      ActiveAre(t.policies, After(ticks).log[i].policy);
      assert Meant(After(ticks).log[i], t.policies, t.events, t.now);
    }
  }

  /** The log tells of the event: by a notification of the policy for it, or by one with the policy's key that is
      younger than its cooldown. */
  ghost predicate Answered(log: seq<Notification>, p: Policy, e: Event, now: int) {
    exists i :: 0 <= i < |log| && Answers(log[i], p, e, now)
  }

  ghost predicate Answers(n: Notification, p: Policy, e: Event, now: int) {
    || (n.policy == p && n.eventId == e.id && n.at == now)
    || (n.key == KeyOf(p) && now - n.at < p.cooldownSeconds * SECOND)
  }

  lemma AnsweredStays(b: Board, p: Policy, e: Event, q: Policy, f: Event, now: int)
    requires Answered(b.log, p, e, now)
    ensures Answered(Consider(b, q, f, now).log, p, e, now)
  {
    var i :| 0 <= i < |b.log| && Answers(b.log[i], p, e, now);
    assert Consider(b, q, f, now).log[i] == b.log[i];
  }

  lemma {:induction false} AnsweredThrough(b: Board, p: Policy, e: Event, q: Policy, events: seq<Event>, now: int)
    requires Answered(b.log, p, e, now)
    ensures Answered(ConsiderEvents(b, q, events, now).log, p, e, now)
  {
    hide Answered, Consider;
    if events != [] {
      var n := |events| - 1;
      AnsweredThrough(b, p, e, q, events[..n], now);
      AnsweredStays(ConsiderEvents(b, q, events[..n], now), p, e, q, events[n], now);
    }
  }

  lemma ConsiderAnswers(b: Board, p: Policy, e: Event, clock: int, now: int)
    requires Inv(b, clock) && clock <= now && SameTenant(p, e) && p.matches(e)
    ensures Answered(Consider(b, p, e, now).log, p, e, now)
  {
    hide Inv, SameTenant;
    SuppressedOnlyInCooldown(b, p, e, clock, now);
    var b' := Consider(b, p, e, now);
    if b' == b {
      var i :| 0 <= i < |b.log| && b.log[i].key == KeyOf(p) && now - b.log[i].at < p.cooldownSeconds * SECOND;
      assert Answers(b.log[i], p, e, now);
    } else {
      assert Answers(b'.log[|b.log|], p, e, now);
    }
  }

  lemma {:induction false} EventsAnswered(b: Board, p: Policy, events: seq<Event>, e: Event, clock: int, now: int)
    requires Inv(b, clock) && clock <= now && SameTenant(p, e) && p.matches(e) && e in events
    ensures Answered(ConsiderEvents(b, p, events, now).log, p, e, now)
  {
    hide Inv, Answered, Consider, SameTenant;
    var n := |events| - 1;
    var before := ConsiderEvents(b, p, events[..n], now);
    if e in events[..n] {
      EventsAnswered(b, p, events[..n], e, clock, now);
      AnsweredStays(before, p, e, p, events[n], now);
    } else {
      EventsKeepInv(b, p, events[..n], clock, now);
      ConsiderAnswers(before, p, e, now, now);
    }
  }

  lemma {:induction false} TickAnswers(b: Board, policies: seq<Policy>, events: seq<Event>, p: Policy, e: Event,
                                       clock: int, now: int)
    requires Inv(b, clock) && clock <= now && SameTenant(p, e) && p.matches(e) && p in policies && e in events
    ensures Answered(ConsiderAll(b, policies, events, now).log, p, e, now)
  {
    hide Inv, Answered, ConsiderEvents, SameTenant;
    var n := |policies| - 1;
    var before := ConsiderAll(b, policies[..n], events, now);
    if p in policies[..n] {
      TickAnswers(b, policies[..n], events, p, e, clock, now);
      AnsweredThrough(before, p, e, policies[n], events, now);
    } else {
      TickKeepsInv(b, policies[..n], events, clock, now);
      EventsAnswered(before, p, events, e, now, now);
    }
  }

  /** No match goes unnoticed: after any run, every event of the last tick that an active policy of its tenant, or of
      none, matches is notified by that policy, or one with its key was less than the cooldown ago. */
  lemma EveryMatchIsAnswered(ticks: seq<Tick>, p: Policy, e: Event)
    requires ClockRuns(ticks) && ticks != []
    requires p in ticks[|ticks| - 1].policies && p.active && e in ticks[|ticks| - 1].events
    requires SameTenant(p, e) && p.matches(e)
    ensures Answered(After(ticks).log, p, e, ticks[|ticks| - 1].now)
  {
    hide Inv, Answered, ConsiderAll, SameTenant, Spaced;
    var n := |ticks| - 1;
    AlertsAreSpaced(ticks[..n]);
    StartsWell(ticks[n].now);
    ActiveAre(ticks[n].policies, p);
    TickAnswers(After(ticks[..n]), ActiveOf(ticks[n].policies), ticks[n].events, p, e,
                if n == 0 then ticks[n].now else ticks[n - 1].now, ticks[n].now);
  }

  lemma StartsWell(clock: int)
    ensures Inv(Board(map[], []), clock)
  {
  }

  /** Policies share a cooldown exactly when tenant, id and trigger are the same; tenants and ids have no colon. */
  lemma SharedCooldown(p: Policy, q: Policy)
    requires ':' !in p.tenantId && ':' !in p.id && ':' !in q.tenantId && ':' !in q.id
    ensures KeyOf(p) == KeyOf(q) <==> p.tenantId == q.tenantId && p.id == q.id && p.trigger == q.trigger
  {
    var restP, restQ := p.id + ":" + p.trigger, q.id + ":" + q.trigger;
    assert KeyOf(p) == p.tenantId + ":" + restP && KeyOf(q) == q.tenantId + ":" + restQ;
    UnquotedPairs(KeyOf(p), p.tenantId, restP, q.tenantId, restQ);
    UnquotedPairs(restP, p.id, p.trigger, q.id, q.trigger);
  }
}
