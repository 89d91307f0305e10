/** Matching inputs to records by looking at the records alone. The employee service keeps four indexes instead, over
    the records it had and those it made; as long as keys are unique, the indexes come to the same. */
module EmployeeMatching {
  import opened EmployeeSync
  import opened HrisReconcile
  import opened Wrappers

  // ---- The plain rule ----

  predicate Shares(keys: Keys, e: Employee, a: Ask) {
    (a.id != "" && keys.id(e) == a.id) || keys.mail(e) == a.mail
  }

  /** The record at `r` is the only one that shares a key with the input, and does not have another external id. */
  ghost predicate Fits(keys: Keys, records: seq<Employee>, a: Ask, r: nat) {
    && r < |records| && Shares(keys, records[r], a)
    && (a.id == "" || keys.id(records[r]) == "" || keys.id(records[r]) == a.id)
    && forall s :: 0 <= s < |records| && Shares(keys, records[s], a) ==> s == r
  }

  /** One input against records of which the first `made` were made in this sync. An input without an address in an
      active domain changes nothing. One that shares no key with any record makes a new one, behind those made before.
      One that fits a record replaces it in place. Any other changes nothing. */
  ghost predicate Moves(keys: Keys, active: string -> bool, before: seq<Employee>, made: nat, a: Ask,
                        after: seq<Employee>)
    requires made <= |before|
  {
    if a.mail == "" || !active(a.mail) then after == before
    else if forall e :: e in before ==> !Shares(keys, e, a) then after == before[..made] + [a.record] + before[made..]
    else if exists r: nat :: Fits(keys, before, a, r) then Replaces(keys, before, a, after)
    else after == before
  }

  ghost predicate Replaces(keys: Keys, before: seq<Employee>, a: Ask, after: seq<Employee>) {
    exists r: nat :: Fits(keys, before, a, r) && after == before[r := a.record]
  }

  // ---- What the indexes say ----

  /** The position of a key among the records, those made in this sync first. */
  function Position(news: map<string, nat>, kept: map<string, nat>, n: nat, key: string): Option<nat> {
    if Find(news, key).Some? then Find(news, key)
    else if Find(kept, key).Some? then Some(n + Find(kept, key).value)
    else None
  }

  lemma PositionIs(news: map<string, nat>, kept: map<string, nat>, a: seq<string>, b: seq<string>, key: string)
    requires Exactly(news, a) && Exactly(kept, b) && Apart(kept, news) && key != ""
    ensures var p := Position(news, kept, |a|, key);
            && (p.Some? ==> p.value < |a + b|)
            && forall r :: 0 <= r < |a + b| ==> ((a + b)[r] == key <==> p == Some(r))
  {
    forall r | 0 <= r < |a + b|
      ensures (a + b)[r] == if r < |a| then a[r] else b[r - |a|]
    {
    }
  }

  function IdPosition(st: State, a: Ask): Option<nat> {
    Position(st.newById, st.byId, |st.created|, a.id)
  }

  function MailPosition(st: State, a: Ask): Option<nat> {
    Position(st.newByMail, st.byMail, |st.created|, a.mail)
  }

  lemma PositionsAre(keys: Keys, st: State, a: Ask)
    requires Exact(keys, st) && a.mail != ""
    ensures var p, q, records := IdPosition(st, a), MailPosition(st, a), Records(st);
            && (p.Some? ==> p.value < |records|) && (q.Some? ==> q.value < |records|)
            && forall r :: 0 <= r < |records| ==>
                 && (a.id != "" && keys.id(records[r]) == a.id <==> p == Some(r))
                 && (keys.mail(records[r]) == a.mail <==> q == Some(r))
  {
    hide Exactly, Apart, Position;
    var ids := Ids(keys, st.created) + Ids(keys, st.employees);
    var mails := Mails(keys, st.created) + Mails(keys, st.employees);
    PositionIs(st.newByMail, st.byMail, Mails(keys, st.created), Mails(keys, st.employees), a.mail);
    if a.id == "" {
      NoBlankPosition(st.newById, st.byId, |st.created|);
    } else {
      PositionIs(st.newById, st.byId, Ids(keys, st.created), Ids(keys, st.employees), a.id);
    }
    forall r | 0 <= r < |Records(st)|
      ensures ids[r] == keys.id(Records(st)[r]) && mails[r] == keys.mail(Records(st)[r])
    {
    }
  }

  lemma NoBlankPosition(news: map<string, nat>, kept: map<string, nat>, n: nat)
    ensures Position(news, kept, n, "") == None
  {
  }

  /** What the indexes agree on: the position of both keys, or of the one that has a position. */
  function Agreed(p: Option<nat>, q: Option<nat>): Option<nat> {
    if p.Some? && q.Some? then (if p == q then p else None) else if p.Some? then p else q
  }

  function PositionOf(st: State, t: Target): Option<nat> {
    match t
    case Existing(i) => Some(|st.created| + i)
    case Created(i) => Some(i)
    case _ => None
  }

  lemma MatchIsAgreement(keys: Keys, st: State, a: Ask)
    requires Exact(keys, st)
    ensures var p, q, t := IdPosition(st, a), MailPosition(st, a), Match(st, a);
            && PositionOf(st, t) == Agreed(p, q)
            && (t == Unknown <==> p == None && q == None)
            && (t.Created? ==> t.at < |st.created|) && (t.Existing? ==> t.at < |st.employees|)
  {
    assert Find(st.newById, a.id).Some? ==> Find(st.newById, a.id).value < |st.created|;
    assert Find(st.newByMail, a.mail).Some? ==> Find(st.newByMail, a.mail).value < |st.created|;
  }

  // ---- The two agree ----

  /** What a target does to the records, by its position among them. */
  lemma TargetAt(keys: Keys, active: string -> bool, st: State, a: Ask)
    requires var t := Match(st, a);
             (t.Existing? ==> t.at < |st.employees|) && (t.Created? ==> t.at < |st.created|)
    ensures var t, before, after := Match(st, a), Records(st), Records(Apply(keys, active, st, a));
            var r := PositionOf(st, t);
            && (r.Some? ==> r.value < |before|)
            && after == if !Deliverable(active, a.mail) then before
                        else if t == Unknown then before[..|st.created|] + [a.record] + before[|st.created|..]
                        else if r.Some? && !OtherId(keys, before[r.value], a) then before[r.value := a.record]
                        else before
  {
    hide Match, Rekey, OtherId, Deliverable;
    var before := Records(st);
    match Match(st, a)
    case Existing(i) =>
      assert before[|st.created| + i] == st.employees[i];
      assert before[|st.created| + i := a.record] == st.created + st.employees[i := a.record];
    case Created(i) =>
      assert before[i] == st.created[i];
      assert before[i := a.record] == st.created[i := a.record] + st.employees;
    case _ =>
  }

  /** What an input does to the records, said by the positions of its keys. */
  lemma AppliedAt(keys: Keys, active: string -> bool, st: State, a: Ask)
    requires Exact(keys, st)
    ensures var p, q, before := IdPosition(st, a), MailPosition(st, a), Records(st);
            var r := Agreed(p, q);
            && (r.Some? ==> r.value < |before|)
            && Records(Apply(keys, active, st, a))
               == if !Deliverable(active, a.mail) then before
                  else if p == None && q == None then before[..|st.created|] + [a.record] + before[|st.created|..]
                  else if r.Some? && !OtherId(keys, before[r.value], a) then before[r.value := a.record]
                  else before
  {
    hide Exact, Match, IdPosition, MailPosition, Agreed, Apply, OtherId, PositionOf, Records;
    MatchIsAgreement(keys, st, a);
    TargetAt(keys, active, st, a);
  }

  /** An input moves the records as the plain rule says. */
  lemma OneInput(keys: Keys, active: string -> bool, st: State, a: Ask)
    requires Exact(keys, st)
    ensures Moves(keys, active, Records(st), |st.created|, a, Records(Apply(keys, active, st, a)))
  {
    hide Exact, Apply, IdPosition, MailPosition, Records;
    RecordsLength(st);
    AppliedAt(keys, active, st, a);
    if Deliverable(active, a.mail) {
      PositionsAre(keys, st, a);
      var p, q, before := IdPosition(st, a), MailPosition(st, a), Records(st);
      forall r | 0 <= r < |before|
        ensures Shares(keys, before[r], a) <==> p == Some(r) || q == Some(r)
      {
      }
      if p.Some? {
        assert before[p.value] in before;
      } else if q.Some? {
        assert before[q.value] in before;
      }
      FitsAt(keys, before, a, p, q);
    }
  }

  lemma RecordsLength(st: State)
    ensures |Records(st)| == |st.created| + |st.employees|
  {
  }

  lemma FitsAt(keys: Keys, records: seq<Employee>, a: Ask, p: Option<nat>, q: Option<nat>)
    requires (p.Some? ==> p.value < |records|) && (q.Some? ==> q.value < |records|)
    requires forall r :: 0 <= r < |records| ==> (Shares(keys, records[r], a) <==> p == Some(r) || q == Some(r))
    ensures forall r: nat :: Fits(keys, records, a, r)
                    <==> (Agreed(p, q) == Some(r) && r < |records| && !OtherId(keys, records[r], a))
  {
    hide Shares;
    forall r: nat
      ensures Fits(keys, records, a, r)
         <==> (Agreed(p, q) == Some(r) && r < |records| && !OtherId(keys, records[r], a))
    {
    }
  }

  /** Over a sync of whatever inputs into records with unique keys, each input in turn moves the records as the plain
      rule says; so the indexes, however often they are rekeyed, never find more or less than the records hold. */
  lemma SyncMatchesPlainly(svc: Service, existing: seq<Employee>, inputs: seq<Input>, k: nat)
    requires Lawful(svc.lower) && Unique(KeysOf(svc), existing) && k < |inputs|
    ensures var before := Records(Synced(svc, existing, inputs[..k]));
            var after := Records(Synced(svc, existing, inputs[..k + 1]));
            && |existing| <= |before|
            && Moves(KeysOf(svc), svc.active, before, |before| - |existing|, AskOf(svc, inputs[k]), after)
  {
    hide Exact, Unique, Faithful, AskOf, Apply, Moves;
    var keys, asks := KeysOf(svc), Asks(svc, inputs[..k]);
    StartIsExact(keys, existing);
    forall a | a in asks
      ensures Faithful(keys, a)
    {
      AsksAreFaithful(svc, inputs[..k], a);
    }
    AllExact(keys, svc.active, Start(keys, existing), asks);
    StartIsIndexed(keys, existing);
    StaysIndexed(keys, svc.active, Start(keys, existing), asks);
    var st := Synced(svc, existing, inputs[..k]);
    OneInput(keys, svc.active, st, AskOf(svc, inputs[k]));
    assert inputs[..k + 1][..k] == inputs[..k];
    assert Asks(svc, inputs[..k + 1])[..k] == asks;
  }
}
