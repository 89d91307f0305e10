/** What becomes of one employee over any number of reconciles: deactivations that never take, deactivations that are
    taken back, and two employees with one address. */
module EmployeeRuns {
  import opened EmployeeSync
  import opened HrisReconcile
  import opened Text
  import opened Wrappers

  /** The records after reconciling one pull after the other. */
  function AfterPulls(svc: Service, existing: seq<Employee>, source: string, pulls: seq<seq<Input>>,
                      today: string): seq<Employee>
  {
    if pulls == [] then existing
    else
      var n := |pulls| - 1;
      Records(Reconciled(svc, AfterPulls(svc, existing, source, pulls[..n], today), source, pulls[n], today))
  }

  lemma RecordKept(st: State, i: nat)
    requires i < |st.employees|
    ensures |st.created| + i < |Records(st)| && Records(st)[|st.created| + i] == st.employees[i]
    ensures st.employees[i] in Records(st)
  {
    assert Records(st)[|st.created| + i] == st.employees[i];
  }

  // ---- A deactivation that never takes ----

  /** No input that could be applied carries the employee's external id. */
  predicate Unreached(svc: Service, e: Employee, pulled: seq<Input>) {
    Trim(e.externalId) != "" ==>
      forall x :: x in pulled && Trim(x.externalId) == Trim(e.externalId) ==>
        !Deliverable(svc.active, Mail(svc.lower, x.email))
  }

  predicate Differs(svc: Service, e: Employee, other: Employee) {
    && (Trim(e.externalId) != "" ==> Trim(other.externalId) != Trim(e.externalId))
    && (MailOf(svc, e) != "" ==> MailOf(svc, other) != MailOf(svc, e))
  }

  lemma OwnKeysMeans(svc: Service, existing: seq<Employee>, i: nat)
    requires i < |existing|
    ensures OwnKeys(KeysOf(svc), existing, i)
       <==> forall j :: 0 <= j < |existing| && j != i ==> Differs(svc, existing[i], existing[j])
  {
    var keys := KeysOf(svc);
    assert forall j :: 0 <= j < |existing| ==>
      keys.id(existing[j]) == Trim(existing[j].externalId) && keys.mail(existing[j]) == MailOf(svc, existing[j]);
  }

  /** An input of the reconcile that could be applied has neither key of a record whose address is not deliverable. */
  lemma InputDiffers(svc: Service, existing: seq<Employee>, source: string, pulled: seq<Input>, today: string, i: nat,
                     x: Input)
    requires i < |existing| && OwnKeys(KeysOf(svc), existing, i)
    requires !Deliverable(svc.active, MailOf(svc, existing[i])) && Unreached(svc, existing[i], pulled)
    requires x in FullInputs(svc, existing, source, pulled, today) && Deliverable(svc.active, Mail(svc.lower, x.email))
    ensures Mail(svc.lower, x.email) != MailOf(svc, existing[i])
    ensures Trim(existing[i].externalId) != "" ==> Trim(x.externalId) != Trim(existing[i].externalId)
  {
    if x !in pulled {
      hide Missing, OwnKeys;
      DeactivatesTheMissing(svc.lower, existing, source, pulled, today);
      var e :| e in existing && Missing(svc.lower, e, source, pulled) && Deactivation(e, today) == x;
      var j :| 0 <= j < |existing| && existing[j] == e;
      OwnDiffers(svc, existing, i, j);
    }
  }

  lemma SaidDiffers(svc: Service, existing: seq<Employee>, source: string, pulled: seq<Input>, today: string, i: nat,
                    e: Employee)
    requires Lawful(svc.lower) && i < |existing| && OwnKeys(KeysOf(svc), existing, i)
    requires !Deliverable(svc.active, MailOf(svc, existing[i])) && Unreached(svc, existing[i], pulled)
    requires Says(svc.active, Asks(svc, FullInputs(svc, existing, source, pulled, today)), e)
    ensures Differs(svc, existing[i], e)
  {
    var inputs := FullInputs(svc, existing, source, pulled, today);
    var a :| a in Asks(svc, inputs) && a.record == e && Deliverable(svc.active, a.mail);
    AsksAre(svc, inputs, a);
    var x :| x in inputs && AskOf(svc, x) == a;
    InputDiffers(svc, existing, source, pulled, today, i, x);
    MailOnce(svc.lower, x.email);
    TrimIsTrimmed(x.externalId);
  }

  lemma {:induction false} StaysAlone(keys: Keys, active: string -> bool, existing: seq<Employee>, asks: seq<Ask>,
                                      i: nat)
    requires i < |existing| && OwnKeys(keys, existing, i) && !Deliverable(active, keys.mail(existing[i]))
    requires keys.id(existing[i]) != "" ==>
               forall a :: a in asks && Deliverable(active, a.mail) ==> a.id != keys.id(existing[i])
    ensures Alone(ApplyAll(keys, active, Start(keys, existing), asks), i, existing[i], keys.id(existing[i]),
                  keys.mail(existing[i]))
  {
    hide Alone, Deliverable, OwnKeys, Start;
    if asks == [] {
      AloneAtStart(keys, existing, i);
    } else {
      var n := |asks| - 1;
      StaysAlone(keys, active, existing, asks[..n], i);
      assert asks[n] in asks;
      OneStaysAlone(keys, active, ApplyAll(keys, active, Start(keys, existing), asks[..n]), i, existing[i], asks[n]);
    }
  }

  lemma OneStaysAlone(keys: Keys, active: string -> bool, st: State, i: nat, e: Employee, a: Ask)
    requires Alone(st, i, e, keys.id(e), keys.mail(e)) && !Deliverable(active, keys.mail(e))
    requires keys.id(e) != "" && Deliverable(active, a.mail) ==> a.id != keys.id(e)
    ensures Alone(Apply(keys, active, st, a), i, e, keys.id(e), keys.mail(e))
  {
    hide Alone;
    if Deliverable(active, a.mail) {
      ApplyAlone(keys, active, st, i, e, a);
      assert i !in Apply(keys, active, st, a).applied;
    }
  }

  lemma OthersDiffer(svc: Service, existing: seq<Employee>, source: string, pulled: seq<Input>, today: string, i: nat)
    requires Lawful(svc.lower) && i < |existing| && OwnKeys(KeysOf(svc), existing, i)
    requires !Deliverable(svc.active, MailOf(svc, existing[i])) && Unreached(svc, existing[i], pulled)
    ensures var st := Reconciled(svc, existing, source, pulled, today);
            && |st.employees| == |existing| && st.employees[i] == existing[i]
            && (forall e :: e in st.created ==> Differs(svc, existing[i], e))
            && (forall j :: 0 <= j < |existing| && j != i ==> Differs(svc, existing[i], st.employees[j]))
  {
    var keys, asks := KeysOf(svc), Asks(svc, FullInputs(svc, existing, source, pulled, today));
    hide Says, Deliverable, OwnKeys, Unreached, FullInputs;
    AllStamped(keys, svc.active, existing, asks);
    forall a | a in asks && Deliverable(svc.active, a.mail) && keys.id(existing[i]) != ""
      ensures a.id != keys.id(existing[i])
    {
      AsksAre(svc, FullInputs(svc, existing, source, pulled, today), a);
      var x :| x in FullInputs(svc, existing, source, pulled, today) && AskOf(svc, x) == a;
      InputDiffers(svc, existing, source, pulled, today, i, x);
    }
    StaysAlone(keys, svc.active, existing, asks, i);
    OwnKeysMeans(svc, existing, i);
    hide Differs;
    forall e | Says(svc.active, asks, e)
      ensures Differs(svc, existing[i], e)
    {
      SaidDiffers(svc, existing, source, pulled, today, i, e);
    }
  }

  /** A record with keys of its own that no input can reach: after the reconcile it is still there, as it was, and
      still with keys of its own. */
  lemma StaysUntouched(svc: Service, existing: seq<Employee>, source: string, pulled: seq<Input>, today: string, i: nat)
    returns (k: nat)
    requires Lawful(svc.lower) && i < |existing| && OwnKeys(KeysOf(svc), existing, i)
    requires !Deliverable(svc.active, MailOf(svc, existing[i])) && Unreached(svc, existing[i], pulled)
    ensures var after := Records(Reconciled(svc, existing, source, pulled, today));
            k < |after| && after[k] == existing[i] && OwnKeys(KeysOf(svc), after, k)
  {
    hide Deliverable, OwnKeys, Differs, Reconciled, Unreached;
    var st := Reconciled(svc, existing, source, pulled, today);
    var after := Records(st);
    OthersDiffer(svc, existing, source, pulled, today, i);
    k := |st.created| + i;
    forall j | 0 <= j < |after| && j != k
      ensures Differs(svc, after[k], after[j])
    {
      if j < |st.created| {
        assert after[j] in st.created;
      } else {
        assert after[j] == st.employees[j - |st.created|];
      }
    }
    OwnKeysMeans(svc, after, k);
  }

  /** Over any run of pulls, whether they contain the employee or not, such a record stays as it was; so every pull it
      is missing from deactivates it once more, however often that was done before. */
  lemma {:induction false} DeactivatedOnEveryPull(svc: Service, existing: seq<Employee>, source: string,
                                                  pulls: seq<seq<Input>>, today: string, i: nat)
    returns (k: nat)
    requires Lawful(svc.lower) && i < |existing| && OwnKeys(KeysOf(svc), existing, i)
    requires !Deliverable(svc.active, MailOf(svc, existing[i]))
    requires forall p :: p in pulls ==> Unreached(svc, existing[i], p)
    ensures var after := AfterPulls(svc, existing, source, pulls, today);
            && k < |after| && after[k] == existing[i] && OwnKeys(KeysOf(svc), after, k)
            && forall p :: Missing(svc.lower, existing[i], source, p) ==>
                 Deactivation(existing[i], today) in Deactivations(svc.lower, after, source, p, today)
  {
    hide Missing, Unreached, OwnKeys, Deliverable, Reconciled;
    if pulls == [] {
      k := i;
    } else {
      var n := |pulls| - 1;
      var before := AfterPulls(svc, existing, source, pulls[..n], today);
      var j := DeactivatedOnEveryPull(svc, existing, source, pulls[..n], today, i);
      assert pulls[n] in pulls;
      k := StaysUntouched(svc, before, source, pulls[n], today, j);
    }
    var after := AfterPulls(svc, existing, source, pulls, today);
    assert after[k] in after;
    forall p | Missing(svc.lower, existing[i], source, p)
      ensures Deactivation(existing[i], today) in Deactivations(svc.lower, after, source, p, today)
    {
      DeactivatesTheMissing(svc.lower, after, source, p, today);
    }
  }

  /** One employee whose domain has been given up, and any number of full snapshots that are empty or still list them
      under the old address. */
  lemma InactiveDomainExample(svc: Service, pulls: seq<seq<Input>>, today: string)
    requires Lawful(svc.lower) && svc.lower("a@gone.io") == "a@gone.io" && svc.lower("active") == "active"
    requires !svc.active("a@gone.io")
    requires forall p :: p in pulls ==> p == [] || p == [Input("7", "a@gone.io", "active", "active", "", "")]
    ensures var e := Employee("hris", "7", "a@gone.io", "active", "active", "", "");
            var after := AfterPulls(svc, [e], "hris", pulls, today);
            Deactivation(e, today) in Deactivations(svc.lower, after, "hris", [], today)
  {
    var e := Employee("hris", "7", "a@gone.io", "active", "active", "", "");
    TrimLeaves("a@gone.io");
    TrimLeaves("active");
    assert Missing(svc.lower, e, "hris", []);
    assert forall p :: p in pulls ==> Unreached(svc, e, p);
    var k := DeactivatedOnEveryPull(svc, [e], "hris", pulls, today, 0);
  }

  // ---- A deactivation that is taken back ----

  /** The address is in the pull, always without an external id. */
  predicate AddressOnly(svc: Service, pulled: seq<Input>, mail: string) {
    && mail in SeenMails(svc.lower, pulled)
    && forall x :: x in pulled && Mail(svc.lower, x.email) == mail ==> Trim(x.externalId) == ""
  }

  /** What the last input with this address says, if there is one. */
  function LastSaid(svc: Service, inputs: seq<Input>, mail: string, before: Employee): Employee {
    if inputs == [] then before
    else
      var x := inputs[|inputs| - 1];
      if Mail(svc.lower, x.email) == mail then RecordOf(svc, x)
      else LastSaid(svc, inputs[..|inputs| - 1], mail, before)
  }

  /** The record at `i` has the address, and this external id or none; both keys lead nowhere else. */
  ghost predicate Held(keys: Keys, st: State, i: nat, id: string, mail: string) {
    && i < |st.employees| && mail != ""
    && keys.mail(st.employees[i]) == mail && (keys.id(st.employees[i]) == "" || keys.id(st.employees[i]) == id)
    && PointsOnly(st.byMail, mail, i) && mail !in st.newByMail
    && LeadsOnly(st.byId, id, i) && (id != "" ==> id !in st.newById)
  }

  /** Nothing but `key` leads to `i`, and `key` leads nowhere else. */
  ghost predicate LeadsOnly(m: map<string, nat>, key: string, i: nat) {
    && (key != "" && key in m ==> m[key] == i)
    && (forall k :: k in m && k != "" && m[k] == i ==> k == key)
  }

  /** The input is for this record, or for another. */
  predicate Ours(a: Ask, id: string, mail: string) {
    a.mail == mail && (a.id == "" || a.id == id)
  }

  predicate Elsewhere(a: Ask, id: string, mail: string) {
    a.mail != mail && (id != "" ==> a.id != id)
  }

  lemma RekeyLeadsOnly(m: map<string, nat>, before: string, now: string, j: nat, key: string, i: nat)
    requires LeadsOnly(m, key, i)
    requires if j == i then now == "" || now == key else now == "" || now != key
    ensures LeadsOnly(Rekey(m, before, now, j), key, i)
  {
  }

  lemma OursIsApplied(keys: Keys, active: string -> bool, st: State, i: nat, id: string, mail: string, a: Ask)
    requires Held(keys, st, i, id, mail) && Ours(a, id, mail) && Deliverable(active, mail)
    requires Faithful(keys, a)
    ensures var st' := Apply(keys, active, st, a); Held(keys, st', i, id, mail) && st'.employees[i] == a.record
  {
    assert TargetOf(keys, active, st, a) == Existing(i);
    hide LeadsOnly;
    RekeyLeadsOnly(st.byId, keys.id(st.employees[i]), a.id, i, id, i);
  }

  lemma ElsewhereIsKept(keys: Keys, active: string -> bool, st: State, i: nat, id: string, mail: string, a: Ask)
    requires Held(keys, st, i, id, mail) && Elsewhere(a, id, mail)
    ensures var st' := Apply(keys, active, st, a);
            Held(keys, st', i, id, mail) && st'.employees[i] == st.employees[i]
  {
    var t := TargetOf(keys, active, st, a);
    assert t != Existing(i);
    match t
    case Existing(j) =>
      hide LeadsOnly, PointsOnly, Rekey;
      RekeyLeadsOnly(st.byId, keys.id(st.employees[j]), a.id, j, id, i);
      RekeyPointsOnly(st.byMail, keys.mail(st.employees[j]), a.mail, j, mail, i);
    case Created(j) =>
      NewStaysClear(st.newById, keys.id(st.created[j]), a.id, j, id);
      NewStaysClear(st.newByMail, keys.mail(st.created[j]), a.mail, j, mail);
    case _ =>
  }

  /** Every input with the record's address is for it, and any other has neither key. */
  predicate Sorted(svc: Service, inputs: seq<Input>, id: string, mail: string) {
    forall x :: x in inputs ==> Ours(AskOf(svc, x), id, mail) || Elsewhere(AskOf(svc, x), id, mail)
  }

  lemma {:induction false} HeldThrough(svc: Service, existing: seq<Employee>, inputs: seq<Input>, i: nat, id: string,
                                       mail: string)
    requires Lawful(svc.lower) && i < |existing| && OwnKeys(KeysOf(svc), existing, i)
    requires id == Trim(existing[i].externalId) && mail == MailOf(svc, existing[i]) && Deliverable(svc.active, mail)
    requires Sorted(svc, inputs, id, mail)
    ensures Held(KeysOf(svc), Synced(svc, existing, inputs), i, id, mail)
    ensures Synced(svc, existing, inputs).employees[i] == LastSaid(svc, inputs, mail, existing[i])
  {
    var keys := KeysOf(svc);
    if inputs == [] {
      assert keys.id(existing[i]) == id && keys.mail(existing[i]) == mail;
      AloneAtStart(keys, existing, i);
    } else {
      var n := |inputs| - 1;
      assert inputs[n] in inputs;
      HeldThrough(svc, existing, inputs[..n], i, id, mail);
      InputHeld(svc, Synced(svc, existing, inputs[..n]), i, id, mail, inputs[n]);
      OneMoreInput(svc, existing, inputs);
    }
  }

  /** Whoever is named active by every input with their address, and by at least one, is active after the sync. */
  lemma ActiveEndsActive(svc: Service, existing: seq<Employee>, inputs: seq<Input>, i: nat, id: string, mail: string)
    requires Lawful(svc.lower) && i < |existing| && OwnKeys(KeysOf(svc), existing, i)
    requires id == Trim(existing[i].externalId) && mail == MailOf(svc, existing[i]) && Deliverable(svc.active, mail)
    requires Sorted(svc, inputs, id, mail) && mail in SeenMails(svc.lower, inputs)
    requires NamedActive(svc, inputs, mail)
    ensures Held(KeysOf(svc), Synced(svc, existing, inputs), i, id, mail)
    ensures Synced(svc, existing, inputs).employees[i].status == "active"
  {
    hide Sorted, Held, OwnKeys, Deliverable, EmploymentWord, RecordOf;
    HeldThrough(svc, existing, inputs, i, id, mail);
    PulledSays(svc, inputs, mail, existing[i], existing[i]);
    var x :| x in inputs && Mail(svc.lower, x.email) == mail
          && LastSaid(svc, inputs, mail, existing[i]) == RecordOf(svc, x);
    RecordSays(svc, x);
  }

  lemma OneMoreInput(svc: Service, existing: seq<Employee>, inputs: seq<Input>)
    requires inputs != []
    ensures var n := |inputs| - 1;
            Synced(svc, existing, inputs)
            == Apply(KeysOf(svc), svc.active, Synced(svc, existing, inputs[..n]), AskOf(svc, inputs[n]))
  {
    hide Apply, Start, AskOf;
    var n := |inputs| - 1;
    assert Asks(svc, inputs)[..n] == Asks(svc, inputs[..n]);
  }

  lemma InputHeld(svc: Service, st: State, i: nat, id: string, mail: string, x: Input)
    requires Lawful(svc.lower) && Held(KeysOf(svc), st, i, id, mail) && Deliverable(svc.active, mail)
    requires Ours(AskOf(svc, x), id, mail) || Elsewhere(AskOf(svc, x), id, mail)
    ensures var st' := Apply(KeysOf(svc), svc.active, st, AskOf(svc, x));
            && Held(KeysOf(svc), st', i, id, mail)
            && st'.employees[i] == if Mail(svc.lower, x.email) == mail then RecordOf(svc, x) else st.employees[i]
  {
    hide Held, Apply;
    if Mail(svc.lower, x.email) == mail {
      MailOnce(svc.lower, x.email);
      TrimIsTrimmed(x.externalId);
      assert Faithful(KeysOf(svc), AskOf(svc, x));
      OursIsApplied(KeysOf(svc), svc.active, st, i, id, mail, AskOf(svc, x));
    } else {
      ElsewhereIsKept(KeysOf(svc), svc.active, st, i, id, mail, AskOf(svc, x));
    }
  }

  lemma {:induction false} LastSaidAppends(svc: Service, a: seq<Input>, b: seq<Input>, mail: string, e: Employee)
    ensures LastSaid(svc, a + b, mail, e) == LastSaid(svc, b, mail, LastSaid(svc, a, mail, e))
  {
    if b == [] {
      assert a + b == a;
    } else {
      var n := |b| - 1;
      assert (a + b)[..|a + b| - 1] == a + b[..n];
      LastSaidAppends(svc, a, b[..n], mail, e);
    }
  }

  lemma {:induction false} LastSaidOne(svc: Service, inputs: seq<Input>, mail: string, e: Employee, x: Input)
    requires forall y :: y in inputs && Mail(svc.lower, y.email) == mail ==> y == x
    requires Mail(svc.lower, x.email) == mail
    ensures LastSaid(svc, inputs, mail, e) == if x in inputs then RecordOf(svc, x) else e
  {
    if inputs != [] {
      var n := |inputs| - 1;
      assert inputs == inputs[..n] + [inputs[n]];
      LastSaidOne(svc, inputs[..n], mail, e, x);
    }
  }

  /** It does not depend on the record, and is what some input with that address says. */
  lemma {:induction false} PulledSays(svc: Service, pulled: seq<Input>, mail: string, e: Employee, e': Employee)
    requires mail in SeenMails(svc.lower, pulled)
    ensures LastSaid(svc, pulled, mail, e) == LastSaid(svc, pulled, mail, e')
    ensures exists x :: x in pulled && Mail(svc.lower, x.email) == mail
                     && LastSaid(svc, pulled, mail, e) == RecordOf(svc, x)
  {
    var n := |pulled| - 1;
    if Mail(svc.lower, pulled[n].email) == mail {
      assert pulled[n] in pulled;
    } else {
      assert mail in SeenMails(svc.lower, pulled[..n]);
      PulledSays(svc, pulled[..n], mail, e, e');
      assert forall x :: x in pulled[..n] ==> x in pulled;
    }
  }

  lemma InputsSorted(svc: Service, existing: seq<Employee>, source: string, pulled: seq<Input>, today: string, i: nat)
    requires i < |existing| && OwnKeys(KeysOf(svc), existing, i) && MailOf(svc, existing[i]) != ""
    requires AddressOnly(svc, pulled, MailOf(svc, existing[i]))
    requires Trim(existing[i].externalId) !in SeenIds(pulled)
    ensures Sorted(svc, FullInputs(svc, existing, source, pulled, today), Trim(existing[i].externalId),
                   MailOf(svc, existing[i]))
    ensures forall x :: (x in Deactivations(svc.lower, existing, source, pulled, today)
                         && Mail(svc.lower, x.email) == MailOf(svc, existing[i]))
                    ==> x == Deactivation(existing[i], today)
    ensures Deactivation(existing[i], today) in Deactivations(svc.lower, existing, source, pulled, today)
       <==> Missing(svc.lower, existing[i], source, pulled)
  {
    var id, mail := Trim(existing[i].externalId), MailOf(svc, existing[i]);
    hide Missing, OwnKeys;
    DeactivatesTheMissing(svc.lower, existing, source, pulled, today);
    forall x | x in Deactivations(svc.lower, existing, source, pulled, today)
      ensures Ours(AskOf(svc, x), id, mail) || Elsewhere(AskOf(svc, x), id, mail)
      ensures Mail(svc.lower, x.email) == mail ==>
                x == Deactivation(existing[i], today) && Missing(svc.lower, existing[i], source, pulled)
    {
      var e :| e in existing && Missing(svc.lower, e, source, pulled) && Deactivation(e, today) == x;
      var j :| 0 <= j < |existing| && existing[j] == e;
      OwnDiffers(svc, existing, i, j);
    }
    assert existing[i] in existing;
    assert Mail(svc.lower, Deactivation(existing[i], today).email) == mail;
  }

  /** One reconcile with a pull that has the employee's address but not the external id: the record ends as its
      deactivation says if it was missing, and as the pull says if not. */
  lemma PulledByAddress(svc: Service, existing: seq<Employee>, source: string, pulled: seq<Input>, today: string,
                        i: nat)
    requires Lawful(svc.lower) && i < |existing| && OwnKeys(KeysOf(svc), existing, i)
    requires Deliverable(svc.active, MailOf(svc, existing[i])) && AddressOnly(svc, pulled, MailOf(svc, existing[i]))
    requires Trim(existing[i].externalId) !in SeenIds(pulled)
    ensures var st := Reconciled(svc, existing, source, pulled, today);
            && i < |st.employees|
            && st.employees[i] == if Missing(svc.lower, existing[i], source, pulled)
                                  then RecordOf(svc, Deactivation(existing[i], today))
                                  else LastSaid(svc, pulled, MailOf(svc, existing[i]), existing[i])
  {
    var e, mail := existing[i], MailOf(svc, existing[i]);
    var gone := Deactivations(svc.lower, existing, source, pulled, today);
    hide Missing, OwnKeys, Sorted, Held, AddressOnly;
    InputsSorted(svc, existing, source, pulled, today, i);
    HeldThrough(svc, existing, pulled + gone, i, Trim(e.externalId), mail);
    StillThere(svc, existing, pulled + gone);
    LastSaidAppends(svc, pulled, gone, mail, e);
    LastSaidOne(svc, gone, mail, LastSaid(svc, pulled, mail, e), Deactivation(e, today));
  }

  lemma StillThere(svc: Service, existing: seq<Employee>, inputs: seq<Input>)
    ensures |Synced(svc, existing, inputs).employees| == |existing|
  {
    StartIsIndexed(KeysOf(svc), existing);
    StaysIndexed(KeysOf(svc), svc.active, Start(KeysOf(svc), existing), Asks(svc, inputs));
  }

  /** What the deactivation writes keeps both keys and is not deactivated again. */
  lemma DeactivatedRecord(svc: Service, e: Employee, source: string, pulled: seq<Input>, today: string)
    requires Lawful(svc.lower)
    ensures var r := RecordOf(svc, Deactivation(e, today));
            && MailOf(svc, r) == MailOf(svc, e) && Trim(r.externalId) == Trim(e.externalId)
            && !Missing(svc.lower, r, source, pulled) && AlreadyInactive(svc.lower, r)
  {
    MailOnce(svc.lower, e.email);
    TrimIsTrimmed(e.externalId);
    DeactivatedIsInactive(svc, Deactivation(e, today));
  }

  /** What the pull writes has the address, no external id, and is not missing. */
  lemma PulledRecord(svc: Service, e: Employee, source: string, pulled: seq<Input>, mail: string)
    requires Lawful(svc.lower) && mail != "" && AddressOnly(svc, pulled, mail)
    ensures var r := LastSaid(svc, pulled, mail, e);
            && MailOf(svc, r) == mail && Trim(r.externalId) == "" && !Missing(svc.lower, r, source, pulled)
  {
    PulledSays(svc, pulled, mail, e, e);
    var x :| x in pulled && Mail(svc.lower, x.email) == mail && LastSaid(svc, pulled, mail, e) == RecordOf(svc, x);
    MailOnce(svc.lower, x.email);
    TrimIsTrimmed(x.externalId);
    PulledIsPresent(svc, x, pulled);
  }

  function Times(pulled: seq<Input>, n: nat): (pulls: seq<seq<Input>>)
    ensures |pulls| == n && forall i :: 0 <= i < n ==> pulls[i] == pulled
  {
    seq(n, _ => pulled)
  }

  /** Every input with this address has an employment word that does not block. */
  predicate NamedActive(svc: Service, pulled: seq<Input>, mail: string) {
    forall x :: x in pulled && Mail(svc.lower, x.email) == mail ==> EmploymentWord(svc.lower, x) !in BLOCKING
  }

  /** Some input with this address says `r`. */
  predicate SaidBy(svc: Service, pulled: seq<Input>, mail: string, r: Employee) {
    exists x :: x in pulled && Mail(svc.lower, x.email) == mail && r == RecordOf(svc, x)
  }

  /** What the record of an employee is after `n` such reconciles. */
  function Phase(svc: Service, e: Employee, pulled: seq<Input>, today: string, n: nat): Employee {
    if n == 0 then e
    else if n == 1 then RecordOf(svc, Deactivation(e, today))
    else LastSaid(svc, pulled, MailOf(svc, e), e)
  }

  lemma PhaseOnce(svc: Service, e: Employee, source: string, pulled: seq<Input>, today: string, n: nat)
    requires Lawful(svc.lower) && Missing(svc.lower, e, source, pulled)
    requires Deliverable(svc.active, MailOf(svc, e)) && AddressOnly(svc, pulled, MailOf(svc, e))
    ensures var r := Phase(svc, e, pulled, today, n);
            && MailOf(svc, r) == MailOf(svc, e) && Trim(r.externalId) !in SeenIds(pulled)
            && Phase(svc, e, pulled, today, n + 1)
               == if Missing(svc.lower, r, source, pulled) then RecordOf(svc, Deactivation(r, today))
                  else LastSaid(svc, pulled, MailOf(svc, r), r)
  {
    var mail := MailOf(svc, e);
    MissingHasNoPulledId(svc, e, source, pulled, mail);
    hide Missing, AddressOnly, Deliverable, LastSaid, RecordOf, Deactivation;
    DeactivatedRecord(svc, e, source, pulled, today);
    PulledRecord(svc, e, source, pulled, mail);
    PulledSaysTheSame(svc, pulled, mail, e, Phase(svc, e, pulled, today, n));
  }

  lemma NextPhase(svc: Service, before: seq<Employee>, j: nat, e: Employee, source: string, pulled: seq<Input>,
                  today: string, n: nat)
    returns (k: nat)
    requires Lawful(svc.lower) && Missing(svc.lower, e, source, pulled)
    requires Deliverable(svc.active, MailOf(svc, e)) && AddressOnly(svc, pulled, MailOf(svc, e))
    requires Unique(KeysOf(svc), before) && j < |before| && before[j] == Phase(svc, e, pulled, today, n)
    ensures var after := Records(Reconciled(svc, before, source, pulled, today));
            && Unique(KeysOf(svc), after) && k < |after| && after[k] == Phase(svc, e, pulled, today, n + 1)
  {
    hide Unique, Missing, OwnKeys, AddressOnly, Reconciled, Deliverable, LastSaid, Phase, RecordOf, Deactivation;
    PhaseOnce(svc, e, source, pulled, today, n);
    UniqueOwns(KeysOf(svc), before, j);
    PulledByAddress(svc, before, source, pulled, today, j);
    NextIsUnique(svc, before, source, pulled, today);
    var st := Reconciled(svc, before, source, pulled, today);
    RecordKept(st, j);
    k := |st.created| + j;
  }

  lemma AfterTimes(svc: Service, existing: seq<Employee>, source: string, pulled: seq<Input>, today: string, n: nat)
    ensures AfterPulls(svc, existing, source, Times(pulled, n), today)
         == if n == 0 then existing
            else Records(Reconciled(svc, AfterPulls(svc, existing, source, Times(pulled, n - 1), today), source, pulled,
                                    today))
  {
    hide Reconciled;
    if n > 0 {
      assert Times(pulled, n)[..n - 1] == Times(pulled, n - 1);
    }
  }

  lemma DeactivationWord(svc: Service, e: Employee, today: string)
    requires Lawful(svc.lower)
    ensures var r := RecordOf(svc, Deactivation(e, today)); r.status == "inactive" && r.employmentStatus == "inactive"
  {
    TrimLeaves("inactive");
    RecordSays(svc, Deactivation(e, today));
  }

  lemma PhaseMeans(svc: Service, e: Employee, source: string, pulled: seq<Input>, today: string, n: nat)
    requires Lawful(svc.lower) && Missing(svc.lower, e, source, pulled)
    requires Deliverable(svc.active, MailOf(svc, e)) && AddressOnly(svc, pulled, MailOf(svc, e))
    ensures var r := Phase(svc, e, pulled, today, n);
            && (n == 0 ==> r == e)
            && (n == 1 ==> r.status == "inactive" && r.employmentStatus == "inactive"
                           && Trim(r.externalId) == Trim(e.externalId))
            && (n > 1 ==> Trim(r.externalId) == "" && SaidBy(svc, pulled, MailOf(svc, e), r))
            && (n > 1 && NamedActive(svc, pulled, MailOf(svc, e)) ==> r.status == "active")
  {
    MissingHasNoPulledId(svc, e, source, pulled, MailOf(svc, e));
    hide Missing, Lawful, RecordOf, Deliverable;
    DeactivatedRecord(svc, e, source, pulled, today);
    DeactivationWord(svc, e, today);
    PulledRecord(svc, e, source, pulled, MailOf(svc, e));
    PulledSays(svc, pulled, MailOf(svc, e), e, e);
    var x :| x in pulled && Mail(svc.lower, x.email) == MailOf(svc, e)
          && LastSaid(svc, pulled, MailOf(svc, e), e) == RecordOf(svc, x);
    RecordSays(svc, x);
  }

  /** The same pull over and over, which has the address of an employee with an external id but not the id: the first
      reconcile deactivates the employee, the second takes that back and leaves what the pull says, without the external
      id, and so does every later one. */
  lemma {:induction false} DeactivatedThenBack(svc: Service, existing: seq<Employee>, source: string,
                                               pulled: seq<Input>, today: string, i: nat, n: nat)
    returns (k: nat)
    requires Lawful(svc.lower) && Unique(KeysOf(svc), existing) && i < |existing|
    requires Deliverable(svc.active, MailOf(svc, existing[i])) && AddressOnly(svc, pulled, MailOf(svc, existing[i]))
    requires Missing(svc.lower, existing[i], source, pulled)
    ensures var after, r := AfterPulls(svc, existing, source, Times(pulled, n), today),
                            Phase(svc, existing[i], pulled, today, n);
            && Unique(KeysOf(svc), after) && k < |after| && after[k] == r
            && (n == 1 ==> r.status == "inactive" && r.employmentStatus == "inactive"
                           && Trim(r.externalId) == Trim(existing[i].externalId))
            && (n > 1 ==> Trim(r.externalId) == "" && SaidBy(svc, pulled, MailOf(svc, existing[i]), r))
            && (n > 1 && NamedActive(svc, pulled, MailOf(svc, existing[i])) ==> r.status == "active")
  {
    var e := existing[i];
    hide Unique, Missing, OwnKeys, Reconciled, Deliverable, AddressOnly, Phase, SaidBy, AlreadyInactive, AfterPulls;
    AfterTimes(svc, existing, source, pulled, today, n);
    PhaseMeans(svc, e, source, pulled, today, n);
    if n == 0 {
      k := i;
    } else {
      var j := DeactivatedThenBack(svc, existing, source, pulled, today, i, n - 1);
      var before := AfterPulls(svc, existing, source, Times(pulled, n - 1), today);
      k := NextPhase(svc, before, j, e, source, pulled, today, n - 1);
    }
  }

  lemma NextIsUnique(svc: Service, existing: seq<Employee>, source: string, pulled: seq<Input>, today: string)
    requires Lawful(svc.lower) && Unique(KeysOf(svc), existing)
    ensures Unique(KeysOf(svc), Records(Reconciled(svc, existing, source, pulled, today)))
  {
    SyncKeepsUnique(svc, existing, FullInputs(svc, existing, source, pulled, today));
  }

  lemma UniqueOwns(keys: Keys, records: seq<Employee>, i: nat)
    requires Unique(keys, records) && i < |records|
    ensures OwnKeys(keys, records, i)
  {
  }

  lemma PulledSaysTheSame(svc: Service, pulled: seq<Input>, mail: string, e: Employee, e': Employee)
    requires AddressOnly(svc, pulled, mail)
    ensures LastSaid(svc, pulled, mail, e) == LastSaid(svc, pulled, mail, e')
  {
    PulledSays(svc, pulled, mail, e, e');
  }

  lemma MissingHasNoPulledId(svc: Service, e: Employee, source: string, pulled: seq<Input>, mail: string)
    requires Missing(svc.lower, e, source, pulled) && mail == MailOf(svc, e)
    requires Deliverable(svc.active, mail) && AddressOnly(svc, pulled, mail)
    ensures Trim(e.externalId) !in SeenIds(pulled) && "" !in SeenIds(pulled) && mail != ""
  {
  }

  // ---- Two employees with one address ----

  /** `i` and `j` share the address. The index of addresses leads to `j`; each external id leads to its own record; and
      nothing was applied to `i`. */
  ghost predicate Shadowed(keys: Keys, st: State, i: nat, j: nat, e: Employee, idI: string, idJ: string, mail: string) {
    && i != j && i < |st.employees| && j < |st.employees| && st.employees[i] == e && i !in st.applied
    && keys.id(st.employees[j]) == idJ && keys.mail(st.employees[j]) == mail
    && PointsOnly(st.byId, idI, i) && PointsOnly(st.byId, idJ, j) && PointsOnly(st.byMail, mail, j)
    && (forall k :: k in st.byMail && k != "" ==> st.byMail[k] != i)
    && idI !in st.newById && idJ !in st.newById && mail !in st.newByMail
  }

  /** The input has one of the two external ids and the address, or nothing in common with either. */
  predicate OneOfTwo(a: Ask, idI: string, idJ: string, mail: string) {
    (a.id == idI || a.id == idJ) <==> a.mail == mail
  }

  lemma RekeyMisses(m: map<string, nat>, before: string, now: string, j: nat, i: nat)
    requires (forall k :: k in m && k != "" ==> m[k] != i) && j != i
    ensures forall k :: k in Rekey(m, before, now, j) && k != "" ==> Rekey(m, before, now, j)[k] != i
  {
  }

  lemma SameRekey(m: map<string, nat>, key: string, j: nat)
    requires key != "" && key in m && m[key] == j
    ensures Rekey(m, key, key, j) == m
  {
  }

  lemma StaysShadowed(keys: Keys, active: string -> bool, st: State, i: nat, j: nat, e: Employee, idI: string,
                      idJ: string, mail: string, a: Ask)
    requires idI != "" && idJ != "" && idI != idJ && mail != ""
    requires Shadowed(keys, st, i, j, e, idI, idJ, mail) && OneOfTwo(a, idI, idJ, mail) && Faithful(keys, a)
    ensures Shadowed(keys, Apply(keys, active, st, a), i, j, e, idI, idJ, mail)
  {
    var t := TargetOf(keys, active, st, a);
    assert t != Existing(i) && (t == Existing(j) ==> a.id == idJ && a.mail == mail);
    match t
    case Existing(k) =>
      if k == j {
        SameRekey(st.byId, idJ, j);
        SameRekey(st.byMail, mail, j);
      } else {
        hide PointsOnly, Rekey;
        RekeyPointsOnly(st.byId, keys.id(st.employees[k]), a.id, k, idI, i);
        RekeyPointsOnly(st.byId, keys.id(st.employees[k]), a.id, k, idJ, j);
        RekeyPointsOnly(st.byMail, keys.mail(st.employees[k]), a.mail, k, mail, j);
        RekeyMisses(st.byMail, keys.mail(st.employees[k]), a.mail, k, i);
      }
    case Created(k) =>
      NewStaysClear(st.newById, keys.id(st.created[k]), a.id, k, idI);
      NewStaysClear(st.newById, keys.id(st.created[k]), a.id, k, idJ);
      NewStaysClear(st.newByMail, keys.mail(st.created[k]), a.mail, k, mail);
    case _ =>
  }

  lemma {:induction false} AllShadowed(keys: Keys, active: string -> bool, st: State, i: nat, j: nat, e: Employee,
                                       idI: string, idJ: string, mail: string, asks: seq<Ask>)
    requires idI != "" && idJ != "" && idI != idJ && mail != ""
    requires Shadowed(keys, st, i, j, e, idI, idJ, mail)
    requires forall a :: a in asks ==> OneOfTwo(a, idI, idJ, mail) && Faithful(keys, a)
    ensures Shadowed(keys, ApplyAll(keys, active, st, asks), i, j, e, idI, idJ, mail)
  {
    hide Shadowed, OneOfTwo, Faithful, Apply;
    if asks != [] {
      var n := |asks| - 1;
      AllShadowed(keys, active, st, i, j, e, idI, idJ, mail, asks[..n]);
      StaysShadowed(keys, active, ApplyAll(keys, active, st, asks[..n]), i, j, e, idI, idJ, mail, asks[n]);
    }
  }

  lemma {:induction false} IdLeads(keys: Keys, records: seq<Employee>, n: nat, i: nat)
    requires n <= |records| && i < |records| && keys.id(records[i]) != ""
    requires forall k :: 0 <= k < |records| && k != i ==> keys.id(records[k]) != keys.id(records[i])
    ensures forall k :: k in IdIndex(keys, records[..n]) ==> IdIndex(keys, records[..n])[k] < n
    ensures i < n ==> PointsOnly(IdIndex(keys, records[..n]), keys.id(records[i]), i)
  {
    if n > 0 {
      IdLeads(keys, records, n - 1, i);
      assert records[..n][..n - 1] == records[..n - 1];
    }
  }

  lemma {:induction false} MailLeads(keys: Keys, records: seq<Employee>, n: nat, i: nat, j: nat, mail: string)
    requires n <= |records| && i < j < |records| && mail != ""
    requires forall k :: 0 <= k < |records| ==> (keys.mail(records[k]) == mail <==> k == i || k == j)
    ensures var m := MailIndex(keys, records[..n]);
            && InRange(m, n)
            && (forall k :: k in m && k != "" && m[k] == i ==> n <= j && k == mail)
            && (j < n ==> PointsOnly(m, mail, j))
  {
    if n > 0 {
      MailLeads(keys, records, n - 1, i, j, mail);
      assert records[..n][..n - 1] == records[..n - 1];
      var m := MailIndex(keys, records[..n - 1]);
      AppendInRange(m, keys.mail(records[n - 1]), n - 1);
      assert MailIndex(keys, records[..n]) == m[keys.mail(records[n - 1]) := n - 1];
    }
  }

  /** Two records, and no third, have this address; their external ids are their own, and the pull has neither the
      address nor the ids. */
  predicate Pair(svc: Service, existing: seq<Employee>, pulled: seq<Input>, i: nat, j: nat) {
    && i < j < |existing|
    && (forall k :: 0 <= k < |existing| ==>
          (MailOf(svc, existing[k]) == MailOf(svc, existing[i]) <==> k == i || k == j))
    && OwnId(existing, i) && OwnId(existing, j)
    && MailOf(svc, existing[i]) !in SeenMails(svc.lower, pulled)
    && Trim(existing[i].externalId) !in SeenIds(pulled) && Trim(existing[j].externalId) !in SeenIds(pulled)
  }

  predicate OwnId(existing: seq<Employee>, i: nat)
    requires i < |existing|
  {
    && Trim(existing[i].externalId) != ""
    && forall k :: 0 <= k < |existing| && k != i ==> Trim(existing[k].externalId) != Trim(existing[i].externalId)
  }

  lemma StartsShadowed(svc: Service, existing: seq<Employee>, pulled: seq<Input>, i: nat, j: nat)
    requires Pair(svc, existing, pulled, i, j) && MailOf(svc, existing[i]) != ""
    ensures Shadowed(KeysOf(svc), Start(KeysOf(svc), existing), i, j, existing[i], Trim(existing[i].externalId),
                     Trim(existing[j].externalId), MailOf(svc, existing[i]))
  {
    var keys := KeysOf(svc);
    assert existing[..|existing|] == existing;
    assert forall k :: 0 <= k < |existing| ==>
      keys.id(existing[k]) == Trim(existing[k].externalId) && keys.mail(existing[k]) == MailOf(svc, existing[k]);
    hide PointsOnly, IdIndex, MailIndex;
    IdLeads(keys, existing, |existing|, i);
    IdLeads(keys, existing, |existing|, j);
    MailLeads(keys, existing, |existing|, i, j, MailOf(svc, existing[i]));
  }

  lemma InputOneOfTwo(svc: Service, existing: seq<Employee>, source: string, pulled: seq<Input>, today: string, i: nat,
                      j: nat, x: Input)
    requires Pair(svc, existing, pulled, i, j) && MailOf(svc, existing[i]) != ""
    requires x in FullInputs(svc, existing, source, pulled, today)
    ensures OneOfTwo(AskOf(svc, x), Trim(existing[i].externalId), Trim(existing[j].externalId),
                     MailOf(svc, existing[i]))
  {
    if x !in pulled {
      hide Missing;
      DeactivatesTheMissing(svc.lower, existing, source, pulled, today);
      var e :| e in existing && Missing(svc.lower, e, source, pulled) && Deactivation(e, today) == x;
      var k :| 0 <= k < |existing| && existing[k] == e;
      assert MailOf(svc, existing[k]) == Mail(svc.lower, x.email);
    }
  }

  /** In any store, of two employees with one address and ids of their own that the pull lacks, the deactivation of the
      earlier one finds its two keys in disagreement, because the address leads to the later one. It is rejected: a
      missing employee is missing again, and every later reconcile with the same pull deactivates it once more. */
  lemma SharedAddressConflicts(svc: Service, existing: seq<Employee>, source: string, pulled: seq<Input>, today: string,
                               later: string, i: nat, j: nat)
    requires Lawful(svc.lower) && Pair(svc, existing, pulled, i, j) && MailOf(svc, existing[i]) != ""
    requires Missing(svc.lower, existing[i], source, pulled)
    ensures var st := Reconciled(svc, existing, source, pulled, today);
            && i < |st.employees| && st.employees[i] == existing[i]
            && Deactivation(existing[i], later) in Deactivations(svc.lower, Records(st), source, pulled, later)
  {
    var keys, asks := KeysOf(svc), Asks(svc, FullInputs(svc, existing, source, pulled, today));
    var idI, idJ, mail := Trim(existing[i].externalId), Trim(existing[j].externalId), MailOf(svc, existing[i]);
    assert idI != idJ;
    StartsShadowed(svc, existing, pulled, i, j);
    hide Pair, Missing, Shadowed, OneOfTwo, Faithful, FullInputs;
    forall a | a in asks
      ensures OneOfTwo(a, idI, idJ, mail) && Faithful(keys, a)
    {
      AsksAreFaithful(svc, FullInputs(svc, existing, source, pulled, today), a);
      AsksAre(svc, FullInputs(svc, existing, source, pulled, today), a);
      var x :| x in FullInputs(svc, existing, source, pulled, today) && AskOf(svc, x) == a;
      InputOneOfTwo(svc, existing, source, pulled, today, i, j, x);
    }
    AllShadowed(keys, svc.active, Start(keys, existing), i, j, existing[i], idI, idJ, mail, asks);
    var st := Reconciled(svc, existing, source, pulled, today);
    ShadowedIsThere(keys, st, i, j, existing[i], idI, idJ, mail);
    RecordKept(st, i);
    DeactivatesTheMissing(svc.lower, Records(st), source, pulled, later);
  }

  lemma ShadowedIsThere(keys: Keys, st: State, i: nat, j: nat, e: Employee, idI: string, idJ: string, mail: string)
    requires Shadowed(keys, st, i, j, e, idI, idJ, mail)
    ensures i < |st.employees| && st.employees[i] == e
  {
  }
}
