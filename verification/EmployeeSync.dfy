/** How the employee service applies a list of inputs to its records: each input is matched by external id and by
    address, and rejected when the address is blank, its domain is not active, or the two keys disagree. And what
    that means for a reconcile whose result is applied. */
module EmployeeSync {
  import opened HrisReconcile
  import opened Text
  import opened Wrappers

  /** A record's external id and address, as they are compared. */
  datatype Keys = Keys(id: Employee -> string, mail: Employee -> string)

  /** An input: its keys, and what is written into the record it is applied to. */
  datatype Ask = Ask(id: string, mail: string, record: Employee)

  /** The service's records, those created in this sync, and the indexes over both. `applied` lists the records of
      `employees` that some input was applied to. */
  datatype State = State(employees: seq<Employee>, created: seq<Employee>,
                         byId: map<string, nat>, byMail: map<string, nat>,
                         newById: map<string, nat>, newByMail: map<string, nat>, applied: set<nat>)

  datatype Target = Rejected | Existing(at: nat) | Created(at: nat) | Unknown

  // ---- One input ----

  function Find(m: map<string, nat>, key: string): Option<nat> {
    if key != "" && key in m then Some(m[key]) else None
  }

  /** The record that the two keys agree on. */
  function Match(st: State, a: Ask): Target {
    var oldId, newId := Find(st.byId, a.id), Find(st.newById, a.id);
    var oldMail, newMail := Find(st.byMail, a.mail), Find(st.newByMail, a.mail);
    if (oldId.Some? || newId.Some?) && (oldMail.Some? || newMail.Some?) then
      if oldId.Some? && oldMail == oldId then Existing(oldId.value)
      else if newId.Some? && newMail == newId then Created(newId.value)
      else Rejected
    else if oldId.Some? then Existing(oldId.value)
    else if newId.Some? then Created(newId.value)
    else if oldMail.Some? then Existing(oldMail.value)
    else if newMail.Some? then Created(newMail.value)
    else Unknown
  }

  /** A record that already has another external id. */
  predicate OtherId(keys: Keys, e: Employee, a: Ask) {
    a.id != "" && keys.id(e) != "" && keys.id(e) != a.id
  }

  ghost predicate InRange(m: map<string, nat>, n: nat) {
    forall k :: k in m ==> m[k] < n
  }

  ghost predicate WellIndexed(st: State) {
    && InRange(st.byId, |st.employees|) && InRange(st.byMail, |st.employees|)
    && InRange(st.newById, |st.created|) && InRange(st.newByMail, |st.created|)
  }

  /** Could an input with this address be applied at all? */
  predicate Deliverable(active: string -> bool, mail: string) {
    mail != "" && active(mail)
  }

  function TargetOf(keys: Keys, active: string -> bool, st: State, a: Ask): Target {
    if !Deliverable(active, a.mail) then Rejected
    else
      match Match(st, a)
      case Existing(i) => if i < |st.employees| && !OtherId(keys, st.employees[i], a) then Existing(i) else Rejected
      case Created(i) => if i < |st.created| && !OtherId(keys, st.created[i], a) then Created(i) else Rejected
      case t => t
  }

  /** An index after the record at `i` has changed its key. */
  function Rekey(m: map<string, nat>, before: string, now: string, i: nat): map<string, nat> {
    var kept := if before != now && before in m && m[before] == i then m - {before} else m;
    if now == "" then kept else kept[now := i]
  }

  function Apply(keys: Keys, active: string -> bool, st: State, a: Ask): State {
    match TargetOf(keys, active, st, a)
    case Rejected => st
    case Existing(i) =>
      if i >= |st.employees| then st
      else
        var e := st.employees[i];
        st.(employees := st.employees[i := a.record], byId := Rekey(st.byId, keys.id(e), a.id, i),
            byMail := Rekey(st.byMail, keys.mail(e), a.mail, i), applied := st.applied + {i})
    case Created(i) =>
      if i >= |st.created| then st
      else
        var e := st.created[i];
        st.(created := st.created[i := a.record], newById := Rekey(st.newById, keys.id(e), a.id, i),
            newByMail := Rekey(st.newByMail, keys.mail(e), a.mail, i))
    case Unknown =>
      st.(created := st.created + [a.record], newByMail := st.newByMail[a.mail := |st.created|],
          newById := if a.id == "" then st.newById else st.newById[a.id := |st.created|])
  }

  function ApplyAll(keys: Keys, active: string -> bool, st: State, asks: seq<Ask>): State {
    if asks == [] then st
    else Apply(keys, active, ApplyAll(keys, active, st, asks[..|asks| - 1]), asks[|asks| - 1])
  }

  // ---- A sync ----

  function IdIndex(keys: Keys, existing: seq<Employee>): map<string, nat> {
    if existing == [] then map[]
    else
      var n := |existing| - 1;
      var m, id := IdIndex(keys, existing[..n]), keys.id(existing[n]);
      if id == "" then m else m[id := n]
  }

  function MailIndex(keys: Keys, existing: seq<Employee>): map<string, nat> {
    if existing == [] then map[]
    else MailIndex(keys, existing[..|existing| - 1])[keys.mail(existing[|existing| - 1]) := |existing| - 1]
  }

  function Start(keys: Keys, existing: seq<Employee>): State {
    State(existing, [], IdIndex(keys, existing), MailIndex(keys, existing), map[], map[], {})
  }

  /** Records made in a sync come first. */
  function Records(st: State): seq<Employee> {
    st.created + st.employees
  }

  /** The service of one tenant: how it folds case, which addresses lie in an active domain, and the source it
      records. */
  datatype Service = Service(lower: Fold, active: string -> bool, source: string)

  function EmploymentOf(lower: Fold, x: Input): string {
    if NormalizeEmployment(lower, x.employmentStatus) != "" then NormalizeEmployment(lower, x.employmentStatus)
    else if NormalizeEmployment(lower, x.status) != "" then NormalizeEmployment(lower, x.status)
    else "active"
  }

  function RecordOf(svc: Service, x: Input): Employee {
    var employment := EmploymentOf(svc.lower, x);
    Employee(svc.source, Trim(x.externalId), Mail(svc.lower, x.email),
             if Blocks(svc.lower, employment) then "inactive" else "active", employment, Trim(x.resignDate), x.profile)
  }

  /** The employment word of an input: of its employment status, or if that is blank of its status, else active. */
  function EmploymentWord(lower: Fold, x: Input): string {
    var first, second := Word(lower, x.employmentStatus), Word(lower, x.status);
    if first != "" then first else if second != "" then second else "active"
  }

  /** What is written for an input: its trimmed keys and fields under the service's source, the employment word, and as
      status active exactly when that is none of the five blocking words. */
  lemma RecordSays(svc: Service, x: Input)
    requires Lawful(svc.lower)
    ensures var r, word := RecordOf(svc, x), EmploymentWord(svc.lower, x);
            && r.source == svc.source && r.externalId == Trim(x.externalId) && r.email == svc.lower(Trim(x.email))
            && r.resignDate == Trim(x.resignDate) && r.profile == x.profile && r.employmentStatus == word
            && (r.status == "active" <==> word !in BLOCKING)
            && (r.status == "inactive" <==> word in BLOCKING)
  {
    hide EmploymentOf, EmploymentWord, Blocks, Word;
    WordIsKept(svc.lower, x);
    BlockedWord(svc.lower, EmploymentWord(svc.lower, x));
    assert "active"[0] != "inactive"[0];
  }

  lemma WordIsKept(lower: Fold, x: Input)
    requires Lawful(lower)
    ensures var word := EmploymentWord(lower, x); EmploymentOf(lower, x) == word && Word(lower, word) == word
  {
    hide NormalizeEmployment;
    WordOnce(lower, x.employmentStatus);
    WordOnce(lower, x.status);
    ActiveIsWord(lower);
  }

  lemma ActiveIsWord(lower: Fold)
    requires Lawful(lower)
    ensures Word(lower, "active") == "active"
  {
    TrimLeaves("active");
  }

  lemma BlockedWord(lower: Fold, word: string)
    requires Word(lower, word) == word
    ensures Blocks(lower, word) <==> word in BLOCKING
  {
    hide NormalizeEmployment;
  }

  lemma WordOnce(lower: Fold, status: string)
    requires Lawful(lower)
    ensures Word(lower, Word(lower, status)) == Word(lower, status)
  {
    TrimIsTrimmed(status);
    TrimLeaves(lower(Trim(status)));
    TrimLeaves("active");
    TrimLeaves("inactive");
  }

  function AskOf(svc: Service, x: Input): Ask {
    Ask(Trim(x.externalId), Mail(svc.lower, x.email), RecordOf(svc, x))
  }

  function Asks(svc: Service, inputs: seq<Input>): (r: seq<Ask>)
    ensures |r| == |inputs|
  {
    if inputs == [] then []
    else Asks(svc, inputs[..|inputs| - 1]) + [AskOf(svc, inputs[|inputs| - 1])]
  }

  function KeysOf(svc: Service): Keys {
    Keys((e: Employee) => Trim(e.externalId), (e: Employee) => Mail(svc.lower, e.email))
  }

  function Synced(svc: Service, existing: seq<Employee>, inputs: seq<Input>): State {
    ApplyAll(KeysOf(svc), svc.active, Start(KeysOf(svc), existing), Asks(svc, inputs))
  }

  method SyncEmployees(svc: Service, existing: seq<Employee>, inputs: seq<Input>) returns (employees: seq<Employee>)
    ensures employees == Records(Synced(svc, existing, inputs))
  {
    var keys := KeysOf(svc);
    var byId: map<string, nat>, byMail: map<string, nat> := map[], map[];
    for i := 0 to |existing|
      invariant byId == IdIndex(keys, existing[..i]) && byMail == MailIndex(keys, existing[..i])
    {
      assert existing[..i + 1][..i] == existing[..i];
      if keys.id(existing[i]) != "" {
        byId := byId[keys.id(existing[i]) := i];
      }
      byMail := byMail[keys.mail(existing[i]) := i];
    }
    assert existing[..|existing|] == existing;
    var st := State(existing, [], byId, byMail, map[], map[], {});
    for i := 0 to |inputs|
      invariant st == ApplyAll(keys, svc.active, Start(keys, existing), Asks(svc, inputs[..i]))
    {
      assert inputs[..i + 1][..i] == inputs[..i];
      ghost var asks := Asks(svc, inputs[..i + 1]);
      assert asks[..i] == Asks(svc, inputs[..i]);
      st := Apply(keys, svc.active, st, AskOf(svc, inputs[i]));
    }
    assert inputs[..|inputs|] == inputs;
    employees := st.created + st.employees;
  }

  // ---- What every input keeps ----

  /** The indexes point at records, so every match is a record. */
  lemma ApplyStaysIndexed(keys: Keys, active: string -> bool, st: State, a: Ask)
    requires WellIndexed(st)
    ensures WellIndexed(Apply(keys, active, st, a))
    ensures |Apply(keys, active, st, a).employees| == |st.employees|
  {
    hide Rekey, InRange;
    match TargetOf(keys, active, st, a)
    case Rejected =>
    case Existing(i) =>
      RekeyInRange(st.byId, keys.id(st.employees[i]), a.id, i, |st.employees|);
      RekeyInRange(st.byMail, keys.mail(st.employees[i]), a.mail, i, |st.employees|);
    case Created(i) =>
      RekeyInRange(st.newById, keys.id(st.created[i]), a.id, i, |st.created|);
      RekeyInRange(st.newByMail, keys.mail(st.created[i]), a.mail, i, |st.created|);
    case Unknown =>
      AppendInRange(st.newById, a.id, |st.created|);
      AppendInRange(st.newByMail, a.mail, |st.created|);
  }

  lemma RekeyInRange(m: map<string, nat>, before: string, now: string, i: nat, n: nat)
    requires InRange(m, n) && i < n
    ensures InRange(Rekey(m, before, now, i), n)
  {
  }

  lemma AppendInRange(m: map<string, nat>, key: string, n: nat)
    requires InRange(m, n)
    ensures InRange(m, n + 1) && InRange(m[key := n], n + 1)
  {
  }

  lemma {:induction false} StaysIndexed(keys: Keys, active: string -> bool, st: State, asks: seq<Ask>)
    requires WellIndexed(st)
    ensures WellIndexed(ApplyAll(keys, active, st, asks))
    ensures |ApplyAll(keys, active, st, asks).employees| == |st.employees|
  {
    if asks != [] {
      StaysIndexed(keys, active, st, asks[..|asks| - 1]);
      ApplyStaysIndexed(keys, active, ApplyAll(keys, active, st, asks[..|asks| - 1]), asks[|asks| - 1]);
    }
  }

  lemma {:induction false} StartIsIndexed(keys: Keys, existing: seq<Employee>)
    ensures WellIndexed(Start(keys, existing))
  {
    if existing != [] {
      StartIsIndexed(keys, existing[..|existing| - 1]);
    }
  }

  /** Records are either as they were or what some accepted input says. */
  ghost predicate Stamped(active: string -> bool, st: State, existing: seq<Employee>, asks: seq<Ask>) {
    && |st.employees| == |existing|
    && (forall e :: e in st.created ==> Says(active, asks, e))
    && (forall i :: 0 <= i < |existing| ==>
          if i in st.applied then Says(active, asks, st.employees[i]) else st.employees[i] == existing[i])
  }

  ghost predicate Says(active: string -> bool, asks: seq<Ask>, e: Employee) {
    exists a :: a in asks && a.record == e && Deliverable(active, a.mail)
  }

  lemma SaysMore(active: string -> bool, asks: seq<Ask>, a: Ask, e: Employee)
    ensures Says(active, asks, e) ==> Says(active, asks + [a], e)
    ensures a.record == e && Deliverable(active, a.mail) ==> Says(active, asks + [a], e)
  {
    assert a in asks + [a];
  }

  lemma ApplyStamps(keys: Keys, active: string -> bool, st: State, existing: seq<Employee>, asks: seq<Ask>, a: Ask)
    requires Stamped(active, st, existing, asks)
    ensures Stamped(active, Apply(keys, active, st, a), existing, asks + [a])
  {
    hide Says;
    forall e
      ensures Says(active, asks, e) ==> Says(active, asks + [a], e)
      ensures a.record == e && Deliverable(active, a.mail) ==> Says(active, asks + [a], e)
    {
      SaysMore(active, asks, a, e);
    }
  }

  lemma {:induction false} AllStamped(keys: Keys, active: string -> bool, existing: seq<Employee>, asks: seq<Ask>)
    ensures Stamped(active, ApplyAll(keys, active, Start(keys, existing), asks), existing, asks)
  {
    if asks != [] {
      hide Apply, Stamped, Start;
      var n := |asks| - 1;
      AllStamped(keys, active, existing, asks[..n]);
      ApplyStamps(keys, active, ApplyAll(keys, active, Start(keys, existing), asks[..n]), existing, asks[..n], asks[n]);
      assert asks == asks[..n] + [asks[n]];
    }
  }

  // ---- A record with keys of its own ----

  /** No other record has the external id or the address of the one at `i`. */
  predicate OwnKeys(keys: Keys, existing: seq<Employee>, i: nat)
    requires i < |existing|
  {
    forall j :: 0 <= j < |existing| && j != i ==>
      && (keys.id(existing[i]) != "" ==> keys.id(existing[j]) != keys.id(existing[i]))
      && (keys.mail(existing[i]) != "" ==> keys.mail(existing[j]) != keys.mail(existing[i]))
  }

  ghost predicate PointsOnly(m: map<string, nat>, key: string, i: nat) {
    && (key != "" ==> key in m && m[key] == i)
    && (forall k :: k in m && k != "" && m[k] == i ==> k == key)
  }

  /** The record at `i` is untouched, and the indexes lead to it by its own keys only. */
  ghost predicate Alone(st: State, i: nat, e: Employee, id: string, mail: string) {
    && i < |st.employees| && st.employees[i] == e && i !in st.applied
    && PointsOnly(st.byId, id, i) && PointsOnly(st.byMail, mail, i)
    && (id != "" ==> id !in st.newById) && (mail != "" ==> mail !in st.newByMail)
  }

  lemma {:induction false} IdPointsOnly(keys: Keys, existing: seq<Employee>, n: nat, i: nat)
    requires i < |existing| && n <= |existing| && OwnKeys(keys, existing, i)
    ensures if i < n then PointsOnly(IdIndex(keys, existing[..n]), keys.id(existing[i]), i)
            else keys.id(existing[i]) !in IdIndex(keys, existing[..n])
    ensures forall k :: k in IdIndex(keys, existing[..n]) ==> k != "" && IdIndex(keys, existing[..n])[k] < n
  {
    if n > 0 {
      IdPointsOnly(keys, existing, n - 1, i);
      assert existing[..n][..n - 1] == existing[..n - 1];
    }
  }

  lemma {:induction false} MailPointsOnly(keys: Keys, existing: seq<Employee>, n: nat, i: nat)
    requires i < |existing| && n <= |existing| && OwnKeys(keys, existing, i)
    ensures if i < n then PointsOnly(MailIndex(keys, existing[..n]), keys.mail(existing[i]), i)
            else forall k :: k in MailIndex(keys, existing[..n]) && k != "" ==> k != keys.mail(existing[i])
    ensures forall k :: k in MailIndex(keys, existing[..n]) ==> MailIndex(keys, existing[..n])[k] < n
  {
    if n > 0 {
      MailPointsOnly(keys, existing, n - 1, i);
      assert existing[..n][..n - 1] == existing[..n - 1];
    }
  }

  lemma AloneAtStart(keys: Keys, existing: seq<Employee>, i: nat)
    requires i < |existing| && OwnKeys(keys, existing, i)
    ensures Alone(Start(keys, existing), i, existing[i], keys.id(existing[i]), keys.mail(existing[i]))
  {
    assert existing[..|existing|] == existing;
    IdPointsOnly(keys, existing, |existing|, i);
    MailPointsOnly(keys, existing, |existing|, i);
  }

  /** Inputs that carry the record's external id carry its address too. */
  predicate Respects(a: Ask, id: string, mail: string) {
    a.id == id && id != "" ==> a.mail == mail
  }

  lemma TargetOfAlone(keys: Keys, active: string -> bool, st: State, i: nat, e: Employee, a: Ask)
    requires Alone(st, i, e, keys.id(e), keys.mail(e)) && Respects(a, keys.id(e), keys.mail(e))
    ensures var t, id, mail := TargetOf(keys, active, st, a), keys.id(e), keys.mail(e);
            && (t == Existing(i) ==> a.mail == mail && Deliverable(active, mail))
            && (t != Existing(i) && !t.Rejected? ==> (a.id == "" || a.id != id) && a.mail != mail)
            && (a.id == id && a.mail == mail && Deliverable(active, mail) ==> t == Existing(i))
  {
  }

  lemma RekeyPointsOnly(m: map<string, nat>, before: string, now: string, j: nat, key: string, i: nat)
    requires PointsOnly(m, key, i) && j != i && (now == "" || now != key)
    ensures PointsOnly(Rekey(m, before, now, j), key, i)
  {
  }

  lemma NewStaysClear(m: map<string, nat>, before: string, now: string, j: nat, key: string)
    requires key != "" ==> key !in m && now != key
    ensures key != "" ==> key !in Rekey(m, before, now, j)
  {
  }

  lemma ApplyAlone(keys: Keys, active: string -> bool, st: State, i: nat, e: Employee, a: Ask)
    requires Alone(st, i, e, keys.id(e), keys.mail(e)) && Respects(a, keys.id(e), keys.mail(e))
    ensures var st', mail := Apply(keys, active, st, a), keys.mail(e);
            && (i in st'.applied ==> Deliverable(active, mail))
            && (i !in st'.applied ==> Alone(st', i, e, keys.id(e), mail))
            && (a.id == keys.id(e) && a.mail == mail && Deliverable(active, mail) ==> i in st'.applied)
  {
    var id, mail := keys.id(e), keys.mail(e);
    TargetOfAlone(keys, active, st, i, e, a);
    hide TargetOf, PointsOnly, Rekey, Deliverable;
    match TargetOf(keys, active, st, a)
    case Existing(j) =>
      if j != i {
        RekeyPointsOnly(st.byId, keys.id(st.employees[j]), a.id, j, id, i);
        RekeyPointsOnly(st.byMail, keys.mail(st.employees[j]), a.mail, j, mail, i);
      }
    case Created(j) =>
      NewStaysClear(st.newById, keys.id(st.created[j]), a.id, j, id);
      NewStaysClear(st.newByMail, keys.mail(st.created[j]), a.mail, j, mail);
    case _ =>
  }

  /** Whether a record with its own keys is ever touched is decided by its address alone. */
  lemma {:induction false} ReachedByAddress(keys: Keys, active: string -> bool, existing: seq<Employee>, asks: seq<Ask>,
                                            i: nat)
    requires i < |existing| && OwnKeys(keys, existing, i)
    requires forall a :: a in asks ==> Respects(a, keys.id(existing[i]), keys.mail(existing[i]))
    ensures var id, mail := keys.id(existing[i]), keys.mail(existing[i]);
            var st := ApplyAll(keys, active, Start(keys, existing), asks);
            && (i in st.applied ==> Deliverable(active, mail))
            && (i !in st.applied ==> Alone(st, i, existing[i], id, mail))
            && ((exists a :: a in asks && a.id == id && a.mail == mail) && Deliverable(active, mail) ==>
                  i in st.applied)
  {
    if asks == [] {
      AloneAtStart(keys, existing, i);
    } else {
      var n := |asks| - 1;
      ReachedByAddress(keys, active, existing, asks[..n], i);
      var st := ApplyAll(keys, active, Start(keys, existing), asks[..n]);
      assert asks == asks[..n] + [asks[n]];
      if i !in st.applied {
        ApplyAlone(keys, active, st, i, existing[i], asks[n]);
      } else {
        AppliedStays(keys, active, st, asks[n]);
      }
    }
  }

  lemma AppliedStays(keys: Keys, active: string -> bool, st: State, a: Ask)
    ensures st.applied <= Apply(keys, active, st, a).applied
  {
  }

  // ---- Reconciling and applying ----

  lemma {:induction false} AsksAre(svc: Service, inputs: seq<Input>, a: Ask)
    ensures a in Asks(svc, inputs) <==> exists x :: x in inputs && AskOf(svc, x) == a
  {
    hide AskOf;
    if inputs != [] {
      var n := |inputs| - 1;
      AsksAre(svc, inputs[..n], a);
      assert inputs == inputs[..n] + [inputs[n]];
    }
  }

  /** The inputs of a full reconcile, and the service's state after applying them. */
  function FullInputs(svc: Service, existing: seq<Employee>, source: string, pulled: seq<Input>,
                      today: string): seq<Input>
  {
    pulled + Deactivations(svc.lower, existing, source, pulled, today)
  }

  function Reconciled(svc: Service, existing: seq<Employee>, source: string, pulled: seq<Input>, today: string): State {
    Synced(svc, existing, FullInputs(svc, existing, source, pulled, today))
  }

  lemma PulledIsPresent(svc: Service, x: Input, pulled: seq<Input>)
    requires Lawful(svc.lower) && x in pulled && Mail(svc.lower, x.email) != ""
    ensures !Absent(svc.lower, RecordOf(svc, x), SeenIds(pulled), SeenMails(svc.lower, pulled))
  {
    MailOnce(svc.lower, x.email);
    TrimIsTrimmed(x.externalId);
  }

  lemma DeactivatedIsInactive(svc: Service, x: Input)
    requires Lawful(svc.lower) && x.employmentStatus == "inactive"
    ensures AlreadyInactive(svc.lower, RecordOf(svc, x))
  {
    var word := "inactive";
    assert !IsSpace(word[0]) && !IsSpace(word[|word| - 1]);
    TrimLeaves(word);
  }

  /** What a full reconcile writes is never missing from the same pull. */
  lemma WrittenIsNotMissing(svc: Service, existing: seq<Employee>, source: string, pulled: seq<Input>, today: string,
                            e: Employee)
    requires Lawful(svc.lower) && Says(svc.active, Asks(svc, FullInputs(svc, existing, source, pulled, today)), e)
    ensures !Missing(svc.lower, e, source, pulled)
  {
    var inputs := FullInputs(svc, existing, source, pulled, today);
    var a :| a in Asks(svc, inputs) && a.record == e && Deliverable(svc.active, a.mail);
    AsksAre(svc, inputs, a);
    var x :| x in inputs && AskOf(svc, x) == a;
    if x in pulled {
      PulledIsPresent(svc, x, pulled);
    } else {
      DeactivationsSayInactive(svc.lower, existing, source, pulled, today);
      DeactivatedIsInactive(svc, x);
    }
  }

  /** For any store: missing again are exactly the missing records that no input was applied to. */
  lemma MissingAgain(svc: Service, existing: seq<Employee>, source: string, pulled: seq<Input>, today: string)
    requires Lawful(svc.lower)
    ensures var st := Reconciled(svc, existing, source, pulled, today);
            && |st.employees| == |existing|
            && (forall e :: e in st.created ==> !Missing(svc.lower, e, source, pulled))
            && (forall i :: 0 <= i < |existing| ==>
                  (Missing(svc.lower, st.employees[i], source, pulled)
                   <==> i !in st.applied && Missing(svc.lower, existing[i], source, pulled)))
  {
    var st := Reconciled(svc, existing, source, pulled, today);
    var asks := Asks(svc, FullInputs(svc, existing, source, pulled, today));
    hide Says, Missing;
    AllStamped(KeysOf(svc), svc.active, existing, asks);
    forall e | Says(svc.active, asks, e)
      ensures !Missing(svc.lower, e, source, pulled)
    {
      WrittenIsNotMissing(svc, existing, source, pulled, today, e);
    }
  }

  function MailOf(svc: Service, e: Employee): string {
    Mail(svc.lower, e.email)
  }

  /** In a full reconcile, only its own deactivation carries the external id of a missing record. */
  lemma InputsRespect(svc: Service, existing: seq<Employee>, source: string, pulled: seq<Input>, today: string, i: nat,
                      a: Ask)
    requires i < |existing| && OwnKeys(KeysOf(svc), existing, i) && Missing(svc.lower, existing[i], source, pulled)
    requires a in Asks(svc, FullInputs(svc, existing, source, pulled, today))
    ensures Respects(a, Trim(existing[i].externalId), MailOf(svc, existing[i]))
  {
    var inputs := FullInputs(svc, existing, source, pulled, today);
    AsksAre(svc, inputs, a);
    var x :| x in inputs && AskOf(svc, x) == a;
    if x !in pulled {
      hide Missing, OwnKeys;
      DeactivatesTheMissing(svc.lower, existing, source, pulled, today);
      var e :| e in existing && Missing(svc.lower, e, source, pulled) && Deactivation(e, today) == x;
      var j :| 0 <= j < |existing| && existing[j] == e;
      OwnDiffers(svc, existing, i, j);
    } else {
      PulledHasOtherId(svc, existing[i], source, pulled, x);
    }
  }

  lemma OwnDiffers(svc: Service, existing: seq<Employee>, i: nat, j: nat)
    requires i < |existing| && j < |existing| && OwnKeys(KeysOf(svc), existing, i)
    ensures Trim(existing[i].externalId) != "" && Trim(existing[j].externalId) == Trim(existing[i].externalId)
        ==> j == i
  {
    assert KeysOf(svc).id(existing[i]) == Trim(existing[i].externalId);
    assert KeysOf(svc).id(existing[j]) == Trim(existing[j].externalId);
  }

  lemma PulledHasOtherId(svc: Service, e: Employee, source: string, pulled: seq<Input>, x: Input)
    requires Missing(svc.lower, e, source, pulled) && x in pulled
    ensures Trim(e.externalId) != "" ==> Trim(x.externalId) != Trim(e.externalId)
  {
  }

  lemma OwnDeactivation(svc: Service, existing: seq<Employee>, source: string, pulled: seq<Input>, today: string,
                        i: nat)
    requires i < |existing| && Missing(svc.lower, existing[i], source, pulled)
    ensures AskOf(svc, Deactivation(existing[i], today)) in Asks(svc, FullInputs(svc, existing, source, pulled, today))
  {
    var x := Deactivation(existing[i], today);
    DeactivatesTheMissing(svc.lower, existing, source, pulled, today);
    assert existing[i] in existing;
    assert x in FullInputs(svc, existing, source, pulled, today);
    AsksAre(svc, FullInputs(svc, existing, source, pulled, today), AskOf(svc, x));
  }

  /** A missing record whose keys no other record shares is touched by the reconcile exactly when its address is
      not blank and lies in an active domain; otherwise it stays as it was. */
  lemma MissingIsTouched(svc: Service, existing: seq<Employee>, source: string, pulled: seq<Input>, today: string,
                         i: nat)
    requires i < |existing| && OwnKeys(KeysOf(svc), existing, i) && Missing(svc.lower, existing[i], source, pulled)
    ensures i in Reconciled(svc, existing, source, pulled, today).applied
       <==> Deliverable(svc.active, MailOf(svc, existing[i]))
  {
    var keys, asks := KeysOf(svc), Asks(svc, FullInputs(svc, existing, source, pulled, today));
    var id, mail := Trim(existing[i].externalId), MailOf(svc, existing[i]);
    assert keys.id(existing[i]) == id && keys.mail(existing[i]) == mail;
    forall a | a in asks
      ensures Respects(a, id, mail)
    {
      InputsRespect(svc, existing, source, pulled, today, i, a);
    }
    ReachedByAddress(keys, svc.active, existing, asks, i);
    OwnDeactivation(svc, existing, source, pulled, today, i);
    var own := AskOf(svc, Deactivation(existing[i], today));
    assert own in asks && own.id == id && own.mail == mail;
  }

  /** What a second reconcile finds missing when no other record shares a missing one's keys. */
  lemma MissingUndelivered(svc: Service, existing: seq<Employee>, source: string, pulled: seq<Input>, today: string)
    requires Lawful(svc.lower)
    requires forall i :: 0 <= i < |existing| && Missing(svc.lower, existing[i], source, pulled)
                     ==> OwnKeys(KeysOf(svc), existing, i)
    ensures var st := Reconciled(svc, existing, source, pulled, today);
            && |st.employees| == |existing|
            && (forall e :: e in st.created ==> !Missing(svc.lower, e, source, pulled))
            && (forall i :: 0 <= i < |existing| ==>
                  (Missing(svc.lower, st.employees[i], source, pulled)
                   <==> Missing(svc.lower, existing[i], source, pulled)
                        && !Deliverable(svc.active, MailOf(svc, existing[i]))))
  {
    var st := Reconciled(svc, existing, source, pulled, today);
    hide Missing, Reconciled, Deliverable, OwnKeys;
    MissingAgain(svc, existing, source, pulled, today);
    forall i | 0 <= i < |existing| && Missing(svc.lower, existing[i], source, pulled)
      ensures i in st.applied <==> Deliverable(svc.active, MailOf(svc, existing[i]))
    {
      MissingIsTouched(svc, existing, source, pulled, today, i);
    }
  }

  /** After a full reconcile has been applied, a second one with the same pull, on any day, adds no deactivation
      exactly when every missing employee has an address in an active domain. */
  lemma SecondReconcileAddsNone(svc: Service, existing: seq<Employee>, source: string, pulled: seq<Input>,
                                today: string, later: string)
    requires Lawful(svc.lower)
    requires forall i :: 0 <= i < |existing| && Missing(svc.lower, existing[i], source, pulled)
                     ==> OwnKeys(KeysOf(svc), existing, i)
    ensures var after := Records(Reconciled(svc, existing, source, pulled, today));
            Deactivations(svc.lower, after, source, pulled, later) == []
            <==> forall e :: e in existing && Missing(svc.lower, e, source, pulled)
                         ==> Deliverable(svc.active, MailOf(svc, e))
  {
    var st := Reconciled(svc, existing, source, pulled, today);
    hide Missing, Reconciled, Deliverable, OwnKeys, Deactivations, MailOf;
    NoneMissing(svc.lower, Records(st), source, pulled, later);
    MissingUndelivered(svc, existing, source, pulled, today);
    forall i | 0 <= i < |existing|
      ensures st.employees[i] in Records(st)
    {
      assert Records(st)[|st.created| + i] == st.employees[i];
    }
  }

  /** In any store, a record is touched exactly when some input, at its turn, passes the guards and matches it. */
  lemma {:induction false} AppliedExactly(keys: Keys, active: string -> bool, existing: seq<Employee>, asks: seq<Ask>,
                                          i: nat)
    ensures i in ApplyAll(keys, active, Start(keys, existing), asks).applied
       <==> exists k :: 0 <= k < |asks| && TargetAt(keys, active, existing, asks, k) == Existing(i)
  {
    hide TargetAt, TargetOf, Apply;
    if asks != [] {
      var n := |asks| - 1;
      AppliedExactly(keys, active, existing, asks[..n], i);
      TargetsSoFar(keys, active, existing, asks);
      ApplyTouches(keys, active, ApplyAll(keys, active, Start(keys, existing), asks[..n]), asks[n], i);
    }
  }

  lemma TargetsSoFar(keys: Keys, active: string -> bool, existing: seq<Employee>, asks: seq<Ask>)
    requires asks != []
    ensures var n := |asks| - 1;
            && (forall k :: 0 <= k < n ==>
                  TargetAt(keys, active, existing, asks[..n], k) == TargetAt(keys, active, existing, asks, k))
            && TargetAt(keys, active, existing, asks, n)
               == TargetOf(keys, active, ApplyAll(keys, active, Start(keys, existing), asks[..n]), asks[n])
  {
    hide TargetOf, ApplyAll, Start;
    var n := |asks| - 1;
    forall k | 0 <= k < n
      ensures TargetAt(keys, active, existing, asks[..n], k) == TargetAt(keys, active, existing, asks, k)
    {
      assert asks[..n][..k] == asks[..k];
    }
  }

  function TargetAt(keys: Keys, active: string -> bool, existing: seq<Employee>, asks: seq<Ask>, k: nat): Target
    requires k < |asks|
  {
    TargetOf(keys, active, ApplyAll(keys, active, Start(keys, existing), asks[..k]), asks[k])
  }

  lemma ApplyTouches(keys: Keys, active: string -> bool, st: State, a: Ask, i: nat)
    ensures i in Apply(keys, active, st, a).applied <==> i in st.applied || TargetOf(keys, active, st, a) == Existing(i)
  {
  }

  // ---- Keys stay unique ----

  /** No two records share an external id or an address. */
  predicate Unique(keys: Keys, records: seq<Employee>) {
    forall i :: 0 <= i < |records| ==> OwnKeys(keys, records, i)
  }

  function Ids(keys: Keys, records: seq<Employee>): (r: seq<string>)
    ensures |r| == |records| && forall i :: 0 <= i < |records| ==> r[i] == keys.id(records[i])
  {
    seq(|records|, i requires 0 <= i < |records| => keys.id(records[i]))
  }

  function Mails(keys: Keys, records: seq<Employee>): (r: seq<string>)
    ensures |r| == |records| && forall i :: 0 <= i < |records| ==> r[i] == keys.mail(records[i])
  {
    seq(|records|, i requires 0 <= i < |records| => keys.mail(records[i]))
  }

  /** The index leads from each key to the record that has it, and nowhere else. */
  ghost predicate Exactly(m: map<string, nat>, ks: seq<string>) {
    && (forall i :: 0 <= i < |ks| && ks[i] != "" ==> ks[i] in m && m[ks[i]] == i)
    && (forall k :: k in m && k != "" ==> m[k] < |ks| && ks[m[k]] == k)
  }

  ghost predicate Apart(m: map<string, nat>, n: map<string, nat>) {
    forall k :: k in m && k != "" ==> k !in n
  }

  ghost predicate Exact(keys: Keys, st: State) {
    && Exactly(st.byId, Ids(keys, st.employees)) && Exactly(st.newById, Ids(keys, st.created))
    && Exactly(st.byMail, Mails(keys, st.employees)) && Exactly(st.newByMail, Mails(keys, st.created))
    && Apart(st.byId, st.newById) && Apart(st.byMail, st.newByMail)
  }

  lemma RekeyExactly(m: map<string, nat>, ks: seq<string>, i: nat, now: string)
    requires Exactly(m, ks) && i < |ks| && (now != "" && now != ks[i] ==> now !in m)
    ensures Exactly(Rekey(m, ks[i], now, i), ks[i := now])
  {
  }

  lemma RekeyApart(m: map<string, nat>, n: map<string, nat>, before: string, now: string, i: nat)
    requires Apart(m, n) && (now != "" ==> now !in n)
    ensures Apart(Rekey(m, before, now, i), n) && Apart(n, Rekey(m, before, now, i))
  {
  }

  /** One more key that is not indexed. A blank one may or may not be entered. */
  lemma AppendExactly(m: map<string, nat>, ks: seq<string>, now: string)
    requires Exactly(m, ks) && (now != "" ==> now !in m)
    ensures Exactly(if now == "" then m else m[now := |ks|], ks + [now])
    ensures Exactly(m[now := |ks|], ks + [now])
  {
    assert forall i :: 0 <= i < |ks| ==> (ks + [now])[i] == ks[i];
  }

  /** The key is the matched record's own, or no record has it; `mine` indexes the list that record is in. */
  predicate OwnOrNew(key: string, own: string, mine: map<string, nat>, other: map<string, nat>) {
    key != "" ==> key !in other && (key != own ==> key !in mine)
  }

  /** Whatever key a matched record does not have yet, no record has. */
  lemma NewKeysAreNew(keys: Keys, active: string -> bool, st: State, a: Ask)
    requires Exact(keys, st)
    ensures match TargetOf(keys, active, st, a)
            case Rejected => true
            case Existing(i) =>
              && i < |st.employees|
              && OwnOrNew(a.id, keys.id(st.employees[i]), st.byId, st.newById)
              && OwnOrNew(a.mail, keys.mail(st.employees[i]), st.byMail, st.newByMail)
            case Created(i) =>
              && i < |st.created|
              && OwnOrNew(a.id, keys.id(st.created[i]), st.newById, st.byId)
              && OwnOrNew(a.mail, keys.mail(st.created[i]), st.newByMail, st.byMail)
            case Unknown =>
              && OwnOrNew(a.id, "", st.newById, st.byId) && OwnOrNew(a.mail, "", st.newByMail, st.byMail)
              && a.mail != ""
  {
  }

  /** What an input writes has the keys it was matched by. */
  predicate Faithful(keys: Keys, a: Ask) {
    keys.id(a.record) == a.id && keys.mail(a.record) == a.mail
  }

  lemma ApplyKeepsExact(keys: Keys, active: string -> bool, st: State, a: Ask)
    requires Exact(keys, st) && Faithful(keys, a)
    ensures Exact(keys, Apply(keys, active, st, a))
  {
    hide Exactly, Apart, Rekey, Match;
    NewKeysAreNew(keys, active, st, a);
    var st' := Apply(keys, active, st, a);
    match TargetOf(keys, active, st, a)
    case Rejected =>
    case Existing(i) =>
      var e := st.employees[i];
      RekeyExactly(st.byId, Ids(keys, st.employees), i, a.id);
      RekeyExactly(st.byMail, Mails(keys, st.employees), i, a.mail);
      RekeyApart(st.byId, st.newById, keys.id(e), a.id, i);
      RekeyApart(st.byMail, st.newByMail, keys.mail(e), a.mail, i);
      assert Ids(keys, st'.employees) == Ids(keys, st.employees)[i := a.id];
      assert Mails(keys, st'.employees) == Mails(keys, st.employees)[i := a.mail];
    case Created(i) =>
      var e := st.created[i];
      RekeyExactly(st.newById, Ids(keys, st.created), i, a.id);
      RekeyExactly(st.newByMail, Mails(keys, st.created), i, a.mail);
      ApartBack(st.byId, st.newById);
      ApartBack(st.byMail, st.newByMail);
      RekeyApart(st.newById, st.byId, keys.id(e), a.id, i);
      RekeyApart(st.newByMail, st.byMail, keys.mail(e), a.mail, i);
      assert Ids(keys, st'.created) == Ids(keys, st.created)[i := a.id];
      assert Mails(keys, st'.created) == Mails(keys, st.created)[i := a.mail];
    case Unknown =>
      AppendExactly(st.newById, Ids(keys, st.created), a.id);
      AppendExactly(st.newByMail, Mails(keys, st.created), a.mail);
      AppendApart(st.byId, st.newById, a.id, |st.created|);
      AppendApart(st.byMail, st.newByMail, a.mail, |st.created|);
      assert Ids(keys, st'.created) == Ids(keys, st.created) + [a.id];
      assert Mails(keys, st'.created) == Mails(keys, st.created) + [a.mail];
  }

  lemma ApartBack(m: map<string, nat>, n: map<string, nat>)
    requires Apart(m, n)
    ensures Apart(n, m)
  {
  }

  lemma AppendApart(m: map<string, nat>, n: map<string, nat>, now: string, i: nat)
    requires Apart(m, n) && (now != "" ==> now !in m)
    ensures Apart(m, if now == "" then n else n[now := i])
  {
  }

  lemma {:induction false} AllExact(keys: Keys, active: string -> bool, st: State, asks: seq<Ask>)
    requires Exact(keys, st) && forall a :: a in asks ==> Faithful(keys, a)
    ensures Exact(keys, ApplyAll(keys, active, st, asks))
  {
    hide Exact, Apply;
    if asks != [] {
      var n := |asks| - 1;
      AllExact(keys, active, st, asks[..n]);
      ApplyKeepsExact(keys, active, ApplyAll(keys, active, st, asks[..n]), asks[n]);
    }
  }

  lemma NotIndexed(m: map<string, nat>, ks: seq<string>, now: string)
    requires Exactly(m, ks) && now != "" && now !in ks
    ensures now !in m
  {
    assert forall k :: k in m && k != "" ==> ks[m[k]] in ks;
  }

  lemma NewKeys(keys: Keys, before: seq<Employee>, last: Employee, all: seq<Employee>)
    requires all == before + [last] && OwnKeys(keys, all, |before|)
    ensures keys.id(last) != "" ==> keys.id(last) !in Ids(keys, before)
    ensures keys.mail(last) != "" ==> keys.mail(last) !in Mails(keys, before)
  {
    assert forall j :: 0 <= j < |before| ==> all[j] == before[j];
  }

  lemma OwnInPrefix(keys: Keys, records: seq<Employee>, n: nat)
    requires 0 < n <= |records| && Unique(keys, records)
    ensures OwnKeys(keys, records[..n], n - 1)
  {
    assert OwnKeys(keys, records, n - 1);
  }

  lemma NothingIndexed(keys: Keys)
    ensures Exactly(IdIndex(keys, []), Ids(keys, [])) && Exactly(MailIndex(keys, []), Mails(keys, []))
  {
  }

  lemma {:induction false} IndexesExactly(keys: Keys, records: seq<Employee>, n: nat)
    requires n <= |records| && Unique(keys, records)
    ensures Exactly(IdIndex(keys, records[..n]), Ids(keys, records[..n]))
    ensures Exactly(MailIndex(keys, records[..n]), Mails(keys, records[..n]))
  {
    hide Exactly, OwnKeys, Unique;
    if n == 0 {
      NothingIndexed(keys);
    } else {
      var before, last, all := records[..n - 1], records[n - 1], records[..n];
      assert all == before + [last] && all[..n - 1] == before;
      IndexesExactly(keys, records, n - 1);
      OwnInPrefix(keys, records, n);
      NewKeys(keys, before, last, all);
      if keys.id(last) != "" {
        NotIndexed(IdIndex(keys, before), Ids(keys, before), keys.id(last));
      }
      if keys.mail(last) != "" {
        NotIndexed(MailIndex(keys, before), Mails(keys, before), keys.mail(last));
      }
      AppendExactly(IdIndex(keys, before), Ids(keys, before), keys.id(last));
      AppendExactly(MailIndex(keys, before), Mails(keys, before), keys.mail(last));
      assert Ids(keys, all) == Ids(keys, before) + [keys.id(last)];
      assert Mails(keys, all) == Mails(keys, before) + [keys.mail(last)];
    }
  }

  lemma StartIsExact(keys: Keys, existing: seq<Employee>)
    requires Unique(keys, existing)
    ensures Exact(keys, Start(keys, existing))
  {
    hide Unique, IdIndex, MailIndex, Ids, Mails;
    IndexesExactly(keys, existing, |existing|);
    assert existing[..|existing|] == existing;
  }

  lemma ExactIsUnique(keys: Keys, st: State)
    requires Exact(keys, st)
    ensures Unique(keys, Records(st))
  {
    var records := Records(st);
    forall i, j | 0 <= i < |records| && 0 <= j < |records| && i != j
      ensures keys.id(records[i]) != "" ==> keys.id(records[j]) != keys.id(records[i])
      ensures keys.mail(records[i]) != "" ==> keys.mail(records[j]) != keys.mail(records[i])
    {
      DifferentKeys(Ids(keys, st.created), Ids(keys, st.employees), st.newById, st.byId, i, j);
      DifferentKeys(Mails(keys, st.created), Mails(keys, st.employees), st.newByMail, st.byMail, i, j);
    }
  }

  lemma DifferentKeys(a: seq<string>, b: seq<string>, m: map<string, nat>, n: map<string, nat>, i: nat, j: nat)
    requires Exactly(m, a) && Exactly(n, b) && Apart(n, m) && i < |a + b| && j < |a + b| && i != j
    ensures (a + b)[i] != "" ==> (a + b)[j] != (a + b)[i]
  {
    assert (a + b)[i] == if i < |a| then a[i] else b[i - |a|];
    assert (a + b)[j] == if j < |a| then a[j] else b[j - |a|];
  }

  lemma AsksAreFaithful(svc: Service, inputs: seq<Input>, a: Ask)
    requires Lawful(svc.lower) && a in Asks(svc, inputs)
    ensures Faithful(KeysOf(svc), a)
  {
    AsksAre(svc, inputs, a);
    var x :| x in inputs && AskOf(svc, x) == a;
    MailOnce(svc.lower, x.email);
    TrimIsTrimmed(x.externalId);
  }

  /** A sync of whatever inputs keeps external ids and addresses unique among the records. */
  lemma SyncKeepsUnique(svc: Service, existing: seq<Employee>, inputs: seq<Input>)
    requires Lawful(svc.lower) && Unique(KeysOf(svc), existing)
    ensures Unique(KeysOf(svc), Records(Synced(svc, existing, inputs)))
  {
    hide Exact, Unique, Faithful, AskOf, Apply;
    var keys, asks := KeysOf(svc), Asks(svc, inputs);
    StartIsExact(keys, existing);
    forall a | a in asks
      ensures Faithful(keys, a)
    {
      AsksAreFaithful(svc, inputs, a);
    }
    AllExact(keys, svc.active, Start(keys, existing), asks);
    ExactIsUnique(keys, Synced(svc, existing, inputs));
  }
}
