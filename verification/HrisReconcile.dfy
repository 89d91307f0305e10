/** Reconciling a pull from an HR system with the stored employees: a full snapshot is extended by a deactivation for
    every employee of the same source it no longer contains. */
module HrisReconcile {
  import opened Text
  import opened Wrappers

  /** `profile` stands for the descriptive fields, which are carried over as they are. */
  datatype Employee = Employee(source: string, externalId: string, email: string, status: string,
                               employmentStatus: string, resignDate: string, profile: string)

  datatype Input = Input(externalId: string, email: string, status: string, employmentStatus: string,
                         resignDate: string, profile: string)

  type Fold = string -> string

  /** What is asked of lower-casing. */
  ghost predicate Lawful(lower: Fold) {
    && lower("active") == "active" && lower("inactive") == "inactive" && lower("") == ""
    && (forall s :: lower(lower(s)) == lower(s))
    && (forall s :: Trimmed(s) ==> Trimmed(lower(s)))
  }

  // ---- Statuses ----

  function NormalizeEmployment(lower: Fold, status: string): string {
    var next := lower(Trim(status));
    if next in {"true", "1", "yes", "y"} then "active"
    else if next in {"false", "0", "no", "n"} then "inactive"
    else next
  }

  predicate Blocks(lower: Fold, status: string) {
    NormalizeEmployment(lower, status) in {"inactive", "terminated", "disabled", "suspended", "deprovisioned"}
  }

  predicate AlreadyInactive(lower: Fold, e: Employee) {
    Trim(e.status) == "inactive" && Blocks(lower, e.employmentStatus)
  }

  // ---- Who is missing ----

  function Mail(lower: Fold, email: string): string {
    lower(Trim(email))
  }

  function SeenIds(pulled: seq<Input>): set<string> {
    set p | p in pulled && Trim(p.externalId) != "" :: Trim(p.externalId)
  }

  function SeenMails(lower: Fold, pulled: seq<Input>): set<string> {
    set p | p in pulled && Mail(lower, p.email) != "" :: Mail(lower, p.email)
  }

  /** Identified by external id if there is one, else by address; with neither, never taken as absent. */
  predicate Absent(lower: Fold, e: Employee, ids: set<string>, mails: set<string>) {
    if Trim(e.externalId) != "" then Trim(e.externalId) !in ids
    else Mail(lower, e.email) != "" && Mail(lower, e.email) !in mails
  }

  /** The employees a full snapshot from `source` deactivates. */
  predicate Missing(lower: Fold, e: Employee, source: string, pulled: seq<Input>) {
    && Trim(e.source) == Trim(source)
    && Absent(lower, e, SeenIds(pulled), SeenMails(lower, pulled))
    && !AlreadyInactive(lower, e)
  }

  function Deactivation(e: Employee, today: string): Input {
    Input(e.externalId, e.email, "inactive", "inactive",
          if Trim(e.resignDate) != "" then Trim(e.resignDate) else Trim(today), e.profile)
  }

  /** One deactivation for each missing employee, in stored order. */
  function Deactivations(lower: Fold, existing: seq<Employee>, source: string, pulled: seq<Input>,
                         today: string): seq<Input>
  {
    if existing == [] then []
    else
      var n := |existing| - 1;
      Deactivations(lower, existing[..n], source, pulled, today)
      + if Missing(lower, existing[n], source, pulled) then [Deactivation(existing[n], today)] else []
  }

  method BuildInputs(lower: Fold, existing: seq<Employee>, source: string, pulled: seq<Input>, fullSnapshot: bool,
                     today: string)
    returns (output: seq<Input>)
    ensures output == pulled + if fullSnapshot then Deactivations(lower, existing, source, pulled, today) else []
  {
    var ids, mails: set<string> := {}, {};
    output := [];
    for i := 0 to |pulled|
      invariant output == pulled[..i] && ids == SeenIds(pulled[..i]) && mails == SeenMails(lower, pulled[..i])
    {
      assert pulled[..i + 1] == pulled[..i] + [pulled[i]];
      if Trim(pulled[i].externalId) != "" {
        ids := ids + {Trim(pulled[i].externalId)};
      }
      if Mail(lower, pulled[i].email) != "" {
        mails := mails + {Mail(lower, pulled[i].email)};
      }
      output := output + [pulled[i]];
    }
    assert pulled[..|pulled|] == pulled;
    if fullSnapshot {
      var gone := Departed(lower, existing, Trim(source), ids, mails, today);
      DepartedAre(lower, existing, source, pulled, today);
      output := output + gone;
    }
  }

  predicate Leaves(lower: Fold, e: Employee, source: string, ids: set<string>, mails: set<string>) {
    Trim(e.source) == source && Absent(lower, e, ids, mails) && !AlreadyInactive(lower, e)
  }

  function DepartedOf(lower: Fold, existing: seq<Employee>, source: string, ids: set<string>, mails: set<string>,
                      today: string): seq<Input>
  {
    if existing == [] then []
    else
      var n := |existing| - 1;
      DepartedOf(lower, existing[..n], source, ids, mails, today)
      + if Leaves(lower, existing[n], source, ids, mails) then [Deactivation(existing[n], today)] else []
  }

  lemma {:induction false} DepartedAre(lower: Fold, existing: seq<Employee>, source: string, pulled: seq<Input>,
                                       today: string)
    ensures DepartedOf(lower, existing, Trim(source), SeenIds(pulled), SeenMails(lower, pulled), today)
         == Deactivations(lower, existing, source, pulled, today)
  {
    if existing != [] {
      DepartedAre(lower, existing[..|existing| - 1], source, pulled, today);
    }
  }

  /** The loop over the stored employees. */
  method Departed(lower: Fold, existing: seq<Employee>, source: string, ids: set<string>, mails: set<string>,
                  today: string)
    returns (gone: seq<Input>)
    ensures gone == DepartedOf(lower, existing, source, ids, mails, today)
  {
    gone := [];
    for i := 0 to |existing|
      invariant gone == DepartedOf(lower, existing[..i], source, ids, mails, today)
    {
      var item := existing[i];
      assert existing[..i + 1][..i] == existing[..i];
      if Trim(item.source) != source {
        continue;
      }
      var externalId := Trim(item.externalId);
      if externalId != "" {
        if externalId in ids {
          continue;
        }
      } else {
        var email := Mail(lower, item.email);
        if email == "" {
          continue;
        }
        if email in mails {
          continue;
        }
      }
      if AlreadyInactive(lower, item) {
        continue;
      }
      gone := gone + [Deactivation(item, today)];
    }
    assert existing[..|existing|] == existing;
  }

  // ---- What is touched ----

  /** Exactly the missing employees are deactivated, each once, and none of another source. */
  lemma {:induction false} DeactivatesTheMissing(lower: Fold, existing: seq<Employee>, source: string,
                                                 pulled: seq<Input>, today: string)
    ensures var d := Deactivations(lower, existing, source, pulled, today);
            && (forall x :: x in d
                       <==> (exists e ::
                               e in existing && Missing(lower, e, source, pulled) && Deactivation(e, today) == x))
            && |d| == CountMissing(lower, existing, source, pulled)
  {
    if existing != [] {
      var n := |existing| - 1;
      DeactivatesTheMissing(lower, existing[..n], source, pulled, today);
      assert existing == existing[..n] + [existing[n]];
    }
  }

  function CountMissing(lower: Fold, existing: seq<Employee>, source: string, pulled: seq<Input>): nat {
    if existing == [] then 0
    else CountMissing(lower, existing[..|existing| - 1], source, pulled)
         + if Missing(lower, existing[|existing| - 1], source, pulled) then 1 else 0
  }

  lemma MailOnce(lower: Fold, s: string)
    requires Lawful(lower)
    ensures Mail(lower, Mail(lower, s)) == Mail(lower, s)
  {
    TrimIsTrimmed(s);
    TrimLeaves(lower(Trim(s)));
  }

  lemma {:induction false} DeactivationsSayInactive(lower: Fold, existing: seq<Employee>, source: string,
                                                    pulled: seq<Input>, today: string)
    ensures forall x :: x in Deactivations(lower, existing, source, pulled, today) ==> x.employmentStatus == "inactive"
  {
    if existing != [] {
      DeactivationsSayInactive(lower, existing[..|existing| - 1], source, pulled, today);
    }
  }

  lemma NoneMissing(lower: Fold, employees: seq<Employee>, source: string, pulled: seq<Input>, today: string)
    ensures Deactivations(lower, employees, source, pulled, today) == []
       <==> forall e :: e in employees ==> !Missing(lower, e, source, pulled)
  {
    DeactivatesTheMissing(lower, employees, source, pulled, today);
    var d := Deactivations(lower, employees, source, pulled, today);
    if d != [] {
      assert d[0] in d;
    } else {
      forall e | e in employees
        ensures !Missing(lower, e, source, pulled)
      {
        assert Missing(lower, e, source, pulled) ==> Deactivation(e, today) in d;
      }
    }
  }

  /** Who is missing, in terms of the record and the pull: someone of the pull's source whose external id no input has,
      or who has none and whose address no input has, and who is not inactive in both statuses already. */
  lemma MissingMeans(lower: Fold, e: Employee, source: string, pulled: seq<Input>)
    ensures Missing(lower, e, source, pulled)
       <==> (&& Trim(e.source) == Trim(source)
             && (if Trim(e.externalId) != ""
                 then forall x :: x in pulled ==> Trim(x.externalId) != Trim(e.externalId)
                 else lower(Trim(e.email)) != ""
                      && forall x :: x in pulled ==> lower(Trim(x.email)) != lower(Trim(e.email)))
             && !(Trim(e.status) == "inactive" && Word(lower, e.employmentStatus) in BLOCKING))
  {
  }

  const BLOCKING := {"inactive", "terminated", "disabled", "suspended", "deprovisioned"}

  /** The employment status as it is compared: folded and trimmed, with yes and no as the HR systems write them. */
  function Word(lower: Fold, status: string): (w: string)
    ensures lower(Trim(status)) in {"true", "1", "yes", "y"} ==> w == "active"
    ensures lower(Trim(status)) in {"false", "0", "no", "n"} ==> w == "inactive"
    ensures lower(Trim(status)) !in {"true", "1", "yes", "y", "false", "0", "no", "n"} ==> w == lower(Trim(status))
  {
    NormalizeEmployment(lower, status)
  }

  /** What a deactivation says: the same keys and profile, both statuses inactive, and the recorded resign date, or
      today's if there is none. */
  lemma DeactivationSays(e: Employee, today: string)
    ensures var x := Deactivation(e, today);
            && x.externalId == e.externalId && x.email == e.email && x.profile == e.profile
            && x.status == "inactive" && x.employmentStatus == "inactive"
            && (Trim(e.resignDate) != "" ==> x.resignDate == Trim(e.resignDate))
            && (Trim(e.resignDate) == "" ==> x.resignDate == Trim(today))
  {
  }

  // ---- A pull without external ids ----

  /** An employee whose address is in the pull is deactivated all the same exactly when the record has an external
      id that the pull lacks; such a person is synced as present and deactivated in one pass. */
  lemma DeactivatedYetPulled(lower: Fold, e: Employee, source: string, pulled: seq<Input>)
    requires Mail(lower, e.email) in SeenMails(lower, pulled)
    requires Trim(e.source) == Trim(source) && !AlreadyInactive(lower, e)
    ensures Missing(lower, e, source, pulled) <==> Trim(e.externalId) != "" && Trim(e.externalId) !in SeenIds(pulled)
  {
  }

  lemma DeactivatedYetPulledExample(lower: Fold, today: string)
    requires lower("a@b") == "a@b" && lower("active") == "active"
    ensures var e := Employee("hris", "7", "a@b", "active", "active", "", "");
            var p := Input("", "a@b", "active", "active", "", "");
            Deactivations(lower, [e], "hris", [p], today) == [Deactivation(e, today)]
  {
    var e := Employee("hris", "7", "a@b", "active", "active", "", "");
    var p := Input("", "a@b", "active", "active", "", "");
    assert [e][..0] == [];
    assert SeenIds([p]) == {};
    TrimLeaves("7");
    TrimLeaves("active");
  }
}
