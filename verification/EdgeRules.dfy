/** The rule list an edge gateway decides with: the first-match decision, the three ways the list is replaced or
    merged into, and what holds of every decision over a whole run of updates. */
module EdgeRules {
  import opened Text
  import opened Wrappers

  datatype Rule = Rule(credentialType: string, credentialData: string, userId: string, userEmail: string,
                       lockIds: seq<string>, validUntil: string)

  /** The library functions a decision depends on. */
  datatype Library = Library(upper: string -> string, lower: string -> string, parseTime: string -> Option<int>)

  datatype Decision = Decision(allow: bool, userId: string, userEmail: string)

  const NOBODY := Decision(false, "", "")

  // ---- Deciding ----

  predicate Matches(lib: Library, rule: Rule, kind: string, data: string) {
    lib.lower(rule.credentialType) == kind && lib.upper(rule.credentialData) == data
  }

  /** A time that does not parse never expires. */
  predicate Expired(lib: Library, rule: Rule, now: int) {
    rule.validUntil != "" && lib.parseTime(rule.validUntil).Some? && now > lib.parseTime(rule.validUntil).value
  }

  predicate Stale(updatedAt: Option<int>, ttl: int, now: int) {
    ttl > 0 && updatedAt.Some? && now - updatedAt.value > ttl
  }

  function FirstMatch(lib: Library, rules: seq<Rule>, kind: string, data: string): Option<Rule> {
    if rules == [] then None
    else
      var n := |rules| - 1;
      var earlier := FirstMatch(lib, rules[..n], kind, data);
      if earlier.Some? then earlier else if Matches(lib, rules[n], kind, data) then Some(rules[n]) else None
  }

  function Ruling(lib: Library, rule: Rule, lockId: string, now: int): Decision {
    Decision(!Expired(lib, rule, now) && lockId in rule.lockIds, rule.userId, rule.userEmail)
  }

  function Decide(lib: Library, rules: seq<Rule>, updatedAt: Option<int>, ttl: int, credentialType: string,
                  credentialData: string, lockId: string, now: int): Decision
  {
    if Stale(updatedAt, ttl, now) then NOBODY
    else
      var rule := FirstMatch(lib, rules, lib.lower(Trim(credentialType)), lib.upper(Trim(credentialData)));
      if rule.Some? then Ruling(lib, rule.value, lockId, now) else NOBODY
  }

  /** FirstMatch is the matching rule that no matching rule precedes. */
  lemma {:induction false} FirstMatchIsFirst(lib: Library, rules: seq<Rule>, kind: string, data: string)
    ensures var m := FirstMatch(lib, rules, kind, data);
            && (m == None <==> forall i :: 0 <= i < |rules| ==> !Matches(lib, rules[i], kind, data))
            && (m.Some? ==> exists i :: 0 <= i < |rules| && rules[i] == m.value && Matches(lib, rules[i], kind, data)
                                    && forall j :: 0 <= j < i ==> !Matches(lib, rules[j], kind, data))
  {
    if rules != [] {
      var n := |rules| - 1;
      FirstMatchIsFirst(lib, rules[..n], kind, data);
      var m := FirstMatch(lib, rules[..n], kind, data);
      if m.Some? {
        var i :| 0 <= i < n && rules[..n][i] == m.value && Matches(lib, rules[..n][i], kind, data)
              && forall j :: 0 <= j < i ==> !Matches(lib, rules[..n][j], kind, data);
        assert rules[i] == m.value && forall j :: 0 <= j < i ==> rules[j] == rules[..n][j];
      } else {
        assert forall i :: 0 <= i < n ==> rules[i] == rules[..n][i];
      }
    }
  }

  // ---- Merging ----

  predicate SameKey(a: Rule, b: Rule) {
    a.credentialType == b.credentialType && a.credentialData == b.credentialData && a.userId == b.userId
  }

  /** The position of the first rule with the key of `r`. */
  function IndexOf(rules: seq<Rule>, r: Rule): (i: nat)
    ensures i <= |rules| && (i < |rules| ==> SameKey(rules[i], r))
    ensures forall j :: 0 <= j < i ==> !SameKey(rules[j], r)
  {
    if rules == [] || SameKey(rules[0], r) then 0 else 1 + IndexOf(rules[1..], r)
  }

  function MergeOne(rules: seq<Rule>, r: Rule): seq<Rule> {
    var i := IndexOf(rules, r);
    if i < |rules| then rules[i := r] else rules + [r]
  }

  function Merge(rules: seq<Rule>, incoming: seq<Rule>): seq<Rule> {
    if incoming == [] then rules
    else MergeOne(Merge(rules, incoming[..|incoming| - 1]), incoming[|incoming| - 1])
  }

  /** The last rule of `incoming` with the key of `r`, or else `r` itself. */
  function Overridden(r: Rule, incoming: seq<Rule>): (o: Rule)
    ensures SameKey(o, r)
  {
    if incoming == [] then r
    else if SameKey(incoming[|incoming| - 1], r) then incoming[|incoming| - 1]
    else Overridden(r, incoming[..|incoming| - 1])
  }

  predicate First(rules: seq<Rule>, i: nat)
    requires i < |rules|
  {
    IndexOf(rules, rules[i]) == i
  }

  predicate Distinct(rules: seq<Rule>) {
    forall i, j :: 0 <= i < j < |rules| ==> !SameKey(rules[i], rules[j])
  }

  /** The rules of `incoming` whose key `rules` does not have, at the first occurrence of each such key. */
  function Additions(rules: seq<Rule>, incoming: seq<Rule>): seq<Rule> {
    if incoming == [] then []
    else
      var n := |incoming| - 1;
      var before := Additions(rules, incoming[..n]);
      if IndexOf(rules + before, incoming[n]) < |rules| + |before| then before else before + [incoming[n]]
  }

  /** What becomes of the rule at position `i`: only the first rule of a key is overridden. */
  function OverrideAt(all: seq<Rule>, incoming: seq<Rule>, i: nat): Rule
    requires i < |all|
  {
    if First(all, i) then Overridden(all[i], incoming) else all[i]
  }

  ghost predicate Overrides(all: seq<Rule>, incoming: seq<Rule>, merged: seq<Rule>) {
    |merged| == |all| && forall i :: 0 <= i < |all| ==> merged[i] == OverrideAt(all, incoming, i)
  }

  /** An incremental push is an override of a keyed list: every position keeps its key, the first rule of each
      key takes the last value pushed for it, later rules of a key are untouched, and the keys that were missing
      follow in the order they were first pushed. */
  lemma {:induction false} MergeOverrides(rules: seq<Rule>, incoming: seq<Rule>)
    ensures Overrides(rules + Additions(rules, incoming), incoming, Merge(rules, incoming))
  {
    if incoming == [] {
      assert rules + Additions(rules, incoming) == rules;
    } else {
      var n := |incoming| - 1;
      var r, before := incoming[n], incoming[..n];
      MergeOverrides(rules, before);
      var all := rules + Additions(rules, before);
      OverrideStep(all, before, r, Merge(rules, before));
      assert incoming == before + [r];
      assert rules + Additions(rules, incoming) == if IndexOf(all, r) < |all| then all else all + [r];
    }
  }

  lemma SameIndex(rules: seq<Rule>, a: Rule, b: Rule)
    requires SameKey(a, b)
    ensures IndexOf(rules, a) == IndexOf(rules, b)
  {
  }

  lemma IndexInMerged(all: seq<Rule>, merged: seq<Rule>, r: Rule)
    requires |merged| == |all| && forall i :: 0 <= i < |all| ==> SameKey(merged[i], all[i])
    ensures IndexOf(merged, r) == IndexOf(all, r)
  {
  }

  lemma OverrideStep(all: seq<Rule>, before: seq<Rule>, r: Rule, merged: seq<Rule>)
    requires Overrides(all, before, merged)
    ensures var all' := if IndexOf(all, r) < |all| then all else all + [r];
            Overrides(all', before + [r], MergeOne(merged, r))
  {
    IndexInMerged(all, merged, r);
    var all' := if IndexOf(all, r) < |all| then all else all + [r];
    var merged' := MergeOne(merged, r);
    forall i | 0 <= i < |all'|
      ensures merged'[i] == OverrideAt(all', before + [r], i)
    {
      if i < |all| && i != IndexOf(all, r) {
        OverrideElsewhere(all, before, r, i);
      } else {
        OverrideHere(all', before, r, i);
      }
    }
  }

  lemma AppendedIndex(rules: seq<Rule>, r: Rule, x: Rule)
    ensures IndexOf(rules + [r], x)
         == if IndexOf(rules, x) == |rules| && !SameKey(r, x) then |rules| + 1 else IndexOf(rules, x)
  {
    var all, i := rules + [r], IndexOf(rules, x);
    assert forall j :: 0 <= j < |rules| ==> all[j] == rules[j];
    assert all[|rules|] == r;
    var k := IndexOf(all, x);
    assert k >= i;
  }

  lemma OverrideElsewhere(all: seq<Rule>, before: seq<Rule>, r: Rule, i: nat)
    requires i < |all| && i != IndexOf(all, r)
    ensures OverrideAt(if IndexOf(all, r) < |all| then all else all + [r], before + [r], i)
         == OverrideAt(all, before, i)
  {
    AppendedIndex(all, r, all[i]);
    assert (before + [r])[..|before|] == before;
    if SameKey(r, all[i]) {
      SameIndex(all, r, all[i]);
    }
  }

  lemma OverrideHere(all': seq<Rule>, before: seq<Rule>, r: Rule, i: nat)
    requires i < |all'| && SameKey(all'[i], r) && IndexOf(all', r) == i
    ensures OverrideAt(all', before + [r], i) == r
  {
    SameIndex(all', r, all'[i]);
  }

  /** A list without duplicate keys stays one. */
  lemma {:induction false} MergeKeepsDistinct(rules: seq<Rule>, incoming: seq<Rule>)
    requires Distinct(rules)
    ensures Distinct(Merge(rules, incoming))
  {
    MergeOverrides(rules, incoming);
    AdditionsDistinct(rules, incoming);
  }

  lemma {:induction false} AdditionsDistinct(rules: seq<Rule>, incoming: seq<Rule>)
    requires Distinct(rules)
    ensures Distinct(rules + Additions(rules, incoming))
  {
    if incoming == [] {
      assert rules + Additions(rules, incoming) == rules;
    } else {
      var n := |incoming| - 1;
      AdditionsDistinct(rules, incoming[..n]);
      var all := rules + Additions(rules, incoming[..n]);
      assert rules + Additions(rules, incoming)
          == if IndexOf(all, incoming[n]) < |all| then all else all + [incoming[n]];
    }
  }

  // ---- Runs ----

  /** A config pull, a config push and a full credential push replace the list; an incremental one merges. */
  datatype Update = Full(rules: seq<Rule>, version: string, at: int)
                  | Incremental(rules: seq<Rule>, version: string, at: int)

  datatype State = State(rules: seq<Rule>, version: string, updatedAt: Option<int>)

  const INITIAL := State([], "", None)

  function Next(s: State, u: Update): State {
    State(if u.Full? then u.rules else Merge(s.rules, u.rules), u.version, Some(u.at))
  }

  function After(updates: seq<Update>): State {
    if updates == [] then INITIAL else Next(After(updates[..|updates| - 1]), updates[|updates| - 1])
  }

  /** The last rule of a list with the key of `r`. */
  function LastWith(rules: seq<Rule>, r: Rule): Option<Rule> {
    if rules == [] then None
    else if SameKey(rules[|rules| - 1], r) then Some(rules[|rules| - 1])
    else LastWith(rules[..|rules| - 1], r)
  }

  /** The first rule of a list with the key of `r`: the one that a scan for it reaches. */
  function FirstWith(rules: seq<Rule>, r: Rule): Option<Rule> {
    var i := IndexOf(rules, r);
    if i < |rules| then Some(rules[i]) else None
  }

  /** The value in force for the key of `r`: the one pushed last incrementally since the last full replacement,
      else the one that replacement has. */
  function Latest(updates: seq<Update>, r: Rule): Option<Rule> {
    if updates == [] then None
    else
      var u := updates[|updates| - 1];
      if u.Full? then FirstWith(u.rules, r)
      else if LastWith(u.rules, r).Some? then LastWith(u.rules, r)
      else Latest(updates[..|updates| - 1], r)
  }

  lemma MergeOneReplaces(rules: seq<Rule>, r: Rule, x: Rule)
    ensures FirstWith(MergeOne(rules, r), x) == if SameKey(r, x) then Some(r) else FirstWith(rules, x)
  {
    if SameKey(r, x) {
      SameIndex(rules, r, x);
    }
    var i := IndexOf(rules, r);
    if i < |rules| {
      ReplacedIndex(rules, i, r, x);
    } else {
      AppendedIndex(rules, r, x);
    }
  }

  lemma ReplacedIndex(rules: seq<Rule>, i: nat, r: Rule, x: Rule)
    requires i < |rules| && SameKey(rules[i], r)
    ensures IndexOf(rules[i := r], x) == IndexOf(rules, x)
  {
    IndexInMerged(rules, rules[i := r], x);
  }

  lemma {:induction false} MergeReplaces(rules: seq<Rule>, incoming: seq<Rule>, x: Rule)
    ensures FirstWith(Merge(rules, incoming), x)
         == if LastWith(incoming, x).Some? then LastWith(incoming, x) else FirstWith(rules, x)
  {
    if incoming != [] {
      var n := |incoming| - 1;
      MergeReplaces(rules, incoming[..n], x);
      MergeOneReplaces(Merge(rules, incoming[..n]), incoming[n], x);
    }
  }

  /** After any run of updates a scan for a key reaches exactly the value in force for it. */
  lemma {:induction false} HoldsTheLatest(updates: seq<Update>, x: Rule)
    ensures FirstWith(After(updates).rules, x) == Latest(updates, x)
  {
    if updates != [] {
      var n := |updates| - 1;
      HoldsTheLatest(updates[..n], x);
      if updates[n].Incremental? {
        MergeReplaces(After(updates[..n]).rules, updates[n].rules, x);
      }
    }
  }

  /** Full lists without duplicate keys; nothing is asked of incremental ones. */
  predicate Clean(updates: seq<Update>) {
    forall i :: 0 <= i < |updates| && updates[i].Full? ==> Distinct(updates[i].rules)
  }

  /** Then the agent never holds a key twice, so it holds the values in force and nothing else. */
  lemma {:induction false} HoldsNothingElse(updates: seq<Update>, x: Rule)
    requires Clean(updates)
    ensures Distinct(After(updates).rules)
    ensures x in After(updates).rules <==> Latest(updates, x) == Some(x)
  {
    if updates != [] {
      var n := |updates| - 1;
      HoldsNothingElse(updates[..n], x);
      if updates[n].Incremental? {
        MergeKeepsDistinct(After(updates[..n]).rules, updates[n].rules);
      }
    }
    HoldsTheLatest(updates, x);
    DistinctHolds(After(updates).rules, x);
  }

  lemma DistinctHolds(rules: seq<Rule>, x: Rule)
    requires Distinct(rules)
    ensures x in rules <==> FirstWith(rules, x) == Some(x)
  {
    if x in rules {
      var i :| 0 <= i < |rules| && rules[i] == x;
      assert IndexOf(rules, x) == i;
    }
  }

  /** Without an update there are no rules, and the recorded time is that of the latest update. */
  lemma {:induction false} TimeOfLatest(updates: seq<Update>)
    ensures After(updates).updatedAt == if updates == [] then None else Some(updates[|updates| - 1].at)
    ensures After(updates).updatedAt == None ==> After(updates).rules == []
  {
  }

  /** A rule that is the value in force for its key and matches the credential. */
  ghost predicate InForce(lib: Library, updates: seq<Update>, r: Rule, kind: string, data: string) {
    Latest(updates, r) == Some(r) && Matches(lib, r, kind, data)
  }

  lemma FirstIsInForce(lib: Library, updates: seq<Update>, kind: string, data: string)
    ensures var first := FirstMatch(lib, After(updates).rules, kind, data);
            && (first.Some? ==> InForce(lib, updates, first.value, kind, data))
            && (first == None ==> forall r :: !InForce(lib, updates, r, kind, data))
  {
    var rules := After(updates).rules;
    FirstMatchIsFirst(lib, rules, kind, data);
    if FirstMatch(lib, rules, kind, data).Some? {
      FirstMatchHeads(lib, rules, kind, data);
      HoldsTheLatest(updates, FirstMatch(lib, rules, kind, data).value);
    } else {
      forall r
        ensures !InForce(lib, updates, r, kind, data)
      {
        HoldsTheLatest(updates, r);
      }
    }
  }

  /** The deciding rule is the first of its key. */
  lemma FirstMatchHeads(lib: Library, rules: seq<Rule>, kind: string, data: string)
    requires FirstMatch(lib, rules, kind, data).Some?
    ensures var m := FirstMatch(lib, rules, kind, data).value; FirstWith(rules, m) == Some(m)
  {
    FirstMatchIsFirst(lib, rules, kind, data);
    var m := FirstMatch(lib, rules, kind, data).value;
    var i :| 0 <= i < |rules| && rules[i] == m && Matches(lib, rules[i], kind, data)
          && forall j :: 0 <= j < i ==> !Matches(lib, rules[j], kind, data);
    var k := IndexOf(rules, m);
    assert k <= i;
    assert Matches(lib, rules[k], kind, data);
  }

  function DecideAfter(lib: Library, updates: seq<Update>, ttl: int, credentialType: string, credentialData: string,
                       lockId: string, now: int): Decision
  {
    Decide(lib, After(updates).rules, After(updates).updatedAt, ttl, credentialType, credentialData, lockId, now)
  }

  /** The rule names the lock, and its expiry, if it has a readable one, has not passed. */
  predicate Permits(lib: Library, r: Rule, lockId: string, now: int) {
    lockId in r.lockIds
    && (r.validUntil != "" && lib.parseTime(r.validUntil).Some? ==> now <= lib.parseTime(r.validUntil).value)
  }

  /** What backs an allow, in terms of the rule's own fields: it is the value in force for its key, matches the
      credential up to letter case and outer white space, names the lock, and its expiry, if it has a readable one, has
      not passed. */
  ghost predicate Backs(lib: Library, updates: seq<Update>, r: Rule, credentialType: string, credentialData: string,
                        lockId: string, now: int)
  {
    && Latest(updates, r) == Some(r) && Permits(lib, r, lockId, now)
    && lib.lower(r.credentialType) == lib.lower(Trim(credentialType))
    && lib.upper(r.credentialData) == lib.upper(Trim(credentialData))
  }

  /** Whatever the run, an allow comes no later than the lifetime after the latest update, and from a rule that
      backs it. */
  lemma AllowIsBacked(lib: Library, updates: seq<Update>, ttl: int, credentialType: string, credentialData: string,
                      lockId: string, now: int)
    requires DecideAfter(lib, updates, ttl, credentialType, credentialData, lockId, now).allow
    ensures updates != [] && (ttl > 0 ==> now <= updates[|updates| - 1].at + ttl)
    ensures exists r :: Backs(lib, updates, r, credentialType, credentialData, lockId, now)
  {
    var kind, data := lib.lower(Trim(credentialType)), lib.upper(Trim(credentialData));
    hide Latest, After;
    TimeOfLatest(updates);
    AllowByFirst(lib, updates, ttl, credentialType, credentialData, lockId, now);
    FirstIsInForce(lib, updates, kind, data);
    var first := FirstMatch(lib, After(updates).rules, kind, data).value;
    assert Backs(lib, updates, first, credentialType, credentialData, lockId, now);
  }

  /** When no two rules in force match the credential, the decision is allow exactly when the latest update is within
      the lifetime and a rule backs it. */
  lemma AllowExactly(lib: Library, updates: seq<Update>, ttl: int, credentialType: string, credentialData: string,
                     lockId: string, now: int)
    requires var kind, data := lib.lower(Trim(credentialType)), lib.upper(Trim(credentialData));
             forall a, b :: InForce(lib, updates, a, kind, data) && InForce(lib, updates, b, kind, data) ==> a == b
    ensures DecideAfter(lib, updates, ttl, credentialType, credentialData, lockId, now).allow
       <==> ((ttl > 0 && updates != [] ==> now <= updates[|updates| - 1].at + ttl)
             && exists r :: Backs(lib, updates, r, credentialType, credentialData, lockId, now))
  {
    var kind, data := lib.lower(Trim(credentialType)), lib.upper(Trim(credentialData));
    hide Latest, After, FirstMatch;
    AllowByFirst(lib, updates, ttl, credentialType, credentialData, lockId, now);
    FirstIsInForce(lib, updates, kind, data);
    if r :| Backs(lib, updates, r, credentialType, credentialData, lockId, now) {
      assert InForce(lib, updates, r, kind, data);
      assert FirstMatch(lib, After(updates).rules, kind, data) == Some(r);
      assert Permits(lib, r, lockId, now);
    }
    var first := FirstMatch(lib, After(updates).rules, kind, data);
    if first.Some? && Permits(lib, first.value, lockId, now) {
      assert InForce(lib, updates, first.value, kind, data);
      assert Backs(lib, updates, first.value, credentialType, credentialData, lockId, now);
    }
  }

  lemma AllowByFirst(lib: Library, updates: seq<Update>, ttl: int, credentialType: string, credentialData: string,
                     lockId: string, now: int)
    ensures DecideAfter(lib, updates, ttl, credentialType, credentialData, lockId, now).allow
       <==> ((ttl > 0 && updates != [] ==> now <= updates[|updates| - 1].at + ttl)
             && var first := FirstMatch(lib, After(updates).rules, lib.lower(Trim(credentialType)),
                                        lib.upper(Trim(credentialData)));
             first.Some? && Permits(lib, first.value, lockId, now))
  {
    hide After, FirstMatch;
    TimeOfLatest(updates);
  }

  /** Whether it allows or denies, a decision names the user and the address of the first rule that matches; with an
      outlived cache or no match it names nobody. */
  lemma DecisionNames(lib: Library, updates: seq<Update>, ttl: int, credentialType: string, credentialData: string,
                      lockId: string, now: int)
    ensures var d := DecideAfter(lib, updates, ttl, credentialType, credentialData, lockId, now);
            var first := FirstMatch(lib, After(updates).rules, lib.lower(Trim(credentialType)),
                                    lib.upper(Trim(credentialData)));
            if first == None || (ttl > 0 && updates != [] && now > updates[|updates| - 1].at + ttl)
            then !d.allow && d.userId == "" && d.userEmail == ""
            else d.userId == first.value.userId && d.userEmail == first.value.userEmail
  {
    TimeOfLatest(updates);
  }
}
