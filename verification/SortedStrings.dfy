/** Strings in the order of Go's comparison, and lists that are strictly sorted by it. */
module SortedStrings {
  import opened Text

  /** Lexicographic; comparing code points orders UTF-8 strings as comparing their bytes does. */
  predicate Less(a: string, b: string) {
    b != "" && (a == "" || a[0] < b[0] || (a[0] == b[0] && Less(a[1..], b[1..])))
  }

  /** The strings agree before `i`, and there the character of `a` is the smaller one. */
  predicate SmallerAt(a: string, b: string, i: nat) {
    i < |a| && i < |b| && a[..i] == b[..i] && a[i] < b[i]
  }

  /** One string is less than another when it is a proper prefix, or smaller at the first difference. */
  lemma {:induction false} LessMeans(a: string, b: string)
    ensures Less(a, b) <==> a < b || exists i: nat :: SmallerAt(a, b, i)
  {
    if a == "" || b == "" {
      assert b != "" ==> a < b;
    } else if a[0] != b[0] {
      assert a[0] < b[0] ==> SmallerAt(a, b, 0);
      assert forall i: nat :: 0 < i && i <= |a| && i <= |b| ==> a[..i][0] == a[0] && b[..i][0] == b[0];
    } else {
      LessMeans(a[1..], b[1..]);
      assert a == [a[0]] + a[1..] && b == [b[0]] + b[1..];
      assert a < b <==> a[1..] < b[1..];
      if i: nat :| SmallerAt(a[1..], b[1..], i) {
        assert a[..i + 1] == [a[0]] + a[1..][..i] && b[..i + 1] == [b[0]] + b[1..][..i];
        assert SmallerAt(a, b, i + 1);
      }
      if i: nat :| SmallerAt(a, b, i) {
        assert i > 0 && a[1..][..i - 1] == a[..i][1..] && b[1..][..i - 1] == b[..i][1..];
        assert SmallerAt(a[1..], b[1..], i - 1);
      }
    }
  }

  lemma {:induction false} LessIsTotal(a: string, b: string)
    ensures Less(a, b) || a == b || Less(b, a)
    ensures !(Less(a, b) && Less(b, a)) && !Less(a, a)
  {
    if a != "" && b != "" && a[0] == b[0] {
      LessIsTotal(a[1..], b[1..]);
      assert a == [a[0]] + a[1..] && b == [b[0]] + b[1..];
    }
    if a != "" {
      LessIsTotal(a[1..], a[1..]);
    }
  }

  lemma {:induction false} LessIsTransitive(a: string, b: string, c: string)
    requires Less(a, b) && Less(b, c)
    ensures Less(a, c)
  {
    if a != "" && a[0] == b[0] && b[0] == c[0] {
      LessIsTransitive(a[1..], b[1..], c[1..]);
    }
  }

  ghost predicate StrictlySorted(s: seq<string>) {
    forall i, j :: 0 <= i < j < |s| ==> Less(s[i], s[j])
  }

  /** Insertion into a sorted list, standing for one step of sort.Strings. */
  function Insert(x: string, s: seq<string>): seq<string> {
    if s == [] || Less(x, s[0]) then [x] + s else [s[0]] + Insert(x, s[1..])
  }

  function Sort(s: seq<string>): seq<string> {
    if s == [] then [] else Insert(s[|s| - 1], Sort(s[..|s| - 1]))
  }

  lemma {:induction false} InsertHas(x: string, s: seq<string>)
    ensures forall y :: y in Insert(x, s) <==> y == x || y in s
  {
    if s != [] && !Less(x, s[0]) {
      InsertHas(x, s[1..]);
      assert s == [s[0]] + s[1..];
    }
  }

  lemma {:induction false} InsertSorts(x: string, s: seq<string>)
    requires StrictlySorted(s) && x !in s
    ensures StrictlySorted(Insert(x, s))
  {
    if s != [] {
      LessIsTotal(x, s[0]);
      if Less(x, s[0]) {
        forall i | 0 < i < |s|
          ensures Less(x, s[i])
        {
          LessIsTransitive(x, s[0], s[i]);
        }
      } else {
        InsertSorts(x, s[1..]);
        InsertHas(x, s[1..]);
        var rest := Insert(x, s[1..]);
        forall i | 0 <= i < |rest|
          ensures Less(s[0], rest[i])
        {
          assert rest[i] in rest;
        }
      }
    }
  }

  predicate Distinct(s: seq<string>) {
    forall i, j :: 0 <= i < j < |s| ==> s[i] != s[j]
  }

  lemma {:induction false} SortSorts(s: seq<string>)
    requires Distinct(s)
    ensures StrictlySorted(Sort(s)) && forall y :: y in Sort(s) <==> y in s
  {
    if s != [] {
      var n := |s| - 1;
      SortSorts(s[..n]);
      InsertSorts(s[n], Sort(s[..n]));
      InsertHas(s[n], Sort(s[..n]));
      assert s == s[..n] + [s[n]];
    }
  }

  /** The keys of a set, blank ones left out, sorted; a map iteration delivers them in any order. */
  method SortedSetKeys(values: set<string>) returns (sorted: seq<string>)
    ensures StrictlySorted(sorted)
    ensures forall v :: v in sorted <==> v in values && Trim(v) != ""
  {
    var items: seq<string>, rest := [], values;
    while rest != {}
      invariant rest <= values && Distinct(items)
      invariant forall v :: v in items <==> v in values - rest && Trim(v) != ""
    {
      var value :| value in rest;
      rest := rest - {value};
      if Trim(value) != "" {
        items := items + [value];
      }
    }
    sorted := Sort(items);
    SortSorts(items);
  }

  /** So the result is one list, whatever the iteration order: strictly sorted lists with the same elements agree. */
  lemma {:induction false} SortedListIsUnique(a: seq<string>, b: seq<string>)
    requires StrictlySorted(a) && StrictlySorted(b) && forall v :: v in a <==> v in b
    ensures a == b
  {
    if a == [] {
      NoElements(b);
    } else if b == [] {
      NoElements(a);
    } else {
      assert a[0] in b && b[0] in a;
      LessIsTotal(a[0], b[0]);
      forall v
        ensures v in a[1..] <==> v in b[1..]
      {
        TailHas(a, v);
        TailHas(b, v);
      }
      SortedListIsUnique(a[1..], b[1..]);
      assert a == [a[0]] + a[1..] && b == [b[0]] + b[1..];
    }
  }

  lemma NoElements(s: seq<string>)
    ensures s == [] || exists v :: v in s
  {
    if s != [] {
      assert s[0] in s;
    }
  }

  lemma TailHas(s: seq<string>, v: string)
    requires StrictlySorted(s) && s != []
    ensures v in s[1..] <==> v in s && v != s[0]
  {
    LessIsTotal(s[0], s[0]);
    assert s == [s[0]] + s[1..];
  }
}
