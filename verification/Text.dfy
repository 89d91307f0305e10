/** Strings as the Go sources treat them. */
module Text {

  /** The characters strings.TrimSpace removes (Unicode White_Space). */
  predicate IsSpace(c: char) {
    || c in {' ', '\t', '\n', '\r'}
    || c as int in {0x0B, 0x0C, 0x85, 0xA0, 0x1680, 0x2028, 0x2029, 0x202F, 0x205F, 0x3000}
    || 0x2000 <= c as int <= 0x200A
  }

  function TrimLeft(s: string): string {
    if s != [] && IsSpace(s[0]) then TrimLeft(s[1..]) else s
  }

  function TrimRight(s: string): string {
    if s != [] && IsSpace(s[|s| - 1]) then TrimRight(s[..|s| - 1]) else s
  }

  function Trim(s: string): string {
    TrimRight(TrimLeft(s))
  }

  predicate Trimmed(s: string) {
    s != [] ==> !IsSpace(s[0]) && !IsSpace(s[|s| - 1])
  }

  lemma TrimLeaves(s: string)
    requires Trimmed(s)
    ensures Trim(s) == s
  {
  }

  lemma {:induction false} TrimLeftStops(s: string)
    ensures TrimLeft(s) != [] ==> !IsSpace(TrimLeft(s)[0])
  {
    if s != [] && IsSpace(s[0]) {
      TrimLeftStops(s[1..]);
    }
  }

  lemma {:induction false} TrimRightStops(s: string)
    ensures TrimRight(s) <= s && (TrimRight(s) != [] ==> !IsSpace(TrimRight(s)[|TrimRight(s)| - 1]))
  {
    if s != [] && IsSpace(s[|s| - 1]) {
      TrimRightStops(s[..|s| - 1]);
    }
  }

  /** Trimming is a projection onto the strings without outer white space. */
  lemma TrimIsTrimmed(s: string)
    ensures Trimmed(Trim(s)) && Trim(Trim(s)) == Trim(s)
  {
    TrimLeftStops(s);
    TrimRightStops(TrimLeft(s));
    TrimLeaves(Trim(s));
  }

  /** No character of `s` is `c`. */
  predicate Free(s: string, c: char) {
    forall i :: 0 <= i < |s| ==> s[i] != c
  }

  /** Two strings joined by a colon can be told apart if the first one has none. */
  lemma UnquotedPairs(key: string, a: string, m: string, b: string, n: string)
    requires key == a + ":" + m && ':' !in a && ':' !in b
    ensures key == b + ":" + n <==> a == b && m == n
  {
    if key == b + ":" + n {
      assert key[|a|] == key[|b|] == ':';
      assert forall i :: 0 <= i < |a| ==> key[i] == a[i] && key[i] in a;
      assert forall i :: 0 <= i < |b| ==> key[i] == b[i] && key[i] in b;
      assert key[..|a|] == a && key[..|b|] == b;
      assert key[|a| + 1..] == m && key[|b| + 1..] == n;
    }
  }
}
