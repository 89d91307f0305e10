/** Secrets at rest with key rotation: version-tagged text, decryption with fallback over all known keys, and
    re-encryption. The cipher, the key derivation and base64 are opaque functions with the laws of `Lawful`. */
module Vault {
  import opened Text
  import opened Wrappers

  // ---- Opaque parts ----

  /** `seal` and `open` take key, nonce and message; `derive` takes master key and purpose. */
  datatype Crypto = Crypto(
    seal: (string, string, string) -> string,
    open: (string, string, string) -> Option<string>,
    derive: (string, string) -> string,
    encode64: string -> string,
    decode64: string -> Option<string>)

  /** Authenticated encryption opens under its own key and under no other; base64 text reads back and contains
      neither white space at its ends nor a colon. */
  ghost predicate Lawful(c: Crypto) {
    && (forall k, n, p :: c.open(k, n, c.seal(k, n, p)) == Some(p))
    && (forall k, k', n, p :: k != k' ==> c.open(k', n, c.seal(k, n, p)) == None)
    && (forall b :: c.decode64(c.encode64(b)) == Some(b))
    && (forall b :: Trimmed(c.encode64(b)) && Free(c.encode64(b), ':'))
  }

  // ---- Text ----

  const MAX_INT64 := 0x7FFF_FFFF_FFFF_FFFF

  predicate IsDigit(c: char) {
    '0' <= c <= '9'
  }

  function Decimal(n: nat): (r: string)
    ensures r != "" && forall i :: 0 <= i < |r| ==> IsDigit(r[i])
  {
    (if n < 10 then "" else Decimal(n / 10)) + [('0' as int + n % 10) as char]
  }

  function DigitsValue(s: string): Option<nat> {
    if s == "" then Some(0)
    else
      var last := s[|s| - 1];
      var front := DigitsValue(s[..|s| - 1]);
      if front == None || !IsDigit(last) then None
      else Some(10 * front.value + (last as int - '0' as int))
  }

  /** strconv.Atoi: an optional sign, at least one digit, and a value that fits 64 bits. */
  function Atoi(s: string): Option<int> {
    var signed := s != "" && s[0] in {'+', '-'};
    var digits := if signed then s[1..] else s;
    var v := DigitsValue(digits);
    if digits == "" || v == None then None
    else if signed && s[0] == '-' then (if v.value <= MAX_INT64 + 1 then Some(0 - v.value as int) else None)
    else if v.value <= MAX_INT64 then Some(v.value) else None
  }

  lemma {:induction false} DecimalReads(n: nat)
    ensures DigitsValue(Decimal(n)) == Some(n)
  {
    var d := Decimal(n);
    var front := if n < 10 then "" else Decimal(n / 10);
    assert d[..|d| - 1] == front;
    if n >= 10 {
      DecimalReads(n / 10);
    }
    assert d[|d| - 1] as int - '0' as int == n % 10;
  }

  lemma AtoiReads(n: nat)
    requires n <= MAX_INT64
    ensures Atoi(Decimal(n)) == Some(n)
  {
    DecimalReads(n);
    assert IsDigit(Decimal(n)[0]);
  }

  /** A sign may stand before the digits; what does not fit 64 bits is no number. */
  lemma AtoiSigns(digits: string)
    requires digits != "" && DigitsValue(digits).Some?
    ensures var n := DigitsValue(digits).value;
            && Atoi(digits) == Atoi("+" + digits) == (if n < 0x8000_0000_0000_0000 then Some(n) else None)
            && Atoi("-" + digits) == (if n <= 0x8000_0000_0000_0000 then Some(0 - n) else None)
  {
    StartsWithDigit(digits);
    assert ("+" + digits)[1..] == digits && ("-" + digits)[1..] == digits;
  }

  lemma {:induction false} StartsWithDigit(s: string)
    requires s != "" && DigitsValue(s).Some?
    ensures IsDigit(s[0])
  {
    if |s| > 1 {
      StartsWithDigit(s[..|s| - 1]);
    }
  }

  /** strings.SplitN(s, ":", n). */
  function SplitN(s: string, n: nat): (r: seq<string>)
    requires n >= 1
    ensures 1 <= |r| <= n
  {
    var i := IndexOf(s, ':');
    if n == 1 || i == |s| then [s] else [s[..i]] + SplitN(s[i + 1..], n - 1)
  }

  function IndexOf(s: string, c: char): (i: nat)
    ensures i <= |s| && (i < |s| ==> s[i] == c) && Free(s[..i], c)
  {
    if s == "" || s[0] == c then 0 else 1 + IndexOf(s[1..], c)
  }

  lemma {:induction false} IndexAfter(a: string, rest: string, c: char)
    requires Free(a, c)
    ensures IndexOf(a + [c] + rest, c) == |a|
  {
    var s := a + [c] + rest;
    if a != "" {
      IndexAfter(a[1..], rest, c);
      assert s[1..] == a[1..] + [c] + rest;
    }
  }

  lemma SplitFirst(a: string, rest: string, n: nat)
    requires Free(a, ':') && n >= 1
    ensures SplitN(a + [':'] + rest, n + 1) == [a] + SplitN(rest, n)
  {
    var s := a + [':'] + rest;
    IndexAfter(a, rest, ':');
    assert s[..|a|] == a && s[|a| + 1..] == rest;
  }

  predicate HasPrefix(s: string, p: string) {
    |p| <= |s| && s[..|p|] == p
  }

  // ---- Keys ----

  datatype Vault = Vault(current: nat, keys: map<int, string>)

  predicate WellFormed(v: Vault) {
    1 <= v.current <= MAX_INT64 && v.current in v.keys
  }

  function CurrentKey(v: Vault): string
    requires WellFormed(v)
  {
    v.keys[v.current]
  }

  ghost predicate Knows(v: Vault, key: string) {
    exists k :: k in v.keys && v.keys[k] == key
  }

  /** Version numbers for the previous masters: each gets its position, and blank ones get none. */
  function PreviousKeys(c: Crypto, purpose: string, previous: seq<string>): map<int, string> {
    if previous == [] then map[]
    else
      var n := |previous| - 1;
      var before, p := PreviousKeys(c, purpose, previous[..n]), Trim(previous[n]);
      if p == "" then before else before[n + 1 := c.derive(p, purpose)]
  }

  function Rotated(c: Crypto, master: string, purpose: string, previous: seq<string>): Option<Vault> {
    var current := Trim(master);
    if current == "" then None
    else
      var n := |previous| + 1;
      Some(Vault(n, PreviousKeys(c, purpose, previous)[n := c.derive(current, purpose)]))
  }

  method NewVaultWithRotation(c: Crypto, master: string, purpose: string, previous: seq<string>)
    returns (v: Option<Vault>)
    ensures v == Rotated(c, master, purpose, previous)
    ensures v == None <==> Trim(master) == ""
  {
    var current := Trim(master);
    if current == "" {
      return None;
    }
    var keys: map<int, string> := map[];
    for i := 0 to |previous|
      invariant keys == PreviousKeys(c, purpose, previous[..i])
    {
      var p := Trim(previous[i]);
      assert previous[..i + 1][..i] == previous[..i];
      if p != "" {
        keys := keys[i + 1 := c.derive(p, purpose)];
      }
      assert keys == PreviousKeys(c, purpose, previous[..i + 1]);
    }
    assert previous[..|previous|] == previous;
    var currentVersion := |previous| + 1;
    keys := keys[currentVersion := c.derive(current, purpose)];
    return Some(Vault(currentVersion, keys));
  }

  // ---- Encryption ----

  /** EncryptVersioned; `rawNonce` is what the random source delivered. */
  function EncryptVersioned(c: Crypto, v: Vault, plaintext: string, rawNonce: string): string
    requires WellFormed(v)
  {
    Tagged(v.current, c.encode64(rawNonce), c.encode64(c.seal(CurrentKey(v), rawNonce, plaintext)))
  }

  function Tagged(version: nat, nonce: string, ciphertext: string): string {
    "enc:v" + Decimal(version) + ":" + nonce + ":" + ciphertext
  }

  function DecryptWithKey(c: Crypto, key: string, nonce: string, ciphertext: string): Option<string> {
    var n, ct := c.decode64(Trim(nonce)), c.decode64(Trim(ciphertext));
    if n == None || ct == None then None else c.open(key, n.value, ct.value)
  }

  /** The keys in the order in which a particular map iteration happens to yield them. */
  predicate Enumerates(order: seq<int>, v: Vault) {
    (forall i :: 0 <= i < |order| ==> order[i] in v.keys) && (forall k :: k in v.keys ==> k in order)
  }

  function Fallback(c: Crypto, v: Vault, order: seq<int>, nonce: string, ciphertext: string): Option<string>
    requires forall i :: 0 <= i < |order| ==> order[i] in v.keys
  {
    if order == [] then None
    else
      var pt := DecryptWithKey(c, v.keys[order[0]], nonce, ciphertext);
      if order[0] != v.current && pt.Some? then pt else Fallback(c, v, order[1..], nonce, ciphertext)
  }

  function Decrypt(c: Crypto, v: Vault, order: seq<int>, nonce: string, ciphertext: string): Option<string>
    requires WellFormed(v) && Enumerates(order, v)
  {
    var pt := DecryptWithKey(c, CurrentKey(v), nonce, ciphertext);
    if pt.Some? then pt else Fallback(c, v, order, nonce, ciphertext)
  }

  function DecryptVersioned(c: Crypto, v: Vault, order: seq<int>, value: string): Option<string>
    requires WellFormed(v) && Enumerates(order, v)
  {
    var trimmed := Trim(value);
    if trimmed == "" then Some("")
    else if !HasPrefix(trimmed, "enc:") then Some(trimmed)
    else
      var parts := SplitN(trimmed[4..], 3);
      if |parts| == 3 && HasPrefix(parts[0], "v") then
        var ver := Atoi(parts[0][1..]);
        var pt := if ver.Some? && ver.value in v.keys
                  then DecryptWithKey(c, v.keys[ver.value], parts[1], parts[2]) else None;
        if pt.Some? then pt else Decrypt(c, v, order, parts[1], parts[2])
      else if |parts| == 2 then Decrypt(c, v, order, parts[0], parts[1])
      else None
  }

  predicate NeedsReEncrypt(v: Vault, value: string) {
    var trimmed := Trim(value);
    if trimmed == "" then false
    else if !HasPrefix(trimmed, "enc:") then true
    else
      var parts := SplitN(trimmed[4..], 3);
      !(|parts| == 3 && HasPrefix(parts[0], "v") && Atoi(parts[0][1..]) == Some(v.current))
  }

  function ReEncrypt(c: Crypto, v: Vault, order: seq<int>, value: string, rawNonce: string): Option<string>
    requires WellFormed(v) && Enumerates(order, v)
  {
    var plaintext := DecryptVersioned(c, v, order, value);
    if plaintext == None then None
    else if plaintext.value == "" then Some("")
    else Some(EncryptVersioned(c, v, plaintext.value, rawNonce))
  }

  // ---- The tagged format ----

  /** What Tagged writes, the reader splits into the same three fields. */
  lemma TaggedSplits(version: nat, nonce: string, ciphertext: string)
    requires Free(nonce, ':') && Trimmed(ciphertext)
    ensures var t := Tagged(version, nonce, ciphertext);
            && Trim(t) == t && t != "" && HasPrefix(t, "enc:")
            && SplitN(t[4..], 3) == ["v" + Decimal(version), nonce, ciphertext]
  {
    var t, digits := Tagged(version, nonce, ciphertext), Decimal(version);
    TaggedShape(t, "enc:", "v" + digits, nonce, ciphertext) by {
      DecimalFree(digits);
      assert t == "enc:" + ("v" + digits) + ":" + nonce + ":" + ciphertext;
    }
  }

  lemma TagReads(version: nat, tag: string)
    requires version <= MAX_INT64 && tag == "v" + Decimal(version)
    ensures HasPrefix(tag, "v") && Atoi(tag[1..]) == Some(version)
  {
    assert tag[1..] == Decimal(version);
    AtoiReads(version);
  }

  lemma DecimalFree(digits: string)
    requires forall i :: 0 <= i < |digits| ==> IsDigit(digits[i])
    ensures Free("v" + digits, ':')
  {
  }

  lemma TaggedShape(t: string, prefix: string, tag: string, nonce: string, ciphertext: string)
    requires t == prefix + tag + ":" + nonce + ":" + ciphertext
    requires prefix == "enc:" && Free(tag, ':') && Free(nonce, ':') && Trimmed(ciphertext)
    ensures Trim(t) == t && t != "" && HasPrefix(t, prefix)
    ensures SplitN(t[4..], 3) == [tag, nonce, ciphertext]
  {
    hide Free, SplitN, Trim;
    var rest := nonce + [':'] + ciphertext;
    assert t == prefix + (tag + [':'] + rest);
    WholeIsTrimmed(t, prefix, tag + [':'] + nonce, ciphertext);
    TrimLeaves(t);
    SplitFirst(tag, rest, 2);
    SplitFirst(nonce, ciphertext, 1);
    SplitOne(ciphertext);
  }

  lemma SplitOne(s: string)
    ensures SplitN(s, 1) == [s]
  {
  }

  lemma WholeIsTrimmed(t: string, prefix: string, front: string, ciphertext: string)
    requires t == prefix + front + [':'] + ciphertext && prefix == "enc:" && Trimmed(ciphertext)
    ensures Trimmed(t) && t[..4] == prefix
  {
    assert t[0] == 'e';
    assert t[|t| - 1] == if ciphertext == "" then ':' else ciphertext[|ciphertext| - 1];
  }

  // ---- Rotation ----

  lemma SealedOpens(c: Crypto, key: string, sealer: string, plaintext: string, rawNonce: string)
    requires Lawful(c)
    ensures DecryptWithKey(c, key, c.encode64(rawNonce), c.encode64(c.seal(sealer, rawNonce, plaintext)))
         == if key == sealer then Some(plaintext) else None
  {
    TrimLeaves(c.encode64(rawNonce));
    TrimLeaves(c.encode64(c.seal(sealer, rawNonce, plaintext)));
  }

  lemma {:induction false} FallbackFinds(c: Crypto, v: Vault, order: seq<int>, sealer: string, plaintext: string,
                                         rawNonce: string)
    requires Lawful(c) && WellFormed(v) && CurrentKey(v) != sealer
    requires forall i :: 0 <= i < |order| ==> order[i] in v.keys
    ensures Fallback(c, v, order, c.encode64(rawNonce), c.encode64(c.seal(sealer, rawNonce, plaintext)))
         == if exists k :: k in order && v.keys[k] == sealer then Some(plaintext) else None
  {
    if order != [] {
      SealedOpens(c, v.keys[order[0]], sealer, plaintext, rawNonce);
      FallbackFinds(c, v, order[1..], sealer, plaintext, rawNonce);
      assert forall k :: k in order <==> k == order[0] || k in order[1..];
    }
  }

  lemma TaggedDecrypts(c: Crypto, v: Vault, order: seq<int>, version: nat, nonce: string, ct: string)
    requires WellFormed(v) && Enumerates(order, v)
    requires version <= MAX_INT64 && Free(nonce, ':') && Trimmed(ct)
    ensures DecryptVersioned(c, v, order, Tagged(version, nonce, ct))
         == var pt := if version in v.keys then DecryptWithKey(c, v.keys[version], nonce, ct) else None;
            if pt.Some? then pt else Decrypt(c, v, order, nonce, ct)
  {
    TaggedSplits(version, nonce, ct);
    TagReads(version, "v" + Decimal(version));
  }

  lemma DecryptFinds(c: Crypto, v: Vault, order: seq<int>, sealer: string, plaintext: string, rawNonce: string)
    requires Lawful(c) && WellFormed(v) && Enumerates(order, v)
    ensures Decrypt(c, v, order, c.encode64(rawNonce), c.encode64(c.seal(sealer, rawNonce, plaintext)))
         == if Knows(v, sealer) then Some(plaintext) else None
  {
    SealedOpens(c, CurrentKey(v), sealer, plaintext, rawNonce);
    if CurrentKey(v) != sealer {
      FallbackFinds(c, v, order, sealer, plaintext, rawNonce);
      assert Knows(v, sealer) <==> exists k :: k in order && v.keys[k] == sealer;
    }
  }

  /** Whatever version number a value carries, a vault decrypts it exactly when it knows the key that sealed it,
      and to the plaintext that was sealed, in whichever order it tries its keys. */
  lemma DecryptsWhatItHasKeysFor(c: Crypto, v: Vault, order: seq<int>, w: Vault, plaintext: string, rawNonce: string)
    requires Lawful(c) && WellFormed(v) && WellFormed(w) && Enumerates(order, v)
    ensures DecryptVersioned(c, v, order, EncryptVersioned(c, w, plaintext, rawNonce))
         == if Knows(v, CurrentKey(w)) then Some(plaintext) else None
  {
    var sealer := CurrentKey(w);
    TaggedDecrypts(c, v, order, w.current, c.encode64(rawNonce), c.encode64(c.seal(sealer, rawNonce, plaintext)));
    if w.current in v.keys {
      SealedOpens(c, v.keys[w.current], sealer, plaintext, rawNonce);
    }
    DecryptFinds(c, v, order, sealer, plaintext, rawNonce);
  }

  /** Text from before versions were written, with nonce and ciphertext only, decrypts under the same condition, and
      is due for re-encryption. */
  lemma UnversionedDecrypts(c: Crypto, v: Vault, order: seq<int>, sealer: string, plaintext: string, rawNonce: string)
    requires Lawful(c) && WellFormed(v) && Enumerates(order, v)
    ensures var t := "enc:" + c.encode64(rawNonce) + ":" + c.encode64(c.seal(sealer, rawNonce, plaintext));
            && DecryptVersioned(c, v, order, t) == (if Knows(v, sealer) then Some(plaintext) else None)
            && NeedsReEncrypt(v, t)
  {
    var nonce, ct := c.encode64(rawNonce), c.encode64(c.seal(sealer, rawNonce, plaintext));
    UnversionedSplits("enc:" + nonce + ":" + ct, "enc:", nonce, ct);
    DecryptFinds(c, v, order, sealer, plaintext, rawNonce);
  }

  lemma UnversionedSplits(t: string, prefix: string, nonce: string, ct: string)
    requires t == prefix + nonce + ":" + ct
    requires prefix == "enc:" && Free(nonce, ':') && Free(ct, ':') && Trimmed(ct)
    ensures Trim(t) == t && t != "" && HasPrefix(t, prefix)
    ensures SplitN(t[4..], 3) == [nonce, ct]
  {
    assert t[0] == 'e' && t[..4] == prefix;
    assert t[|t| - 1] == if ct == "" then ':' else ct[|ct| - 1];
    TrimLeaves(t);
    assert t[4..] == nonce + [':'] + ct;
    SplitFirst(nonce, ct, 2);
    assert IndexOf(ct, ':') == |ct|;
  }

  /** A vault reads back everything it encrypts. */
  lemma EncryptThenDecrypt(c: Crypto, v: Vault, order: seq<int>, plaintext: string, rawNonce: string)
    requires Lawful(c) && WellFormed(v) && Enumerates(order, v)
    ensures DecryptVersioned(c, v, order, EncryptVersioned(c, v, plaintext, rawNonce)) == Some(plaintext)
  {
    DecryptsWhatItHasKeysFor(c, v, order, v, plaintext, rawNonce);
  }

  /** Text with the tag but without fields never decrypts, stays due for re-encryption, and cannot be re-encrypted. */
  lemma TaggedJunkIsRefused(c: Crypto, v: Vault, order: seq<int>, junk: string, rawNonce: string)
    requires WellFormed(v) && Enumerates(order, v) && Free(junk, ':') && Trimmed("enc:" + junk)
    ensures DecryptVersioned(c, v, order, "enc:" + junk) == None
    ensures NeedsReEncrypt(v, "enc:" + junk) && ReEncrypt(c, v, order, "enc:" + junk, rawNonce) == None
  {
    var s := "enc:" + junk;
    TrimLeaves(s);
    assert s[..4] == "enc:" && s[4..] == junk;
    NoSeparator(junk);
  }

  lemma NoSeparator(s: string)
    requires Free(s, ':')
    ensures SplitN(s, 3) == [s]
  {
    assert IndexOf(s, ':') == |s|;
  }

  /** A value needs re-encryption exactly when its version is not the vault's. */
  lemma NeedsReEncryptByVersion(c: Crypto, v: Vault, w: Vault, plaintext: string, rawNonce: string)
    requires Lawful(c) && WellFormed(v) && WellFormed(w)
    ensures NeedsReEncrypt(v, EncryptVersioned(c, w, plaintext, rawNonce)) <==> w.current != v.current
  {
    TaggedSplits(w.current, c.encode64(rawNonce), c.encode64(c.seal(CurrentKey(w), rawNonce, plaintext)));
    TagReads(w.current, "v" + Decimal(w.current));
  }

  /** Re-encrypting keeps the meaning of a value and brings it up to date; it fails only on values that do not
      decrypt, and an empty secret stays empty. */
  lemma ReEncryptPreserves(c: Crypto, v: Vault, order: seq<int>, value: string, rawNonce: string)
    requires Lawful(c) && WellFormed(v) && Enumerates(order, v)
    ensures var before, out := DecryptVersioned(c, v, order, value), ReEncrypt(c, v, order, value, rawNonce);
            && (out == None <==> before == None)
            && (out.Some? ==> DecryptVersioned(c, v, order, out.value) == before && !NeedsReEncrypt(v, out.value))
  {
    var before := DecryptVersioned(c, v, order, value);
    if before.Some? && before.value != "" {
      EncryptThenDecrypt(c, v, order, before.value, rawNonce);
      NeedsReEncryptByVersion(c, v, v, before.value, rawNonce);
    }
  }

  /** Text that was never encrypted is read as it is, trimmed, and unless blank is due for re-encryption; that
      encrypts it under the current key, and from then on it reads back as before and is no longer due. */
  lemma PlainTextMigrates(c: Crypto, v: Vault, order: seq<int>, value: string, rawNonce: string)
    requires Lawful(c) && WellFormed(v) && Enumerates(order, v) && !HasPrefix(Trim(value), "enc:")
    ensures NeedsReEncrypt(v, value) <==> Trim(value) != ""
    ensures var out := ReEncrypt(c, v, order, value, rawNonce);
            && DecryptVersioned(c, v, order, value) == Some(Trim(value))
            && out.Some? && DecryptVersioned(c, v, order, out.value) == Some(Trim(value))
            && !NeedsReEncrypt(v, out.value)
            && (Trim(value) != "" ==> out.value == EncryptVersioned(c, v, Trim(value), rawNonce))
  {
    ReEncryptPreserves(c, v, order, value, rawNonce);
  }

  /** The vault in force after the masters up to and including the one at `i` have been rotated in, each
      rotation passing all earlier masters in order. */
  function InForce(c: Crypto, masters: seq<string>, purpose: string, i: nat): Option<Vault>
    requires i < |masters|
  {
    Rotated(c, masters[i], purpose, masters[..i])
  }

  /** In such a chain a version number names one key for ever, every earlier value still decrypts, and exactly
      the earlier values are due for re-encryption. */
  lemma RotationChain(c: Crypto, masters: seq<string>, purpose: string, i: nat, j: nat, order: seq<int>,
                      plaintext: string, rawNonce: string)
    requires Lawful(c) && i <= j < |masters| <= MAX_INT64
    requires InForce(c, masters, purpose, i).Some? && InForce(c, masters, purpose, j).Some?
    requires Enumerates(order, InForce(c, masters, purpose, j).value)
    ensures var earlier, later := InForce(c, masters, purpose, i).value, InForce(c, masters, purpose, j).value;
            && WellFormed(earlier) && WellFormed(later)
            && (forall k :: k in earlier.keys ==> k in later.keys && later.keys[k] == earlier.keys[k])
            && DecryptVersioned(c, later, order, EncryptVersioned(c, earlier, plaintext, rawNonce)) == Some(plaintext)
            && (NeedsReEncrypt(later, EncryptVersioned(c, earlier, plaintext, rawNonce)) <==> i < j)
  {
    var a, b := InForce(c, masters, purpose, i).value, InForce(c, masters, purpose, j).value;
    forall k | k in a.keys
      ensures k in b.keys && b.keys[k] == a.keys[k]
    {
      ChainKeys(c, masters, purpose, i, k);
      ChainKeys(c, masters, purpose, j, k);
    }
    assert a.current in b.keys && b.keys[a.current] == a.keys[a.current];
    DecryptsWhatItHasKeysFor(c, b, order, a, plaintext, rawNonce);
    NeedsReEncryptByVersion(c, b, a, plaintext, rawNonce);
  }

  lemma {:induction false} PreviousKeysAre(c: Crypto, purpose: string, previous: seq<string>, k: int)
    ensures var m := PreviousKeys(c, purpose, previous);
            && (k in m <==> 1 <= k <= |previous| && Trim(previous[k - 1]) != "")
            && (k in m ==> m[k] == c.derive(Trim(previous[k - 1]), purpose))
  {
    if previous != [] {
      PreviousKeysAre(c, purpose, previous[..|previous| - 1], k);
    }
  }

  lemma ChainKeys(c: Crypto, masters: seq<string>, purpose: string, i: nat, k: int)
    requires i < |masters| && InForce(c, masters, purpose, i).Some?
    ensures var v := InForce(c, masters, purpose, i).value;
            && v.current == i + 1
            && (k in v.keys <==> 1 <= k <= i + 1 && Trim(masters[k - 1]) != "")
            && (k in v.keys ==> v.keys[k] == c.derive(Trim(masters[k - 1]), purpose))
  {
    PreviousKeysAre(c, purpose, masters[..i], k);
  }
}
