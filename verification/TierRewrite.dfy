/** The in-place pass over the decoded tiers text that raises every tier digit to 5. The text
    is a C string: the pass sees it up to its first NUL. */
module TierRewrite {
  type byte = b: nat | b < 256

  /** The bytes of `"tier":`. */
  const KEY: seq<byte> := [34, 116, 105, 101, 114, 34, 58]
  const FIVE: byte := 53

  predicate Blank(c: byte) { c == 32 || c == 9 }

  predicate TierDigit(c: byte) { 49 <= c <= 53 }

  // ---- what the pass means ----------------------------------------------------------------

  predicate Occurs(s: seq<byte>, i: nat) {
    i + |KEY| <= |s| && forall k :: 0 <= k < |KEY| ==> s[i + k] == KEY[k]
  }

  /** The first byte at or after `i` that is not a blank, or the end. */
  function Skip(s: seq<byte>, i: nat): (d: nat)
    requires i <= |s|
    ensures i <= d <= |s|
    ensures forall k :: i <= k < d ==> Blank(s[k])
    ensures d < |s| ==> !Blank(s[d])
    decreases |s| - i
  {
    if i < |s| && Blank(s[i]) then Skip(s, i + 1) else i
  }

  /** `j` holds the digit of some `"tier":` in the text. */
  ghost predicate TierValue(s: seq<byte>, j: nat) {
    j < |s| && TierDigit(s[j]) && exists i: nat :: Occurs(s, i) && Skip(s, i + |KEY|) == j
  }

  /** Every tier digit is a five and no other byte changes. */
  ghost predicate Raised(s: seq<byte>, t: seq<byte>) {
    |t| == |s| && forall j :: 0 <= j < |s| ==> t[j] == if TierValue(s, j) then FIVE else s[j]
  }

  // ---- the edits neither create nor remove an occurrence -----------------------------------

  /** The texts differ only in which digit from 1 to 5 stands somewhere. */
  predicate SameButDigits(s: seq<byte>, t: seq<byte>) {
    |t| == |s| && forall j :: 0 <= j < |s| ==> t[j] == s[j] || (TierDigit(s[j]) && TierDigit(t[j]))
  }

  lemma SameOccurrences(s: seq<byte>, t: seq<byte>, i: nat)
    requires SameButDigits(s, t)
    ensures Occurs(s, i) <==> Occurs(t, i)
  {
    if i + |KEY| <= |s| {
      forall k | 0 <= k < |KEY| ensures s[i + k] == KEY[k] <==> t[i + k] == KEY[k] {
        assert !TierDigit(KEY[k]);
      }
    }
  }

  lemma {:induction false} SameSkip(s: seq<byte>, t: seq<byte>, i: nat)
    requires SameButDigits(s, t) && i <= |s|
    ensures Skip(s, i) == Skip(t, i)
    decreases |s| - i
  {
    if i < |s| && Blank(s[i]) {
      SameSkip(s, t, i + 1);
    }
  }

  lemma SameValues(s: seq<byte>, t: seq<byte>, j: nat)
    requires SameButDigits(s, t)
    ensures TierValue(s, j) <==> TierValue(t, j)
  {
    forall i: nat ensures Occurs(s, i) <==> Occurs(t, i) { SameOccurrences(s, t, i); }
    forall i: nat | Occurs(s, i) ensures Skip(s, i + |KEY|) == Skip(t, i + |KEY|) { SameSkip(s, t, i + |KEY|); }
  }

  /** Running the pass on its own result changes nothing. */
  lemma Idempotent(s: seq<byte>, t: seq<byte>, u: seq<byte>)
    requires Raised(s, t) && Raised(t, u)
    ensures u == t
  {
    assert SameButDigits(s, t);
    forall j: nat | j < |s| ensures u[j] == t[j] { SameValues(s, t, j); }
  }

  lemma KeyByte(s: seq<byte>, i: nat, j: nat)
    requires Occurs(s, i)
    ensures i <= j < i + |KEY| ==> s[j] == KEY[j - i]
  {
    if i <= j < i + |KEY| { assert s[i + (j - i)] == KEY[j - i]; }
  }

  /** Occurrences do not overlap, and none starts among the blanks behind another. */
  lemma NoOverlap(s: seq<byte>, i: nat, i': nat)
    requires Occurs(s, i) && Occurs(s, i') && i < i'
    ensures Skip(s, i + |KEY|) <= i'
  {
    assert s[i'] == KEY[0] && s[i' + 1] == KEY[1];
    KeyByte(s, i, i');
    KeyByte(s, i, i' + 1);
  }

  // ---- the same in bytes ---------------------------------------------------------------------

  /** A digit from '1' to '5', and in front of it the bytes of "tier": and nothing but blanks and tabs. */
  ghost predicate Tiered(s: seq<byte>, j: nat) {
    && j < |s| && 49 <= s[j] <= 53
    && exists i: nat :: TieredFrom(s, i, j)
  }

  ghost predicate TieredFrom(s: seq<byte>, i: nat, j: nat)
    requires j < |s|
  {
    && i + 7 <= j && s[i..i + 7] == [34, 116, 105, 101, 114, 34, 58]
    && forall k :: i + 7 <= k < j ==> s[k] == 32 || s[k] == 9
  }

  lemma OccursIs(s: seq<byte>, i: nat)
    ensures Occurs(s, i) <==> i + 7 <= |s| && s[i..i + 7] == [34, 116, 105, 101, 114, 34, 58]
  {
    if i + 7 <= |s| && s[i..i + 7] == [34, 116, 105, 101, 114, 34, 58] {
      forall k | 0 <= k < 7 ensures s[i + k] == KEY[k] { assert s[i..i + 7][k] == s[i + k]; }
    }
  }

  lemma {:induction false} SkipIs(s: seq<byte>, i: nat, j: nat)
    requires i <= j < |s| && !Blank(s[j])
    ensures Skip(s, i) == j <==> forall k :: i <= k < j ==> s[k] == 32 || s[k] == 9
    decreases j - i
  {
    if i < j { SkipIs(s, i + 1, j); }
  }

  lemma TierValueIs(s: seq<byte>, j: nat)
    ensures TierValue(s, j) <==> Tiered(s, j)
  {
    if j < |s| && TierDigit(s[j]) {
      forall i: nat ensures Occurs(s, i) && Skip(s, i + |KEY|) == j <==> TieredFrom(s, i, j) {
        OccursIs(s, i);
        if i + 7 <= j { SkipIs(s, i + 7, j); }
      }
    }
  }

  // ---- the pass ---------------------------------------------------------------------------

  function StrLen(s: seq<byte>): (n: nat)
    requires 0 in s
    ensures n < |s| && s[n] == 0 && 0 !in s[..n]
  {
    if s[0] == 0 then 0
    else
      var n := 1 + StrLen(s[1..]);
      assert s[..n] == [s[0]] + s[1..][..n - 1];
      n
  }

  /** The C string held by a buffer. */
  function Text(s: seq<byte>): (t: seq<byte>)
    requires 0 in s
    ensures 0 !in t
  {
    s[..StrLen(s)]
  }

  /** The part already rewritten: tier digits up to and including `p` are fives. */
  ghost predicate RaisedUpTo(s: seq<byte>, t: seq<byte>, p: nat) {
    |t| == |s| && forall j :: 0 <= j < |s| ==> t[j] == if j <= p && TierValue(s, j) then FIVE else s[j]
  }

  /** Every occurrence before `p` has its value at or before `p`. */
  ghost predicate Passed(s: seq<byte>, p: nat) {
    forall i: nat :: Occurs(s, i) && i < p ==> Skip(s, i + |KEY|) <= p
  }

  ghost predicate NoneBetween(s: seq<byte>, p: nat, i: nat) {
    forall k: nat :: p <= k < i ==> !Occurs(s, k)
  }

  lemma Advance(s: seq<byte>, t: seq<byte>, p: nat, i: nat)
    requires RaisedUpTo(s, t, p) && Passed(s, p) && NoneBetween(s, p, i) && p <= i && Occurs(s, i)
    ensures var d := Skip(s, i + |KEY|);
      && Passed(s, d)
      && (d < |s| ==> (TierValue(s, d) <==> TierDigit(s[d])))
      && forall j :: p < j < d ==> !TierValue(s, j)
  {
    var d := Skip(s, i + |KEY|);
    forall i': nat | Occurs(s, i') && i' < d ensures Skip(s, i' + |KEY|) <= d {
      if i < i' { NoOverlap(s, i, i'); }
    }
    forall i': nat | Occurs(s, i') ensures Skip(s, i' + |KEY|) <= p || d <= Skip(s, i' + |KEY|) {
      if i < i' { NoOverlap(s, i, i'); }
    }
  }

  lemma Finished(s: seq<byte>, t: seq<byte>, p: nat)
    requires RaisedUpTo(s, t, p) && Passed(s, p) && NoneBetween(s, p, |s|)
    ensures Raised(s, t)
  {
    forall j: nat | j < |s| && TierValue(s, j) ensures j <= p {
      var i: nat :| Occurs(s, i) && Skip(s, i + |KEY|) == j;
      assert i < |s|;
    }
  }

  method Matches(a: array<byte>, i: nat) returns (b: bool)
    requires 0 in a[..] && i <= StrLen(a[..])
    ensures b <==> Occurs(Text(a[..]), i)
  {
    var k := 0;
    while k < |KEY|
      invariant k <= |KEY| && i + k <= StrLen(a[..])
      invariant forall j :: 0 <= j < k ==> a[i + j] == KEY[j]
    {
      if a[i + k] != KEY[k] {
        assert !Occurs(Text(a[..]), i) by {
          if i + |KEY| <= StrLen(a[..]) { assert Text(a[..])[i + k] == a[i + k]; }
        }
        return false;
      }
      k := k + 1;
    }
    b := true;
  }

  /** C's strstr for the key: the first occurrence at or after `p`. */
  method StrStr(a: array<byte>, p: nat) returns (found: bool, i: nat)
    requires 0 in a[..] && p <= StrLen(a[..])
    ensures found ==> p <= i && Occurs(Text(a[..]), i) && NoneBetween(Text(a[..]), p, i)
    ensures !found ==> NoneBetween(Text(a[..]), p, |Text(a[..])|)
  {
    i := p;
    while a[i] != 0
      invariant p <= i <= StrLen(a[..])
      invariant NoneBetween(Text(a[..]), p, i)
      decreases StrLen(a[..]) - i
    {
      found := Matches(a, i);
      if found { return; }
      i := i + 1;
    }
    found := false;
  }

  method SkipBlanks(a: array<byte>, i: nat) returns (d: nat)
    requires 0 in a[..] && i <= StrLen(a[..])
    ensures d == Skip(Text(a[..]), i)
  {
    d := i;
    while a[d] == 32 || a[d] == 9
      invariant i <= d <= StrLen(a[..])
      invariant Skip(Text(a[..]), d) == Skip(Text(a[..]), i)
      decreases StrLen(a[..]) - d
    {
      d := d + 1;
    }
  }

  lemma TextAfter(b: seq<byte>, b': seq<byte>, d: nat, c: byte)
    requires 0 in b && d < StrLen(b) && c != 0 && b' == b[d := c]
    ensures 0 in b' && Text(b') == Text(b)[d := c]
  {
    var n := StrLen(b);
    assert b'[n] == 0;
    assert forall j :: 0 <= j < n ==> b[..n][j] != 0;
    var n' := StrLen(b');
    assert forall j :: 0 <= j < n' ==> b'[..n'][j] != 0;
    assert n' == n;
  }

  /** The text after the digit at `d`, if there is one, became a five. */
  function Round(t: seq<byte>, d: nat): seq<byte> {
    if d < |t| && TierDigit(t[d]) then t[d := FIVE] else t
  }

  /** One round on the text: what is raised at the occurrence `i` and how far the pass then is. */
  lemma RaisedAt(s: seq<byte>, t: seq<byte>, p: nat, i: nat)
    requires RaisedUpTo(s, t, p) && Passed(s, p) && p <= i && Occurs(t, i) && NoneBetween(t, p, i)
    ensures var d := Skip(t, i + |KEY|); p < d <= |s| && Passed(s, d) && RaisedUpTo(s, Round(t, d), d)
  {
    assert SameButDigits(s, t);
    forall k: nat ensures Occurs(s, k) <==> Occurs(t, k) { SameOccurrences(s, t, k); }
    SameSkip(s, t, i + |KEY|);
    Advance(s, t, p, i);
  }

  /** One round in the buffer at the occurrence `i`. */
  method RaiseAt(a: array<byte>, i: nat) returns (d: nat)
    requires 0 in a[..] && i + |KEY| <= StrLen(a[..])
    modifies a
    ensures 0 in a[..] && d == Skip(old(Text(a[..])), i + |KEY|) && Text(a[..]) == Round(old(Text(a[..])), d)
    ensures a[|Text(a[..])|..] == old(a[|Text(a[..])|..])
  {
    d := SkipBlanks(a, i + |KEY|);
    if 49 <= a[d] <= 53 {
      ghost var b := a[..];
      a[d] := FIVE;
      TextAfter(b, a[..], d, FIVE);
    }
  }

  /** The whole pass. */
  method RaiseTiers(a: array<byte>)
    requires 0 in a[..]
    modifies a
    ensures 0 in a[..] && Raised(old(Text(a[..])), Text(a[..]))
    ensures a[|Text(a[..])|..] == old(a[|Text(a[..])|..])
    ensures var s, t := old(Text(a[..])), Text(a[..]);
      |t| == |s| && forall j :: 0 <= j < |s| ==> t[j] == if Tiered(s, j) then 53 else s[j]
  {
    ghost var s := Text(a[..]);
    var p := 0;
    var found, i := StrStr(a, p);
    while found
      invariant 0 in a[..] && p <= |Text(a[..])| && RaisedUpTo(s, Text(a[..]), p) && Passed(s, p)
      invariant a[|s|..] == old(a[|s|..])
      invariant found ==> p <= i && Occurs(Text(a[..]), i) && NoneBetween(Text(a[..]), p, i)
      invariant !found ==> NoneBetween(Text(a[..]), p, |s|)
      decreases |s| - p, found
    {
      RaisedAt(s, Text(a[..]), p, i);
      p := RaiseAt(a, i);
      found, i := StrStr(a, p);
    }
    ghost var t := Text(a[..]);
    forall k: nat ensures Occurs(s, k) <==> Occurs(t, k) { SameOccurrences(s, t, k); }
    Finished(s, t, p);
    forall j | 0 <= j < |s| ensures t[j] == if Tiered(s, j) then 53 else s[j] { TierValueIs(s, j); }
  }
}
