/** The [properties] entries a user adds to the generated file. The source shows which lines an entry
    matches, every line with `key=` anywhere in it, but not what becomes of them. One result here holds
    for whatever that is; the exact ones are for each of the ways to write the rest of the loop. */
module UserProperties {
  import opened ModeProperties
  import opened Options
  import opened Strings

  type Entry = (string, string)

  predicate Mentions(l: string, u: Entry) { Contains(l, u.0 + "=") }

  function Unmentioned(u: Entry): string -> bool { l => !Mentions(l, u) }

  /** Entries check_properties lets through: of no mode key (and no key holds an equals sign). */
  predicate Foreign(pairs: seq<Pair>, user: seq<Entry>) {
    forall j :: 0 <= j < |user| ==> '=' !in user[j].0 && forall i :: 0 <= i < |pairs| ==> user[j].0 != pairs[i].0
  }

  predicate NeverMentioned(l: string, user: seq<Entry>) {
    forall j :: 0 <= j < |user| ==> !Mentions(l, user[j])
  }

  /** No user entry is mentioned in a line the mode writes. */
  predicate Unharmed(pairs: seq<Pair>, user: seq<Entry>) {
    forall i :: 0 <= i < |pairs| && pairs[i].1.Some? ==> NeverMentioned(Line(pairs[i].0, pairs[i].1.value), user)
  }

  // ---- whatever becomes of the matched lines ----------------------------------------------------

  /** Lines that do not mention the entry stay, in their order; no line is new but the entry's own. */
  ghost predicate Touches(ls: seq<string>, u: Entry, r: seq<string>) {
    && Keep(Unmentioned(u), r) == Keep(Unmentioned(u), ls)
    && forall n :: 0 <= n < |r| ==> r[n] in ls || r[n] == Line(u.0, u.1)
  }

  lemma {:induction false} KeepSame(f: string -> bool, g: string -> bool, ls: seq<string>)
    requires forall n :: 0 <= n < |ls| ==> (f(ls[n]) <==> g(ls[n]))
    ensures Keep(f, ls) == Keep(g, ls)
  {
    if ls != [] { KeepSame(f, g, ls[..|ls| - 1]); }
  }

  lemma {:induction false} KeepHas(f: string -> bool, ls: seq<string>, n: nat)
    requires n < |ls| && f(ls[n])
    ensures ls[n] in Keep(f, ls)
  {
    if n < |ls| - 1 { KeepHas(f, ls[..|ls| - 1], n); }
  }

  function Both(f: string -> bool, g: string -> bool): string -> bool { l => f(l) && g(l) }

  /** If the lines of a key do not mention the entry, they are all there afterwards, and no others. */
  lemma KeyUntouched(ls: seq<string>, u: Entry, r: seq<string>, k: string)
    requires Touches(ls, u, r) && '=' !in u.0 && u.0 != k
    requires forall l :: l in Keep(IsKey(k), ls) ==> !Mentions(l, u)
    ensures Keep(IsKey(k), r) == Keep(IsKey(k), ls)
  {
    var f, g := IsKey(k), Unmentioned(u);
    var h := Both(f, g);
    LineKey(u.0, u.1);
    forall n | 0 <= n < |ls| && f(ls[n]) ensures g(ls[n]) { KeepHas(f, ls, n); }
    forall n | 0 <= n < |r| && f(r[n]) ensures g(r[n]) {
      if r[n] in ls {
        var m :| 0 <= m < |ls| && ls[m] == r[n];
        KeepHas(f, ls, m);
      }
    }
    KeepSame(f, h, r);
    KeepSame(f, h, ls);
    KeepBoth(f, g, h, r);
    KeepBoth(f, g, h, ls);
  }

  /** The files before each entry and after the last. */
  ghost predicate Run(files: seq<seq<string>>, user: seq<Entry>) {
    && |files| == |user| + 1
    && forall j :: 0 <= j < |user| ==> Touches(files[j], user[j], files[j + 1])
  }

  lemma {:induction false} RunKeepsKey(files: seq<seq<string>>, user: seq<Entry>, n: nat, p: Pair)
    requires Run(files, user) && n <= |user| && '=' !in p.0 && Keep(IsKey(p.0), files[0]) == PairLines(p)
    requires forall j :: 0 <= j < |user| ==> '=' !in user[j].0 && user[j].0 != p.0
    requires p.1.Some? ==> NeverMentioned(Line(p.0, p.1.value), user)
    ensures Keep(IsKey(p.0), files[n]) == PairLines(p)
  {
    if n > 0 {
      RunKeepsKey(files, user, n - 1, p);
      assert Touches(files[n - 1], user[n - 1], files[n]);
      KeyUntouched(files[n - 1], user[n - 1], files[n], p.0);
    }
  }

  /** However the matched lines are treated: if no user key is mentioned in a line of the mode, the
      generated file passes the check at container start. */
  lemma UnharmedPasses(ls: seq<string>, pairs: seq<Pair>, user: seq<Entry>, files: seq<seq<string>>)
    requires WellFormed(pairs) && Foreign(pairs, user) && Unharmed(pairs, user)
    requires Run(files, user) && files[0] == Applied(ls, pairs)
    ensures Accepts(files[|user|], pairs)
  {
    forall i | 0 <= i < |pairs| ensures Get(files[|user|], pairs[i].0) == pairs[i].1 {
      KeyAfterApply(ls, pairs, i);
      RunKeepsKey(files, user, |user|, pairs[i]);
      GetOf(files[|user|], pairs[i], true);
    }
  }

  // ---- three ways to write the rest of the loop ---------------------------------------------------

  datatype Reading =
    | DropAll          // every matched line goes, the entry is appended
    | PopEnumerating   // the same with pop(idx) inside enumerate: the line behind a popped one is skipped
    | ReplaceInPlace   // every matched line becomes the entry, which is appended if none was matched

  /** Popping while enumerating: a matched line goes unless the line before it went. */
  predicate PoppedAt(ls: seq<string>, u: Entry, n: nat)
    requires n < |ls|
  {
    Mentions(ls[n], u) && !(n > 0 && PoppedAt(ls, u, n - 1))
  }

  function Popped(ls: seq<string>, u: Entry): seq<string> {
    if ls == [] then []
    else
      var n := |ls| - 1;
      Popped(ls[..n], u) + if PoppedAt(ls, u, n) then [] else [ls[n]]
  }

  lemma {:induction false} PoppedPrefix(ls: seq<string>, u: Entry, m: nat, n: nat)
    requires n < m <= |ls|
    ensures PoppedAt(ls[..m], u, n) == PoppedAt(ls, u, n)
  {
    if n > 0 { PoppedPrefix(ls, u, m, n - 1); }
  }

  /** How many lines in a row up to line n mention the entry. */
  function MentionsInARow(ls: seq<string>, u: Entry, n: nat): nat
    requires n < |ls|
  {
    if !Mentions(ls[n], u) then 0 else 1 + if n == 0 then 0 else MentionsInARow(ls, u, n - 1)
  }

  /** A line is popped exactly when it is the first, third, fifth... of a row of matching lines. */
  lemma {:induction false} PoppedIsOdd(ls: seq<string>, u: Entry, n: nat)
    requires n < |ls|
    ensures PoppedAt(ls, u, n) <==> MentionsInARow(ls, u, n) % 2 == 1
  {
    if n > 0 { PoppedIsOdd(ls, u, n - 1); }
  }

  lemma PoppedStep(ls: seq<string>, u: Entry, n: nat)
    requires n < |ls|
    ensures Popped(ls[..n + 1], u) == Popped(ls[..n], u) + if PoppedAt(ls, u, n) then [] else [ls[n]]
  {
    assert ls[..n + 1][..n] == ls[..n];
    PoppedPrefix(ls, u, n + 1, n);
  }

  /** Inside the loop: the lines before `idx` are done, and the rest of the list is the original from
      `at` on, where the line before was not popped. */
  ghost predicate Popping(ls: seq<string>, u: Entry, props: seq<string>, idx: nat, at: nat) {
    && idx <= |props| && at <= |ls| && props[idx..] == ls[at..] && props[..idx] == Popped(ls[..at], u)
    && (0 < at ==> !PoppedAt(ls, u, at - 1))
  }

  lemma PopNothing(ls: seq<string>, u: Entry, props: seq<string>, idx: nat, at: nat)
    requires Popping(ls, u, props, idx, at) && idx < |props| && !Mentions(props[idx], u)
    ensures Popping(ls, u, props, idx + 1, at + 1)
  {
    assert props[idx] == props[idx..][0] == ls[at];
    assert props[idx + 1..] == props[idx..][1..] == ls[at + 1..];
    PoppedStep(ls, u, at);
    assert props[..idx + 1] == props[..idx] + [props[idx]];
  }

  /** A popped line and the one that is skipped behind it; or the last line. */
  lemma PopLine(ls: seq<string>, u: Entry, props: seq<string>, idx: nat, at: nat)
    requires Popping(ls, u, props, idx, at) && idx < |props| && Mentions(props[idx], u)
    ensures var rest := props[..idx] + props[idx + 1..];
      if at + 1 < |ls| then Popping(ls, u, rest, idx + 1, at + 2) else |rest| == idx && rest == Popped(ls, u)
  {
    var rest := props[..idx] + props[idx + 1..];
    assert props[idx] == props[idx..][0] == ls[at];
    assert rest[idx..] == props[idx + 1..] == props[idx..][1..] == ls[at + 1..];
    PoppedStep(ls, u, at);
    if at + 1 < |ls| {
      PoppedStep(ls, u, at + 1);
      assert rest[idx] == rest[idx..][0] == ls[at + 1];
      assert rest[idx + 1..] == rest[idx..][1..] == ls[at + 2..];
      assert rest[..idx + 1] == props[..idx] + [ls[at + 1]];
    } else {
      assert ls[..at + 1] == ls && rest == props[..idx];
    }
  }

  /** The loop itself. */
  method PopLoop(ls: seq<string>, u: Entry) returns (props: seq<string>)
    ensures props == Popped(ls, u)
  {
    props := ls;
    var idx := 0;
    ghost var at := 0;
    while idx < |props|
      invariant 0 <= idx && (idx <= |props| ==> Popping(ls, u, props, idx, at))
      invariant idx > |props| ==> props == Popped(ls, u)
      decreases |props| - idx
    {
      if Contains(props[idx], u.0 + "=") {
        PopLine(ls, u, props, idx, at);
        props := props[..idx] + props[idx + 1..];
        at := at + 2;
      } else {
        PopNothing(ls, u, props, idx, at);
        at := at + 1;
      }
      idx := idx + 1;
    }
    if idx == |props| { assert ls[at..] == [] && ls[..at] == ls && props[..idx] == props; }
  }

  function Substituted(ls: seq<string>, u: Entry): seq<string> {
    if ls == [] then []
    else
      var n := |ls| - 1;
      Substituted(ls[..n], u) + [if Mentions(ls[n], u) then Line(u.0, u.1) else ls[n]]
  }

  predicate Matched(ls: seq<string>, u: Entry) {
    exists n :: 0 <= n < |ls| && Mentions(ls[n], u)
  }

  /** The lines that are left or changed, before the entry is appended. */
  function Body(how: Reading, ls: seq<string>, u: Entry): seq<string> {
    match how
    case DropAll => Keep(Unmentioned(u), ls)
    case PopEnumerating => Popped(ls, u)
    case ReplaceInPlace => Substituted(ls, u)
  }

  function Tail(how: Reading, ls: seq<string>, u: Entry): seq<string> {
    if how.ReplaceInPlace? && Matched(ls, u) then [] else [Line(u.0, u.1)]
  }

  function Result(how: Reading, ls: seq<string>, u: Entry): seq<string> { Body(how, ls, u) + Tail(how, ls, u) }

  function AfterUser(how: Reading, ls: seq<string>, user: seq<Entry>): seq<string> {
    if user == [] then ls
    else Result(how, AfterUser(how, ls, user[..|user| - 1]), user[|user| - 1])
  }

  /** The entry takes this line out of the file. */
  predicate Takes(how: Reading, ls: seq<string>, u: Entry, l: string) {
    match how
    case DropAll => Mentions(l, u)
    case PopEnumerating => exists n :: 0 <= n < |ls| && ls[n] == l && PoppedAt(ls, u, n)
    case ReplaceInPlace => Mentions(l, u)
  }

  // ---- what becomes of the only line of a key ------------------------------------------------------

  lemma {:induction false} KeepEmptyMeans(f: string -> bool, ls: seq<string>, n: nat)
    requires Keep(f, ls) == [] && n < |ls|
    ensures !f(ls[n])
  {
    if n < |ls| - 1 { KeepEmptyMeans(f, ls[..|ls| - 1], n); }
  }

  /** The entry takes the last line. */
  predicate TakesLast(how: Reading, ls: seq<string>, u: Entry)
    requires ls != []
  {
    if how.PopEnumerating? then PoppedAt(ls, u, |ls| - 1) else Mentions(ls[|ls| - 1], u)
  }

  /** What Body does to the last line. */
  function LastOf(how: Reading, ls: seq<string>, u: Entry): seq<string>
    requires ls != []
  {
    if !TakesLast(how, ls, u) then [ls[|ls| - 1]]
    else if how.ReplaceInPlace? then [Line(u.0, u.1)]
    else []
  }

  lemma BodyLast(how: Reading, ls: seq<string>, u: Entry)
    requires ls != []
    ensures Body(how, ls, u) == Body(how, ls[..|ls| - 1], u) + LastOf(how, ls, u)
  {}

  lemma NotOfKey(how: Reading, ls: seq<string>, u: Entry, k: string)
    requires ls != [] && '=' !in u.0 && u.0 != k && !HasKey(ls[|ls| - 1], k)
    ensures Keep(IsKey(k), LastOf(how, ls, u)) == []
  {
    KeepOne(IsKey(k), ls[|ls| - 1]);
    KeyOfEntry(u, k);
  }

  /** A key without lines gets none from an entry of another key. */
  lemma {:induction false} BodyNone(how: Reading, ls: seq<string>, u: Entry, k: string)
    requires '=' !in u.0 && u.0 != k && Keep(IsKey(k), ls) == []
    ensures Keep(IsKey(k), Body(how, ls, u)) == []
  {
    if ls != [] {
      var init := ls[..|ls| - 1];
      BodyNone(how, init, u, k);
      NotOfKey(how, ls, u, k);
      BodyLast(how, ls, u);
      KeepConcat(IsKey(k), Body(how, init, u), LastOf(how, ls, u));
    }
  }

  lemma TakesPrefix(how: Reading, ls: seq<string>, u: Entry, l: string)
    requires ls != [] && ls[|ls| - 1] != l
    ensures Takes(how, ls, u, l) == Takes(how, ls[..|ls| - 1], u, l)
  {
    if how.PopEnumerating? {
      var init := ls[..|ls| - 1];
      forall n: nat | n < |init| ensures PoppedAt(init, u, n) == PoppedAt(ls, u, n) && init[n] == ls[n] {
        PoppedPrefix(ls, u, |init|, n);
      }
    }
  }

  /** The only line of a key stays unless the entry takes it. */
  lemma {:induction false} BodyOne(how: Reading, ls: seq<string>, u: Entry, k: string, l: string)
    requires '=' !in u.0 && u.0 != k && HasKey(l, k) && Keep(IsKey(k), ls) == [l]
    ensures Keep(IsKey(k), Body(how, ls, u)) == if Takes(how, ls, u, l) then [] else [l]
  {
    var n := |ls| - 1;
    var init := ls[..n];
    BodyLast(how, ls, u);
    KeepConcat(IsKey(k), Body(how, init, u), LastOf(how, ls, u));
    if HasKey(ls[n], k) {
      assert Keep(IsKey(k), ls)[|Keep(IsKey(k), init)|] == ls[n];
      BodyNone(how, init, u, k);
      OnlyLast(how, ls, u, k);
    } else {
      BodyOne(how, init, u, k, l);
      NotOfKey(how, ls, u, k);
      TakesPrefix(how, ls, u, l);
    }
  }

  lemma TakesOnlyLast(how: Reading, ls: seq<string>, u: Entry)
    requires ls != [] && forall m :: 0 <= m < |ls| - 1 ==> ls[m] != ls[|ls| - 1]
    ensures Takes(how, ls, u, ls[|ls| - 1]) <==> TakesLast(how, ls, u)
  {}

  lemma KeyOfEntry(u: Entry, k: string)
    requires '=' !in u.0 && u.0 != k
    ensures Keep(IsKey(k), [Line(u.0, u.1)]) == []
  {
    LineKey(u.0, u.1);
    KeepOne(IsKey(k), Line(u.0, u.1));
  }

  lemma OnlyLast(how: Reading, ls: seq<string>, u: Entry, k: string)
    requires ls != [] && '=' !in u.0 && u.0 != k && HasKey(ls[|ls| - 1], k) && Keep(IsKey(k), ls[..|ls| - 1]) == []
    ensures Keep(IsKey(k), LastOf(how, ls, u)) == if Takes(how, ls, u, ls[|ls| - 1]) then [] else [ls[|ls| - 1]]
  {
    var n := |ls| - 1;
    forall m: nat | m < n ensures ls[m] != ls[n] { KeepEmptyMeans(IsKey(k), ls[..n], m); }
    TakesOnlyLast(how, ls, u);
    KeepOne(IsKey(k), ls[n]);
    KeyOfEntry(u, k);
  }

  lemma TailNone(how: Reading, ls: seq<string>, u: Entry, k: string)
    requires '=' !in u.0 && u.0 != k
    ensures Keep(IsKey(k), Tail(how, ls, u)) == []
  {
    KeyOfEntry(u, k);
  }

  lemma ResultKey(how: Reading, ls: seq<string>, u: Entry, p: Pair, there: bool)
    requires '=' !in p.0 && '=' !in u.0 && u.0 != p.0 && Keep(IsKey(p.0), ls) == if there then PairLines(p) else []
    ensures Keep(IsKey(p.0), Result(how, ls, u)) ==
      if there && (p.1.Some? ==> !Takes(how, ls, u, Line(p.0, p.1.value))) then PairLines(p) else []
  {
    KeepConcat(IsKey(p.0), Body(how, ls, u), Tail(how, ls, u));
    TailNone(how, ls, u, p.0);
    if there && p.1.Some? {
      LineKey(p.0, p.1.value);
      BodyOne(how, ls, u, p.0, Line(p.0, p.1.value));
    } else {
      BodyNone(how, ls, u, p.0);
    }
  }

  // ---- the exact conditions ---------------------------------------------------------------------------

  /** The j-th entry takes the line out of the file it finds. */
  predicate TakenAt(how: Reading, ls: seq<string>, user: seq<Entry>, l: string, j: nat)
    requires j < |user|
  {
    Takes(how, AfterUser(how, ls, user[..j]), user[j], l)
  }

  predicate Taken(how: Reading, ls: seq<string>, user: seq<Entry>, l: string) {
    exists j :: 0 <= j < |user| && TakenAt(how, ls, user, l, j)
  }

  lemma TakenAtPrefix(how: Reading, ls: seq<string>, user: seq<Entry>, l: string, n: nat, j: nat)
    requires j < n <= |user|
    ensures TakenAt(how, ls, user[..n], l, j) == TakenAt(how, ls, user, l, j)
  {
    assert user[..n][..j] == user[..j];
  }

  lemma TakenStep(how: Reading, ls: seq<string>, user: seq<Entry>, l: string)
    requires user != []
    ensures var n := |user| - 1;
      Taken(how, ls, user, l) <==> Taken(how, ls, user[..n], l) || TakenAt(how, ls, user, l, n)
  {
    var n := |user| - 1;
    forall j: nat | j < n ensures TakenAt(how, ls, user[..n], l, j) == TakenAt(how, ls, user, l, j) {
      TakenAtPrefix(how, ls, user, l, n, j);
    }
  }

  lemma {:induction false} KeyAfterUser(how: Reading, ls: seq<string>, user: seq<Entry>, p: Pair)
    requires '=' !in p.0 && Keep(IsKey(p.0), ls) == PairLines(p)
    requires forall j :: 0 <= j < |user| ==> '=' !in user[j].0 && user[j].0 != p.0
    ensures Keep(IsKey(p.0), AfterUser(how, ls, user)) ==
      if p.1.Some? && Taken(how, ls, user, Line(p.0, p.1.value)) then [] else PairLines(p)
  {
    if user != [] {
      var n := |user| - 1;
      KeyAfterUser(how, ls, user[..n], p);
      if p.1.Some? { TakenStep(how, ls, user, Line(p.0, p.1.value)); }
      var there := !(p.1.Some? && Taken(how, ls, user[..n], Line(p.0, p.1.value)));
      ResultKey(how, AfterUser(how, ls, user[..n]), user[n], p, there);
    }
  }

  /** For each way to write the loop: the generated file passes the check at container start exactly when
      no entry takes a line of the mode. */
  lemma PassesExactly(how: Reading, ls: seq<string>, pairs: seq<Pair>, user: seq<Entry>)
    requires WellFormed(pairs) && Foreign(pairs, user)
    ensures var base := Applied(ls, pairs);
      Accepts(AfterUser(how, base, user), pairs) <==>
        forall i :: 0 <= i < |pairs| && pairs[i].1.Some? ==> !Taken(how, base, user, Line(pairs[i].0, pairs[i].1.value))
  {
    var base := Applied(ls, pairs);
    forall i | 0 <= i < |pairs|
      ensures Get(AfterUser(how, base, user), pairs[i].0) == pairs[i].1 <==>
        (pairs[i].1.Some? ==> !Taken(how, base, user, Line(pairs[i].0, pairs[i].1.value)))
    {
      KeyAfterApply(ls, pairs, i);
      KeyAfterUser(how, base, user, pairs[i]);
      GetOf(AfterUser(how, base, user), pairs[i],
            !(pairs[i].1.Some? && Taken(how, base, user, Line(pairs[i].0, pairs[i].1.value))));
    }
  }

  /** Dropped or replaced, that is when no user key is mentioned in a line of the mode. */
  lemma PassesIfUnharmed(how: Reading, ls: seq<string>, pairs: seq<Pair>, user: seq<Entry>)
    requires WellFormed(pairs) && Foreign(pairs, user) && !how.PopEnumerating?
    ensures Accepts(AfterUser(how, Applied(ls, pairs), user), pairs) <==> Unharmed(pairs, user)
  {
    PassesExactly(how, ls, pairs, user);
    var base := Applied(ls, pairs);
    forall l ensures Taken(how, base, user, l) <==> !NeverMentioned(l, user) {
      if !NeverMentioned(l, user) {
        var j :| 0 <= j < |user| && Mentions(l, user[j]);
        assert TakenAt(how, base, user, l, j);
      }
    }
  }

  lemma OwnMention(u: Entry)
    ensures Mentions(Line(u.0, u.1), u)
  {
    assert OccursAt(Line(u.0, u.1), u.0 + "=", 0);
  }

  lemma KeepAppend(f: string -> bool, a: seq<string>, l: string)
    ensures Keep(f, a + [l]) == Keep(f, a) + if f(l) then [l] else []
  {
    assert (a + [l])[..|a|] == a;
  }

  /** One more line of the file, and what becomes of it. */
  lemma TouchesMore(init: seq<string>, last: string, u: Entry, body: seq<string>, end: seq<string>)
    requires Touches(init, u, body)
    requires end == [last] || (Mentions(last, u) && (end == [] || end == [Line(u.0, u.1)]))
    ensures Touches(init + [last], u, body + end)
  {
    OwnMention(u);
    KeepAppend(Unmentioned(u), init, last);
    if end == [] {
      assert body + end == body;
    } else {
      KeepAppend(Unmentioned(u), body, end[0]);
    }
  }

  lemma TouchesTail(ls: seq<string>, u: Entry, body: seq<string>, tail: seq<string>)
    requires Touches(ls, u, body) && (tail == [] || tail == [Line(u.0, u.1)])
    ensures Touches(ls, u, body + tail)
  {
    if tail == [] {
      assert body + tail == body;
    } else {
      OwnMention(u);
      KeepAppend(Unmentioned(u), body, Line(u.0, u.1));
    }
  }

  lemma {:induction false} BodyTouches(how: Reading, ls: seq<string>, u: Entry)
    ensures Touches(ls, u, Body(how, ls, u))
  {
    if ls != [] {
      var n := |ls| - 1;
      BodyTouches(how, ls[..n], u);
      BodyLast(how, ls, u);
      assert ls == ls[..n] + [ls[n]];
      TouchesMore(ls[..n], ls[n], u, Body(how, ls[..n], u), LastOf(how, ls, u));
    }
  }

  /** Each of the three touches only lines that mention the entry. */
  lemma ReadingTouches(how: Reading, ls: seq<string>, u: Entry)
    ensures Touches(ls, u, Result(how, ls, u))
  {
    BodyTouches(how, ls, u);
    TouchesTail(ls, u, Body(how, ls, u), Tail(how, ls, u));
  }

  /** Popping, a line of the mode is taken by an only entry if it mentions it and the line before does not. */
  lemma PoppedBehindAnother(ls: seq<string>, u: Entry, n: nat)
    requires 0 < n < |ls| && Mentions(ls[n], u) && !Mentions(ls[n - 1], u)
    ensures Taken(PopEnumerating, ls, [u], ls[n])
  {
    assert PoppedAt(ls, u, n) && !PoppedAt(ls, u, n - 1);
    assert [u][..0] == [];
    assert TakenAt(PopEnumerating, ls, [u], ls[n], 0);
  }
}
