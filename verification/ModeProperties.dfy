/** The properties a driver mode writes into waydroid_base.prop, the generator that puts them
    there, and the check at container start that must agree with it. A file is its list of lines. */
module ModeProperties {
  import opened Options
  import opened Strings

  /** A key and the value the mode gives it; None means the key must be absent. */
  type Pair = (string, Option<string>)

  // ---- lines and keys ---------------------------------------------------------------------

  /** Where the first `=` is. */
  function Cut(l: string): (c: nat)
    requires '=' in l
    ensures c < |l| && l[c] == '=' && '=' !in l[..c]
  {
    if l[0] == '=' then 0
    else
      var c := 1 + Cut(l[1..]);
      assert l[..c] == [l[0]] + l[1..][..c - 1];
      c
  }

  function Key(l: string): string
    requires '=' in l
  { l[..Cut(l)] }

  function Val(l: string): string
    requires '=' in l
  { l[Cut(l) + 1..] }

  predicate HasKey(l: string, k: string) { '=' in l && Key(l) == k }

  function Line(k: string, v: string): string { k + "=" + v }

  lemma {:induction false} CutUnique(l: string, c: nat)
    requires c < |l| && l[c] == '=' && '=' !in l[..c]
    ensures Cut(l) == c
  {
    if c > 0 {
      assert l[0] == l[..c][0];
      assert l[1..][..c - 1] == l[..c][1..];
      CutUnique(l[1..], c - 1);
    }
  }

  /** A line starts with `key=` exactly when that is its key. */
  lemma PrefixIsKey(l: string, k: string)
    requires '=' !in k
    ensures StartsWith(l, k + "=") <==> HasKey(l, k)
  {
    if StartsWith(l, k + "=") {
      assert l[|k|] == (k + "=")[|k|];
      assert l[..|k|] == l[..|k| + 1][..|k|] == k;
      CutUnique(l, |k|);
    }
    if HasKey(l, k) { assert l[..|k| + 1] == k + "="; }
  }

  lemma LineKey(k: string, v: string)
    requires '=' !in k
    ensures HasKey(Line(k, v), k) && Val(Line(k, v)) == v
  {
    var l := Line(k, v);
    assert l[..|k|] == k;
    CutUnique(l, |k|);
  }

  // ---- filters ----------------------------------------------------------------------------

  function Keep(f: string -> bool, ls: seq<string>): (r: seq<string>) {
    if ls == [] then [] else Keep(f, ls[..|ls| - 1]) + if f(ls[|ls| - 1]) then [ls[|ls| - 1]] else []
  }

  lemma {:induction false} KeepConcat(f: string -> bool, a: seq<string>, b: seq<string>)
    ensures Keep(f, a + b) == Keep(f, a) + Keep(f, b)
  {
    if b == [] {
      assert a + b == a;
    } else {
      assert (a + b)[..|a + b| - 1] == a + b[..|b| - 1];
      KeepConcat(f, a, b[..|b| - 1]);
    }
  }

  lemma {:induction false} KeepBoth(f: string -> bool, g: string -> bool, h: string -> bool, ls: seq<string>)
    requires forall l :: h(l) <==> f(l) && g(l)
    ensures Keep(f, Keep(g, ls)) == Keep(h, ls)
  {
    if ls != [] {
      var init, last := ls[..|ls| - 1], ls[|ls| - 1];
      KeepBoth(f, g, h, init);
      KeepConcat(f, Keep(g, init), if g(last) then [last] else []);
    }
  }

  lemma {:induction false} KeepAll(f: string -> bool, ls: seq<string>)
    requires forall i :: 0 <= i < |ls| ==> f(ls[i])
    ensures Keep(f, ls) == ls
  {
    if ls != [] { KeepAll(f, ls[..|ls| - 1]); }
  }

  lemma {:induction false} KeepNone(f: string -> bool, ls: seq<string>)
    requires forall i :: 0 <= i < |ls| ==> !f(ls[i])
    ensures Keep(f, ls) == []
  {
    if ls != [] { KeepNone(f, ls[..|ls| - 1]); }
  }

  // ---- the generator ----------------------------------------------------------------------

  function Without(k: string): string -> bool { l => !StartsWith(l, k + "=") }

  /** Lines whose key is none of the pairs' keys. */
  function Other(pairs: seq<Pair>): string -> bool {
    l => forall i :: 0 <= i < |pairs| ==> !HasKey(l, pairs[i].0)
  }

  function PairLines(p: Pair): seq<string> {
    match p.1 case Some(v) => [Line(p.0, v)] case None => []
  }

  function ModeLines(pairs: seq<Pair>): seq<string> {
    if pairs == [] then [] else ModeLines(pairs[..|pairs| - 1]) + PairLines(pairs[|pairs| - 1])
  }

  /** All other lines as they were, then the mode's own. */
  function Applied(ls: seq<string>, pairs: seq<Pair>): seq<string> {
    Keep(Other(pairs), ls) + ModeLines(pairs)
  }

  predicate WellFormed(pairs: seq<Pair>) {
    && (forall i :: 0 <= i < |pairs| ==> '=' !in pairs[i].0)
    && forall i, j :: 0 <= i < j < |pairs| ==> pairs[i].0 != pairs[j].0
  }

  lemma {:induction false} ModeLineKeys(pairs: seq<Pair>, l: string)
    requires WellFormed(pairs) && l in ModeLines(pairs)
    ensures exists i :: 0 <= i < |pairs| && HasKey(l, pairs[i].0)
  {
    var n := |pairs| - 1;
    if l in ModeLines(pairs[..n]) {
      ModeLineKeys(pairs[..n], l);
    } else {
      LineKey(pairs[n].0, pairs[n].1.value);
    }
  }

  lemma ModeLinesKept(pairs: seq<Pair>, p: Pair)
    requires WellFormed(pairs + [p])
    ensures Keep(Without(p.0), ModeLines(pairs)) == ModeLines(pairs)
  {
    var ls := ModeLines(pairs);
    assert forall i :: 0 <= i < |pairs| ==> pairs[i] == (pairs + [p])[i];
    assert (pairs + [p])[|pairs|] == p;
    forall i | 0 <= i < |ls| ensures Without(p.0)(ls[i]) {
      ModeLineKeys(pairs, ls[i]);
      PrefixIsKey(ls[i], p.0);
    }
    KeepAll(Without(p.0), ls);
  }

  lemma OthersLeft(ls: seq<string>, pairs: seq<Pair>, p: Pair)
    requires '=' !in p.0
    ensures Keep(Without(p.0), Keep(Other(pairs), ls)) == Keep(Other(pairs + [p]), ls)
  {
    OtherStep(pairs, p);
    KeepBoth(Without(p.0), Other(pairs), Other(pairs + [p]), ls);
  }

  lemma ApplyStep(ls: seq<string>, pairs: seq<Pair>, p: Pair)
    requires '=' !in p.0 && Keep(Without(p.0), ModeLines(pairs)) == ModeLines(pairs)
    ensures Keep(Without(p.0), Applied(ls, pairs)) + PairLines(p) == Applied(ls, pairs + [p])
  {
    OthersLeft(ls, pairs, p);
    ModeLinesOneMore(pairs, p);
    KeepThenAppend(Without(p.0), Keep(Other(pairs), ls), Keep(Other(pairs + [p]), ls), ModeLines(pairs), PairLines(p));
  }

  lemma KeepThenAppend(f: string -> bool, a: seq<string>, kept: seq<string>, b: seq<string>, c: seq<string>)
    requires Keep(f, a) == kept && Keep(f, b) == b
    ensures Keep(f, a + b) + c == kept + (b + c)
  {
    KeepConcat(f, a, b);
  }

  lemma ModeLinesOneMore(pairs: seq<Pair>, p: Pair)
    ensures ModeLines(pairs + [p]) == ModeLines(pairs) + PairLines(p)
  {
    assert (pairs + [p])[..|pairs|] == pairs;
  }

  lemma {:induction false} ModeLinesConcat(a: seq<Pair>, b: seq<Pair>)
    ensures ModeLines(a + b) == ModeLines(a) + ModeLines(b)
  {
    if b == [] {
      assert a + b == a;
    } else {
      assert (a + b)[..|a + b| - 1] == a + b[..|b| - 1];
      ModeLinesConcat(a, b[..|b| - 1]);
    }
  }

  lemma OtherStep(pairs: seq<Pair>, p: Pair)
    requires '=' !in p.0
    ensures forall l :: Other(pairs + [p])(l) <==> Without(p.0)(l) && Other(pairs)(l)
  {
    forall l ensures Other(pairs + [p])(l) <==> Without(p.0)(l) && Other(pairs)(l) {
      PrefixIsKey(l, p.0);
      assert forall i :: 0 <= i < |pairs| ==> pairs[i] == (pairs + [p])[i];
      assert (pairs + [p])[|pairs|] == p;
    }
  }

  method ApplyOne(ls: seq<string>, p: Pair) returns (props: seq<string>)
    ensures props == Keep(Without(p.0), ls) + PairLines(p)
  {
    props := Keep(Without(p.0), ls);
    if p.1.Some? { props := props + [Line(p.0, p.1.value)]; }
  }

  lemma AppliedOneMore(ls: seq<string>, pairs: seq<Pair>, i: nat)
    requires WellFormed(pairs) && i < |pairs|
    ensures Keep(Without(pairs[i].0), Applied(ls, pairs[..i])) + PairLines(pairs[i]) == Applied(ls, pairs[..i + 1])
  {
    assert pairs[..i] + [pairs[i]] == pairs[..i + 1];
    ModeLinesKept(pairs[..i], pairs[i]);
    ApplyStep(ls, pairs[..i], pairs[i]);
  }

  method ApplyModeProperties(ls: seq<string>, pairs: seq<Pair>) returns (props: seq<string>)
    requires WellFormed(pairs)
    ensures props == Applied(ls, pairs)
  {
    props := ls;
    KeepAll(Other([]), ls);
    for i := 0 to |pairs|
      invariant props == Applied(ls, pairs[..i])
    {
      AppliedOneMore(ls, pairs, i);
      props := ApplyOne(props, pairs[i]);
    }
    assert pairs[..|pairs|] == pairs;
  }

  /** Lines of no mode key keep their order and content. */
  lemma OthersKept(ls: seq<string>, pairs: seq<Pair>)
    requires WellFormed(pairs)
    ensures Keep(Other(pairs), Applied(ls, pairs)) == Keep(Other(pairs), ls)
  {
    var f := Other(pairs);
    KeepConcat(f, Keep(f, ls), ModeLines(pairs));
    KeepBoth(f, f, f, ls);
    forall i | 0 <= i < |ModeLines(pairs)| ensures !f(ModeLines(pairs)[i]) { ModeLineKeys(pairs, ModeLines(pairs)[i]); }
    KeepNone(f, ModeLines(pairs));
  }

  lemma Idempotent(ls: seq<string>, pairs: seq<Pair>)
    requires WellFormed(pairs)
    ensures Applied(Applied(ls, pairs), pairs) == Applied(ls, pairs)
  {
    OthersKept(ls, pairs);
  }

  // ---- the check at container start -----------------------------------------------------------

  /** What a dictionary filled line by line answers: the last line of a key wins. */
  function Get(ls: seq<string>, k: string): Option<string> {
    if ls == [] then None
    else
      var l := ls[|ls| - 1];
      if HasKey(l, k) then Some(Val(l)) else Get(ls[..|ls| - 1], k)
  }

  /** The last line that starts so. */
  function LastWith(ls: seq<string>, start: string): Option<string> {
    if ls == [] then None
    else if StartsWith(ls[|ls| - 1], start) then Some(ls[|ls| - 1])
    else LastWith(ls[..|ls| - 1], start)
  }

  /** The answer for a key, read off the last line that starts with `key=`. */
  lemma {:induction false} GetIsLast(ls: seq<string>, p: Pair)
    requires '=' !in p.0
    ensures Get(ls, p.0) == p.1 <==>
      LastWith(ls, p.0 + "=") == match p.1 case Some(v) => Some(p.0 + "=" + v) case None => None
  {
    if ls != [] {
      var l := ls[|ls| - 1];
      PrefixIsKey(l, p.0);
      GetIsLast(ls[..|ls| - 1], p);
      if HasKey(l, p.0) {
        assert l == p.0 + "=" + Val(l);
        if p.1.Some? { LineKey(p.0, p.1.value); }
      }
    }
  }

  predicate Accepts(ls: seq<string>, pairs: seq<Pair>) {
    forall i :: 0 <= i < |pairs| ==> Get(ls, pairs[i].0) == pairs[i].1
  }

  function Lookup(have: map<string, string>, k: string): Option<string> {
    if k in have then Some(have[k]) else None
  }

  method CheckBaseProp(ls: seq<string>, pairs: seq<Pair>) returns (ok: bool)
    ensures ok <==> Accepts(ls, pairs)
  {
    var have: map<string, string> := map[];
    for i := 0 to |ls|
      invariant forall k :: Lookup(have, k) == Get(ls[..i], k)
    {
      assert ls[..i + 1][..i] == ls[..i];
      if '=' in ls[i] { have := have[Key(ls[i]) := Val(ls[i])]; }
    }
    assert ls[..|ls|] == ls;
    ok := true;
    for i := 0 to |pairs|
      invariant ok <==> forall j :: 0 <= j < i ==> Get(ls, pairs[j].0) == pairs[j].1
    {
      if Lookup(have, pairs[i].0) != pairs[i].1 { ok := false; }
    }
  }

  // ---- the lines of one key -------------------------------------------------------------------

  function IsKey(k: string): string -> bool { l => HasKey(l, k) }

  lemma KeepOne(f: string -> bool, l: string)
    ensures Keep(f, [l]) == if f(l) then [l] else []
  {
    assert [l][..0] == [];
  }

  lemma {:induction false} GetIsLastOfKey(ls: seq<string>, k: string)
    ensures var m := Keep(IsKey(k), ls);
      (forall i :: 0 <= i < |m| ==> HasKey(m[i], k)) && Get(ls, k) == if m == [] then None else Some(Val(m[|m| - 1]))
  {
    if ls != [] { GetIsLastOfKey(ls[..|ls| - 1], k); }
  }

  /** The check of one key, where the file has at most the mode's own line of it. */
  lemma GetOf(ls: seq<string>, p: Pair, there: bool)
    requires '=' !in p.0 && Keep(IsKey(p.0), ls) == if there then PairLines(p) else []
    ensures Get(ls, p.0) == p.1 <==> p.1.None? || there
  {
    GetIsLastOfKey(ls, p.0);
    if p.1.Some? { LineKey(p.0, p.1.value); }
  }

  lemma KeyOfPairLines(p: Pair, k: string)
    requires '=' !in p.0
    ensures Keep(IsKey(k), PairLines(p)) == if p.0 == k then PairLines(p) else []
  {
    if p.1.Some? {
      LineKey(p.0, p.1.value);
      KeepOne(IsKey(k), Line(p.0, p.1.value));
    }
  }

  lemma KeepStep(f: string -> bool, pairs: seq<Pair>)
    requires pairs != []
    ensures var n := |pairs| - 1;
      Keep(f, ModeLines(pairs)) == Keep(f, ModeLines(pairs[..n])) + Keep(f, PairLines(pairs[n]))
  {
    var n := |pairs| - 1;
    KeepConcat(f, ModeLines(pairs[..n]), PairLines(pairs[n]));
  }

  lemma {:induction false} NoneOfModeLines(f: string -> bool, pairs: seq<Pair>)
    requires forall j :: 0 <= j < |pairs| ==> Keep(f, PairLines(pairs[j])) == []
    ensures Keep(f, ModeLines(pairs)) == []
  {
    if pairs != [] {
      KeepStep(f, pairs);
      NoneOfModeLines(f, pairs[..|pairs| - 1]);
    }
  }

  lemma {:induction false} OneOfModeLines(f: string -> bool, pairs: seq<Pair>, i: nat)
    requires i < |pairs| && forall j :: 0 <= j < |pairs| && j != i ==> Keep(f, PairLines(pairs[j])) == []
    ensures Keep(f, ModeLines(pairs)) == Keep(f, PairLines(pairs[i]))
  {
    var n := |pairs| - 1;
    var init := pairs[..n];
    KeepStep(f, pairs);
    if i < n {
      assert init[i] == pairs[i];
      OneOfModeLines(f, init, i);
    } else {
      NoneOfModeLines(f, init);
    }
  }

  lemma KeyOfModeLines(pairs: seq<Pair>, i: nat)
    requires WellFormed(pairs) && i < |pairs|
    ensures Keep(IsKey(pairs[i].0), ModeLines(pairs)) == PairLines(pairs[i])
  {
    var k := pairs[i].0;
    forall j | 0 <= j < |pairs|
      ensures Keep(IsKey(k), PairLines(pairs[j])) == if j == i then PairLines(pairs[i]) else []
    {
      KeyOfPairLines(pairs[j], k);
    }
    OneOfModeLines(IsKey(k), pairs, i);
  }

  /** After the generator, the lines of a mode key are exactly the mode's line, if it has one. */
  lemma KeyAfterApply(ls: seq<string>, pairs: seq<Pair>, i: nat)
    requires WellFormed(pairs) && i < |pairs|
    ensures Keep(IsKey(pairs[i].0), Applied(ls, pairs)) == PairLines(pairs[i])
  {
    var f, none := IsKey(pairs[i].0), (l: string) => false;
    KeepConcat(f, Keep(Other(pairs), ls), ModeLines(pairs));
    KeepBoth(f, Other(pairs), none, ls);
    KeepNone(none, ls);
    KeyOfModeLines(pairs, i);
  }

  /** In a line without a further `=`, a mentioned key is an ending of the line's key. */
  lemma MentionIsSuffix(key: string, val: string, k: string)
    requires '=' !in key && '=' !in val && '=' !in k
    ensures Contains(Line(key, val), k + "=") <==> EndsWith(key, k)
  {
    var l, t := Line(key, val), k + "=";
    if EndsWith(key, k) {
      assert l[|key| - |k|..|key| + 1] == t;
      assert OccursAt(l, t, |key| - |k|);
    }
    if Contains(l, t) {
      var i: nat :| i <= |l| && OccursAt(l, t, i);
      assert l[i..i + |t|][|k|] == '=';
      assert l[i + |k|] == '=';
      assert i + |k| == |key|;
      assert key[i..] == l[i..i + |t|][..|k|] == k;
    }
  }
}
