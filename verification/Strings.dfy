module Strings {
  predicate StartsWith(s: string, p: string) { |p| <= |s| && s[..|p|] == p }

  predicate EndsWith(s: string, p: string) { |p| <= |s| && s[|s| - |p|..] == p }

  predicate OccursAt(s: string, t: string, i: nat) { i + |t| <= |s| && s[i..i + |t|] == t }

  predicate Contains(s: string, t: string) {
    exists i: nat :: i <= |s| && OccursAt(s, t, i)
  }

  /** The part of a path behind its last slash. */
  function Basename(p: string): string {
    if '/' !in p then p else Basename(p[1..])
  }

  /** The directory a path is in; the root is the empty string. */
  function DirName(p: string): (d: string)
    ensures p != "" ==> |d| < |p|
  {
    if p == "" then ""
    else if p[|p| - 1] == '/' then p[..|p| - 1]
    else DirName(p[..|p| - 1])
  }

  lemma {:induction false} BasenameAt(p: string) returns (n: nat)
    ensures n <= |p| && Basename(p) == p[n..] && '/' !in p[n..]
    ensures if '/' in p then n > 0 && p[n - 1] == '/' else n == 0
  {
    if '/' in p {
      var m := BasenameAt(p[1..]);
      n := m + 1;
      assert p[1..][m..] == p[n..];
    } else {
      n := 0;
    }
  }

  lemma {:induction false} DirNameAt(p: string) returns (n: nat)
    requires '/' in p
    ensures n < |p| && DirName(p) == p[..n] && p[n] == '/' && '/' !in p[n + 1..]
  {
    n := |p| - 1;
    if p[n] != '/' {
      var init := p[..n];
      n := DirNameAt(init);
      assert p[n + 1..] == init[n + 1..] + [p[|p| - 1]];
    }
  }

  lemma {:induction false} NoDirName(p: string)
    requires '/' !in p
    ensures DirName(p) == ""
  {
    if p != "" { NoDirName(p[..|p| - 1]); }
  }

  lemma SlashBehind(p: string, i: nat, j: nat)
    ensures i < j < |p| && p[j] == '/' ==> '/' in p[i + 1..]
  {
    if i < j < |p| { assert p[i + 1..][j - i - 1] == p[j]; }
  }

  /** A path's last part holds no slash and ends the path: it is all of it, or it stands right behind the slash
      that ends the directory. */
  lemma PathParts(p: string)
    ensures '/' !in Basename(p)
    ensures if '/' in p then p == DirName(p) + "/" + Basename(p) else Basename(p) == p && DirName(p) == ""
  {
    var n := BasenameAt(p);
    if '/' in p {
      var m := DirNameAt(p);
      SlashBehind(p, n - 1, m);
      SlashBehind(p, m, n - 1);
      assert p == p[..m] + "/" + p[m + 1..];
    } else {
      NoDirName(p);
    }
  }

  /** A name without a slash, behind any directory, is the last part. */
  lemma BasenameOf(dir: string, name: string)
    requires '/' !in name
    ensures Basename(name) == name && Basename(dir + "/" + name) == name
  {
    var p := dir + "/" + name;
    assert p[|dir|] == '/';
    var n := BasenameAt(p);
    SlashBehind(p, n - 1, |dir|);
    assert p[|dir| + 1..] == name;
    SlashBehind(p, |dir|, n - 1);
  }
}
