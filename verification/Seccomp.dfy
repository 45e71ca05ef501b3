/** The dual-architecture app filter: a classic BPF program assembled from two policies by
    appending and back-patching one relative jump, and what running it means. */
module Seccomp {

  type word = w: nat | w < 0x1_0000_0000

  const ARCH_X86_64: word := 0xC000_003E
  const ARCH_I386: word := 0x4000_0003
  const RET_TRAP: word := 0x0003_0000
  const RET_ALLOW: word := 0x7fff_0000
  const SYSCALL_NR: nat := 0      // offsets in struct seccomp_data
  const ARCH_NR: nat := 4

  datatype Test = JEq | JGt | JGe | JSet

  datatype Insn =
    | Load(off: nat)
    | Jump(test: Test, k: word, jt: nat, jf: nat)
    | Goto(skip: nat)
    | Ret(k: word)

  /** struct seccomp_data as its sixteen 32-bit words. */
  type Data = d: seq<word> | |d| == 16 witness seq(16, i => 0)

  datatype Outcome = Verdict(k: word) | OffEnd | BadLoad

  /** The two have a bit in common. */
  predicate ShareBit(a: nat, k: nat) {
    a > 0 && k > 0 && ((a % 2 == 1 && k % 2 == 1) || ShareBit(a / 2, k / 2))
  }

  predicate Taken(test: Test, a: word, k: word) {
    match test
    case JEq => a == k
    case JGt => a > k
    case JGe => a >= k
    case JSet => ShareBit(a, k)
  }

  predicate ValidLoad(off: nat) {
    off % 4 == 0 && off / 4 < 16
  }

  /** What one instruction does: end the run, or go on that many instructions further. */
  datatype Effect = Halt(o: Outcome) | Skip(n: nat, a: word)

  function EffectOf(insn: Insn, d: Data, a: word): Effect {
    match insn
    case Load(off) => if ValidLoad(off) then Skip(0, d[off / 4]) else Halt(BadLoad)
    case Jump(test, k, jt, jf) => Skip(if Taken(test, a, k) then jt else jf, a)
    case Goto(skip) => Skip(skip, a)
    case Ret(k) => Halt(Verdict(k))
  }

  /** The kernel's interpreter. Jumps only go forward, so every run ends. */
  function Run(prog: seq<Insn>, d: Data, pc: nat, a: word): Outcome
    decreases |prog| - pc
  {
    if pc >= |prog| then OffEnd
    else match EffectOf(prog[pc], d, a)
      case Halt(o) => o
      case Skip(n, b) => Run(prog, d, pc + 1 + n, b)
  }

  /** A policy that stays within its own length (its end included) and loads whole fields. */
  predicate StaysAt(p: seq<Insn>, i: nat)
    requires i < |p|
  {
    match p[i]
    case Load(off) => ValidLoad(off)
    case Jump(_, _, jt, jf) => jt < 256 && jf < 256 && i + 1 + jt <= |p| && i + 1 + jf <= |p|
    case Goto(skip) => i + 1 + skip <= |p|
    case Ret(_) => true
  }

  predicate Stays(p: seq<Insn>) {
    forall i :: 0 <= i < |p| ==> StaysAt(p, i)
  }

  /** What a policy says about a call: it starts with the system call number loaded, and
      falling off its end is a trap. */
  function PolicyVerdict(p: seq<Insn>, d: Data): word {
    match Run(p, d, 0, d[0])
    case Verdict(k) => k
    case OffEnd => RET_TRAP
    case BadLoad => RET_TRAP
  }

  // ---- the assembler --------------------------------------------------------------

  class Filter {
    var f: seq<Insn>

    constructor ()
      ensures f == []
    {
      f := [];
    }

    method Disallow()
      modifies this
      ensures f == old(f) + [Ret(RET_TRAP)]
    {
      f := f + [Ret(RET_TRAP)];
    }

    method ExamineSyscall()
      modifies this
      ensures f == old(f) + [Load(SYSCALL_NR)]
    {
      f := f + [Load(SYSCALL_NR)];
    }

    method ValidateArchitectureAndJumpIfNeeded() returns (offset: nat)
      modifies this
      ensures f == old(f) + Prologue(1)
      ensures offset == |f| - 2
    {
      f := f + [Load(ARCH_NR)];
      f := f + [Jump(JEq, ARCH_X86_64, 2, 0)];
      f := f + [Jump(JEq, ARCH_I386, 1, 0)];
      Disallow();
      offset := |f| - 2;
    }

    /** False stands for the program's exit: the jump does not fit its byte. */
    method SetValidateArchitectureJumpTarget(offset: nat) returns (ok: bool)
      requires offset < |f|
      modifies this
      ensures ok <==> |old(f)| - offset - 1 < 256
      ensures f == if ok then old(f)[offset := Jump(JEq, ARCH_I386, |old(f)| - offset - 1, 0)] else old(f)
    {
      var length := |f| - offset - 1;
      if length % 256 != length { return false; }
      f := f[offset := Jump(JEq, ARCH_I386, length % 256, 0)];
      return true;
    }

    method Append(p: seq<Insn>)
      modifies this
      ensures f == old(f) + p
    {
      for i := 0 to |p|
        invariant f == old(f) + p[..i]
      {
        f := f + [p[i]];
      }
      assert p[..|p|] == p;
    }

    method AppendHalf(p: seq<Insn>)
      modifies this
      ensures f == old(f) + Half(p)
    {
      ExamineSyscall();
      Append(p);
      Disallow();
    }

    method BuildAppFilter(p64: seq<Insn>, p32: seq<Insn>) returns (ok: bool)
      requires f == []
      modifies this
      ensures ok <==> |p64| + 3 < 256
      ensures ok ==> f == Assembled(p64, p32)
    {
      Patched(p64);
      var secondary := ValidateArchitectureAndJumpIfNeeded();
      assert f == Prologue(1);
      AppendHalf(p64);
      ok := SetValidateArchitectureJumpTarget(secondary);
      if ok { AppendHalf(p32); }
    }
  }

  lemma Patched(p64: seq<Insn>)
    ensures var f := Prologue(1) + Half(p64);
      |Prologue(1)| == 4 && |f| == |p64| + 6
      && f[2 := Jump(JEq, ARCH_I386, |p64| + 3, 0)] == Prologue(|p64| + 3) + Half(p64)
  {}

  function Prologue(jump: nat): seq<Insn> {
    [Load(ARCH_NR), Jump(JEq, ARCH_X86_64, 2, 0), Jump(JEq, ARCH_I386, jump, 0), Ret(RET_TRAP)]
  }

  /** A policy's half: the system call number, the policy, and a trap behind it. */
  function Half(p: seq<Insn>): seq<Insn> { [Load(SYSCALL_NR)] + p + [Ret(RET_TRAP)] }

  /** The program BuildAppFilter leaves: prologue, primary half, secondary half. */
  function Assembled(p64: seq<Insn>, p32: seq<Insn>): seq<Insn> {
    Prologue(|p64| + 3) + Half(p64) + Half(p32)
  }

  // ---- its meaning ------------------------------------------------------------------

  /** The prologue sends x86_64 behind itself, i386 as far as its jump says, and traps the rest. */
  lemma PrologueDispatches(jump: nat, rest: seq<Insn>, d: Data)
    ensures var f := Prologue(jump) + rest;
      Run(f, d, 0, 0) ==
        (if d[1] == ARCH_X86_64 then Run(f, d, 4, d[1])
         else if d[1] == ARCH_I386 then Run(f, d, 3 + jump, d[1])
         else Verdict(RET_TRAP))
  {
    var f, head := Prologue(jump) + rest, Prologue(jump);
    assert f[0] == head[0] && f[1] == head[1] && f[2] == head[2] && f[3] == head[3];
    assert Run(f, d, 0, 0) == Run(f, d, 1, d[1]);
    if d[1] != ARCH_X86_64 {
      assert Run(f, d, 1, d[1]) == Run(f, d, 2, d[1]);
      if d[1] != ARCH_I386 { assert Run(f, d, 2, d[1]) == Run(f, d, 3, d[1]); }
    }
  }

  /** Where a policy's own run leaves it: inside, with an outcome, at its end, or behind it. */
  datatype Exit = Inside(o: Outcome) | AtEnd(a: word) | Beyond(far: nat, a: word)

  function Leaves(p: seq<Insn>, d: Data, i: nat, a: word): (x: Exit)
    ensures x.Beyond? ==> x.far > 0
    ensures x.Inside? ==> x.o != OffEnd
    decreases |p| - i
  {
    if i == |p| then AtEnd(a)
    else if i > |p| then Beyond(i - |p|, a)
    else match EffectOf(p[i], d, a)
      case Halt(o) => Inside(o)
      case Skip(n, b) => Leaves(p, d, i + 1 + n, b)
  }

  /** The policy's run on this call ends in the policy: with a verdict, or exactly at its end. */
  predicate EndsWithin(p: seq<Insn>, d: Data) {
    var x := Leaves(p, d, 0, d[0]);
    x.AtEnd? || (x.Inside? && x.o.Verdict?)
  }

  /** A policy that lies anywhere in a program does what it does alone, up to where its own run leaves it. */
  lemma {:induction false} Embedded(whole: seq<Insn>, base: nat, p: seq<Insn>, d: Data, i: nat, a: word)
    requires base + |p| <= |whole| && forall j :: 0 <= j < |p| ==> whole[base + j] == p[j]
    ensures Run(whole, d, base + i, a) ==
      (match Leaves(p, d, i, a)
       case Inside(o) => o
       case AtEnd(b) => Run(whole, d, base + |p|, b)
       case Beyond(far, b) => Run(whole, d, base + |p| + far, b))
    decreases |p| - i
  {
    if i < |p| {
      match EffectOf(p[i], d, a)
      case Halt(_) =>
      case Skip(n, b) => Embedded(whole, base, p, d, i + 1 + n, b);
    }
  }

  /** What a policy says alone, by where its run leaves it. */
  lemma {:induction false} AloneByExit(p: seq<Insn>, d: Data, i: nat, a: word)
    ensures Run(p, d, i, a) == if Leaves(p, d, i, a).Inside? then Leaves(p, d, i, a).o else OffEnd
    decreases |p| - i
  {
    if i < |p| {
      match EffectOf(p[i], d, a)
      case Halt(_) =>
      case Skip(n, b) => AloneByExit(p, d, i + 1 + n, b);
    }
  }

  /** A half lies at `base` in a program. */
  ghost predicate LiesAt(whole: seq<Insn>, base: nat, p: seq<Insn>) {
    && base + 2 + |p| <= |whole| && whole[base] == Load(SYSCALL_NR) && whole[base + 1 + |p|] == Ret(RET_TRAP)
    && forall j :: 0 <= j < |p| ==> whole[base + 1 + j] == p[j]
  }

  lemma HalvesLie(p64: seq<Insn>, p32: seq<Insn>)
    ensures var f := Assembled(p64, p32); |f| == |p64| + |p32| + 8 && LiesAt(f, 4, p64) && LiesAt(f, |p64| + 6, p32)
  {}

  /** One half of the filter, entered at its load of the system call number. */
  lemma HalfRuns(whole: seq<Insn>, base: nat, p: seq<Insn>, d: Data, a: word)
    requires LiesAt(whole, base, p)
    ensures Run(whole, d, base, a) ==
      (match Leaves(p, d, 0, d[0])
       case Inside(o) => o
       case AtEnd(_) => Verdict(RET_TRAP)
       case Beyond(far, b) => Run(whole, d, base + 1 + |p| + far, b))
  {
    assert Run(whole, d, base, a) == Run(whole, d, base + 1, d[0]);
    Embedded(whole, base + 1, p, d, 0, d[0]);
  }

  lemma HalfIsPolicy(whole: seq<Insn>, base: nat, p: seq<Insn>, d: Data, a: word)
    requires LiesAt(whole, base, p) && EndsWithin(p, d)
    ensures Run(whole, d, base, a) == Verdict(PolicyVerdict(p, d))
  {
    HalfRuns(whole, base, p, d, a);
    AloneByExit(p, d, 0, d[0]);
  }

  /** Where the filter goes: to one of its halves, or to the trap. */
  lemma Dispatch(p64: seq<Insn>, p32: seq<Insn>, d: Data)
    ensures var f := Assembled(p64, p32);
      Run(f, d, 0, 0) ==
        (if d[1] == ARCH_X86_64 then Run(f, d, 4, d[1])
         else if d[1] == ARCH_I386 then Run(f, d, |p64| + 6, d[1])
         else Verdict(RET_TRAP))
  {
    assert Assembled(p64, p32) == Prologue(|p64| + 3) + (Half(p64) + Half(p32));
    PrologueDispatches(|p64| + 3, Half(p64) + Half(p32), d);
  }

  /** For any two policies: a call on which its policy's run ends in the policy gets that policy's
      verdict (a trap at the policy's end), and every other architecture a trap. */
  lemma FilterMeaning(p64: seq<Insn>, p32: seq<Insn>, d: Data)
    requires d[1] == ARCH_X86_64 ==> EndsWithin(p64, d)
    requires d[1] == ARCH_I386 ==> EndsWithin(p32, d)
    ensures Run(Assembled(p64, p32), d, 0, 0) == Verdict(
              if d[1] == ARCH_X86_64 then PolicyVerdict(p64, d)
              else if d[1] == ARCH_I386 then PolicyVerdict(p32, d)
              else RET_TRAP)
  {
    var f := Assembled(p64, p32);
    Dispatch(p64, p32, d);
    HalvesLie(p64, p32);
    if d[1] == ARCH_X86_64 {
      HalfIsPolicy(f, 4, p64, d, d[1]);
    } else if d[1] == ARCH_I386 {
      HalfIsPolicy(f, |p64| + 6, p32, d, d[1]);
    }
  }

  /** A policy whose jumps stay within its length, and whose loads are whole fields, ends within itself on
      every call. */
  lemma {:induction false} StaysEndsWithin(p: seq<Insn>, d: Data, i: nat, a: word)
    requires Stays(p) && i <= |p|
    ensures var x := Leaves(p, d, i, a); x.AtEnd? || (x.Inside? && x.o.Verdict?)
    decreases |p| - i
  {
    if i < |p| {
      assert StaysAt(p, i);
      match EffectOf(p[i], d, a)
      case Halt(_) =>
      case Skip(n, b) => StaysEndsWithin(p, d, i + 1 + n, b);
    }
  }

  function Allows(n: nat): (p: seq<Insn>)
    ensures |p| == n && forall i :: 0 <= i < n ==> p[i] == Ret(RET_ALLOW)
  { seq(n, i => Ret(RET_ALLOW)) }

  /** Behind an x86_64 policy a run lands in the other half. */
  lemma LandsInOther(p64: seq<Insn>, d: Data)
    requires d[1] == ARCH_X86_64 && Leaves(p64, d, 0, d[0]).Beyond?
    ensures Run(Assembled(p64, Allows(Leaves(p64, d, 0, d[0]).far)), d, 0, 0) == Verdict(RET_ALLOW)
  {
    var x := Leaves(p64, d, 0, d[0]);
    var p32 := Allows(x.far);
    var f := Assembled(p64, p32);
    Dispatch(p64, p32, d);
    HalvesLie(p64, p32);
    HalfRuns(f, 4, p64, d, d[1]);
    LandsOnAllow(f, |p64| + 6, x.far, d, x.a);
  }

  lemma LandsOnAllow(f: seq<Insn>, base: nat, far: nat, d: Data, a: word)
    requires far > 0 && LiesAt(f, base, Allows(far))
    ensures Run(f, d, base + far - 1, a) == Verdict(RET_ALLOW)
  {
    var p := Allows(far);
    assert f[base + 1 + 0] == p[0] && f[base + 1 + (far - 1)] == p[far - 1];
    if far == 1 {
      assert Run(f, d, base, a) == Run(f, d, base + 1, d[0]);
    } else {
      assert f[base + 1 + (far - 2)] == p[far - 2];
    }
  }

  /** The x86_64 half is right on a call, whatever staying policy the other half holds, if and only if the
      x86_64 policy's run on that call ends in the policy. */
  lemma PrimaryExactly(p64: seq<Insn>, d: Data)
    requires d[1] == ARCH_X86_64
    ensures (forall p32 :: Stays(p32) ==> Run(Assembled(p64, p32), d, 0, 0) == Verdict(PolicyVerdict(p64, d)))
       <==> EndsWithin(p64, d)
  {
    var x := Leaves(p64, d, 0, d[0]);
    if EndsWithin(p64, d) {
      forall p32 | Stays(p32) ensures Run(Assembled(p64, p32), d, 0, 0) == Verdict(PolicyVerdict(p64, d)) {
        FilterMeaning(p64, p32, d);
      }
    } else {
      AloneByExit(p64, d, 0, d[0]);
      if x.Beyond? {
        assert Stays(Allows(x.far)) by { assert forall i :: 0 <= i < x.far ==> StaysAt(Allows(x.far), i); }
        LandsInOther(p64, d);
      } else {
        assert Stays([]);
        Dispatch(p64, [], d);
        HalvesLie(p64, []);
        HalfRuns(Assembled(p64, []), 4, p64, d, d[1]);
      }
    }
  }

  /** The i386 half is right on a call, whatever policy the other half holds, if and only if the i386
      policy's run on that call ends in the policy: behind it the program ends without a verdict. */
  lemma SecondaryExactly(p64: seq<Insn>, p32: seq<Insn>, d: Data)
    requires d[1] == ARCH_I386
    ensures Run(Assembled(p64, p32), d, 0, 0) == Verdict(PolicyVerdict(p32, d)) <==> EndsWithin(p32, d)
  {
    if EndsWithin(p32, d) {
      FilterMeaning(p64, p32, d);
    } else {
      Dispatch(p64, p32, d);
      HalvesLie(p64, p32);
      HalfRuns(Assembled(p64, p32), |p64| + 6, p32, d, d[1]);
    }
  }

  // ---- what a filter does for the tests policies are made of -----------------------------

  predicate Bit(w: nat, i: nat) {
    if i == 0 then w % 2 == 1 else Bit(w / 2, i - 1)
  }

  lemma {:induction false} BitOfZero(i: nat)
    ensures !Bit(0, i)
  {
    if i > 0 { BitOfZero(i - 1); }
  }

  lemma BothHave(a: nat, k: nat, i: nat)
    requires Bit(a, i) && Bit(k, i)
    ensures exists j: nat :: Bit(a, j) && Bit(k, j)
  {}

  lemma {:induction false} ShareBitMeans(a: nat, k: nat)
    ensures ShareBit(a, k) <==> exists i: nat :: Bit(a, i) && Bit(k, i)
  {
    if a == 0 || k == 0 {
      forall i: nat ensures !(Bit(a, i) && Bit(k, i)) { BitOfZero(i); }
    } else {
      ShareBitMeans(a / 2, k / 2);
      if a % 2 == 1 && k % 2 == 1 {
        BothHave(a, k, 0);
      } else if ShareBit(a / 2, k / 2) {
        var i: nat :| Bit(a / 2, i) && Bit(k / 2, i);
        BothHave(a, k, i + 1);
      } else {
        forall i: nat ensures !(Bit(a, i) && Bit(k, i)) {
          if i > 0 { assert !(Bit(a / 2, i - 1) && Bit(k / 2, i - 1)); }
        }
      }
    }
  }

  /** The filter answers every x86_64 call by the first policy and every i386 call by the second, allowing exactly if
      `yes`, and every call of another architecture by a trap: in the kernel's own numbers. */
  ghost predicate Answers(p: seq<Insn>, other: seq<Insn>, d: Data, yes: bool) {
    var v := Verdict(if yes then 0x7fff_0000 else 0x0003_0000);
    && (d[1] == 0xC000_003E ==> Run(Assembled(p, other), d, 0, 0) == v)
    && (d[1] == 0x4000_0003 ==> Run(Assembled(other, p), d, 0, 0) == v)
    && (d[1] != 0xC000_003E && d[1] != 0x4000_0003 ==> Run(Assembled(p, other), d, 0, 0) == Verdict(0x0003_0000))
  }

  lemma PolicyAnswers(p: seq<Insn>, other: seq<Insn>, d: Data, yes: bool)
    requires var x := Leaves(p, d, 0, d[0]); if yes then x == Inside(Verdict(0x7fff_0000)) else x.AtEnd?
    ensures Answers(p, other, d, yes)
  {
    AloneByExit(p, d, 0, d[0]);
    if d[1] == 0x4000_0003 { FilterMeaning(other, p, d); } else { FilterMeaning(p, other, d); }
  }

  /** A range of call numbers, as the generated policies test it. */
  lemma RangeAllowed(lo: word, hi: word, other: seq<Insn>, d: Data)
    requires lo <= hi
    ensures Answers([Jump(JGe, hi, 2, 0), Jump(JGe, lo, 0, 1), Ret(0x7fff_0000)], other, d, lo <= d[0] < hi)
  {
    var p := [Jump(JGe, hi, 2, 0), Jump(JGe, lo, 0, 1), Ret(0x7fff_0000)];
    assert Leaves(p, d, 0, d[0]) == if d[0] >= hi then Leaves(p, d, 3, d[0]) else Leaves(p, d, 1, d[0]);
    assert Leaves(p, d, 1, d[0]) == if d[0] >= lo then Leaves(p, d, 2, d[0]) else Leaves(p, d, 3, d[0]);
    PolicyAnswers(p, other, d, lo <= d[0] < hi);
  }

  lemma RangeAboveAllowed(lo: word, hi: word, other: seq<Insn>, d: Data)
    requires lo <= hi
    ensures Answers([Jump(JGt, hi, 2, 0), Jump(JGt, lo, 0, 1), Ret(0x7fff_0000)], other, d, lo < d[0] <= hi)
  {
    var p := [Jump(JGt, hi, 2, 0), Jump(JGt, lo, 0, 1), Ret(0x7fff_0000)];
    assert Leaves(p, d, 0, d[0]) == if d[0] > hi then Leaves(p, d, 3, d[0]) else Leaves(p, d, 1, d[0]);
    assert Leaves(p, d, 1, d[0]) == if d[0] > lo then Leaves(p, d, 2, d[0]) else Leaves(p, d, 3, d[0]);
    PolicyAnswers(p, other, d, lo < d[0] <= hi);
  }

  /** One call number, reached over a jump. */
  lemma NumberAllowed(nr: word, other: seq<Insn>, d: Data)
    ensures Answers([Goto(1), Ret(0), Jump(JEq, nr, 0, 1), Ret(0x7fff_0000)], other, d, d[0] == nr)
  {
    var p := [Goto(1), Ret(0), Jump(JEq, nr, 0, 1), Ret(0x7fff_0000)];
    assert Leaves(p, d, 0, d[0]) == Leaves(p, d, 2, d[0]);
    assert Leaves(p, d, 2, d[0]) == if d[0] == nr then Leaves(p, d, 3, d[0]) else Leaves(p, d, 4, d[0]);
    PolicyAnswers(p, other, d, d[0] == nr);
  }

  /** A mask against word w of the call: its number, its architecture, its address or one of its arguments. */
  lemma MaskAllowed(w: nat, mask: word, other: seq<Insn>, d: Data)
    requires w < 16
    ensures Answers([Load(4 * w), Jump(JSet, mask, 0, 1), Ret(0x7fff_0000)], other, d,
                    exists i: nat :: Bit(d[w], i) && Bit(mask, i))
  {
    var p := [Load(4 * w), Jump(JSet, mask, 0, 1), Ret(0x7fff_0000)];
    ShareBitMeans(d[w], mask);
    assert Leaves(p, d, 0, d[0]) == Leaves(p, d, 1, d[w]);
    assert Leaves(p, d, 1, d[w]) == if ShareBit(d[w], mask) then Leaves(p, d, 2, d[w]) else Leaves(p, d, 3, d[w]);
    PolicyAnswers(p, other, d, ShareBit(d[w], mask));
  }

  // ---- what the kernel checks before it installs a program ------------------------------

  const BPF_MAXINSNS: nat := 4096

  predicate InRange(f: seq<Insn>, i: nat)
    requires i < |f|
  {
    match f[i]
    case Load(off) => ValidLoad(off)
    case Jump(_, _, jt, jf) => jt < 256 && jf < 256 && i + 1 + jt < |f| && i + 1 + jf < |f|
    case Goto(skip) => i + 1 + skip < |f|
    case Ret(_) => true
  }

  /** The program ends in a return and every jump lands in it. */
  predicate Closed(f: seq<Insn>) {
    && f != [] && f[|f| - 1].Ret?
    && forall i :: 0 <= i < |f| ==> InRange(f, i)
  }

  predicate KernelAccepts(f: seq<Insn>) {
    |f| <= BPF_MAXINSNS && Closed(f)
  }

  lemma {:induction false} StaysInRange(p64: seq<Insn>, p32: seq<Insn>, i: nat)
    requires Stays(p64) && Stays(p32) && |p64| + 3 < 256 && i < |Assembled(p64, p32)|
    ensures InRange(Assembled(p64, p32), i)
  {
    var f := Assembled(p64, p32);
    if 5 <= i < 5 + |p64| {
      assert f[i] == p64[i - 5] && StaysAt(p64, i - 5);
    } else if 7 + |p64| <= i < |f| - 1 {
      assert f[i] == p32[i - 7 - |p64|] && StaysAt(p32, i - 7 - |p64|);
    }
  }

  /** What is handed to the kernel: the length is passed in 16 bits. */
  function Handed(f: seq<Insn>): seq<Insn> {
    f[..|f| % 0x1_0000]
  }

  /** A built filter is installed as it is exactly when it has at most 4096 instructions; under 65536 a
      longer one is refused. */
  lemma BuiltIsInstallable(p64: seq<Insn>, p32: seq<Insn>)
    requires Stays(p64) && Stays(p32) && |p64| + 3 < 256
    ensures var f := Assembled(p64, p32);
      && (KernelAccepts(Handed(f)) && Handed(f) == f <==> |f| <= BPF_MAXINSNS)
      && (|f| < 0x1_0000 ==> (KernelAccepts(Handed(f)) <==> |f| <= BPF_MAXINSNS))
  {
    var f := Assembled(p64, p32);
    forall i | 0 <= i < |f| ensures InRange(f, i) { StaysInRange(p64, p32, i); }
    if |f| < 0x1_0000 { assert Handed(f) == f; }
  }

  /** Where the parts of an assembled filter lie in its first c instructions. */
  lemma CutLies(p64: seq<Insn>, p32: seq<Insn>, c: nat)
    requires c <= |p64| + 7 + |p32|
    ensures var f := Assembled(p64, p32)[..c];
      && (c >= 3 ==> f[2] == Jump(JEq, ARCH_I386, |p64| + 3, 0))
      && (c > |p64| + 6 ==> f[|p64| + 6] == Load(SYSCALL_NR))
      && forall j :: 0 <= j < c - |p64| - 7 ==> f[7 + |p64| + j] == p32[j]
  {}

  lemma CutFront(p64: seq<Insn>, p32: seq<Insn>, c: nat, i: nat)
    requires Stays(p64) && |p64| + 3 < 256 && |p64| + 8 <= c <= |p64| + 7 + |p32| && i < |p64| + 7
    ensures InRange(Assembled(p64, p32)[..c], i)
  {
    var f := Assembled(p64, p32)[..c];
    if 5 <= i < 5 + |p64| {
      assert f[i] == p64[i - 5] && StaysAt(p64, i - 5);
    }
  }

  /** Behind the x86_64 half and the next load, a cut filter is the beginning of the i386 policy. */
  lemma CutIsClosed(p64: seq<Insn>, p32: seq<Insn>, c: nat)
    requires Stays(p64) && |p64| + 3 < 256 && |p64| + 8 <= c <= |p64| + 7 + |p32|
    ensures Closed(Assembled(p64, p32)[..c]) <==> Closed(p32[..c - |p64| - 7])
  {
    var f, q := Assembled(p64, p32)[..c], p32[..c - |p64| - 7];
    CutLies(p64, p32, c);
    forall i | 0 <= i < |p64| + 7 ensures InRange(f, i) { CutFront(p64, p32, c, i); }
    assert forall j :: 0 <= j < |q| ==> f[7 + |p64| + j] == q[j];
    forall j | 0 <= j < |q| ensures InRange(f, 7 + |p64| + j) <==> InRange(q, j) {}
    if Closed(q) {
      forall i | 0 <= i < |f| ensures InRange(f, i) {
        if i >= 7 + |p64| { assert InRange(q, i - 7 - |p64|); }
      }
    }
  }

  /** Of a filter of 65536 instructions or more the kernel gets the first c, the length modulo 65536. It
      accepts them exactly if they reach into the i386 policy, are at most 4096, and the policy's part
      is a program of its own. */
  lemma CutExactly(p64: seq<Insn>, p32: seq<Insn>)
    requires Stays(p64) && |p64| + 3 < 256 && |Assembled(p64, p32)| >= 0x1_0000
    ensures var f := Assembled(p64, p32);
      var c := |f| % 0x1_0000;
      KernelAccepts(Handed(f)) <==> |p64| + 8 <= c <= BPF_MAXINSNS && Closed(p32[..c - |p64| - 7])
  {
    var f := Assembled(p64, p32);
    var c := |f| % 0x1_0000;
    if c <= BPF_MAXINSNS {
      CutLies(p64, p32, c);
      if c >= |p64| + 8 {
        CutIsClosed(p64, p32, c);
      } else {
        TooShort(p64, p32, c);
      }
    }
  }

  /** A cut in front of the i386 policy leaves the prologue's jump without a target, or ends in a load. */
  lemma TooShort(p64: seq<Insn>, p32: seq<Insn>, c: nat)
    requires c < |p64| + 8 && c <= |p64| + 7 + |p32|
    ensures !Closed(Assembled(p64, p32)[..c])
  {
    var f := Assembled(p64, p32)[..c];
    CutLies(p64, p32, c);
    assert 3 <= c <= |p64| + 6 ==> !InRange(f, 2);
  }

  /** So a long filter may be cut and installed: here the i386 policy has 65536 instructions, and the first
      is all that is left of it. */
  lemma LongFilterIsCut(p32: seq<Insn>)
    requires |p32| == 0x1_0000 && forall i :: 0 <= i < |p32| ==> p32[i] == Ret(RET_ALLOW)
    ensures var f := Assembled([], p32); KernelAccepts(Handed(f)) && |Handed(f)| == 8 && Handed(f) != f
  {
    assert p32[..1] == [Ret(RET_ALLOW)];
    CutExactly([], p32);
  }
}
