/** The seccomp program of the task launcher (apps/code-runner/native/launch.c): rules
    written with macros, compiled to classic BPF with relative jumps. */
module SyscallFilter {
  import opened Wrappers

  datatype Verdict = Allow | Deny | KillProcess

  /** struct seccomp_data, read by 32-bit words of a little-endian machine. */
  datatype Data = Data(nr: bv32, arch: bv32, instruction: bv64, args: seq<bv64>)

  datatype Instruction =
    | LdAbs(offset: nat)
    | Jeq(k: bv32, jt: nat, jf: nat)
    | Jset(k: bv32, jt: nat, jf: nat)
    | Ret(verdict: Verdict)

  type Code = seq<Instruction>

  function LowWord(x: bv64): bv32 { (x & 0xFFFF_FFFF) as bv32 }

  function HighWord(x: bv64): bv32 { (x >> 32) as bv32 }

  predicate SharesBits(word: bv32, flags: bv32) { word & flags != 0 }

  /** The two words make up the argument, the low one first in memory. */
  lemma WordsOf(x: bv64)
    ensures ((HighWord(x) as bv64) << 32) | (LowWord(x) as bv64) == x
  {
  }

  lemma Distribute(word: bv32, a: bv32, b: bv32)
    ensures word & (a | b) == (word & a) | (word & b)
  {
  }

  lemma NoBitsInEither(x: bv32, y: bv32)
    ensures x | y == 0 <==> x == 0 && y == 0
  {
  }

  /** A test finds any of the flags. */
  lemma SharedBits(word: bv32, a: bv32, b: bv32)
    ensures SharesBits(word, a | b) <==> SharesBits(word, a) || SharesBits(word, b)
    ensures !SharesBits(word, 0)
  {
    Distribute(word, a, b);
    NoBitsInEither(word & a, word & b);
  }

  /** A single flag is found where its bit is set. */
  lemma SharedBit(word: bv32, i: bv5)
    ensures SharesBits(word, 1 << i) <==> (word >> i) & 1 == 1
  {
  }

  const NR := 0
  const ARCH := 4

  /** Where the n-th 64-bit argument starts in the call data. */
  function Arg(n: nat): nat { 16 + 8 * n }

  function Load(d: Data, offset: nat): Option<bv32> {
    if offset == NR then Some(d.nr)
    else if offset == ARCH then Some(d.arch)
    else if offset == 8 then Some(LowWord(d.instruction))
    else if offset == 12 then Some(HighWord(d.instruction))
    else if offset < 16 || (offset - 16) / 8 >= |d.args| then None
    else
      var arg, byte := d.args[(offset - 16) / 8], (offset - 16) % 8;
      if byte == 0 then Some(LowWord(arg)) else if byte == 4 then Some(HighWord(arg)) else None
  }

  /** The kernel's interpreter: jumps go forward, past the next instruction. None stands for
      running off the end or loading outside the data. */
  function Run(code: Code, pc: nat, acc: bv32, d: Data): Option<Verdict>
    decreases |code| - pc
  {
    if pc >= |code| then None
    else match code[pc]
         case LdAbs(offset) =>
           (match Load(d, offset)
            case None => None
            case Some(word) => Run(code, pc + 1, word, d))
         case Jeq(k, jt, jf) => Run(code, pc + 1 + (if acc == k then jt else jf), acc, d)
         case Jset(k, jt, jf) => Run(code, pc + 1 + (if SharesBits(acc, k) then jt else jf), acc, d)
         case Ret(verdict) => Some(verdict)
  }

  // ----- Rules -----

  datatype Rule =
    | AllowCall(nr: bv32)                                 // ALLOW
    | FlagsForbidden(nr: bv32, arg: nat, flags: bv32)     // READ_OPEN, and the mmap block
    | FlagsRequired(nr: bv32, arg: nat, flags: bv32)      // the clone block
    | ValuesAllowed(nr: bv32, arg: nat, values: seq<bv32>) // the fcntl and ioctl blocks

  function Block(rule: Rule): Code {
    match rule
    case AllowCall(nr) => [Jeq(nr, 0, 1), Ret(Allow)]
    case FlagsForbidden(nr, arg, flags) => [Jeq(nr, 0, 4), LdAbs(Arg(arg)), Jset(flags, 0, 1), Ret(Deny), Ret(Allow)]
    case FlagsRequired(nr, arg, flags) => [Jeq(nr, 0, 4), LdAbs(Arg(arg)), Jset(flags, 1, 0), Ret(Deny), Ret(Allow)]
    case ValuesAllowed(nr, arg, values) =>
      [Jeq(nr, 0, |values| + 3), LdAbs(Arg(arg))] + Comparisons(values) + [Ret(Deny), Ret(Allow)]
  }

  /** Each match jumps over the remaining comparisons and the refusal. */
  function Comparisons(values: seq<bv32>): (code: Code)
    ensures |code| == |values|
  {
    if values == [] then [] else [Jeq(values[0], |values|, 0)] + Comparisons(values[1..])
  }

  function Blocks(rules: seq<Rule>): Code {
    if rules == [] then [] else Block(rules[0]) + Blocks(rules[1..])
  }

  function Filter(arch: bv32, rules: seq<Rule>): Code {
    [LdAbs(ARCH), Jeq(arch, 1, 0), Ret(KillProcess), LdAbs(NR)] + Blocks(rules) + [Ret(Deny)]
  }

  // ----- What the rules mean -----

  function Decision(rule: Rule, d: Data): Verdict
    requires rule.AllowCall? || rule.arg < |d.args|
  {
    match rule
    case AllowCall(_) => Allow
    case FlagsForbidden(_, arg, flags) => if SharesBits(LowWord(d.args[arg]), flags) then Deny else Allow
    case FlagsRequired(_, arg, flags) => if SharesBits(LowWord(d.args[arg]), flags) then Allow else Deny
    case ValuesAllowed(_, arg, values) => if LowWord(d.args[arg]) in values then Allow else Deny
  }

  predicate ArgumentsExist(rules: seq<Rule>, d: Data) {
    forall i :: 0 <= i < |rules| ==> rules[i].AllowCall? || rules[i].arg < |d.args|
  }

  /** The first rule for the call decides; a call without a rule is refused. */
  function FirstMatch(rules: seq<Rule>, d: Data): Verdict
    requires ArgumentsExist(rules, d)
  {
    if rules == [] then Deny
    else if rules[0].nr == d.nr then Decision(rules[0], d)
    else FirstMatch(rules[1..], d)
  }

  // ----- Compiled code and rules agree -----

  /** The code found at a position. */
  predicate At(code: Code, pc: nat, part: Code) { pc + |part| <= |code| && code[pc..pc + |part|] == part }

  lemma AtIndex(code: Code, pc: nat, part: Code, i: nat)
    requires At(code, pc, part) && i < |part|
    ensures code[pc + i] == part[i]
  {
    assert code[pc..pc + |part|][i] == part[i];
  }

  lemma AtSplit(code: Code, pc: nat, a: Code, b: Code)
    requires At(code, pc, a + b)
    ensures At(code, pc, a) && At(code, pc + |a|, b)
  {
    assert code[pc..pc + |a|] == (a + b)[..|a|];
    assert code[pc + |a|..pc + |a + b|] == (a + b)[|a|..];
  }

  lemma RunReturn(code: Code, pc: nat, acc: bv32, d: Data)
    requires pc < |code| && code[pc].Ret?
    ensures Run(code, pc, acc, d) == Some(code[pc].verdict)
  {}

  lemma LoadArg(d: Data, n: nat)
    requires n < |d.args|
    ensures Load(d, Arg(n)) == Some(LowWord(d.args[n]))
  {
    assert (8 * n) / 8 == n && (8 * n) % 8 == 0;
  }

  /** The comparison chain answers Allow on a listed value and Deny otherwise. */
  lemma {:induction false} RunComparisons(code: Code, pc: nat, acc: bv32, d: Data, values: seq<bv32>)
    requires At(code, pc, Comparisons(values) + [Ret(Deny), Ret(Allow)])
    ensures Run(code, pc, acc, d) == Some(if acc in values then Allow else Deny)
    decreases |values|
  {
    var end := [Ret(Deny), Ret(Allow)];
    var part := Comparisons(values) + end;
    AtIndex(code, pc, part, |values|);
    AtIndex(code, pc, part, |values| + 1);
    if values != [] {
      AtIndex(code, pc, part, 0);
      assert part == [Jeq(values[0], |values|, 0)] + (Comparisons(values[1..]) + end);
      AtSplit(code, pc, [Jeq(values[0], |values|, 0)], Comparisons(values[1..]) + end);
      if acc == values[0] {
        assert Run(code, pc, acc, d) == Run(code, pc + 1 + |values|, acc, d);
      } else {
        RunComparisons(code, pc + 1, acc, d, values[1..]);
      }
    }
  }

  /** After its first instruction a block either goes on inside or has been skipped. */
  lemma RunGuard(code: Code, pc: nat, d: Data, rule: Rule)
    requires At(code, pc, Block(rule)) && !rule.AllowCall? && rule.arg < |d.args|
    ensures Run(code, pc, d.nr, d)
         == if rule.nr == d.nr then Run(code, pc + 2, LowWord(d.args[rule.arg]), d) else Run(code, pc + |Block(rule)|, d.nr, d)
  {
    AtIndex(code, pc, Block(rule), 0);
    AtIndex(code, pc, Block(rule), 1);
    LoadArg(d, rule.arg);
    assert code[pc] == Jeq(rule.nr, 0, |Block(rule)| - 1);
    assert Run(code, pc, d.nr, d) == Run(code, pc + 1 + (if rule.nr == d.nr then 0 else |Block(rule)| - 1), d.nr, d);
  }

  lemma RunFlagsBlock(code: Code, pc: nat, d: Data, rule: Rule)
    requires At(code, pc, Block(rule)) && (rule.FlagsForbidden? || rule.FlagsRequired?) && rule.arg < |d.args|
    ensures Run(code, pc + 2, LowWord(d.args[rule.arg]), d) == Some(Decision(rule, d))
  {
    hide Run, LowWord, SharesBits;
    assert |Block(rule)| == 5 && Block(rule)[2] == (if rule.FlagsForbidden? then Jset(rule.flags, 0, 1) else Jset(rule.flags, 1, 0));
    assert Block(rule)[3] == Ret(Deny) && Block(rule)[4] == Ret(Allow);
    AtIndex(code, pc, Block(rule), 2);
    AtIndex(code, pc, Block(rule), 3);
    AtIndex(code, pc, Block(rule), 4);
    RunFlagTest(code, pc + 2, LowWord(d.args[rule.arg]), d, rule.flags, Block(rule)[2]);
  }

  lemma RunValuesBlock(code: Code, pc: nat, d: Data, rule: Rule)
    requires At(code, pc, Block(rule)) && rule.ValuesAllowed? && rule.arg < |d.args|
    ensures Run(code, pc + 2, LowWord(d.args[rule.arg]), d) == Some(Decision(rule, d))
  {
    hide Run;
    var start, end := [Jeq(rule.nr, 0, |rule.values| + 3), LdAbs(Arg(rule.arg))], [Ret(Deny), Ret(Allow)];
    assert Block(rule) == start + (Comparisons(rule.values) + end);
    AtSplit(code, pc, start, Comparisons(rule.values) + end);
    RunComparisons(code, pc + 2, LowWord(d.args[rule.arg]), d, rule.values);
  }

  /** A block answers its own call. Any other call falls through to the next block with the
      call number still in the accumulator. */
  lemma RunBlock(code: Code, pc: nat, d: Data, rule: Rule)
    requires At(code, pc, Block(rule)) && (rule.AllowCall? || rule.arg < |d.args|)
    ensures Run(code, pc, d.nr, d)
         == if rule.nr == d.nr then Some(Decision(rule, d)) else Run(code, pc + |Block(rule)|, d.nr, d)
  {
    if rule.AllowCall? {
      AtIndex(code, pc, Block(rule), 0);
      AtIndex(code, pc, Block(rule), 1);
    } else {
      RunGuard(code, pc, d, rule);
      if rule.ValuesAllowed? {
        RunValuesBlock(code, pc, d, rule);
      } else {
        RunFlagsBlock(code, pc, d, rule);
      }
    }
  }

  /** A flag test, then a refusal, then an admission. */
  lemma RunFlagTest(code: Code, pc: nat, acc: bv32, d: Data, flags: bv32, test: Instruction)
    requires pc + 3 <= |code| && code[pc] == test && code[pc + 1] == Ret(Deny) && code[pc + 2] == Ret(Allow)
    requires test == Jset(flags, 0, 1) || test == Jset(flags, 1, 0)
    ensures Run(code, pc, acc, d) == Some(if SharesBits(acc, flags) == (test == Jset(flags, 1, 0)) then Allow else Deny)
  {
    hide SharesBits;
    var target := pc + 1 + (if SharesBits(acc, flags) then test.jt else test.jf);
    assert Run(code, pc, acc, d) == Run(code, target, acc, d);
  }

  lemma {:induction false} RunBlocks(code: Code, pc: nat, d: Data, rules: seq<Rule>)
    requires At(code, pc, Blocks(rules) + [Ret(Deny)]) && ArgumentsExist(rules, d)
    ensures Run(code, pc, d.nr, d) == Some(FirstMatch(rules, d))
    decreases |rules|
  {
    hide Block, Decision, Run;
    if rules == [] {
      AtIndex(code, pc, Blocks(rules) + [Ret(Deny)], 0);
      RunReturn(code, pc, d.nr, d);
    } else {
      assert Blocks(rules) + [Ret(Deny)] == Block(rules[0]) + (Blocks(rules[1..]) + [Ret(Deny)]);
      AtSplit(code, pc, Block(rules[0]), Blocks(rules[1..]) + [Ret(Deny)]);
      RunBlock(code, pc, d, rules[0]);
      if rules[0].nr != d.nr {
        RunBlocks(code, pc + |Block(rules[0])|, d, rules[1..]);
      }
    }
  }

  /** For every rule list, call number and 64-bit arguments, the jump code returns what the
      first matching rule says; a foreign architecture is killed before any rule. */
  lemma FilterIsFirstMatch(arch: bv32, rules: seq<Rule>, d: Data, acc: bv32)
    requires ArgumentsExist(rules, d)
    ensures Run(Filter(arch, rules), 0, acc, d) == Some(if d.arch == arch then FirstMatch(rules, d) else KillProcess)
  {
    var code := Filter(arch, rules);
    var start := [LdAbs(ARCH), Jeq(arch, 1, 0), Ret(KillProcess), LdAbs(NR)];
    var rest := Blocks(rules) + [Ret(Deny)];
    assert code == start + rest;
    assert At(code, 0, start + rest);
    AtSplit(code, 0, start, rest);
    assert Run(code, 0, acc, d) == Run(code, 1, d.arch, d);
    assert Run(code, 1, d.arch, d) == Run(code, if d.arch == arch then 3 else 2, d.arch, d);
    if d.arch == arch {
      assert Run(code, 3, d.arch, d) == Run(code, 4, d.nr, d);
      RunBlocks(code, 4, d, rules);
    }
  }

  /** A later rule for a call that already has one is dead, as ALLOW(mmap) is after the mmap block. */
  lemma {:induction false} ShadowedRuleIsDead(front: seq<Rule>, dead: Rule, back: seq<Rule>, d: Data)
    requires ArgumentsExist(front + [dead] + back, d)
    requires exists i :: 0 <= i < |front| && front[i].nr == dead.nr
    ensures ArgumentsExist(front + back, d)
    ensures FirstMatch(front + [dead] + back, d) == FirstMatch(front + back, d)
    decreases |front|
  {
    var all, without := front + [dead] + back, front + back;
    forall i | 0 <= i < |without|
      ensures without[i].AllowCall? || without[i].arg < |d.args|
    {
      assert without[i] == all[if i < |front| then i else i + 1];
    }
    assert all[0] == front[0] && without[0] == front[0];
    assert all[1..] == front[1..] + [dead] + back;
    assert ArgumentsExist(all[1..], d) && ArgumentsExist(without[1..], d);
    assert without[1..] == front[1..] + back;
    if front[0].nr != d.nr {
      if front[0].nr == dead.nr {
        SkippedRule(front[1..], dead, back, d);
      } else {
        assert exists i :: 0 <= i < |front[1..]| && front[1..][i].nr == dead.nr by {
          var i :| 0 <= i < |front| && front[i].nr == dead.nr;
          assert front[1..][i - 1] == front[i];
        }
        ShadowedRuleIsDead(front[1..], dead, back, d);
      }
    }
  }

  lemma {:induction false} SkippedRule(front: seq<Rule>, other: Rule, back: seq<Rule>, d: Data)
    requires other.nr != d.nr && ArgumentsExist(front + [other] + back, d) && ArgumentsExist(front + back, d)
    ensures FirstMatch(front + [other] + back, d) == FirstMatch(front + back, d)
    decreases |front|
  {
    if front == [] {
      assert ([] + [other] + back)[1..] == [] + back;
    } else {
      assert (front + [other] + back)[1..] == front[1..] + [other] + back;
      assert (front + back)[1..] == front[1..] + back;
      SkippedRule(front[1..], other, back, d);
    }
  }

  // ----- What the kernel demands of a program -----

  /** Every jump and load is in range and the last instruction returns. */
  predicate WellFormed(code: Code, argCount: nat) {
    code != [] && code[|code| - 1].Ret?
    && forall pc :: 0 <= pc < |code| ==> InstructionFits(code[pc], |code| - pc - 1, argCount)
  }

  /** The kernel's BPF_MAXINSNS. */
  const MAX_INSTRUCTIONS := 4096

  predicate Loadable(code: Code, argCount: nat) { WellFormed(code, argCount) && |code| <= MAX_INSTRUCTIONS }

  predicate Aligned(offset: nat, argCount: nat) { offset % 4 == 0 && offset < 16 + 8 * argCount }

  lemma ArgIsAligned(n: nat, argCount: nat)
    requires n < argCount
    ensures Aligned(Arg(n), argCount)
  {
    assert 16 + 8 * n == 4 * (4 + 2 * n);
  }

  predicate InstructionFits(i: Instruction, left: int, argCount: nat) {
    match i
    case LdAbs(offset) => Aligned(offset, argCount)
    case Jeq(_, jt, jf) => jt < left && jf < left && jt < 256 && jf < 256
    case Jset(_, jt, jf) => jt < left && jf < left && jt < 256 && jf < 256
    case Ret(_) => true
  }

  /** The aligned offsets inside the data are exactly those that can be loaded. */
  lemma LoadsAreAligned(d: Data, offset: nat)
    ensures Load(d, offset).Some? <==> Aligned(offset, |d.args|)
  {
    hide LowWord, HighWord;
    if offset >= 16 {
      assert offset == 16 + 8 * ((offset - 16) / 8) + (offset - 16) % 8;
      assert offset % 4 == (offset - 16) % 8 % 4;
    }
  }

  /** What the kernel accepts always returns a verdict, wherever it is entered. */
  lemma {:induction false} AcceptedCodeReturns(code: Code, pc: nat, acc: bv32, d: Data)
    requires WellFormed(code, |d.args|) && pc < |code|
    ensures Run(code, pc, acc, d).Some?
    decreases |code| - pc
  {
    hide Aligned, Load, SharesBits;
    assert InstructionFits(code[pc], |code| - pc - 1, |d.args|);
    match code[pc]
    case LdAbs(offset) =>
      LoadsAreAligned(d, offset);
      if pc + 1 < |code| {
        AcceptedCodeReturns(code, pc + 1, Load(d, offset).value, d);
      }
    case Jeq(k, jt, jf) =>
      AcceptedCodeReturns(code, pc + 1 + (if acc == k then jt else jf), acc, d);
    case Jset(k, jt, jf) =>
      AcceptedCodeReturns(code, pc + 1 + (if SharesBits(acc, k) then jt else jf), acc, d);
    case Ret(_) =>
  }

  predicate Encodable(rule: Rule, argCount: nat) {
    (rule.AllowCall? || rule.arg < argCount) && (rule.ValuesAllowed? ==> |rule.values| + 3 < 256)
  }

  lemma {:induction false} ComparisonsFit(values: seq<bv32>, i: nat, argCount: nat)
    requires i < |values| < 256
    ensures InstructionFits(Comparisons(values)[i], |values| + 2 - i - 1, argCount)
  {
    if i > 0 {
      ComparisonsFit(values[1..], i - 1, argCount);
    }
  }

  lemma ValuesBlockFits(rule: Rule, i: nat, argCount: nat, after: nat)
    requires rule.ValuesAllowed? && i < |rule.values| + 4 && Encodable(rule, argCount) && after > 0
    ensures |Block(rule)| == |rule.values| + 4
    ensures InstructionFits(Block(rule)[i], |rule.values| + 4 + after - i - 1, argCount)
  {
    hide Aligned;
    var start, middle, end := [Jeq(rule.nr, 0, |rule.values| + 3), LdAbs(Arg(rule.arg))], Comparisons(rule.values), [Ret(Deny), Ret(Allow)];
    Piecewise(start, middle, end, i);
    ArgIsAligned(rule.arg, argCount);
    if 2 <= i < |middle| + 2 {
      ComparisonsFit(rule.values, i - 2, argCount);
    }
  }

  lemma Piecewise(a: Code, b: Code, c: Code, i: nat)
    requires i < |a| + |b| + |c|
    ensures (a + b + c)[i] == if i < |a| then a[i] else if i < |a| + |b| then b[i - |a|] else c[i - |a| - |b|]
  {}

  lemma BlockFits(rule: Rule, i: nat, argCount: nat, after: nat)
    requires i < |Block(rule)| && Encodable(rule, argCount) && after > 0
    ensures InstructionFits(Block(rule)[i], |Block(rule)| + after - i - 1, argCount)
  {
    match rule
    case ValuesAllowed(_, _, _) => ValuesBlockFits(rule, i, argCount, after);
    case AllowCall(_) =>
    case _ => FlagsBlockFits(rule, i, argCount, after);
  }

  lemma FlagsBlockFits(rule: Rule, i: nat, argCount: nat, after: nat)
    requires (rule.FlagsForbidden? || rule.FlagsRequired?) && i < 5 && Encodable(rule, argCount) && after > 0
    ensures InstructionFits(Block(rule)[i], 5 + after - i - 1, argCount)
  {
    hide Aligned;
    var block := Block(rule);
    ArgIsAligned(rule.arg, argCount);
    assert block[0] == Jeq(rule.nr, 0, 4) && block[1] == LdAbs(Arg(rule.arg)) && block[2].Jset? && block[3].Ret? && block[4].Ret?;
    assert i == 0 || i == 1 || i == 2 || i == 3 || i == 4;
  }

  lemma {:induction false} BlocksFit(rules: seq<Rule>, i: nat, argCount: nat)
    requires i < |Blocks(rules)| && forall r :: 0 <= r < |rules| ==> Encodable(rules[r], argCount)
    ensures InstructionFits(Blocks(rules)[i], |Blocks(rules)| + 1 - i - 1, argCount)
    decreases |rules|
  {
    var first, rest := Block(rules[0]), Blocks(rules[1..]);
    if i < |first| {
      BlockFits(rules[0], i, argCount, |rest| + 1);
    } else {
      BlocksFit(rules[1..], i - |first|, argCount);
    }
  }

  function BlockSize(rule: Rule): nat {
    match rule
    case AllowCall(_) => 2
    case ValuesAllowed(_, _, values) => |values| + 4
    case _ => 5
  }

  function TotalSize(rules: seq<Rule>): nat { if rules == [] then 0 else BlockSize(rules[0]) + TotalSize(rules[1..]) }

  lemma {:induction false} SizeOfBlocks(rules: seq<Rule>)
    ensures |Blocks(rules)| == TotalSize(rules)
  {
    if rules != [] {
      SizeOfBlocks(rules[1..]);
    }
  }

  lemma FilterIsWellFormed(arch: bv32, rules: seq<Rule>)
    requires forall r :: 0 <= r < |rules| ==> Encodable(rules[r], 6)
    ensures WellFormed(Filter(arch, rules), 6)
  {
    var code, start := Filter(arch, rules), [LdAbs(ARCH), Jeq(arch, 1, 0), Ret(KillProcess), LdAbs(NR)];
    forall pc: nat | pc < |code|
      ensures InstructionFits(code[pc], |code| - pc - 1, 6)
    {
      Piecewise(start, Blocks(rules), [Ret(Deny)], pc);
      if 4 <= pc < |code| - 1 {
        BlocksFit(rules, pc - 4, 6);
      } else {
        assert pc == 0 || pc == 1 || pc == 2 || pc == 3 || pc == |code| - 1;
      }
    }
  }

  /** Rules with at most 252 listed values compile to a program that the kernel accepts, exactly as
      long as the blocks leave room for the five instructions around them. */
  lemma FilterIsLoadable(arch: bv32, rules: seq<Rule>)
    requires forall r :: 0 <= r < |rules| ==> Encodable(rules[r], 6)
    ensures Loadable(Filter(arch, rules), 6) <==> TotalSize(rules) + 5 <= MAX_INSTRUCTIONS
  {
    hide WellFormed, Blocks;
    SizeOfBlocks(rules);
    FilterIsWellFormed(arch, rules);
  }

  // ----- The launcher's own list -----

  /** Call numbers and flags of one architecture; open exists on some only. */
  datatype Platform = Platform(
    open: Option<bv32>, openat: bv32, mmap: bv32, clone: bv32, fcntl: bv32, ioctl: bv32,
    openFlags: bv32, mapShared: bv32, cloneThread: bv32, fcntlCommands: seq<bv32>, ioctlCommands: seq<bv32>,
    plain: seq<bv32>)
  {
    function Rules(): seq<Rule> {
      if open.Some? then [FlagsForbidden(open.value, 1, openFlags)] + RulesEverywhere() else RulesEverywhere()
    }

    function RulesEverywhere(): seq<Rule> {
      [FlagsForbidden(openat, 2, openFlags)]
      + ([FlagsForbidden(mmap, 3, mapShared)]
         + ([FlagsRequired(clone, 0, cloneThread)]
            + ([ValuesAllowed(fcntl, 1, fcntlCommands)]
               + ([ValuesAllowed(ioctl, 1, ioctlCommands)]
                  + Plain(plain)))))
    }
  }

  function Plain(calls: seq<bv32>): seq<Rule> {
    if calls == [] then [] else [AllowCall(calls[0])] + Plain(calls[1..])
  }

  lemma {:induction false} PlainMeans(calls: seq<bv32>, d: Data)
    ensures ArgumentsExist(Plain(calls), d)
    ensures FirstMatch(Plain(calls), d) == if d.nr in calls then Allow else Deny
  {
    if calls != [] {
      PlainMeans(calls[1..], d);
      assert Plain(calls)[1..] == Plain(calls[1..]);
    }
  }

  lemma FirstOrRest(first: Rule, rest: seq<Rule>, d: Data)
    requires ArgumentsExist(rest, d) && (first.AllowCall? || first.arg < |d.args|)
    ensures ArgumentsExist([first] + rest, d)
    ensures FirstMatch([first] + rest, d) == if first.nr == d.nr then Decision(first, d) else FirstMatch(rest, d)
  {
    assert ([first] + rest)[1..] == rest;
  }

  lemma RulesEverywhereMean(p: Platform, d: Data)
    requires |d.args| == 6
    ensures ArgumentsExist(p.RulesEverywhere(), d)
    ensures FirstMatch(p.RulesEverywhere(), d)
         == if d.nr == p.openat then Decision(FlagsForbidden(p.openat, 2, p.openFlags), d)
            else if d.nr == p.mmap then Decision(FlagsForbidden(p.mmap, 3, p.mapShared), d)
            else if d.nr == p.clone then Decision(FlagsRequired(p.clone, 0, p.cloneThread), d)
            else if d.nr == p.fcntl then Decision(ValuesAllowed(p.fcntl, 1, p.fcntlCommands), d)
            else if d.nr == p.ioctl then Decision(ValuesAllowed(p.ioctl, 1, p.ioctlCommands), d)
            else if d.nr in p.plain then Allow else Deny
  {
    hide Decision, FirstMatch, ArgumentsExist;
    var r0 := Plain(p.plain);
    var r1 := [ValuesAllowed(p.ioctl, 1, p.ioctlCommands)] + r0;
    var r2 := [ValuesAllowed(p.fcntl, 1, p.fcntlCommands)] + r1;
    var r3 := [FlagsRequired(p.clone, 0, p.cloneThread)] + r2;
    var r4 := [FlagsForbidden(p.mmap, 3, p.mapShared)] + r3;
    PlainMeans(p.plain, d);
    FirstOrRest(ValuesAllowed(p.ioctl, 1, p.ioctlCommands), r0, d);
    FirstOrRest(ValuesAllowed(p.fcntl, 1, p.fcntlCommands), r1, d);
    FirstOrRest(FlagsRequired(p.clone, 0, p.cloneThread), r2, d);
    FirstOrRest(FlagsForbidden(p.mmap, 3, p.mapShared), r3, d);
    FirstOrRest(FlagsForbidden(p.openat, 2, p.openFlags), r4, d);
  }

  /** What a task may call: files only for reading, no shared mappings (although mmap is also
      in the plain list), clone only for threads, listed fcntl and ioctl commands, and the
      plain calls. */
  lemma LauncherAllows(p: Platform, d: Data)
    requires |d.args| == 6
    ensures ArgumentsExist(p.Rules(), d)
    ensures FirstMatch(p.Rules(), d) == Allow <==>
              if p.open == Some(d.nr) then !SharesBits(LowWord(d.args[1]), p.openFlags)
              else if d.nr == p.openat then !SharesBits(LowWord(d.args[2]), p.openFlags)
              else if d.nr == p.mmap then !SharesBits(LowWord(d.args[3]), p.mapShared)
              else if d.nr == p.clone then SharesBits(LowWord(d.args[0]), p.cloneThread)
              else if d.nr == p.fcntl then LowWord(d.args[1]) in p.fcntlCommands
              else if d.nr == p.ioctl then LowWord(d.args[1]) in p.ioctlCommands
              else d.nr in p.plain
  {
    hide SharesBits, LowWord, FirstMatch, ArgumentsExist;
    RulesEverywhereMean(p, d);
    if p.open.Some? {
      FirstOrRest(FlagsForbidden(p.open.value, 1, p.openFlags), p.RulesEverywhere(), d);
    }
  }
}
