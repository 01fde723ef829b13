/** The syscall filter of the sandbox worker: the builder of its classic BPF program and
    the meaning of that program under a small interpreter. */
module SeccompFilter {
  const U8 := 0x100
  const U16 := 0x1_0000
  const U32 := 0x1_0000_0000

  const LOAD := 0x20
  const JUMP_EQ := 0x15
  const JUMP_GE := 0x35
  const RETURN := 0x06

  const KILL := 0x8000_0000
  const DENY := 0x0005_0001
  const ALLOW := 0x7FFF_0000
  const X86_64 := 0xC000_003E

  /** One instruction as the kernel sees it: fields truncated to their C widths. */
  datatype Filter = Filter(code: nat, jt: nat, jf: nat, k: nat)

  /** The fields a filter can read: the syscall number at offset 0, the architecture at 4. */
  datatype Call = Call(nr: nat, arch: nat)

  function Rule(code: int, jt: int, jf: int, k: int): Filter {
    Filter(code % U16, jt % U8, jf % U8, k % U32)
  }

  function Field(call: Call, offset: nat): nat {
    if offset == 0 then call.nr else if offset == 4 then call.arch else 0
  }

  datatype Outcome = Verdict(value: nat) | RanOff | BadInstruction

  /** Runs the program from `pc` with accumulator `acc`. Jumps only go forward. */
  function Execute(program: seq<Filter>, pc: nat, acc: nat, call: Call): Outcome
    decreases |program| - pc
  {
    if pc >= |program| then RanOff
    else
      var f := program[pc];
      if f.code == RETURN then Verdict(f.k)
      else if f.code == LOAD then Execute(program, pc + 1, Field(call, f.k), call)
      else if f.code == JUMP_EQ then Execute(program, pc + 1 + (if acc == f.k then f.jt else f.jf), acc, call)
      else if f.code == JUMP_GE then Execute(program, pc + 1 + (if acc >= f.k then f.jt else f.jf), acc, call)
      else BadInstruction
  }

  /** The fixed head: architecture check, x32 range, and the old x32 numbers. */
  const HEAD: seq<Filter> := [
    Rule(LOAD, 0, 0, 4), Rule(JUMP_EQ, 1, 0, X86_64), Rule(RETURN, 0, 0, KILL),
    Rule(LOAD, 0, 0, 0),
    Rule(JUMP_GE, 0, 1, 0x4000_0000), Rule(RETURN, 0, 0, DENY),
    Rule(JUMP_GE, 0, 2, 512), Rule(JUMP_GE, 1, 0, 548), Rule(RETURN, 0, 0, DENY)]

  /** The program layout: head, a test and a denial per number, and a final allow. */
  predicate IsFilterProgram(program: seq<Filter>, numbers: seq<int>) {
    && |program| == |HEAD| + 2 * |numbers| + 1
    && program[..|HEAD|] == HEAD
    && (forall i :: 0 <= i < |numbers| ==>
          program[|HEAD| + 2 * i] == Rule(JUMP_EQ, 0, 1, numbers[i])
          && program[|HEAD| + 2 * i + 1] == Rule(RETURN, 0, 0, DENY))
    && program[|program| - 1] == Rule(RETURN, 0, 0, ALLOW)
  }

  predicate Listed(nr: nat, numbers: seq<int>) { exists i :: 0 <= i < |numbers| && numbers[i] % U32 == nr }

  /** What the filter is for. */
  function Decision(call: Call, numbers: seq<int>): nat {
    if call.arch != X86_64 then KILL
    else if call.nr >= 0x4000_0000 || 512 <= call.nr < 548 || Listed(call.nr, numbers) then DENY
    else ALLOW
  }

  /** Builds the rule list with `extend` in a loop. */
  method BuildRules(numbers: seq<int>) returns (rules: seq<Filter>)
    ensures IsFilterProgram(rules, numbers)
    ensures forall call: Call :: Execute(rules, 0, 0, call) == Verdict(Decision(call, numbers))
  {
    rules := HEAD;
    for n := 0 to |numbers|
      invariant |rules| == |HEAD| + 2 * n && rules[..|HEAD|] == HEAD
      invariant forall i :: 0 <= i < n ==>
                  rules[|HEAD| + 2 * i] == Rule(JUMP_EQ, 0, 1, numbers[i])
                  && rules[|HEAD| + 2 * i + 1] == Rule(RETURN, 0, 0, DENY)
    {
      rules := rules + [Rule(JUMP_EQ, 0, 1, numbers[n]), Rule(RETURN, 0, 0, DENY)];
    }
    rules := rules + [Rule(RETURN, 0, 0, ALLOW)];
    forall call: Call ensures Execute(rules, 0, 0, call) == Verdict(Decision(call, numbers)) {
      ProgramDecides(rules, numbers, call);
    }
  }

  /** From test `n` on, the program denies exactly the numbers listed from there. */
  lemma {:induction false} TailDecides(program: seq<Filter>, numbers: seq<int>, n: nat, call: Call)
    requires IsFilterProgram(program, numbers) && n <= |numbers|
    ensures Execute(program, |HEAD| + 2 * n, call.nr, call)
            == Verdict(if Listed(call.nr, numbers[n..]) then DENY else ALLOW)
    decreases |numbers| - n
  {
    if n < |numbers| {
      TailDecides(program, numbers, n + 1, call);
      assert numbers[n..][1..] == numbers[n + 1..];
      if numbers[n] % U32 == call.nr {
        assert numbers[n..][0] % U32 == call.nr;
      } else if Listed(call.nr, numbers[n..]) {
        var i :| 0 <= i < |numbers[n..]| && numbers[n..][i] % U32 == call.nr;
        assert numbers[n + 1..][i - 1] % U32 == call.nr;
      }
    }
  }

  lemma HeadAt(program: seq<Filter>, numbers: seq<int>, i: nat)
    requires IsFilterProgram(program, numbers) && i < |HEAD|
    ensures program[i] == HEAD[i]
  {
    assert program[..|HEAD|][i] == program[i];
  }

  /** The whole program always returns, and returns the decision. */
  lemma ProgramDecides(program: seq<Filter>, numbers: seq<int>, call: Call)
    requires IsFilterProgram(program, numbers)
    ensures Execute(program, 0, 0, call) == Verdict(Decision(call, numbers))
  {
    forall i | 0 <= i < |HEAD| ensures program[i] == HEAD[i] { HeadAt(program, numbers, i); }
    assert numbers[0..] == numbers;
    TailDecides(program, numbers, 0, call);
    var nr := call.nr;
    assert Execute(program, 7, nr, call) == Execute(program, if nr >= 548 then 9 else 8, nr, call);
    assert Execute(program, 6, nr, call) == Execute(program, if nr >= 512 then 7 else 9, nr, call);
    assert Execute(program, 4, nr, call) == Execute(program, if nr >= 0x4000_0000 then 5 else 6, nr, call);
    assert Execute(program, 3, call.arch, call) == Execute(program, 4, nr, call);
    assert Execute(program, 1, call.arch, call) == Execute(program, if call.arch == X86_64 then 3 else 2, call.arch, call);
  }
}
