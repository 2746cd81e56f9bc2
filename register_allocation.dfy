/**
 * The emission pass of the assembly generator (`regAlloc` and `run`):
 * on-the-fly register allocation from a free list of t0..t6, released at a
 * variable's recorded last use, and one RISC-V line per loaded instruction.
 */
module RegisterAllocation {
  import opened Wrappers
  import opened IR
  import opened InstructionSelection

  /** The initial free list. */
  const REGISTERS: seq<string> := ["t0", "t1", "t2", "t3", "t4", "t5", "t6"]

  /** The allocator's state: variable bindings and the free list (taken from the head, returned at the tail). */
  datatype AllocState = AllocState(regMap: map<IRVariable, string>, pool: seq<string>)

  /** The outcome of `regAlloc`: success (or the "Not Enough regs" exception), the register, the new state. */
  datatype Allocation = Allocation(ok: bool, reg: string, state: AllocState)

  /** Every register the allocator holds, free or bound, is one of t0..t6. */
  predicate RegistersFromPool(s: AllocState) {
    (forall r :: r in s.pool ==> r in REGISTERS) && (forall v :: v in s.regMap ==> s.regMap[v] in REGISTERS)
  }

  /**
   * `regAlloc(v, pos)`. A bound variable gets its register back, which also
   * returns to the tail of the free list when `pos` is its last use (the
   * binding stays). An unbound variable fails on an empty free list and
   * otherwise takes and binds the list's head.
   */
  function Allocate(s: AllocState, lastUse: map<IRValue, int>, v: IRVariable, pos: int): (a: Allocation)
    requires v in s.regMap ==> Var(v) in lastUse
    ensures a.ok <==> (v in s.regMap || |s.pool| > 0)
    ensures !a.ok ==> a.state == s
    ensures a.ok ==> a.state.regMap == s.regMap[v := a.reg]
    ensures v in s.regMap ==>
      a.reg == s.regMap[v] && a.state.pool == s.pool + (if pos == lastUse[Var(v)] then [a.reg] else [])
    ensures v !in s.regMap && a.ok ==> a.reg == s.pool[0] && a.state.pool == s.pool[1..]
    ensures RegistersFromPool(s) ==> RegistersFromPool(a.state) && (a.ok ==> a.reg in REGISTERS)
  {
    if v in s.regMap then
      var reg := s.regMap[v];
      Allocation(true, reg, if pos == lastUse[Var(v)] then s.(pool := s.pool + [reg]) else s)
    else if |s.pool| == 0 then
      Allocation(false, "", s)
    else
      var reg := s.pool[0];
      Allocation(true, reg, AllocState(s.regMap[v := reg], s.pool[1..]))
  }

  // ---------------------------------------------------------------- line formats

  /** `kind.name().toLowerCase()` for the binary kinds. */
  function LowerName(k: BinaryKind): string
  {
    match k
    case ADD => "add"
    case SUB => "sub"
    case MUL => "mul"
  }

  /** The binary opcode: the lower-case kind name, with 'i' appended for an immediate RHS. */
  function Opcode(k: BinaryKind, immediate: bool): string
  {
    if immediate then LowerName(k) + "i" else LowerName(k)
  }

  /** The opcode alone tells the immediate form apart and names the kind. */
  lemma OpcodeMarksImmediate(k: BinaryKind, immediate: bool)
    ensures |Opcode(k, immediate)| == (if immediate then 4 else 3)
    ensures Opcode(k, immediate)[..3] == LowerName(k)
    ensures Opcode(k, immediate)[|Opcode(k, immediate)| - 1] == 'i' <==> immediate
  {
  }

  /** The mnemonic a loaded instruction is emitted with. */
  function Mnemonic(inst: Instruction): string
  {
    match inst
    case Binary(k, _, _, r) => Opcode(k, r.Imm?)
    case Mov(_, from) => if from.Imm? then "li" else "mv"
    case Ret(v) => if v.Imm? then "li" else "mv"
  }

  /** The pieces of a line written one after the other. */
  function Join(parts: seq<string>): string
    decreases |parts|
  {
    if parts == [] then "" else parts[0] + Join(parts[1..])
  }

  lemma {:induction false} JoinAppend(a: seq<string>, b: seq<string>)
    ensures Join(a + b) == Join(a) + Join(b)
    decreases |a|
  {
    if a != [] {
      assert (a + b)[0] == a[0] && (a + b)[1..] == a[1..] + b;
      assert Join(a + b) == a[0] + Join(a[1..] + b);
      assert Join(a) == a[0] + Join(a[1..]);
      JoinAppend(a[1..], b);
      assert a[0] + (Join(a[1..]) + Join(b)) == (a[0] + Join(a[1..])) + Join(b);
    } else {
      assert a + b == b;
    }
  }

  /** `"\t%s %s, %s, %s\t\t#  %s"`. */
  function ThreeOperandLine(op: string, dst: string, src1: string, src2: string, comment: string): string
  {
    Join(["\t", op, " ", dst, ", ", src1, ", ", src2, "\t\t#  ", comment])
  }

  /** `"\t%s %s, %s\t\t#  %s"`. */
  function TwoOperandLine(op: string, dst: string, src: string, comment: string): string
  {
    Join(["\t", op, " ", dst, ", ", src, "\t\t#  ", comment])
  }

  /** An immediate operand is written as its decimal value. */
  function ImmOperand(v: IRValue): Allocation
    requires v.Imm?
  {
    Allocation(true, IntText(v.value), AllocState(map[], []))
  }

  /** The result of emitting one instruction: success, the line, and the allocator state. */
  datatype LineResult = LineResult(ok: bool, line: string, state: AllocState)

  /**
   * One iteration of `run`. A binary instruction allocates its RHS (unless
   * immediate), then its LHS, then its result; MOV its source (unless
   * immediate), then its result; RET its value into a0. `show` is
   * `Instruction.toString`, echoed as a comment.
   */
  function EmitInstruction(inst: Instruction, pos: int, lastUse: map<IRValue, int>, s: AllocState,
                           show: Instruction -> string): LineResult
    requires LowerableInst(inst, lastUse)
  {
    match inst
    case Binary(k, res, l, r) =>
      var rhs := if r.Imm? then ImmOperand(r).(state := s) else Allocate(s, lastUse, r.variable, pos);
      if !rhs.ok then LineResult(false, "", rhs.state)
      else
        var lhs := Allocate(rhs.state, lastUse, l.variable, pos);
        if !lhs.ok then LineResult(false, "", lhs.state)
        else
          var dst := Allocate(lhs.state, lastUse, res, pos);
          if !dst.ok then LineResult(false, "", dst.state)
          else LineResult(true, ThreeOperandLine(Opcode(k, r.Imm?), dst.reg, lhs.reg, rhs.reg, show(inst)), dst.state)
    case Mov(res, from) =>
      var src := if from.Imm? then ImmOperand(from).(state := s) else Allocate(s, lastUse, from.variable, pos);
      if !src.ok then LineResult(false, "", src.state)
      else
        var dst := Allocate(src.state, lastUse, res, pos);
        if !dst.ok then LineResult(false, "", dst.state)
        else LineResult(true, TwoOperandLine(Mnemonic(inst), dst.reg, src.reg, show(inst)), dst.state)
    case Ret(v) =>
      if v.Imm? then LineResult(true, TwoOperandLine("li", "a0", IntText(v.value), show(inst)), s)
      else
        var src := Allocate(s, lastUse, v.variable, pos);
        if !src.ok then LineResult(false, "", src.state)
        else LineResult(true, TwoOperandLine("mv", "a0", src.reg, show(inst)), src.state)
  }

  /** The lines emitted, the final allocator state, and the position whose allocation failed, if any. */
  datatype Emission = Emission(lines: seq<string>, state: AllocState, failedAt: Option<nat>)

  /** The emission loop from position `pos`, after the lines `acc`. */
  function EmitFrom(instr: seq<Instruction>, lastUse: map<IRValue, int>, pos: nat, s: AllocState,
                    acc: seq<string>, show: Instruction -> string): Emission
    requires pos <= |instr| && Lowerable(instr, lastUse)
    decreases |instr| - pos
  {
    if pos == |instr| then Emission(acc, s, None)
    else
      var o := EmitInstruction(instr[pos], pos, lastUse, s, show);
      if !o.ok then Emission(acc, o.state, Some(pos))
      else EmitFrom(instr, lastUse, pos + 1, o.state, acc + [o.line], show)
  }

  // ---------------------------------------------------------------- properties

  /** Every line starts with its mnemonic; a RET line moves into a0. */
  function LinePrefix(inst: Instruction): string
  {
    if inst.Ret? then Join(["\t", Mnemonic(inst), " ", "a0", ", "]) else Join(["\t", Mnemonic(inst), " "])
  }

  predicate IsPrefix(p: string, s: string) {
    |p| <= |s| && s[..|p|] == p
  }

  /** A line built from the prefix's pieces and more starts with the prefix. */
  lemma JoinPrefix(a: seq<string>, b: seq<string>)
    ensures IsPrefix(Join(a), Join(a + b))
  {
    JoinAppend(a, b);
    assert (Join(a) + Join(b))[..|Join(a)|] == Join(a);
  }

  lemma BinaryLineShape(k: BinaryKind, res: IRVariable, l: IRValue, r: IRValue, pos: int,
                        lastUse: map<IRValue, int>, s: AllocState, show: Instruction -> string)
    requires LowerableInst(Binary(k, res, l, r), lastUse)
    ensures var inst := Binary(k, res, l, r); var o := EmitInstruction(inst, pos, lastUse, s, show);
      o.ok ==> IsPrefix(LinePrefix(inst), o.line)
  {
    var inst := Binary(k, res, l, r);
    var rhs := if r.Imm? then ImmOperand(r).(state := s) else Allocate(s, lastUse, r.variable, pos);
    var lhs := Allocate(rhs.state, lastUse, l.variable, pos);
    var dst := Allocate(lhs.state, lastUse, res, pos);
    var p := ["\t", Opcode(k, r.Imm?), " "];
    var q := [dst.reg, ", ", lhs.reg, ", ", rhs.reg, "\t\t#  ", show(inst)];
    JoinPrefix(p, q);
    assert p + q == ["\t", Opcode(k, r.Imm?), " ", dst.reg, ", ", lhs.reg, ", ", rhs.reg, "\t\t#  ", show(inst)];
  }

  lemma MovLineShape(res: IRVariable, from: IRValue, pos: int,
                     lastUse: map<IRValue, int>, s: AllocState, show: Instruction -> string)
    requires LowerableInst(Mov(res, from), lastUse)
    ensures var inst := Mov(res, from); var o := EmitInstruction(inst, pos, lastUse, s, show);
      o.ok ==> IsPrefix(LinePrefix(inst), o.line)
  {
    var inst := Mov(res, from);
    var src := if from.Imm? then ImmOperand(from).(state := s) else Allocate(s, lastUse, from.variable, pos);
    var dst := Allocate(src.state, lastUse, res, pos);
    var p := ["\t", Mnemonic(inst), " "];
    var q := [dst.reg, ", ", src.reg, "\t\t#  ", show(inst)];
    JoinPrefix(p, q);
    assert p + q == ["\t", Mnemonic(inst), " ", dst.reg, ", ", src.reg, "\t\t#  ", show(inst)];
  }

  lemma RetLineShape(v: IRValue, pos: int, lastUse: map<IRValue, int>, s: AllocState, show: Instruction -> string)
    requires LowerableInst(Ret(v), lastUse)
    ensures var inst := Ret(v); var o := EmitInstruction(inst, pos, lastUse, s, show);
      o.ok ==> IsPrefix(LinePrefix(inst), o.line)
  {
    var inst := Ret(v);
    var src := if v.Imm? then IntText(v.value) else Allocate(s, lastUse, v.variable, pos).reg;
    var p := ["\t", Mnemonic(inst), " ", "a0", ", "];
    var q := [src, "\t\t#  ", show(inst)];
    JoinPrefix(p, q);
    assert p + q == ["\t", Mnemonic(inst), " ", "a0", ", ", src, "\t\t#  ", show(inst)];
  }

  /** One instruction's allocations keep registers within t0..t6, and fail only on an empty free list. */
  lemma EmitInstructionState(inst: Instruction, pos: int, lastUse: map<IRValue, int>, s: AllocState,
                             show: Instruction -> string)
    requires LowerableInst(inst, lastUse)
    ensures var o := EmitInstruction(inst, pos, lastUse, s, show);
      (RegistersFromPool(s) ==> RegistersFromPool(o.state)) && (!o.ok ==> o.state.pool == [])
  {
  }

  /**
   * A line emitted for an instruction starts with its mnemonic (li or mv
   * for MOV and RET by operand kind, a RET moving into a0); registers stay
   * within t0..t6; a failure means the free list was empty.
   */
  lemma EmitInstructionShape(inst: Instruction, pos: int, lastUse: map<IRValue, int>, s: AllocState,
                             show: Instruction -> string)
    requires LowerableInst(inst, lastUse)
    ensures var o := EmitInstruction(inst, pos, lastUse, s, show);
      o.ok ==> IsPrefix(LinePrefix(inst), o.line)
    ensures var o := EmitInstruction(inst, pos, lastUse, s, show);
      RegistersFromPool(s) ==> RegistersFromPool(o.state)
    ensures var o := EmitInstruction(inst, pos, lastUse, s, show);
      !o.ok ==> o.state.pool == []
  {
    EmitInstructionState(inst, pos, lastUse, s, show);
    match inst
    case Binary(k, res, l, r) => BinaryLineShape(k, res, l, r, pos, lastUse, s, show);
    case Mov(res, from) => MovLineShape(res, from, pos, lastUse, s, show);
    case Ret(v) => RetLineShape(v, pos, lastUse, s, show);
  }

  /** Where emission stopped: the failing position, or the end. */
  function StopOf(e: Emission, instr: seq<Instruction>): nat
  {
    if e.failedAt.Some? then e.failedAt.value else |instr|
  }

  /**
   * Emission writes exactly one line per instruction, in order, up to the
   * instruction whose allocation failed, if any.
   */
  lemma {:induction false} EmitLines(instr: seq<Instruction>, lastUse: map<IRValue, int>, pos: nat, s: AllocState,
                                     acc: seq<string>, show: Instruction -> string)
    requires pos <= |instr| && Lowerable(instr, lastUse)
    ensures var e := EmitFrom(instr, lastUse, pos, s, acc, show);
      && pos <= StopOf(e, instr) <= |instr|
      && |e.lines| == |acc| + StopOf(e, instr) - pos && e.lines[..|acc|] == acc
    decreases |instr| - pos
  {
    if pos < |instr| {
      var o := EmitInstruction(instr[pos], pos, lastUse, s, show);
      if o.ok {
        EmitInstructionShape(instr[pos], pos, lastUse, s, show);
        var acc' := acc + [o.line];
        EmitLines(instr, lastUse, pos + 1, o.state, acc', show);
        var e := EmitFrom(instr, lastUse, pos + 1, o.state, acc', show);
        assert e == EmitFrom(instr, lastUse, pos, s, acc, show);
        assert e.lines[..|acc'|] == acc';
        assert e.lines[..|acc|] == acc by {
          assert e.lines[..|acc'|][..|acc|] == e.lines[..|acc|];
        }
        assert e.lines[|acc|] == o.line by {
          assert e.lines[..|acc'|][|acc|] == e.lines[|acc|];
        }
      }
    }
  }

  /** Each of `lines` starts with the mnemonic of the instruction at the same index. */
  predicate LinesShaped(instr: seq<Instruction>, lines: seq<string>)
    decreases |lines|
  {
    |lines| <= |instr| &&
    (lines == [] ||
     (IsPrefix(LinePrefix(instr[|lines| - 1]), lines[|lines| - 1]) && LinesShaped(instr, lines[..|lines| - 1])))
  }

  lemma {:induction false} LinesShapedAt(instr: seq<Instruction>, lines: seq<string>, j: nat)
    requires LinesShaped(instr, lines) && j < |lines|
    ensures j < |instr| && IsPrefix(LinePrefix(instr[j]), lines[j])
    decreases |lines|
  {
    if j < |lines| - 1 {
      LinesShapedAt(instr, lines[..|lines| - 1], j);
    }
  }

  /**
   * Emission keeps every line aligned with its instruction: line j is the
   * one for instruction j and starts with that instruction's mnemonic (a
   * RET line moving into a0).
   */
  lemma {:induction false} EmitShaped(instr: seq<Instruction>, lastUse: map<IRValue, int>, pos: nat, s: AllocState,
                                      acc: seq<string>, show: Instruction -> string)
    requires pos <= |instr| && Lowerable(instr, lastUse) && |acc| == pos && LinesShaped(instr, acc)
    ensures LinesShaped(instr, EmitFrom(instr, lastUse, pos, s, acc, show).lines)
    decreases |instr| - pos
  {
    if pos < |instr| {
      var o := EmitInstruction(instr[pos], pos, lastUse, s, show);
      if o.ok {
        EmitInstructionShape(instr[pos], pos, lastUse, s, show);
        var acc' := acc + [o.line];
        assert acc'[..|acc'| - 1] == acc;
        EmitShaped(instr, lastUse, pos + 1, o.state, acc', show);
      }
    }
  }

  /**
   * Registers never come from anywhere but t0..t6; and when emission stops
   * early, it is because the free list ran dry on an unbound variable.
   */
  lemma {:induction false} EmitRegisters(instr: seq<Instruction>, lastUse: map<IRValue, int>, pos: nat, s: AllocState,
                                         acc: seq<string>, show: Instruction -> string)
    requires pos <= |instr| && Lowerable(instr, lastUse)
    ensures var e := EmitFrom(instr, lastUse, pos, s, acc, show);
      RegistersFromPool(s) ==> RegistersFromPool(e.state)
    ensures var e := EmitFrom(instr, lastUse, pos, s, acc, show);
      e.failedAt.Some? ==> e.state.pool == []
    decreases |instr| - pos
  {
    if pos < |instr| {
      var o := EmitInstruction(instr[pos], pos, lastUse, s, show);
      EmitInstructionShape(instr[pos], pos, lastUse, s, show);
      if o.ok {
        EmitRegisters(instr, lastUse, pos + 1, o.state, acc + [o.line], show);
      }
    }
  }

  /**
   * Registers are taken RHS first, then LHS, then result: with three
   * distinct unbound variables the RHS gets the head of the free list.
   */
  lemma BinaryAllocationOrder(k: BinaryKind, res: IRVariable, a: IRVariable, b: IRVariable, pos: int,
                              lastUse: map<IRValue, int>, s: AllocState, show: Instruction -> string)
    requires res != a && res != b && a != b
    requires res !in s.regMap && a !in s.regMap && b !in s.regMap && |s.pool| >= 3
    requires Var(res) in lastUse && Var(a) in lastUse && Var(b) in lastUse
    ensures var inst := Binary(k, res, Var(a), Var(b));
      EmitInstruction(inst, pos, lastUse, s, show)
        == LineResult(true, ThreeOperandLine(Opcode(k, false), s.pool[2], s.pool[1], s.pool[0], show(inst)),
                      AllocState(s.regMap[b := s.pool[0]][a := s.pool[1]][res := s.pool[2]], s.pool[3..]))
  {
    assert s.pool[1..][1..] == s.pool[2..];
    assert s.pool[2..][1..] == s.pool[3..];
  }

  /**
   * Release keeps the binding: `x = x + c` at x's last use allocates x
   * twice at that position, so x's register goes back to the free list
   * twice.
   */
  lemma SelfUpdateReleasesTwice(k: BinaryKind, x: IRVariable, c: Int32, pos: int,
                                lastUse: map<IRValue, int>, s: AllocState, show: Instruction -> string)
    requires x in s.regMap && Var(x) in lastUse && lastUse[Var(x)] == pos
    ensures var o := EmitInstruction(Binary(k, x, Var(x), Imm(c)), pos, lastUse, s, show);
      && o.ok && o.state.regMap == s.regMap
      && o.state.pool == s.pool + [s.regMap[x], s.regMap[x]]
  {
    var r := s.regMap[x];
    assert s.regMap[x := r] == s.regMap;
    assert s.pool + [r] + [r] == s.pool + [r, r];
  }

  /**
   * A variable whose first allocation is at its last use takes the head of
   * the free list and keeps it: this instruction releases nothing.
   */
  lemma NoReleaseOnFirstAllocation(x: IRVariable, c: Int32, pos: int,
                                   lastUse: map<IRValue, int>, s: AllocState, show: Instruction -> string)
    requires x !in s.regMap && |s.pool| > 0 && Var(x) in lastUse && lastUse[Var(x)] == pos
    ensures var o := EmitInstruction(Mov(x, Imm(c)), pos, lastUse, s, show);
      && o.ok && o.state.regMap == s.regMap[x := s.pool[0]] && o.state.pool == s.pool[1..]
  {
  }
}
