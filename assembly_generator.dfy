/**
 * The assembly generator object: `loadIR`, `regAlloc` and `run` as
 * methods over its fields, each proved against the definitions of
 * InstructionSelection and RegisterAllocation.
 */
module AssemblyGeneration {
  import opened Wrappers
  import opened IR
  import opened InstructionSelection
  import opened RegisterAllocation

  class AssemblyGenerator {
    /** The loaded instruction list. */
    var instr: seq<Instruction>
    /** Last position at which each value is used. */
    var lastUse: map<IRValue, int>
    /** The register each variable holds. */
    var regMap: map<IRVariable, string>
    /** The free registers. */
    var myRegs: seq<string>
    /** The assembly lines produced so far. */
    var asmList: seq<string>
    /** The process-wide supply behind `IRVariable.temp()`. */
    const temps: TempSupply

    /** The loaded code can be lowered, and every register held is one of t0..t6. */
    ghost predicate Valid()
      reads this
    {
      LoadedInvariant(Loaded(instr, lastUse, 0)) && RegistersFromPool(AllocState(regMap, myRegs))
    }

    constructor (temps: TempSupply)
      ensures instr == [] && lastUse == map[] && regMap == map[] && myRegs == REGISTERS && asmList == []
      ensures this.temps == temps && Valid()
    {
      instr := [];
      lastUse := map[];
      regMap := map[];
      myRegs := REGISTERS;
      asmList := [];
      this.temps := temps;
    }

    /** Two immediates: one MOV of their sum, the result recorded. */
    static lemma AdvanceFold(instr: seq<Instruction>, lu: map<IRValue, int>, n: nat, k: BinaryKind, res: IRVariable, first: IRValue, second: IRValue, pos: nat)
      requires first.Imm? && second.Imm?
      ensures Advance(Loaded(instr, lu, n), Select(Binary(k, res, first, second), pos, Temp(n)))
        == Loaded(instr + [Mov(res, Imm(WrapAdd(first.value, second.value)))], lu[Var(res) := pos], n)
    {
      FoldByAddition(k, res, first.value, second.value, pos, Temp(n));
      assert lu[Var(res) := pos] == Record(lu, {Var(res)}, pos);
    }

    /** MUL with an immediate, or SUB with it on the left: a fresh temporary, all recorded one position on. */
    static lemma AdvanceMaterialize(instr: seq<Instruction>, lu: map<IRValue, int>, n: nat, k: BinaryKind, res: IRVariable, first: IRValue, second: IRValue, pos: nat)
      requires first.Imm? != second.Imm? && (k == MUL || (k == SUB && first.Imm?))
      ensures var imm := if first.Imm? then first else second;
        var other := if first.Imm? then second else first;
        Advance(Loaded(instr, lu, n), Select(Binary(k, res, first, second), pos, Temp(n)))
          == Loaded(instr + [Mov(Temp(n), imm), Binary(k, res, Var(Temp(n)), other)],
                    lu[Var(Temp(n)) := pos + 1][other := pos + 1][Var(res) := pos + 1], n + 1)
    {
      MaterializeImmediate(k, res, first, second, pos, Temp(n));
      var other := if first.Imm? then second else first;
      assert lu[Var(Temp(n)) := pos + 1][other := pos + 1][Var(res) := pos + 1]
        == Record(lu, {Var(Temp(n)), other, Var(res)}, pos + 1);
      assert instr + [Mov(Temp(n), if first.Imm? then first else second), Binary(k, res, Var(Temp(n)), other)]
        == instr + Select(Binary(k, res, first, second), pos, Temp(n)).emitted;
    }

    /** ADD with the immediate on the left: appended swapped. */
    static lemma AdvanceSwap(instr: seq<Instruction>, lu: map<IRValue, int>, n: nat, k: BinaryKind, res: IRVariable, first: IRValue, second: IRValue, pos: nat)
      requires first.Imm? && !second.Imm? && k == ADD
      ensures Advance(Loaded(instr, lu, n), Select(Binary(k, res, first, second), pos, Temp(n)))
        == Loaded(instr + [Swap(Binary(k, res, first, second))], lu[second := pos][Var(res) := pos], n)
    {
      SwapOrDrop(k, res, first, second, pos, Temp(n));
      assert lu[second := pos][Var(res) := pos] == Record(lu, {second, Var(res)}, pos);
    }

    /** ADD or SUB with the immediate on the right: nothing appended, its variables recorded. */
    static lemma AdvanceDrop(instr: seq<Instruction>, lu: map<IRValue, int>, n: nat, k: BinaryKind, res: IRVariable, first: IRValue, second: IRValue, pos: nat)
      requires !first.Imm? && second.Imm? && k != MUL
      ensures Advance(Loaded(instr, lu, n), Select(Binary(k, res, first, second), pos, Temp(n)))
        == Loaded(instr, lu[first := pos][Var(res) := pos], n)
    {
      SwapOrDrop(k, res, first, second, pos, Temp(n));
      assert lu[first := pos][Var(res) := pos] == Record(lu, {first, Var(res)}, pos);
      assert instr + [] == instr;
    }

    /** No immediate: appended as is, all three recorded. */
    static lemma AdvanceVariables(instr: seq<Instruction>, lu: map<IRValue, int>, n: nat, k: BinaryKind, res: IRVariable, first: IRValue, second: IRValue, pos: nat)
      requires !first.Imm? && !second.Imm?
      ensures Advance(Loaded(instr, lu, n), Select(Binary(k, res, first, second), pos, Temp(n)))
        == Loaded(instr + [Binary(k, res, first, second)], lu[first := pos][second := pos][Var(res) := pos], n)
    {
      var sel := Select(Binary(k, res, first, second), pos, Temp(n));
      assert sel == Selection([Binary(k, res, first, second)], {first, second, Var(res)}, pos, false, false);
      assert lu[first := pos][second := pos][Var(res) := pos] == Record(lu, {first, second, Var(res)}, pos);
    }

    /** A MOV step in closed form: the sequence of `put`s the loop performs. */
    static lemma AdvanceMov(instr: seq<Instruction>, lu: map<IRValue, int>, n: nat, res: IRVariable, from: IRValue, pos: nat)
      ensures Advance(Loaded(instr, lu, n), Select(Mov(res, from), pos, Temp(n)))
        == Loaded(instr + [Mov(res, from)], (if from.Var? then lu[from := pos] else lu)[Var(res) := pos], n)
    {
      var recorded := (if from.Var? then {from} else {}) + {Var(res)};
      assert Select(Mov(res, from), pos, Temp(n)) == Selection([Mov(res, from)], recorded, pos, false, false);
      if from.Var? {
        assert recorded == {from, Var(res)};
        assert lu[from := pos][Var(res) := pos] == Record(lu, recorded, pos);
      } else {
        assert recorded == {Var(res)};
        assert lu[Var(res) := pos] == Record(lu, recorded, pos);
      }
    }

    /** A RET step in closed form. */
    static lemma AdvanceRet(instr: seq<Instruction>, lu: map<IRValue, int>, n: nat, v: IRValue, pos: nat)
      ensures Advance(Loaded(instr, lu, n), Select(Ret(v), pos, Temp(n)))
        == Loaded(instr + [Ret(v)], if v.Var? then lu[v := pos] else lu, n)
    {
      var recorded: set<IRValue> := if v.Var? then {v} else {};
      assert Select(Ret(v), pos, Temp(n)) == Selection([Ret(v)], recorded, pos, false, true);
      assert (if v.Var? then lu[v := pos] else lu) == Record(lu, recorded, pos);
    }

    /**
     * `loadIR(origin)`: appends the selected instructions, records last
     * uses, takes fresh temporaries from `temps`, and stops after the
     * first RET.
     */
    method LoadIR(origin: seq<Instruction>)
      modifies this, temps
      ensures Loaded(instr, lastUse, temps.next) == Load(origin, Loaded(old(instr), old(lastUse), old(temps.next)))
      ensures regMap == old(regMap) && myRegs == old(myRegs) && asmList == old(asmList)
      ensures old(Valid()) ==> Valid()
    {
      ghost var init := Loaded(instr, lastUse, temps.next);
      if Valid() {
        LoadKeepsInvariant(origin, 0, 0, init);
      }
      var pos: nat := 0;
      var i := 0;
      while i < |origin|
        invariant 0 <= i <= |origin|
        invariant LoadFrom(origin, i, pos, Loaded(instr, lastUse, temps.next)) == LoadFrom(origin, 0, 0, init)
        invariant regMap == old(regMap) && myRegs == old(myRegs) && asmList == old(asmList)
        decreases |origin| - i
      {
        var stop;
        stop, pos := LoadInstruction(origin[i], pos);
        if stop {
          return;
        }
        i := i + 1;
      }
    }

    /**
     * The body of the loading loop for one IR instruction at position
     * `pos`: what it appends and records, and the next position; `stop`
     * when the instruction is a RET.
     */
    method LoadInstruction(inst: Instruction, pos: nat) returns (stop: bool, next: nat)
      modifies this, temps
      ensures var sel := Select(inst, pos, Temp(old(temps.next)));
        && Loaded(instr, lastUse, temps.next) == Advance(Loaded(old(instr), old(lastUse), old(temps.next)), sel)
        && stop == sel.stops && next == sel.at + 1
      ensures regMap == old(regMap) && myRegs == old(myRegs) && asmList == old(asmList)
    {
      match inst {
        case Binary(k, res, first, second) =>
          next := LoadBinary(k, res, first, second, pos);
          stop := false;
        case Mov(res, from) =>
          LoadMov(res, from, pos);
          stop, next := false, pos + 1;
        case Ret(v) =>
          LoadRet(v, pos);
          stop, next := true, pos + 1;
      }
    }

    /** The loading loop's body for a MOV: appended as is, its variables recorded. */
    method LoadMov(res: IRVariable, from: IRValue, pos: nat)
      modifies this
      ensures Loaded(instr, lastUse, temps.next)
        == Advance(Loaded(old(instr), old(lastUse), temps.next), Select(Mov(res, from), pos, Temp(temps.next)))
      ensures regMap == old(regMap) && myRegs == old(myRegs) && asmList == old(asmList)
    {
      AdvanceMov(instr, lastUse, temps.next, res, from, pos);
      instr := instr + [Mov(res, from)];
      if from.Var? {
        lastUse := lastUse[from := pos];
      }
      lastUse := lastUse[Var(res) := pos];
    }

    /** The loading loop's body for a RET: appended, its variable recorded; the loop then ends. */
    method LoadRet(v: IRValue, pos: nat)
      modifies this
      ensures Loaded(instr, lastUse, temps.next)
        == Advance(Loaded(old(instr), old(lastUse), temps.next), Select(Ret(v), pos, Temp(temps.next)))
      ensures regMap == old(regMap) && myRegs == old(myRegs) && asmList == old(asmList)
    {
      AdvanceRet(instr, lastUse, temps.next, v, pos);
      instr := instr + [Ret(v)];
      if v.Var? {
        lastUse := lastUse[v := pos];
      }
    }

    /** The loading loop's body for a binary instruction (two operands). */
    method LoadBinary(k: BinaryKind, res: IRVariable, first: IRValue, second: IRValue, pos: nat) returns (next: nat)
      modifies this, temps
      ensures var sel := Select(Binary(k, res, first, second), pos, Temp(old(temps.next)));
        && Loaded(instr, lastUse, temps.next) == Advance(Loaded(old(instr), old(lastUse), old(temps.next)), sel)
        && next == sel.at + 1
      ensures regMap == old(regMap) && myRegs == old(myRegs) && asmList == old(asmList)
    {
      next := pos;
      if first.Imm? && second.Imm? {
        AdvanceFold(instr, lastUse, temps.next, k, res, first, second, pos);
        instr := instr + [Mov(res, Imm(WrapAdd(first.value, second.value)))];
      } else if first.Imm? || second.Imm? {
        var target := if first.Imm? then first else second;
        if k == MUL || (k == SUB && first.Imm?) {
          AdvanceMaterialize(instr, lastUse, temps.next, k, res, first, second, pos);
          var tmp := temps.Fresh();
          var rightValue := if first.Imm? then second else first;
          instr := instr + [Mov(tmp, target)];
          next := next + 1;
          instr := instr + [Binary(k, res, Var(tmp), rightValue)];
          lastUse := lastUse[Var(tmp) := next];
          lastUse := lastUse[rightValue := next];
        } else if first.Imm? {
          AdvanceSwap(instr, lastUse, temps.next, k, res, first, second, pos);
          instr := instr + [Swap(Binary(k, res, first, second))];
          lastUse := lastUse[second := next];
        } else {
          AdvanceDrop(instr, lastUse, temps.next, k, res, first, second, pos);
          lastUse := lastUse[first := next];
        }
      } else {
        AdvanceVariables(instr, lastUse, temps.next, k, res, first, second, pos);
        instr := instr + [Binary(k, res, first, second)];
        lastUse := lastUse[first := next];
        lastUse := lastUse[second := next];
      }
      lastUse := lastUse[Var(res) := next];
      next := next + 1;
    }

    /**
     * `regAlloc(v, pos)`, with the "Not Enough regs" exception as
     * `ok == false`.
     */
    method RegAlloc(v: IRVariable, pos: int) returns (ok: bool, reg: string)
      requires v in regMap ==> Var(v) in lastUse
      modifies this
      ensures instr == old(instr) && lastUse == old(lastUse) && asmList == old(asmList)
      ensures Allocation(ok, reg, AllocState(regMap, myRegs)) == Allocate(AllocState(old(regMap), old(myRegs)), lastUse, v, pos)
    {
      if v in regMap {
        reg := regMap[v];
        if pos == lastUse[Var(v)] {
          myRegs := myRegs + [reg];
        }
        return true, regMap[v];
      }
      if |myRegs| == 0 {
        return false, "";
      }
      reg := myRegs[0];
      myRegs := myRegs[1..];
      regMap := regMap[v := reg];
      ok := true;
    }

    /** One iteration of `run`: the line for instruction `pos`, allocating its registers. */
    method EmitOne(pos: nat, show: Instruction -> string) returns (ok: bool, line: string)
      requires pos < |instr| && Lowerable(instr, lastUse)
      modifies this
      ensures instr == old(instr) && lastUse == old(lastUse) && asmList == old(asmList)
      ensures LineResult(ok, line, AllocState(regMap, myRegs))
        == EmitInstruction(instr[pos], pos, lastUse, AllocState(old(regMap), old(myRegs)), show)
    {
      var inst := instr[pos];
      assert LowerableInst(inst, lastUse);
      line := "";
      match inst
      case Binary(k, res, l, r) =>
        var rhs: string;
        if r.Imm? {
          rhs := IntText(r.value);
        } else {
          ok, rhs := RegAlloc(r.variable, pos);
          if !ok {
            return;
          }
        }
        var lhs;
        ok, lhs := RegAlloc(l.variable, pos);
        if !ok {
          return;
        }
        var dst;
        ok, dst := RegAlloc(res, pos);
        if !ok {
          return;
        }
        line := ThreeOperandLine(Opcode(k, r.Imm?), dst, lhs, rhs, show(inst));
      case Mov(res, from) =>
        var src: string;
        if from.Imm? {
          src := IntText(from.value);
        } else {
          ok, src := RegAlloc(from.variable, pos);
          if !ok {
            return;
          }
        }
        var dst;
        ok, dst := RegAlloc(res, pos);
        if !ok {
          return;
        }
        line := TwoOperandLine(if from.Imm? then "li" else "mv", dst, src, show(inst));
      case Ret(v) =>
        if v.Imm? {
          ok, line := true, TwoOperandLine("li", "a0", IntText(v.value), show(inst));
        } else {
          var src;
          ok, src := RegAlloc(v.variable, pos);
          if !ok {
            return;
          }
          line := TwoOperandLine("mv", "a0", src, show(inst));
        }
    }

    /**
     * `run()`: writes ".text" and then one line per loaded instruction;
     * returns the position whose register allocation failed, if any, at
     * which point the lines written so far stay.
     */
    method Run(show: Instruction -> string) returns (failedAt: Option<nat>)
      requires Valid()
      modifies this
      ensures var e := EmitFrom(old(instr), old(lastUse), 0, AllocState(old(regMap), old(myRegs)), [], show);
        && asmList == old(asmList) + [".text"] + e.lines
        && AllocState(regMap, myRegs) == e.state
        && failedAt == e.failedAt
      ensures instr == old(instr) && lastUse == old(lastUse) && Valid()
    {
      ghost var init := AllocState(regMap, myRegs);
      EmitRegisters(instr, lastUse, 0, init, [], show);
      asmList := asmList + [".text"];
      ghost var lines: seq<string> := [];
      var pos: nat := 0;
      while pos < |instr|
        invariant pos <= |instr| && instr == old(instr) && lastUse == old(lastUse)
        invariant Lowerable(instr, lastUse) && VariableKeys(lastUse)
        invariant asmList == old(asmList) + [".text"] + lines
        invariant EmitFrom(instr, lastUse, pos, AllocState(regMap, myRegs), lines, show)
               == EmitFrom(instr, lastUse, 0, init, [], show)
        decreases |instr| - pos
      {
        var ok, line := EmitOne(pos, show);
        if !ok {
          return Some(pos);
        }
        asmList := asmList + [line];
        lines := lines + [line];
        pos := pos + 1;
      }
      failedAt := None;
    }
  }
}
