/**
 * The loading pass of the assembly generator (`loadIR`): instruction
 * selection over the IR, immediate folding, materialising an immediate
 * into a fresh temporary, operand swapping, and the last-use map.
 * The definitions follow the code as written, quirks included: folding
 * always adds, an ADD or SUB whose only immediate is on the right is not
 * appended (its position is still counted), and the pass stops at the
 * first RET.
 */
module InstructionSelection {
  import opened IR

  /**
   * What one IR instruction turns into: the instructions appended, the
   * values whose last use is set, the position they are set to, whether a
   * fresh temporary was taken, and whether the pass stops here.
   */
  datatype Selection = Selection(emitted: seq<Instruction>, recorded: set<IRValue>, at: nat, usesTemp: bool, stops: bool)

  /** One iteration of the loading loop at position `pos`; `tmp` is the temporary `temp()` would give. */
  function Select(inst: Instruction, pos: nat, tmp: IRVariable): (sel: Selection)
    ensures sel.at == pos + (if sel.usesTemp then 1 else 0)
    ensures sel.stops <==> inst.Ret?
  {
    match inst
    case Binary(k, res, first, second) =>
      if first.Imm? && second.Imm? then
        Selection([Mov(res, Imm(WrapAdd(first.value, second.value)))], {Var(res)}, pos, false, false)
      else if first.Imm? || second.Imm? then
        var target := if first.Imm? then first else second;
        if k == MUL || (k == SUB && first.Imm?) then
          var rightValue := if first.Imm? then second else first;
          Selection([Mov(tmp, target), Binary(k, res, Var(tmp), rightValue)],
                    {Var(tmp), rightValue, Var(res)}, pos + 1, true, false)
        else if first.Imm? then
          Selection([Swap(inst)], {second, Var(res)}, pos, false, false)
        else
          Selection([], {first, Var(res)}, pos, false, false)
      else
        Selection([inst], {first, second, Var(res)}, pos, false, false)
    case Mov(res, from) =>
      Selection([inst], (if from.Var? then {from} else {}) + {Var(res)}, pos, false, false)
    case Ret(v) =>
      Selection([inst], if v.Var? then {v} else {}, pos, false, true)
  }

  /** The generator's loaded state: instruction list, last-use map, temporary counter. */
  datatype Loaded = Loaded(instr: seq<Instruction>, lastUse: map<IRValue, int>, nextTemp: nat)

  /** `lastUse.put(v, at)` for every `v` in `vals`. */
  function Record(lastUse: map<IRValue, int>, vals: set<IRValue>, at: int): map<IRValue, int>
  {
    lastUse + map v | v in vals :: at
  }

  /** The state after one loop iteration. */
  function Advance(acc: Loaded, sel: Selection): Loaded
  {
    Loaded(acc.instr + sel.emitted, Record(acc.lastUse, sel.recorded, sel.at),
           if sel.usesTemp then acc.nextTemp + 1 else acc.nextTemp)
  }

  /** The loading loop from index `i` at position `pos`. */
  function LoadFrom(origin: seq<Instruction>, i: nat, pos: nat, acc: Loaded): Loaded
    requires i <= |origin|
    decreases |origin| - i
  {
    if i == |origin| then acc
    else
      var sel := Select(origin[i], pos, Temp(acc.nextTemp));
      if sel.stops then Advance(acc, sel) else LoadFrom(origin, i + 1, sel.at + 1, Advance(acc, sel))
  }

  /** `loadIR(origin)` on a generator whose state is `init`. */
  function Load(origin: seq<Instruction>, init: Loaded): Loaded
  {
    LoadFrom(origin, 0, 0, init)
  }

  // ---------------------------------------------------------------- invariants

  predicate VariableKeys(lastUse: map<IRValue, int>) {
    forall v :: v in lastUse ==> v.Var?
  }

  /**
   * What emission needs of an instruction: a binary one has a variable LHS
   * (emission casts it), and every variable it mentions has a last use
   * (emission unboxes it).
   */
  predicate LowerableInst(inst: Instruction, lastUse: map<IRValue, int>) {
    (inst.Binary? ==> inst.lhs.Var?) && forall v :: v in Uses(inst) && v.Var? ==> v in lastUse
  }

  predicate Lowerable(instr: seq<Instruction>, lastUse: map<IRValue, int>) {
    forall i :: 0 <= i < |instr| ==> LowerableInst(instr[i], lastUse)
  }

  /** The invariant the loading pass keeps and emission relies on. */
  predicate LoadedInvariant(acc: Loaded) {
    VariableKeys(acc.lastUse) && Lowerable(acc.instr, acc.lastUse)
  }

  /**
   * One iteration records only variables, and every instruction it appends
   * has a variable LHS if binary and has its variables recorded.
   */
  lemma SelectSound(inst: Instruction, pos: nat, tmp: IRVariable)
    ensures var sel := Select(inst, pos, tmp);
      && (forall v :: v in sel.recorded ==> v.Var?)
      && (forall j :: 0 <= j < |sel.emitted| ==>
            (sel.emitted[j].Binary? ==> sel.emitted[j].lhs.Var?) &&
            (forall v :: v in Uses(sel.emitted[j]) && v.Var? ==> v in sel.recorded))
      && |sel.emitted| <= 2
  {
  }

  lemma LowerableGrows(instr: seq<Instruction>, lu: map<IRValue, int>, lu': map<IRValue, int>)
    requires Lowerable(instr, lu) && lu.Keys <= lu'.Keys
    ensures Lowerable(instr, lu')
  {
  }

  /**
   * `lastUse` has only variables as keys, every binary instruction the pass
   * appends has a variable LHS, and every variable of an appended
   * instruction has a last use: so the casts and unboxing in `run` succeed.
   */
  lemma {:induction false} LoadKeepsInvariant(origin: seq<Instruction>, i: nat, pos: nat, acc: Loaded)
    requires i <= |origin| && LoadedInvariant(acc)
    ensures LoadedInvariant(LoadFrom(origin, i, pos, acc))
    decreases |origin| - i
  {
    if i < |origin| {
      var sel := Select(origin[i], pos, Temp(acc.nextTemp));
      SelectSound(origin[i], pos, Temp(acc.nextTemp));
      var acc' := Advance(acc, sel);
      LowerableGrows(acc.instr, acc.lastUse, acc'.lastUse);
      assert Lowerable(acc'.instr, acc'.lastUse) by {
        forall j | 0 <= j < |acc'.instr| ensures LowerableInst(acc'.instr[j], acc'.lastUse) {
          if j >= |acc.instr| {
            assert acc'.instr[j] == sel.emitted[j - |acc.instr|];
          }
        }
      }
      if !sel.stops {
        LoadKeepsInvariant(origin, i + 1, sel.at + 1, acc');
      }
    }
  }

  /** One step records at a position no earlier than `pos`: every entry is kept, none is lowered. */
  lemma AdvanceMonotone(acc: Loaded, sel: Selection, pos: nat)
    requires forall v :: v in acc.lastUse ==> acc.lastUse[v] < pos
    requires pos <= sel.at
    ensures var lu := Advance(acc, sel).lastUse;
      && (forall v :: v in acc.lastUse ==> v in lu && acc.lastUse[v] <= lu[v])
      && (forall v :: v in lu ==> lu[v] < sel.at + 1)
  {
  }

  /**
   * Last uses are only ever overwritten by later positions: a value's entry
   * never decreases and stays below the next position.
   */
  lemma {:induction false} LastUseMonotone(origin: seq<Instruction>, i: nat, pos: nat, acc: Loaded)
    requires i <= |origin|
    requires forall v :: v in acc.lastUse ==> acc.lastUse[v] < pos
    ensures var r := LoadFrom(origin, i, pos, acc);
      forall v :: v in acc.lastUse ==> v in r.lastUse && acc.lastUse[v] <= r.lastUse[v]
    decreases |origin| - i
  {
    if i < |origin| {
      var sel := Select(origin[i], pos, Temp(acc.nextTemp));
      AdvanceMonotone(acc, sel, pos);
      if !sel.stops {
        LastUseMonotone(origin, i + 1, sel.at + 1, Advance(acc, sel));
      }
    }
  }

  /** The pass never removes or rewrites what was already loaded. */
  lemma {:induction false} LoadAppends(origin: seq<Instruction>, i: nat, pos: nat, acc: Loaded)
    requires i <= |origin|
    ensures var r := LoadFrom(origin, i, pos, acc);
      |acc.instr| <= |r.instr| && r.instr[..|acc.instr|] == acc.instr && acc.nextTemp <= r.nextTemp
    decreases |origin| - i
  {
    if i < |origin| {
      var sel := Select(origin[i], pos, Temp(acc.nextTemp));
      var acc' := Advance(acc, sel);
      if !sel.stops {
        LoadAppends(origin, i + 1, sel.at + 1, acc');
        var r := LoadFrom(origin, i, pos, acc);
        assert r.instr[..|acc'.instr|][..|acc.instr|] == r.instr[..|acc.instr|];
      }
    }
  }

  predicate NoRetBefore(origin: seq<Instruction>, k: nat)
    requires k <= |origin|
  {
    forall j :: 0 <= j < k ==> !origin[j].Ret?
  }

  lemma {:induction false} StopsAtRetFrom(origin: seq<Instruction>, k: nat, i: nat, pos: nat, acc: Loaded)
    requires i <= k < |origin| && origin[k].Ret? && NoRetBefore(origin, k)
    ensures LoadFrom(origin, i, pos, acc) == LoadFrom(origin[..k + 1], i, pos, acc)
    ensures var r := LoadFrom(origin, i, pos, acc); |r.instr| > 0 && r.instr[|r.instr| - 1] == origin[k]
    decreases k - i
  {
    var sel := Select(origin[i], pos, Temp(acc.nextTemp));
    assert origin[..k + 1][i] == origin[i];
    if i < k {
      StopsAtRetFrom(origin, k, i + 1, sel.at + 1, Advance(acc, sel));
    }
  }

  /**
   * The pass appends the first RET and stops: nothing after it is appended
   * or recorded, and the loaded list ends with that RET.
   */
  lemma StopsAtFirstRet(origin: seq<Instruction>, k: nat, init: Loaded)
    requires k < |origin| && origin[k].Ret? && NoRetBefore(origin, k)
    ensures Load(origin, init) == Load(origin[..k + 1], init)
    ensures |Load(origin, init).instr| > 0 && Load(origin, init).instr[|Load(origin, init).instr| - 1] == origin[k]
  {
    StopsAtRetFrom(origin, k, 0, 0, init);
  }

  // ---------------------------------------------------------------- selection rules

  /**
   * Two immediates fold into one MOV of their 32-bit wrapped sum, whatever
   * the kind: SUB and MUL are folded by addition too.
   */
  lemma FoldByAddition(k: BinaryKind, res: IRVariable, a: Int32, b: Int32, pos: nat, tmp: IRVariable)
    ensures var sel := Select(Binary(k, res, Imm(a), Imm(b)), pos, tmp);
      && sel.emitted == [Mov(res, Imm(WrapAdd(a, b)))]
      && sel.recorded == {Var(res)} && sel.at == pos && !sel.usesTemp && !sel.stops
  {
  }

  /**
   * MUL with one immediate, or SUB with the immediate on the left, appends
   * MOV tmp := imm and then the same kind computing the original result
   * from tmp and the variable operand; tmp, the variable and the result all
   * get the position of the second instruction.
   */
  lemma MaterializeImmediate(k: BinaryKind, res: IRVariable, l: IRValue, r: IRValue, pos: nat, tmp: IRVariable)
    requires l.Imm? != r.Imm?
    requires k == MUL || (k == SUB && l.Imm?)
    ensures var sel := Select(Binary(k, res, l, r), pos, tmp);
      var imm := if l.Imm? then l else r;
      var other := if l.Imm? then r else l;
      && sel.emitted == [Mov(tmp, imm), Binary(k, res, Var(tmp), other)]
      && sel.recorded == {Var(tmp), other, Var(res)} && sel.at == pos + 1 && sel.usesTemp
  {
  }

  /**
   * ADD with the immediate on the left is appended swapped, so the
   * immediate becomes the RHS; ADD or SUB with the immediate only on the
   * right appends nothing, though its variables are recorded.
   */
  lemma SwapOrDrop(k: BinaryKind, res: IRVariable, l: IRValue, r: IRValue, pos: nat, tmp: IRVariable)
    requires l.Imm? != r.Imm?
    requires k == ADD || (k == SUB && r.Imm?)
    ensures var sel := Select(Binary(k, res, l, r), pos, tmp);
      && (l.Imm? ==> sel.emitted == [Binary(ADD, res, r, l)] && sel.recorded == {r, Var(res)})
      && (r.Imm? ==> sel.emitted == [] && sel.recorded == {l, Var(res)})
      && sel.at == pos && !sel.usesTemp && !sel.stops
  {
  }

  /**
   * A dropped instruction still advances the position: in `t1 = x + 5;
   * return t1` only the RET is appended, at index 0, yet t1's last use is
   * recorded as position 1.
   */
  lemma DroppedInstructionShiftsPositions(init: Loaded)
    requires init.instr == [] && init.lastUse == map[]
    ensures var x, t1 := Var(Named("x")), Var(Temp(1));
      var r := Load([Binary(ADD, Temp(1), x, Imm(5)), Ret(t1)], init);
      r.instr == [Ret(t1)] && r.lastUse == map[x := 0, t1 := 1]
  {
    var x, t1 := Var(Named("x")), Var(Temp(1));
    var origin := [Binary(ADD, Temp(1), x, Imm(5)), Ret(t1)];
    var acc1 := Advance(init, Select(origin[0], 0, Temp(init.nextTemp)));
    assert acc1.lastUse == map[x := 0, t1 := 0];
    assert LoadFrom(origin, 0, 0, init) == LoadFrom(origin, 1, 1, acc1);
    assert LoadFrom(origin, 1, 1, acc1) == Advance(acc1, Select(origin[1], 1, Temp(acc1.nextTemp)));
  }

  /**
   * `t = 5 - x` never becomes an immediate-form subtraction: the 5 is first
   * moved into a fresh temporary.
   */
  lemma LeftImmediateSubtraction(init: Loaded)
    ensures var x, t := Var(Named("x")), Named("t");
      var n := init.nextTemp;
      Load([Binary(SUB, t, Imm(5), x)], init).instr
        == init.instr + [Mov(Temp(n), Imm(5)), Binary(SUB, t, Var(Temp(n)), x)]
  {
    var x, t := Var(Named("x")), Named("t");
    var origin := [Binary(SUB, t, Imm(5), x)];
    var acc1 := Advance(init, Select(origin[0], 0, Temp(init.nextTemp)));
    assert LoadFrom(origin, 0, 0, init) == LoadFrom(origin, 1, 2, acc1);
  }
}
