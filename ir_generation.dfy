/**
 * The IR generator: a parser observer that keeps a stack of IR values
 * mirroring the expression stack and appends one instruction per
 * assignment, return or arithmetic reduction.
 */
module IRGeneration {
  import opened IR
  import opened Lexer
  import opened Grammar

  /** The observer's state: value stack (top last), instructions so far, and the temporary counter. */
  datatype IRState = IRState(stack: seq<IRValue>, code: seq<Instruction>, nextTemp: nat)

  /** What `whenShift` needs: an integer constant's text must parse. */
  predicate CanShift(t: Token) {
    t.kindId == "IntConst" ==> IsIntLiteral(t.text)
  }

  /** `whenShift`: constants and identifiers push their value; other tokens carry none. */
  function Shifted(s: IRState, t: Token): IRState
    requires CanShift(t)
  {
    if t.kindId == "IntConst" then s.(stack := s.stack + [Imm(ParseInt(t.text))])
    else if t.kindId == "id" then s.(stack := s.stack + [Var(Named(t.text))])
    else s
  }

  /** Productions 8 (E -> E + A), 9 (E -> E - A) and 11 (A -> A * B). */
  predicate IsArithmetic(index: int) { index == 8 || index == 9 || index == 11 }

  function ArithKind(index: int): BinaryKind
    requires IsArithmetic(index)
  {
    if index == 8 then ADD else if index == 9 then SUB else MUL
  }

  /**
   * What `whenReduce` needs: enough values for the pops (an empty stack
   * throws), and for an assignment the target must be a variable (the cast).
   */
  predicate CanReduce(s: IRState, p: Production) {
    var n := |s.stack|;
    if p.index == 6 then n >= 2 && s.stack[n - 2].Var?
    else if p.index == 7 then n >= 1
    else if IsArithmetic(p.index) then n >= 2
    else true
  }

  /** `whenReduce`, dispatched on the production index. */
  function Reduced(s: IRState, p: Production): IRState
    requires CanReduce(s, p)
  {
    var n := |s.stack|;
    if p.index == 6 then
      // S -> id = E ;
      IRState(s.stack[..n - 2], s.code + [Mov(s.stack[n - 2].variable, s.stack[n - 1])], s.nextTemp)
    else if p.index == 7 then
      // S -> return E ;
      IRState(s.stack[..n - 1], s.code + [Ret(s.stack[n - 1])], s.nextTemp)
    else if IsArithmetic(p.index) then
      var target := Temp(s.nextTemp);
      IRState(s.stack[..n - 2] + [Var(target)],
              s.code + [Binary(ArithKind(p.index), target, s.stack[n - 2], s.stack[n - 1])],
              s.nextTemp + 1)
    else
      s
  }

  predicate CanStep(s: IRState, e: Event) {
    match e
    case Shift(t) => CanShift(t)
    case Reduce(p) => CanReduce(s, p)
    case Accept => true
  }

  function Step(s: IRState, e: Event): IRState
    requires CanStep(s, e)
  {
    match e
    case Shift(t) => Shifted(s, t)
    case Reduce(p) => Reduced(s, p)
    case Accept => s
  }

  /** Every event of the sequence can be handled in the state the earlier ones lead to. */
  predicate CanRun(s: IRState, events: seq<Event>)
    decreases |events|
  {
    events == [] || (CanStep(s, events[0]) && CanRun(Step(s, events[0]), events[1..]))
  }

  /** The state after handling the events in order. */
  function RunIR(s: IRState, events: seq<Event>): IRState
    requires CanRun(s, events)
    decreases |events|
  {
    if events == [] then s else RunIR(Step(s, events[0]), events[1..])
  }

  // ---------------------------------------------------------------- properties

  /**
   * A shift never touches the instruction list. An integer constant pushes
   * its parsed value, an identifier a variable named by its text, and any
   * other token leaves the stack as it was.
   */
  lemma ShiftEffect(s: IRState, t: Token)
    requires CanShift(t)
    ensures Shifted(s, t).code == s.code && Shifted(s, t).nextTemp == s.nextTemp
    ensures t.kindId == "IntConst" ==> Shifted(s, t).stack == s.stack + [Imm(ParseInt(t.text))]
    ensures t.kindId == "id" ==> Shifted(s, t).stack == s.stack + [Var(Named(t.text))]
    ensures t.kindId != "IntConst" && t.kindId != "id" ==> Shifted(s, t).stack == s.stack
  {
  }

  /**
   * An arithmetic reduction pops the right then the left operand, appends
   * one instruction computing them into a new temporary and pushes that
   * temporary: the stack shrinks by one and the list grows by one.
   */
  lemma ArithmeticReduceEffect(s: IRState, p: Production)
    requires IsArithmetic(p.index) && CanReduce(s, p)
    ensures var r := Reduced(s, p); var n := |s.stack|;
      && |r.stack| == n - 1 && r.stack[..n - 2] == s.stack[..n - 2]
      && r.stack[n - 2] == Var(Temp(s.nextTemp))
      && r.code == s.code + [Binary(ArithKind(p.index), Temp(s.nextTemp), s.stack[n - 2], s.stack[n - 1])]
      && r.nextTemp == s.nextTemp + 1
  {
  }

  /** An assignment pops value and target, appends one MOV and pushes nothing. */
  lemma AssignReduceEffect(s: IRState, p: Production)
    requires p.index == 6 && CanReduce(s, p)
    ensures var r := Reduced(s, p); var n := |s.stack|;
      && r.stack == s.stack[..n - 2]
      && r.code == s.code + [Mov(s.stack[n - 2].variable, s.stack[n - 1])]
      && r.nextTemp == s.nextTemp
  {
  }

  /** A return pops one value and appends a RET of it. */
  lemma ReturnReduceEffect(s: IRState, p: Production)
    requires p.index == 7 && CanReduce(s, p)
    ensures var r := Reduced(s, p); var n := |s.stack|;
      r.stack == s.stack[..n - 1] && r.code == s.code + [Ret(s.stack[n - 1])] && r.nextTemp == s.nextTemp
  {
  }

  /** Every other production (the pass-through ones 1, 10, 12, 14, 15 included) changes nothing. */
  lemma OtherReduceEffect(s: IRState, p: Production)
    requires p.index != 6 && p.index != 7 && !IsArithmetic(p.index)
    ensures CanReduce(s, p) && Reduced(s, p) == s
  {
  }

  /** The instruction list only grows at its end, and the counter never goes back. */
  lemma {:induction false} CodeAppendOnly(s: IRState, events: seq<Event>)
    requires CanRun(s, events)
    ensures var r := RunIR(s, events);
      |s.code| <= |r.code| && r.code[..|s.code|] == s.code && s.nextTemp <= r.nextTemp
    decreases |events|
  {
    if events != [] {
      var s' := Step(s, events[0]);
      CodeAppendOnly(s', events[1..]);
      var r := RunIR(s, events);
      assert s'.code[..|s.code|] == s.code;
      assert r.code[..|s'.code|][..|s.code|] == r.code[..|s.code|];
    }
  }

  /**
   * Temporaries in the state are below the counter, and the results of the
   * arithmetic instructions are pairwise distinct temporaries.
   */
  ghost predicate TempsFresh(s: IRState) {
    && (forall i :: 0 <= i < |s.stack| && s.stack[i].Var? && s.stack[i].variable.Temp? ==>
          s.stack[i].variable.id < s.nextTemp)
    && (forall i :: 0 <= i < |s.code| && s.code[i].Binary? ==>
          s.code[i].result.Temp? && s.code[i].result.id < s.nextTemp)
    && (forall i, j :: 0 <= i < j < |s.code| && s.code[i].Binary? && s.code[j].Binary? ==>
          s.code[i].result != s.code[j].result)
  }

  lemma StepKeepsTempsFresh(s: IRState, e: Event)
    requires CanStep(s, e) && TempsFresh(s)
    ensures TempsFresh(Step(s, e))
  {
    if e.Reduce? && IsArithmetic(e.production.index) {
      var r := Step(s, e);
      var n := |s.code|;
      forall i, j | 0 <= i < j < |r.code| && r.code[i].Binary? && r.code[j].Binary?
        ensures r.code[i].result != r.code[j].result
      {
        if j == n {
          assert r.code[i] == s.code[i];
        }
      }
    }
  }

  /**
   * Temporaries made by distinct arithmetic reductions are distinct, since
   * each takes the counter's next value: the property survives any run.
   */
  lemma {:induction false} TempsStayFresh(s: IRState, events: seq<Event>)
    requires CanRun(s, events) && TempsFresh(s)
    ensures TempsFresh(RunIR(s, events))
    decreases |events|
  {
    if events != [] {
      StepKeepsTempsFresh(s, events[0]);
      TempsStayFresh(Step(s, events[0]), events[1..]);
    }
  }

  /**
   * A token from the lexer can be shifted exactly when it is not the
   * simple token of a word spelled "IntConst" that the kind table admits:
   * that token has kind IntConst and empty text, and `parseInt` of the
   * empty text throws.
   */
  lemma LexedTokensShift(lexeme: string, isAllowed: string -> bool)
    ensures CanShift(Classify(lexeme, isAllowed)) <==> !(lexeme == "IntConst" && isAllowed("IntConst"))
  {
    if lexeme == "IntConst" && isAllowed("IntConst") {
      assert Classify(lexeme, isAllowed) == Token("IntConst", "");
      assert !IsIntLiteral("");
    }
  }

  /** With the grammar's own kind table, the word `IntConst` in a program cannot be shifted. */
  lemma IntConstWordFailsToShift(isAllowed: string -> bool)
    requires isAllowed("IntConst")
    ensures !CanShift(Classify("IntConst", isAllowed))
  {
    LexedTokensShift("IntConst", isAllowed);
  }

  class IRGenerator {
    var irStack: seq<IRValue>
    /** The instruction list (the Java field `IL`). */
    var il: seq<Instruction>
    const temps: TempSupply

    function State(): IRState
      reads this, temps
    {
      IRState(irStack, il, temps.next)
    }

    constructor (temps: TempSupply)
      ensures irStack == [] && il == [] && this.temps == temps
    {
      irStack := [];
      il := [];
      this.temps := temps;
    }

    /** `Stack.pop`: removes and returns the top value. */
    method Pop() returns (v: IRValue)
      requires |irStack| > 0
      modifies this
      ensures v == old(irStack)[|old(irStack)| - 1] && irStack == old(irStack)[..|old(irStack)| - 1]
      ensures il == old(il)
    {
      v := irStack[|irStack| - 1];
      irStack := irStack[..|irStack| - 1];
    }

    method WhenShift(t: Token)
      requires CanShift(t)
      modifies this
      ensures State() == Shifted(old(State()), t)
    {
      if t.kindId == "IntConst" {
        irStack := irStack + [Imm(ParseInt(t.text))];
      } else if t.kindId == "id" {
        irStack := irStack + [Var(Named(t.text))];
      }
    }

    method WhenReduce(p: Production)
      requires CanReduce(State(), p)
      modifies this, temps
      ensures State() == Reduced(old(State()), p)
    {
      if p.index == 6 {
        var second := Pop();
        var first := Pop();
        il := il + [Mov(first.variable, second)];
      } else if p.index == 7 {
        var v := Pop();
        il := il + [Ret(v)];
      } else if p.index == 8 {
        var second := Pop();
        var first := Pop();
        var target := temps.Fresh();
        il := il + [Binary(ADD, target, first, second)];
        irStack := irStack + [Var(target)];
      } else if p.index == 9 {
        var second := Pop();
        var first := Pop();
        var target := temps.Fresh();
        il := il + [Binary(SUB, target, first, second)];
        irStack := irStack + [Var(target)];
      } else if p.index == 11 {
        var second := Pop();
        var first := Pop();
        var target := temps.Fresh();
        il := il + [Binary(MUL, target, first, second)];
        irStack := irStack + [Var(target)];
      }
    }

    method WhenAccept()
    {
    }

    /** `getIR`: the instructions in the order they were appended. */
    function GetIR(): seq<Instruction>
      reads this
    {
      il
    }

    /** Handles a whole sequence of parser events in order. */
    method Observe(events: seq<Event>)
      requires CanRun(State(), events)
      modifies this, temps
      ensures State() == RunIR(old(State()), events)
    {
      var i := 0;
      while i < |events|
        invariant 0 <= i <= |events|
        invariant CanRun(State(), events[i..])
        invariant RunIR(State(), events[i..]) == RunIR(old(State()), events)
      {
        assert events[i..][1..] == events[i + 1..];
        match events[i] {
          case Shift(t) => WhenShift(t);
          case Reduce(p) => WhenReduce(p);
          case Accept => WhenAccept();
        }
        i := i + 1;
      }
    }
  }
}
