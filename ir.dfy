/**
 * The intermediate representation shared by the IR generator and the
 * assembly generator: values (immediates and variables), instructions,
 * Java `int` arithmetic, and the fresh-temporary counter behind
 * `IRVariable.temp()`.
 */
module IR {

  // ---------------------------------------------------------------- Java int

  const INT_MIN: int := -0x8000_0000
  const INT_MAX: int := 0x7FFF_FFFF
  const TWO_32: int := 0x1_0000_0000

  /** The values of a Java `int`. */
  type Int32 = x: int | INT_MIN <= x <= INT_MAX

  /** Java `a + b` on `int`: the mathematical sum wrapped into 32 bits. */
  function WrapAdd(a: Int32, b: Int32): (r: Int32)
    ensures (r - (a + b)) % TWO_32 == 0
    ensures INT_MIN <= a + b <= INT_MAX ==> r == a + b
  {
    var s := a + b;
    if s > INT_MAX then s - TWO_32 else if s < INT_MIN then s + TWO_32 else s
  }

  predicate IsDigit(c: char) { '0' <= c <= '9' }

  predicate AllDigits(s: string) { forall i :: 0 <= i < |s| ==> IsDigit(s[i]) }

  /** The value of a string of decimal digits. */
  function DecimalValue(s: string): nat
    requires AllDigits(s)
    decreases |s|
  {
    if s == [] then 0 else 10 * DecimalValue(s[..|s| - 1]) + (s[|s| - 1] - '0') as int
  }

  /**
   * The strings `Integer.parseInt` accepts as they can reach it here: a
   * non-empty run of decimal digits whose value fits in an `int` (a sign
   * cannot occur, since '+' and '-' always split lexemes).
   */
  predicate IsIntLiteral(s: string) {
    |s| > 0 && AllDigits(s) && DecimalValue(s) <= INT_MAX
  }

  /** `Integer.parseInt` on an accepted literal. */
  function ParseInt(s: string): (n: Int32)
    requires IsIntLiteral(s)
    ensures 0 <= n && NatText(n) == CanonicalDigits(s)
  {
    CanonicalRoundTrip(s);
    DecimalValue(s)
  }

  /** `s` without its leading zeros, keeping one digit. */
  function CanonicalDigits(s: string): string
    decreases |s|
  {
    if |s| > 1 && s[0] == '0' then CanonicalDigits(s[1..]) else s
  }

  function DigitChar(d: nat): char
    requires d < 10
  {
    ('0' as int + d) as char
  }

  /** Decimal text of a natural number, most significant digit first. */
  function NatText(n: nat): string
    decreases n
  {
    if n < 10 then [DigitChar(n)] else NatText(n / 10) + [DigitChar(n % 10)]
  }

  /** `Integer.toString`: the decimal text of an `int`, with '-' when negative. */
  function IntText(n: int): string
  {
    if n < 0 then "-" + NatText(-n) else NatText(n)
  }

  /** Printing a natural number and reading it back gives the number. */
  lemma {:induction false} NatTextRoundTrip(n: nat)
    ensures |NatText(n)| > 0 && AllDigits(NatText(n))
    ensures DecimalValue(NatText(n)) == n
    ensures NatText(n)[0] != '0' || n == 0
    decreases n
  {
    if n >= 10 {
      NatTextRoundTrip(n / 10);
      var s := NatText(n);
      assert s[..|s| - 1] == NatText(n / 10);
    }
  }

  /** Leading zeros do not change a decimal value. */
  lemma {:induction false} LeadingZeroValue(s: string)
    requires |s| > 0 && AllDigits(s) && s[0] == '0'
    ensures AllDigits(s[1..]) && DecimalValue(s) == DecimalValue(s[1..])
    decreases |s|
  {
    if |s| > 1 {
      var t := s[..|s| - 1];
      LeadingZeroValue(t);
      assert t[1..] == s[1..][..|s[1..]| - 1];
    }
  }

  /** Reading a digit string and printing it back gives the string without leading zeros. */
  lemma {:induction false} CanonicalRoundTrip(s: string)
    requires |s| > 0 && AllDigits(s)
    ensures NatText(DecimalValue(s)) == CanonicalDigits(s)
    decreases |s|
  {
    if |s| > 1 && s[0] == '0' {
      LeadingZeroValue(s);
      CanonicalRoundTrip(s[1..]);
    } else {
      CanonicalIsPrinted(s);
    }
  }

  /** A digit string without a leading zero is what printing its value gives. */
  lemma {:induction false} CanonicalIsPrinted(s: string)
    requires |s| > 0 && AllDigits(s) && (s[0] != '0' || |s| == 1)
    ensures NatText(DecimalValue(s)) == s
    decreases |s|
  {
    var n := DecimalValue(s);
    if |s| == 1 {
      assert s[..0] == [] && s[|s| - 1] == s[0];
      assert n == 10 * DecimalValue(s[..0]) + (s[0] - '0') as int;
    } else {
      var t := s[..|s| - 1];
      assert t[0] == s[0];
      CanonicalIsPrinted(t);
      NatTextRoundTrip(DecimalValue(t));
      var last := (s[|s| - 1] - '0') as int;
      assert n == 10 * DecimalValue(t) + last;
      PositiveLeading(t);
      assert n / 10 == DecimalValue(t) && n % 10 == last;
    }
  }

  lemma {:induction false} PositiveLeading(s: string)
    requires |s| > 0 && AllDigits(s) && s[0] != '0'
    ensures DecimalValue(s) > 0
    decreases |s|
  {
    if |s| > 1 {
      PositiveLeading(s[..|s| - 1]);
    }
  }

  // ---------------------------------------------------------------- IR values

  /** A variable: one named after a source identifier, or a numbered temporary. */
  datatype IRVariable = Named(name: string) | Temp(id: nat)

  /** An operand: an `int` immediate or a variable. */
  datatype IRValue = Imm(value: Int32) | Var(variable: IRVariable)

  datatype InstructionKind = ADD | SUB | MUL | MOV | RET

  /** The kinds of the two-operand instructions. */
  type BinaryKind = k: InstructionKind | k.ADD? || k.SUB? || k.MUL? witness ADD

  /**
   * An IR instruction. Binary ones carry a result and the two operands
   * (LHS, RHS); MOV carries its result and source; RET its return value.
   */
  datatype Instruction =
    | Binary(kind: BinaryKind, result: IRVariable, lhs: IRValue, rhs: IRValue)
    | Mov(result: IRVariable, from: IRValue)
    | Ret(returnValue: IRValue)

  function KindOf(inst: Instruction): InstructionKind
  {
    match inst
    case Binary(k, _, _, _) => k
    case Mov(_, _) => MOV
    case Ret(_) => RET
  }

  /** Every value an instruction mentions, its result included. */
  function Uses(inst: Instruction): set<IRValue>
  {
    match inst
    case Binary(_, res, l, r) => {Var(res), l, r}
    case Mov(res, from) => {Var(res), from}
    case Ret(v) => {v}
  }

  /** `Instruction.swap()`: the same instruction with LHS and RHS exchanged. */
  function Swap(inst: Instruction): (r: Instruction)
    requires inst.Binary?
    ensures r.Binary? && KindOf(r) == KindOf(inst) && r.result == inst.result
    ensures Uses(r) == Uses(inst)
    ensures r.lhs == inst.rhs && r.rhs == inst.lhs
  {
    Binary(inst.kind, inst.result, inst.rhs, inst.lhs)
  }

  // ---------------------------------------------------------------- temporaries

  /** The counter behind `IRVariable.temp()`: each call yields a new temporary. */
  class TempSupply {
    var next: nat

    constructor ()
      ensures next == 0
    {
      next := 0;
    }

    method Fresh() returns (v: IRVariable)
      modifies this
      ensures v == Temp(old(next)) && next == old(next) + 1
    {
      v := Temp(next);
      next := next + 1;
    }
  }
}
