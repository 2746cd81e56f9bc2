/**
 * The semantic analyzer: a parser observer that shadows the parser's
 * symbol stack with the shifted tokens (a placeholder for each reduced
 * nonterminal) and, on the declaration production, sets the declared
 * identifier's type in the symbol table.
 */
module Semantic {
  import opened Wrappers
  import opened Symtab
  import opened Lexer
  import opened Grammar

  /** The token stack (top last; `None` is the placeholder) and the table's entries. */
  datatype SemState = SemState(tokens: seq<Option<Token>>, table: map<string, SymbolTableEntry>)

  /** `whenShift`: push the token. */
  function ShiftedSem(s: SemState, t: Token): SemState
  {
    s.(tokens := s.tokens + [Some(t)])
  }

  /**
   * What `whenReduce` needs: production 4 reads the text of the top token
   * (a placeholder there would fail) and looks it up in the table, then pops
   * twice; the default rule pops once per body symbol.
   */
  predicate CanReduceSem(s: SemState, p: Production) {
    var n := |s.tokens|;
    if p.index == 4 then n >= 2 && s.tokens[n - 1].Some? && s.tokens[n - 1].value.text in s.table
    else if p.index == 5 then true
    else n >= |p.body|
  }

  /** `whenReduce`, dispatched on the production index. */
  function ReducedSem(s: SemState, p: Production): SemState
    requires CanReduceSem(s, p)
  {
    var n := |s.tokens|;
    if p.index == 4 then
      // S -> D id
      var name := s.tokens[n - 1].value.text;
      SemState(s.tokens[..n - 2] + [None], s.table[name := s.table[name].(typ := Some(Int))])
    else if p.index == 5 then
      // D -> int
      s
    else
      SemState(s.tokens[..n - |p.body|] + [None], s.table)
  }

  predicate CanStepSem(s: SemState, e: Event) {
    e.Reduce? ==> CanReduceSem(s, e.production)
  }

  function StepSem(s: SemState, e: Event): SemState
    requires CanStepSem(s, e)
  {
    match e
    case Shift(t) => ShiftedSem(s, t)
    case Reduce(p) => ReducedSem(s, p)
    case Accept => s
  }

  predicate CanRunSem(s: SemState, events: seq<Event>)
    decreases |events|
  {
    events == [] || (CanStepSem(s, events[0]) && CanRunSem(StepSem(s, events[0]), events[1..]))
  }

  function RunSem(s: SemState, events: seq<Event>): SemState
    requires CanRunSem(s, events)
    decreases |events|
  {
    if events == [] then s else RunSem(StepSem(s, events[0]), events[1..])
  }

  // ---------------------------------------------------------------- properties

  /**
   * Production 4 types exactly the identifier named by the top token as
   * Int, pops two entries and pushes one placeholder; production 5 changes
   * nothing; every other production pops |body| entries, pushes one
   * placeholder and leaves the table alone.
   */
  lemma ReduceSemEffect(s: SemState, p: Production)
    requires CanReduceSem(s, p)
    ensures var r := ReducedSem(s, p); var n := |s.tokens|;
      if p.index == 4 then
        var name := s.tokens[n - 1].value.text;
        && |r.tokens| == n - 1 && r.tokens[..n - 2] == s.tokens[..n - 2] && r.tokens[n - 2] == None
        && r.table.Keys == s.table.Keys
        && r.table[name] == SymbolTableEntry(s.table[name].text, Some(Int))
        && (forall k :: k in s.table && k != name ==> r.table[k] == s.table[k])
      else if p.index == 5 then r == s
      else
        && |r.tokens| == n - |p.body| + 1 && r.tokens[..n - |p.body|] == s.tokens[..n - |p.body|]
        && r.tokens[n - |p.body|] == None && r.table == s.table
  {
  }

  /** The grammar's own arities for the two special productions: S -> D id and D -> int. */
  predicate ArityConsistent(events: seq<Event>) {
    forall i :: 0 <= i < |events| && events[i].Reduce? ==>
      (events[i].production.index == 4 ==> |events[i].production.body| == 2) &&
      (events[i].production.index == 5 ==> |events[i].production.body| == 1)
  }

  /** The height change a sequence of events should cause: +1 per shift, 1 - |body| per reduction. */
  function HeightChange(events: seq<Event>): int
    decreases |events|
  {
    if events == [] then 0
    else
      (match events[0]
       case Shift(_) => 1
       case Reduce(p) => 1 - |p.body|
       case Accept => 0)
      + HeightChange(events[1..])
  }

  /**
   * The stack-arity discipline: the token stack's height always moves by
   * +1 per shift and by 1 - |body| per reduction, so it counts the grammar
   * symbols not yet reduced.
   */
  lemma {:induction false} StackHeight(s: SemState, events: seq<Event>)
    requires CanRunSem(s, events) && ArityConsistent(events)
    ensures |RunSem(s, events).tokens| == |s.tokens| + HeightChange(events)
    decreases |events|
  {
    if events != [] {
      assert ArityConsistent(events[1..]) by {
        forall i | 0 <= i < |events[1..]| && events[1..][i].Reduce?
          ensures (events[1..][i].production.index == 4 ==> |events[1..][i].production.body| == 2) &&
                  (events[1..][i].production.index == 5 ==> |events[1..][i].production.body| == 1)
        {
          assert events[1..][i] == events[i + 1];
        }
      }
      assert events[0].Reduce? ==>
        (events[0].production.index == 4 ==> |events[0].production.body| == 2) &&
        (events[0].production.index == 5 ==> |events[0].production.body| == 1);
      StackHeight(StepSem(s, events[0]), events[1..]);
    }
  }

  /** An entry is the same identifier, with its type as before or set to Int. */
  predicate SameOrTyped(before: SymbolTableEntry, after: SymbolTableEntry) {
    after.text == before.text && (after.typ == before.typ || after.typ == Some(Int))
  }

  /**
   * The analyzer never adds or removes table entries and never renames one;
   * the only change it ever makes is setting a type to Int.
   */
  lemma {:induction false} TableOnlyTyped(s: SemState, events: seq<Event>)
    requires CanRunSem(s, events)
    ensures RunSem(s, events).table.Keys == s.table.Keys
    ensures forall k :: k in s.table ==> SameOrTyped(s.table[k], RunSem(s, events).table[k])
    decreases |events|
  {
    if events != [] {
      var s' := StepSem(s, events[0]);
      assert s'.table.Keys == s.table.Keys;
      assert forall k :: k in s.table ==> SameOrTyped(s.table[k], s'.table[k]);
      TableOnlyTyped(s', events[1..]);
    }
  }

  class SemanticAnalyzer {
    var tokens: seq<Option<Token>>
    var memTable: SymbolTable

    function State(): SemState
      reads this, memTable
    {
      SemState(tokens, memTable.entries)
    }

    constructor ()
      ensures tokens == [] && fresh(memTable) && memTable.entries == map[]
    {
      tokens := [];
      memTable := new SymbolTable();
    }

    /** `Stack.pop`, discarding the value. */
    method Pop()
      requires |tokens| > 0
      modifies this
      ensures tokens == old(tokens)[..|old(tokens)| - 1] && memTable == old(memTable)
    {
      tokens := tokens[..|tokens| - 1];
    }

    method WhenShift(t: Token)
      modifies this
      ensures tokens == old(tokens) + [Some(t)] && memTable == old(memTable)
    {
      tokens := tokens + [Some(t)];
    }

    method WhenReduce(p: Production)
      requires CanReduceSem(State(), p)
      modifies this, memTable
      ensures memTable == old(memTable)
      ensures State() == ReducedSem(old(State()), p)
    {
      var length := |p.body|;
      if p.index == 4 {
        var top := tokens[|tokens| - 1];
        Pop();
        memTable.SetType(top.value.text, Int);
        Pop();
        tokens := tokens + [None];
      } else if p.index == 5 {
      } else {
        var i := 0;
        while i < length
          invariant 0 <= i <= length
          invariant tokens == old(tokens)[..|old(tokens)| - i]
          invariant memTable == old(memTable) && memTable.entries == old(memTable.entries)
        {
          Pop();
          i := i + 1;
        }
        tokens := tokens + [None];
      }
    }

    /** Later reductions write into the given table. */
    method SetSymbolTable(table: SymbolTable)
      modifies this
      ensures memTable == table && tokens == old(tokens)
    {
      memTable := table;
    }

    method WhenAccept()
    {
    }

    /** Handles a whole sequence of parser events in order. */
    method Observe(events: seq<Event>)
      requires CanRunSem(State(), events)
      modifies this, memTable
      ensures memTable == old(memTable)
      ensures State() == RunSem(old(State()), events)
    {
      var i := 0;
      while i < |events|
        invariant 0 <= i <= |events|
        invariant memTable == old(memTable)
        invariant CanRunSem(State(), events[i..])
        invariant RunSem(State(), events[i..]) == RunSem(old(State()), events)
      {
        assert events[i..][1..] == events[i + 1..];
        match events[i] {
          case Shift(t) => WhenShift(t);
          case Reduce(p) => WhenReduce(p);
          case Accept => WhenAccept();
        }
        i := i + 1;
      }
    }
  }
}
