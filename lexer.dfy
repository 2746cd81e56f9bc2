/**
 * The lexical analyzer: splitting the file content into lexemes
 * (`loadFile`) and classifying each lexeme as a token while entering
 * identifiers into the symbol table (`run`).
 */
module Lexer {
  import opened Wrappers
  import opened IR
  import opened Symtab

  /** A token: its kind identifier and its text ("" for a simple token). */
  datatype Token = Token(kindId: string, text: string)

  /** `Token.simple(kind)`: a token of the given kind without text. */
  function Simple(kind: string): Token { Token(kind, "") }

  /** `Token.eof()`: the end-of-input marker. */
  function Eof(): Token { Token("$", "") }

  // ---------------------------------------------------------------- splitting

  /** Characters that are dropped without ending the pending word. */
  predicate IsSkipped(c: char) { c == '\r' || c == '\n' || c == '\t' }

  /** Characters that are a lexeme of their own. */
  predicate IsDelimiter(c: char) {
    c == '=' || c == ';' || c == '+' || c == ',' || c == '-' || c == '*' || c == '/' || c == '(' || c == ')'
  }

  /** Characters that never appear in a lexeme. */
  predicate IsBlank(c: char) { IsSkipped(c) || c == ' ' }

  /** The splitter's state: the lexemes emitted so far and the word being built. */
  datatype Scanned = Scanned(lexemes: seq<string>, pending: string)

  /** The pending word as a lexeme list: nothing if it is empty. */
  function Flush(w: string): seq<string> { if w == [] then [] else [w] }

  /** One step of the character loop. */
  function ScanChar(st: Scanned, c: char): Scanned
  {
    if IsSkipped(c) then st
    else if IsDelimiter(c) then Scanned(st.lexemes + Flush(st.pending) + [[c]], [])
    else if c == ' ' then Scanned(st.lexemes + Flush(st.pending), [])
    else Scanned(st.lexemes, st.pending + [c])
  }

  /** The state of the character loop after reading all of `s`. */
  function Scan(s: string): Scanned
    decreases |s|
  {
    if s == [] then Scanned([], []) else ScanChar(Scan(s[..|s| - 1]), s[|s| - 1])
  }

  /** `s` without spaces, carriage returns, line feeds and tabs. */
  function Strip(s: string): string
    decreases |s|
  {
    if s == [] then [] else Strip(s[..|s| - 1]) + (if IsBlank(s[|s| - 1]) then [] else [s[|s| - 1]])
  }

  /** The lexemes written one after the other. */
  function Concat(ls: seq<string>): string
    decreases |ls|
  {
    if ls == [] then [] else Concat(ls[..|ls| - 1]) + ls[|ls| - 1]
  }

  /** A word: no blank and no delimiter character. */
  predicate IsWord(w: string) {
    forall i :: 0 <= i < |w| ==> !IsBlank(w[i]) && !IsDelimiter(w[i])
  }

  /** What every emitted lexeme looks like: a single delimiter or a non-empty word. */
  predicate WellFormedLexeme(l: string) {
    (|l| == 1 && IsDelimiter(l[0])) || (|l| > 0 && IsWord(l))
  }

  lemma ConcatSnoc(ls: seq<string>, w: string)
    ensures Concat(ls + [w]) == Concat(ls) + w
  {
    assert (ls + [w])[..|ls|] == ls;
  }

  /** No lexeme is empty or holds a blank; delimiters stand alone; the pending word is a word. */
  lemma {:induction false} ScanWellFormed(s: string)
    ensures forall l :: l in Scan(s).lexemes ==> WellFormedLexeme(l)
    ensures IsWord(Scan(s).pending)
    decreases |s|
  {
    if s != [] {
      ScanWellFormed(s[..|s| - 1]);
    }
  }

  /**
   * Nothing but blanks is lost, except the word still pending at the end,
   * which the loop never emits.
   */
  lemma {:induction false} ScanConcat(s: string)
    ensures Concat(Scan(s).lexemes) + Scan(s).pending == Strip(s)
    decreases |s|
  {
    if s != [] {
      var s' := s[..|s| - 1];
      var c := s[|s| - 1];
      var st := Scan(s');
      ScanConcat(s');
      if IsSkipped(c) {
      } else if IsDelimiter(c) {
        ConcatSnoc(st.lexemes + Flush(st.pending), [c]);
        if st.pending != [] {
          ConcatSnoc(st.lexemes, st.pending);
        } else {
          assert st.lexemes + Flush(st.pending) == st.lexemes;
        }
      } else if c == ' ' {
        if st.pending != [] {
          ConcatSnoc(st.lexemes, st.pending);
        } else {
          assert st.lexemes + Flush(st.pending) == st.lexemes;
        }
      } else {
      }
    }
  }

  /** Scanning `s + [c]` is one more step after scanning `s`. */
  lemma ScanSnoc(s: string, c: char)
    ensures Scan(s + [c]) == ScanChar(Scan(s), c)
  {
    assert (s + [c])[..|s|] == s;
  }

  /**
   * A carriage return, line feed or tab is dropped wherever it stands: it
   * never ends a word, so the input scans as if it were not there.
   */
  lemma {:induction false} SkippedCharIgnored(s: string, c: char, t: string)
    requires IsSkipped(c)
    ensures Scan(s + [c] + t) == Scan(s + t)
    decreases |t|
  {
    if t == [] {
      assert s + [c] + t == s + [c] && s + t == s;
      ScanSnoc(s, c);
    } else {
      var t', d := t[..|t| - 1], t[|t| - 1];
      SkippedCharIgnored(s, c, t');
      assert s + [c] + t == (s + [c] + t') + [d];
      assert s + t == (s + t') + [d];
      ScanSnoc(s + [c] + t', d);
      ScanSnoc(s + t', d);
    }
  }

  /** One step on a state with lexemes `prefix + ls` acts on `ls` alone. */
  lemma ScanCharPrefix(prefix: seq<string>, st: Scanned, c: char)
    ensures ScanChar(Scanned(prefix + st.lexemes, st.pending), c)
      == Scanned(prefix + ScanChar(st, c).lexemes, ScanChar(st, c).pending)
  {
    if IsDelimiter(c) {
      assert prefix + st.lexemes + Flush(st.pending) + [[c]] == prefix + (st.lexemes + Flush(st.pending) + [[c]]);
    } else if !IsSkipped(c) && c == ' ' {
      assert prefix + st.lexemes + Flush(st.pending) == prefix + (st.lexemes + Flush(st.pending));
    }
  }

  /** After a state with no pending word, scanning goes on as if from the start. */
  lemma {:induction false} ScanRestarts(p: string, t: string)
    requires Scan(p).pending == []
    ensures Scan(p + t) == Scanned(Scan(p).lexemes + Scan(t).lexemes, Scan(t).pending)
    decreases |t|
  {
    if t == [] {
      assert p + t == p;
    } else {
      var t', d := t[..|t| - 1], t[|t| - 1];
      ScanRestarts(p, t');
      assert p + t == (p + t') + [d];
      ScanSnoc(p + t', d);
      ScanSnoc(t', d);
      assert t == t' + [d];
      ScanCharPrefix(Scan(p).lexemes, Scan(t'), d);
    }
  }

  /**
   * A space or a delimiter always ends the pending word: the input splits
   * there into the lexemes before it, the word pending before it (if any),
   * the delimiter itself, and the lexemes after it.
   */
  lemma SeparatorSplits(s: string, c: char, t: string)
    requires c == ' ' || IsDelimiter(c)
    ensures Scan(s + [c] + t) ==
      Scanned(Scan(s).lexemes + Flush(Scan(s).pending) + (if IsDelimiter(c) then [[c]] else []) + Scan(t).lexemes,
              Scan(t).pending)
  {
    ScanSnoc(s, c);
    ScanRestarts(s + [c], t);
  }

  /** A line feed joins its neighbours into one word: "a\nb;" splits as "ab", ";". */
  lemma LineBreakDoesNotSeparate()
    ensures Scan("a\nb;") == Scanned(["ab", ";"], "")
  {
    assert Scan("a") == Scanned([], "a") by { assert "a"[..0] == ""; }
    assert Scan("a\n") == Scanned([], "a") by { assert "a\n"[..1] == "a"; }
    assert Scan("a\nb") == Scanned([], "ab") by { assert "a\nb"[..2] == "a\n"; }
    assert "a\nb;"[..3] == "a\nb";
  }

  /** A word at the very end of the input stays pending: "x = 1" yields only "x", "=". */
  lemma TrailingWordDropped()
    ensures Scan("x = 1") == Scanned(["x", "="], "1")
  {
    assert Scan("x") == Scanned([], "x") by { assert "x"[..0] == ""; }
    assert Scan("x ") == Scanned(["x"], "") by { assert "x "[..1] == "x"; }
    assert Scan("x =") == Scanned(["x", "="], "") by { assert "x ="[..2] == "x "; }
    assert Scan("x = ") == Scanned(["x", "="], "") by { assert "x = "[..3] == "x ="; }
    assert "x = 1"[..4] == "x = ";
  }

  // ---------------------------------------------------------------- classification

  /** A lexeme that becomes an identifier token. */
  predicate IsIdLexeme(l: string, isAllowed: string -> bool) {
    !isAllowed(l) && l != ";" && !IsIntLiteral(l)
  }

  /** The token `run` makes of one lexeme; `isAllowed` is `TokenKind.isAllowed`. */
  function Classify(lexeme: string, isAllowed: string -> bool): (t: Token)
    ensures lexeme == ";" ==> t == Simple("Semicolon")
    ensures isAllowed(lexeme) && lexeme != ";" ==> t == Simple(lexeme)
    ensures !isAllowed(lexeme) && lexeme != ";" ==>
      t.text == lexeme && (t.kindId == "IntConst" <==> IsIntLiteral(lexeme)) &&
      (t.kindId == "id" <==> !IsIntLiteral(lexeme))
  {
    if !isAllowed(lexeme) && lexeme != ";" then
      if IsIntLiteral(lexeme) then Token("IntConst", lexeme) else Token("id", lexeme)
    else if lexeme == ";" then Simple("Semicolon")
    else Simple(lexeme)
  }

  /** The tokens of a lexeme sequence, one per lexeme, in order. */
  function Tokens(ls: seq<string>, isAllowed: string -> bool): seq<Token>
    decreases |ls|
  {
    if ls == [] then [] else Tokens(ls[..|ls| - 1], isAllowed) + [Classify(ls[|ls| - 1], isAllowed)]
  }

  /** Token `i` is the classification of lexeme `i`, and there is one token per lexeme. */
  lemma {:induction false} TokensAt(ls: seq<string>, isAllowed: string -> bool)
    ensures |Tokens(ls, isAllowed)| == |ls|
    ensures forall i :: 0 <= i < |ls| ==> Tokens(ls, isAllowed)[i] == Classify(ls[i], isAllowed)
    decreases |ls|
  {
    if ls != [] {
      var init := ls[..|ls| - 1];
      TokensAt(init, isAllowed);
      forall i | 0 <= i < |ls| ensures Tokens(ls, isAllowed)[i] == Classify(ls[i], isAllowed) {
        if i < |init| {
          assert ls[i] == init[i];
        }
      }
    }
  }

  function Pow10(k: nat): (r: nat)
    ensures r >= 1
  {
    if k == 0 then 1 else 10 * Pow10(k - 1)
  }

  lemma {:induction false} Pow10Monotone(a: nat, b: nat)
    requires a <= b
    ensures Pow10(a) <= Pow10(b)
    decreases b
  {
    if a < b {
      Pow10Monotone(a, b - 1);
    }
  }

  /** A digit string with a non-zero first digit is worth at least 10^(length-1). */
  lemma {:induction false} DecimalLowerBound(s: string)
    requires |s| > 0 && AllDigits(s) && s[0] != '0'
    ensures DecimalValue(s) >= Pow10(|s| - 1)
    decreases |s|
  {
    if |s| > 1 {
      DecimalLowerBound(s[..|s| - 1]);
    }
  }

  /**
   * A literal of eleven or more significant digits does not fit in an `int`,
   * so `run` makes it an identifier rather than an integer constant.
   */
  lemma LongLiteralIsId(s: string, isAllowed: string -> bool)
    requires |s| >= 11 && AllDigits(s) && s[0] != '0'
    requires !isAllowed(s) && s != ";"
    ensures Classify(s, isAllowed) == Token("id", s)
  {
    DecimalLowerBound(s);
    var k := |s| - 1;
    Pow10Monotone(10, k);
    assert Pow10(10) == 10000000000;
  }

  /** The identifier texts among `ls`. */
  function IdTexts(ls: seq<string>, isAllowed: string -> bool): set<string>
  {
    set i | 0 <= i < |ls| && IsIdLexeme(ls[i], isAllowed) :: ls[i]
  }

  /** The symbol table after `run` has entered the identifiers among `ls`. */
  function Declare(entries: map<string, SymbolTableEntry>, ls: seq<string>, isAllowed: string -> bool)
    : map<string, SymbolTableEntry>
    decreases |ls|
  {
    if ls == [] then entries
    else
      DeclareOne(Declare(entries, ls[..|ls| - 1], isAllowed), ls[|ls| - 1], isAllowed)
  }

  /** Entering one lexeme: an identifier not yet in the table gets an untyped entry. */
  function DeclareOne(entries: map<string, SymbolTableEntry>, l: string, isAllowed: string -> bool)
    : map<string, SymbolTableEntry>
  {
    if IsIdLexeme(l, isAllowed) && l !in entries then entries[l := SymbolTableEntry(l, None)] else entries
  }

  /**
   * After `run`, the table holds exactly the old entries, unchanged, and
   * the identifier texts, each new one entered once with no type.
   */
  lemma {:induction false} DeclareSpec(entries: map<string, SymbolTableEntry>, ls: seq<string>, isAllowed: string -> bool)
    ensures Declare(entries, ls, isAllowed).Keys == entries.Keys + IdTexts(ls, isAllowed)
    ensures forall k :: k in entries ==> Declare(entries, ls, isAllowed)[k] == entries[k]
    ensures forall k :: k in Declare(entries, ls, isAllowed) && k !in entries ==>
      Declare(entries, ls, isAllowed)[k] == SymbolTableEntry(k, None)
    decreases |ls|
  {
    if ls != [] {
      var ls' := ls[..|ls| - 1];
      DeclareSpec(entries, ls', isAllowed);
      var l := ls[|ls| - 1];
      assert IdTexts(ls, isAllowed) == IdTexts(ls', isAllowed) + (if IsIdLexeme(l, isAllowed) then {l} else {}) by {
        forall x | x in IdTexts(ls, isAllowed)
          ensures x in IdTexts(ls', isAllowed) + (if IsIdLexeme(l, isAllowed) then {l} else {})
        {
          var i :| 0 <= i < |ls| && IsIdLexeme(ls[i], isAllowed) && ls[i] == x;
          if i < |ls'| {
            assert ls'[i] == x;
          }
        }
        forall x | x in IdTexts(ls', isAllowed) ensures x in IdTexts(ls, isAllowed) {
          var i :| 0 <= i < |ls'| && IsIdLexeme(ls'[i], isAllowed) && ls'[i] == x;
          assert ls[i] == x;
        }
        if IsIdLexeme(l, isAllowed) {
          assert ls[|ls| - 1] == l;
        }
      }
    }
  }

  class LexicalAnalyzer {
    const symbolTable: SymbolTable
    /** The lexemes `loadFile` split the content into (the Java field `tokens`). */
    var lexemes: seq<string>
    var tokenList: seq<Token>

    constructor (symbolTable: SymbolTable)
      ensures this.symbolTable == symbolTable && lexemes == [] && tokenList == []
    {
      this.symbolTable := symbolTable;
      lexemes := [];
      tokenList := [];
    }

    /** Splits the file content (read by the caller) into lexemes. */
    method LoadFile(content: string)
      modifies this
      ensures lexemes == Scan(content).lexemes
      ensures tokenList == old(tokenList)
    {
      lexemes := [];
      var pending: string := [];
      var i := 0;
      while i < |content|
        invariant 0 <= i <= |content|
        invariant Scanned(lexemes, pending) == Scan(content[..i])
        invariant tokenList == old(tokenList)
      {
        var c := content[i];
        assert content[..i + 1][..i] == content[..i];
        if c == '\r' || c == '\n' || c == '\t' {
        } else if c == '=' || c == ';' || c == '+' || c == ',' || c == '-' ||
                  c == '*' || c == '/' || c == '(' || c == ')' {
          if |pending| != 0 {
            lexemes := lexemes + [pending];
          }
          lexemes := lexemes + [[c]];
          pending := [];
        } else if c == ' ' {
          if |pending| != 0 {
            lexemes := lexemes + [pending];
          }
          pending := [];
        } else {
          pending := pending + [c];
        }
        i := i + 1;
      }
      assert content[..|content|] == content;
    }

    /**
     * Classifies every lexeme, in order, then appends the end marker;
     * identifiers not yet in the table are entered.
     */
    method Run(isAllowed: string -> bool)
      requires |lexemes| > 0
      modifies this, symbolTable
      ensures lexemes == old(lexemes)
      ensures |tokenList| == |lexemes| + 1 && tokenList[|lexemes|] == Eof()
      ensures forall i :: 0 <= i < |lexemes| ==> tokenList[i] == Classify(lexemes[i], isAllowed)
      ensures symbolTable.entries == Declare(old(symbolTable.entries), lexemes, isAllowed)
    {
      tokenList := [];
      var i := 0;
      while i < |lexemes|
        invariant 0 <= i <= |lexemes|
        invariant lexemes == old(lexemes)
        invariant tokenList == Tokens(lexemes[..i], isAllowed)
        invariant symbolTable.entries == Declare(old(symbolTable.entries), lexemes[..i], isAllowed)
      {
        var t := ClassifyLexeme(lexemes[i], isAllowed);
        tokenList := tokenList + [t];
        assert lexemes[..i + 1][..i] == lexemes[..i];
        i := i + 1;
      }
      assert lexemes[..|lexemes|] == lexemes;
      TokensAt(lexemes, isAllowed);
      tokenList := tokenList + [Eof()];
    }

    /** The body of the classification loop for one lexeme. */
    method ClassifyLexeme(token: string, isAllowed: string -> bool) returns (t: Token)
      modifies symbolTable
      ensures t == Classify(token, isAllowed)
      ensures symbolTable.entries == DeclareOne(old(symbolTable.entries), token, isAllowed)
    {
      if !isAllowed(token) && token != ";" {
        if IsIntLiteral(token) {
          t := Token("IntConst", token);
        } else {
          t := Token("id", token);
          if !symbolTable.Has(token) {
            symbolTable.Add(token);
          }
        }
      } else if token == ";" {
        t := Simple("Semicolon");
      } else {
        t := Simple(token);
      }
    }
  }
}
