/** The parser-side vocabulary the two observers see. */
module Grammar {
  import opened Lexer

  /** A production of the fixed grammar: its index, head and body symbols. */
  datatype Production = Production(index: int, head: string, body: seq<string>)

  /**
   * One parser action as an observer receives it. The automaton status that
   * accompanies each action is unused by the observers and is left out.
   */
  datatype Event = Shift(token: Token) | Reduce(production: Production) | Accept
}
