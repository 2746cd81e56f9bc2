/**
 * The symbol table shared by the lexer (which enters identifiers) and the
 * semantic analyzer (which fills in their declared type).
 */
module Symtab {
  import opened Wrappers

  /** The one source type the language has. */
  datatype SourceCodeType = Int

  /** An entry: the identifier's text and its type, unset until declared. */
  datatype SymbolTableEntry = SymbolTableEntry(text: string, typ: Option<SourceCodeType>)

  class SymbolTable {
    var entries: map<string, SymbolTableEntry>

    constructor ()
      ensures entries == map[]
    {
      entries := map[];
    }

    predicate Has(text: string)
      reads this
    {
      text in entries
    }

    /** Enters a new identifier with no type yet. */
    method Add(text: string)
      requires text !in entries
      modifies this
      ensures entries == old(entries)[text := SymbolTableEntry(text, None)]
    {
      entries := entries[text := SymbolTableEntry(text, None)];
    }

    /** `get(text).setType(t)`: sets the type of an existing entry. */
    method SetType(text: string, t: SourceCodeType)
      requires text in entries
      modifies this
      ensures entries == old(entries)[text := old(entries)[text].(typ := Some(t))]
    {
      entries := entries[text := entries[text].(typ := Some(t))];
    }
  }
}
