/**
 * The two lookup tables of the lexer, built once and never changed: the
 * symbol table (exact operator or punctuation text to its classifier) and
 * the keyword table (reserved word to its classifier).
 */
module Tables {
  import opened Catalogue

  /**
   * A symbol-table value: the comment marker maps to a bare constant, every
   * other symbol to a constant with its display name.
   */
  datatype SymbolValue = Bare(cls: TokenClass) | Named(entry: Entry)

  const SymbolTable: map<string, SymbolValue> := map[
    "//" := Bare(Cmt),
    "||" := Named(Entry(Or, "Or")),
    "+" := Named(Entry(Plus, "Plus")),
    "-" := Named(Entry(Minus, "Minus")),
    "<" := Named(Entry(Less, "Less")),
    "<=" := Named(Entry(LessEq, "Less-Equal")),
    "&&" := Named(Entry(And, "And")),
    "==" := Named(Entry(Equal, "Equal")),
    "!=" := Named(Entry(NotEqual, "Not-Equal")),
    ">" := Named(Entry(Greater, "Greater")),
    ">=" := Named(Entry(GreaterEq, "Greater-Equal")),
    "*" := Named(Entry(Mul, "Multiply")),
    "/" := Named(Entry(Div, "Divide")),
    "%" := Named(Entry(Mod, "Modul")),
    "!" := Named(Entry(LogNot, "Logical-Not")),
    ";" := Named(Entry(PunSemiCol, "Semi-Col")),
    "," := Named(Entry(PunComma, "Comma")),
    "{" := Named(Entry(PunLeftCurlBrk, "Left-Curly-Brace")),
    "}" := Named(Entry(PunRightCurlBrk, "Right-Curly-Brace")),
    "(" := Named(Entry(PunLeftParen, "Left-Paren")),
    ")" := Named(Entry(PunRightParen, "Right-Paren"))
  ]

  /** The keyword table; `main` shares the constant of `while`, as in the source. */
  const KeywordTable: map<string, Entry> := map[
    "print" := Entry(KwdPrint, Ky),
    "bool" := Entry(KwdBool, Ky),
    "else" := Entry(KwdElse, Ky),
    "false" := Entry(KwdFalse, Ky),
    "if" := Entry(KwdIf, Ky),
    "true" := Entry(KwdTrue, Ky),
    "float" := Entry(KwdFloat, Ky),
    "int" := Entry(KwdInt, Ky),
    "while" := Entry(KwdWhile, Ky),
    "main" := Entry(KwdWhile, Ky)
  ]

  /** The display name of a symbol other than the comment marker. */
  function SymbolName(t: string): (name: string)
    requires t in SymbolTable && t != "//"
    ensures name != "" && name != Ky
    ensures name !in {IllegalTokenEntry.name, IdEntry.name, StrLitEntry.name, IntEntry.name, RealEntry.name}
  {
    SymbolTable[t].entry.name
  }

  /** Every keyword is a non-empty word of lower-case letters, and every keyword entry is named `Keyword`. */
  lemma KeywordSpelling(t: string)
    requires t in KeywordTable
    ensures t != "" && forall k :: 0 <= k < |t| ==> 'a' <= t[k] <= 'z'
    ensures KeywordTable[t].name == Ky
  {
    assert t in {"print", "bool", "else", "false", "if", "true", "float", "int", "while", "main"};
  }

  /**
   * Every symbol is one or two characters long, does not end in a newline,
   * starts with no letter, digit, double quote or whitespace, and starts
   * with `=` only as `==`.
   */
  lemma SymbolSpelling(t: string)
    requires t in SymbolTable
    ensures 1 <= |t| <= 2 && t[|t| - 1] != '\n'
    ensures !('a' <= t[0] <= 'z') && !('A' <= t[0] <= 'Z') && !('0' <= t[0] <= '9')
    ensures t[0] != '"' && t[0] != ' ' && !('\t' <= t[0] <= '\r')
    ensures t[0] == '=' ==> t == "=="
  {
  }
}
