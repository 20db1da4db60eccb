/**
 * The token catalogue of the lexer: one constant per token classifier,
 * numbered by a running counter in declaration order, and the display
 * names that some of the constants carry.
 */
module Catalogue {

  /** The classifier constants, in the order the Lexer class declares them. */
  datatype TokenClass =
    | FileNotFound | IllegalToken | Eof | InvalidFileName
    | Id | IntLit | FloatLit | StrLit | Int | Cmt | Real
    | Or | Plus | Minus | Less | LessEq | And | Equal | NotEqual
    | Greater | GreaterEq | Mul | Div | Mod | LogNot
    | KwdPrint | KwdBool | KwdElse | KwdFalse | KwdIf | KwdTrue | KwdFloat | KwdInt | KwdWhile
    | PunSemiCol | PunComma | PunLeftCurlBrk | PunRightCurlBrk | PunLeftParen | PunRightParen

  /** The order in which the constants draw their numbers from the counter, group by group. */
  const Sentinels: seq<TokenClass> := [FileNotFound, IllegalToken, Eof, InvalidFileName]
  const Literals: seq<TokenClass> := [Id, IntLit, FloatLit, StrLit, Int, Cmt, Real]
  const Operators: seq<TokenClass> := [Or, Plus, Minus, Less, LessEq, And, Equal, NotEqual, Greater, GreaterEq, Mul, Div, Mod, LogNot]
  const Keywords: seq<TokenClass> := [KwdPrint, KwdBool, KwdElse, KwdFalse, KwdIf, KwdTrue, KwdFloat, KwdInt, KwdWhile]
  const Punctuation: seq<TokenClass> := [PunSemiCol, PunComma, PunLeftCurlBrk, PunRightCurlBrk, PunLeftParen, PunRightParen]
  const Declared: seq<TokenClass> := Sentinels + Literals + Operators + Keywords + Punctuation

  /** A classifier constant paired with its display name (the `[code, name]` lists). */
  datatype Entry = Entry(cls: TokenClass, name: string)

  const IllegalTokenEntry := Entry(IllegalToken, "Illegal-Token")
  const IdEntry := Entry(Id, "Identifier")
  const IntLitEntry := Entry(IntLit, "Int-Literal")
  const FloatLitEntry := Entry(FloatLit, "Float-Literal")
  const StrLitEntry := Entry(StrLit, "String-Literal")
  const IntEntry := Entry(Int, "Int")
  const RealEntry := Entry(Real, "Float-Literal")

  /** The display name shared by every keyword. */
  const Ky := "Keyword"

  /** The counter generator: each call of Next hands out the current value and advances by one. */
  class Counter {
    var i: nat

    constructor ()
      ensures i == 0
    {
      i := 0;
    }

    method Next() returns (v: nat)
      modifies this
      ensures v == old(i) && i == old(i) + 1
    {
      v := i;
      i := i + 1;
    }
  }

  /**
   * Draws one number per position of `order` from a fresh counter, each
   * constant keeping the number of its last position: every constant of
   * `order` gets a number, the number is a position holding that constant,
   * and therefore no two constants share a number.
   */
  method NumberClasses(order: seq<TokenClass>) returns (codes: map<TokenClass, nat>)
    ensures forall c :: c in codes <==> c in order
    ensures forall c :: c in codes ==> codes[c] < |order| && order[codes[c]] == c
    ensures forall c, k :: c in codes && codes[c] < k < |order| ==> order[k] != c
    ensures forall a, b :: a in codes && b in codes && a != b ==> codes[a] != codes[b]
  {
    var cnt := new Counter();
    codes := map[];
    for k := 0 to |order|
      invariant cnt.i == k
      invariant forall c :: c in codes <==> c in order[..k]
      invariant forall c :: c in codes ==> codes[c] < k && order[codes[c]] == c
      invariant forall c, j :: c in codes && codes[c] < j < k ==> order[j] != c
    {
      var v := cnt.Next();
      codes := codes[order[k] := v];
    }
    assert order[..|order|] == order;
  }

  /** Every constant takes part in the numbering. */
  lemma DeclaredIsComplete(c: TokenClass)
    ensures c in Declared
  {
    match c
    case FileNotFound => assert c in Sentinels;
    case IllegalToken => assert c in Sentinels;
    case Eof => assert c in Sentinels;
    case InvalidFileName => assert c in Sentinels;
    case Id => assert c in Literals;
    case IntLit => assert c in Literals;
    case FloatLit => assert c in Literals;
    case StrLit => assert c in Literals;
    case Int => assert c in Literals;
    case Cmt => assert c in Literals;
    case Real => assert c in Literals;
    case Or => assert c in Operators;
    case Plus => assert c in Operators;
    case Minus => assert c in Operators;
    case Less => assert c in Operators;
    case LessEq => assert c in Operators;
    case And => assert c in Operators;
    case Equal => assert c in Operators;
    case NotEqual => assert c in Operators;
    case Greater => assert c in Operators;
    case GreaterEq => assert c in Operators;
    case Mul => assert c in Operators;
    case Div => assert c in Operators;
    case Mod => assert c in Operators;
    case LogNot => assert c in Operators;
    case KwdPrint => assert c in Keywords;
    case KwdBool => assert c in Keywords;
    case KwdElse => assert c in Keywords;
    case KwdFalse => assert c in Keywords;
    case KwdIf => assert c in Keywords;
    case KwdTrue => assert c in Keywords;
    case KwdFloat => assert c in Keywords;
    case KwdInt => assert c in Keywords;
    case KwdWhile => assert c in Keywords;
    case PunSemiCol => assert c in Punctuation;
    case PunComma => assert c in Punctuation;
    case PunLeftCurlBrk => assert c in Punctuation;
    case PunRightCurlBrk => assert c in Punctuation;
    case PunLeftParen => assert c in Punctuation;
    case PunRightParen => assert c in Punctuation;
  }

  /**
   * The numbering the Lexer class performs: every constant gets a number,
   * the number is the constant's place in the declaration, and all numbers differ.
   */
  method LexerConstants() returns (codes: map<TokenClass, nat>)
    ensures forall c: TokenClass :: c in codes && codes[c] < |Declared| && Declared[codes[c]] == c
    ensures forall a, b :: a in codes && b in codes && a != b ==> codes[a] != codes[b]
  {
    codes := NumberClasses(Declared);
    forall c: TokenClass
      ensures c in Declared
    {
      DeclaredIsComplete(c);
    }
  }
}
