/**
 * The token generator: the file is read line by line, a line that starts
 * with the comment marker is voided, the line counter advances on every
 * line, and the candidates of the line are classified in order until a
 * comment marker ends the line.  Each classified candidate becomes a token
 * carrying its label, its text and its line number.
 */
module Scanner {
  import opened Splitter
  import opened Classifier
  import opened Tables
  import opened Wrappers

  /** What the generator yields for one lexeme: label, lexeme text, line number. */
  datatype Token = Token(kind: string, lexeme: string, line: nat)

  /** A line that starts with the comment marker is replaced by an empty line. */
  function LineText(line: string): string
  {
    if "//" <= line then "" else line
  }

  /** The tokens of a line's candidates: each in turn, up to the first comment marker. */
  function EmitLine(cands: seq<string>, n: nat): seq<Token>
  {
    if cands == [] then []
    else
      match Classify(cands[0])
      case EndOfLine => []
      case Emit(k) => [Token(k, cands[0], n)] + EmitLine(cands[1..], n)
  }

  /** The tokens of line number n. */
  function LineTokens(line: string, n: nat): seq<Token>
  {
    EmitLine(Candidates(LineText(line)), n)
  }

  /** The tokens of a whole file, line after line; lines are numbered from 1. */
  function Scan(lines: seq<string>): seq<Token>
  {
    if lines == [] then []
    else Scan(lines[..|lines| - 1]) + LineTokens(lines[|lines| - 1], |lines|)
  }

  /**
   * The generator's loop: the line counter, the voiding of comment lines and
   * the inner loop over the candidates that a comment marker breaks off.
   */
  method TokenGenerator(file: seq<string>) returns (tokens: seq<Token>)
    ensures tokens == Scan(file)
  {
    tokens := [];
    var lineNum := 0;
    for idx := 0 to |file|
      invariant lineNum == idx
      invariant tokens == Scan(file[..idx])
    {
      var line := file[idx];
      if "//" <= line {
        line := "";
      }
      lineNum := lineNum + 1;
      var cands := Candidates(line);
      ghost var before := tokens;
      var j := 0;
      while j < |cands|
        invariant 0 <= j <= |cands|
        invariant tokens + EmitLine(cands[j..], lineNum) == before + EmitLine(cands, lineNum)
      {
        var t := cands[j];
        var verdict := Classify(t);
        if verdict.EndOfLine? {
          break;
        }
        assert cands[j..][1..] == cands[j + 1..];
        tokens := tokens + [Token(verdict.kind, t, lineNum)];
        j := j + 1;
      }
      assert tokens == before + EmitLine(cands, lineNum);
      assert file[..idx + 1][..idx] == file[..idx];
    }
    assert file[..|file|] == file;
  }

  // ---------------------------------------------------------------------
  // What a line yields

  /** Where the comment marker cuts a line's candidates: its first occurrence, or the end. */
  function CommentCut(cands: seq<string>): (c: nat)
    ensures c <= |cands|
    ensures forall i :: 0 <= i < c ==> cands[i] != "//"
    ensures c < |cands| ==> cands[c] == "//"
  {
    if cands == [] || cands[0] == "//" then 0 else 1 + CommentCut(cands[1..])
  }

  /**
   * A line yields one token per candidate before the first comment marker,
   * in order, each labelled by the classifier with the line's number.
   */
  lemma {:induction false} EmitLineCandidates(cands: seq<string>, n: nat)
    ensures |EmitLine(cands, n)| == CommentCut(cands)
    ensures forall i :: 0 <= i < |EmitLine(cands, n)| ==>
      Classify(cands[i]) == Emit(EmitLine(cands, n)[i].kind)
      && EmitLine(cands, n)[i] == Token(Classify(cands[i]).kind, cands[i], n)
  {
    if cands != [] {
      ClassifyEndOfLine(cands[0]);
      if cands[0] != "//" {
        EmitLineCandidates(cands[1..], n);
      }
    }
  }

  /** A line that starts with the comment marker yields nothing. */
  lemma CommentLineIsSilent(line: string, n: nat)
    requires "//" <= line
    ensures LineTokens(line, n) == []
  {
    assert Pieces("") == [Run("")];
  }

  /** The texts of a scanner step that closes a run with a capture. */
  lemma TextsOfCapture(x: string, y: string, rest: seq<Piece>)
    ensures Texts([Run(x), Captured(y)] + rest) == [x, y] + Texts(rest)
  {
    var ps := [Run(x), Captured(y)] + rest;
    assert ps[1..] == [Captured(y)] + rest;
    assert ps[1..][1..] == rest;
  }

  /** The first candidate of a line that starts with the comment marker is that marker. */
  lemma CommentLineFirstCandidate(line: string)
    requires "//" <= line
    ensures Candidates(line) != [] && Candidates(line)[0] == "//"
  {
    assert At2(line, 0, '/', '/');
    assert MatchAt(line, 0) == Symbol(2);
    var rest := PiecesFrom(line, 2, 2);
    assert line[0..0] == "" && line[0..2] == "//";
    assert Pieces(line) == [Run(""), Captured("//")] + rest;
    TextsOfCapture("", "//", rest);
    var xs := ["", "//"] + Texts(rest);
    assert Split(line) == xs;
    assert xs[1..] == ["//"] + Texts(rest);
    assert NonEmpty(xs) == NonEmpty(xs[1..]);
    assert NonEmpty(xs[1..]) == ["//"] + NonEmpty(xs[1..][1..]);
  }

  /**
   * Voiding comment lines changes nothing: the first candidate of a line that
   * starts with the comment marker is that marker, which ends the line anyway.
   */
  lemma CommentLineCheckIsRedundant(line: string, n: nat)
    ensures LineTokens(line, n) == EmitLine(Candidates(line), n)
  {
    if "//" <= line {
      CommentLineIsSilent(line, n);
      CommentLineFirstCandidate(line);
    }
  }

  // ---------------------------------------------------------------------
  // What the whole file yields

  /** Every token carries the number of a line of the file, and the numbers never go down. */
  lemma {:induction false} ScanLineNumbers(lines: seq<string>)
    ensures forall i :: 0 <= i < |Scan(lines)| ==> 1 <= Scan(lines)[i].line <= |lines|
    ensures forall i, j :: 0 <= i < j < |Scan(lines)| ==> Scan(lines)[i].line <= Scan(lines)[j].line
  {
    if lines != [] {
      var init := lines[..|lines| - 1];
      ScanLineNumbers(init);
      LineTokensNumbered(lines[|lines| - 1], |lines|);
    }
  }

  /** All tokens of a line carry that line's number. */
  lemma LineTokensNumbered(line: string, n: nat)
    ensures forall i :: 0 <= i < |LineTokens(line, n)| ==> LineTokens(line, n)[i].line == n
  {
    EmitLineCandidates(Candidates(LineText(line)), n);
  }

  /**
   * Every token comes from its own line: its lexeme is a candidate of that
   * line, it is never the comment marker, and its label is the classifier's.
   */
  lemma {:induction false} ScanTokenOrigin(lines: seq<string>)
    ensures forall tok :: tok in Scan(lines) ==>
      && 1 <= tok.line <= |lines|
      && tok.lexeme in Candidates(LineText(lines[tok.line - 1]))
      && tok.lexeme != "//"
      && Classify(tok.lexeme) == Emit(tok.kind)
  {
    if lines != [] {
      var init := lines[..|lines| - 1];
      var last := lines[|lines| - 1];
      ScanTokenOrigin(init);
      LineTokenOrigin(last, |lines|);
      forall tok | tok in Scan(lines)
        ensures 1 <= tok.line <= |lines|
        ensures tok.lexeme in Candidates(LineText(lines[tok.line - 1]))
        ensures tok.lexeme != "//"
        ensures Classify(tok.lexeme) == Emit(tok.kind)
      {
        if tok in Scan(init) {
          assert lines[tok.line - 1] == init[tok.line - 1];
        }
      }
    }
  }

  /** The tokens of one line carry its number and come from its candidates. */
  lemma LineTokenOrigin(line: string, n: nat)
    ensures forall tok :: tok in LineTokens(line, n) ==>
      && tok.line == n
      && tok.lexeme in Candidates(LineText(line))
      && tok.lexeme != "//"
      && Classify(tok.lexeme) == Emit(tok.kind)
  {
    var cands := Candidates(LineText(line));
    EmitLineCandidates(cands, n);
    forall tok | tok in LineTokens(line, n)
      ensures tok.line == n && tok.lexeme in cands
      ensures tok.lexeme != "//" && Classify(tok.lexeme) == Emit(tok.kind)
    {
      var i :| 0 <= i < |EmitLine(cands, n)| && EmitLine(cands, n)[i] == tok;
    }
  }

  /** A comment marker inside a quoted span does not end the line: the span is one string literal. */
  lemma QuotedMarkerExample()
    ensures LineTokens("\"//\"", 1) == [Token("String-Literal", "\"//\"", 1)]
  {
    var line := "\"//\"";
    assert LineText(line) == line;
    LineEndUnique(line, 1, 4);
    assert LastQuote(line, 1, 4) == Some(3);
    assert MatchAt(line, 0) == Symbol(4);
    assert Pieces(line) == [Run(""), Captured(line), Run("")] by {
      assert line[0..0] == "" && line[0..4] == line && line[4..] == "";
      assert PiecesFrom(line, 4, 4) == [Run("")];
    }
    TextsOfCapture("", line, [Run("")]);
    assert Split(line) == ["", line, ""];
    assert Candidates(line) == [line] by {
      var xs := ["", line, ""];
      assert xs[1..] == [line, ""];
      assert xs[1..][1..] == [""];
      assert NonEmpty([""]) == [];
    }
    assert Classify(line) == Emit("String-Literal") by {
      ClassifyStringLiteral(line);
    }
  }

  // ---------------------------------------------------------------------
  // A line of table entries separated by single spaces

  /** The lexemes of the tokens, in order. */
  function Lexemes(ts: seq<Token>): (r: seq<string>)
    ensures |r| == |ts|
    ensures forall i :: 0 <= i < |ts| ==> r[i] == ts[i].lexeme
  {
    if ts == [] then [] else [ts[0].lexeme] + Lexemes(ts[1..])
  }

  /** Every entry of either table is a word the splitter keeps whole. */
  lemma TableWordsAreLexWords(w: string)
    requires w in SymbolTable || w in KeywordTable
    ensures IsLexWord(w)
  {
    if w in KeywordTable {
      KeywordSpelling(w);
    } else {
      assert w in {"//", "||", "+", "-", "<", "<=", "&&", "==", "!=", ">", ">=",
                   "*", "/", "%", "!", ";", ",", "{", "}", "(", ")"};
    }
  }

  /** A line of table entries is a line of words the splitter keeps whole. */
  lemma TableLineWords(ws: seq<string>)
    requires forall i :: 0 <= i < |ws| ==> ws[i] in SymbolTable || ws[i] in KeywordTable
    ensures AllLexWords(ws)
  {
    forall i | 0 <= i < |ws|
      ensures IsLexWord(ws[i])
    {
      TableWordsAreLexWords(ws[i]);
    }
  }

  /** The only word that starts with a slash, other than the comment marker, is the division sign. */
  lemma SlashWord(w: string)
    requires IsLexWord(w) && w != "//"
    ensures w[0] == '/' ==> w == "/"
  {
    if w in SplitSymbols {
      assert w in {"//", "||", "+", "-", "<=", "<", "&&", "==", "!=", ">=", ">",
                   "*", "/", "%", "!", ";", ",", "}", "{", "(", ")"};
    }
  }

  /** A line whose first word is not the comment marker is not voided. */
  lemma WordLineNotVoided(ws: seq<string>)
    requires ws != [] ==> IsLexWord(ws[0]) && ws[0] != "//"
    ensures LineText(Unwords(ws)) == Unwords(ws)
  {
    if ws != [] {
      var w := ws[0];
      var line := Unwords(ws);
      UnwordsHead(ws);
      SlashWord(w);
      assert line[0] == w[0];
      if w == "/" && |line| >= 2 {
        assert ws[1..] != [] && line[1] == ' ';
      }
      if |line| >= 2 {
        assert line[0] != '/' || line[1] != '/';
        assert line[..2] != "//";
      }
    }
  }

  /**
   * A line of symbol-table and keyword-table entries separated by single
   * spaces, none of them the comment marker, lexes to exactly those words in
   * order: one token per word, so joining the lexemes with single spaces
   * gives the line back.
   */
  lemma WordsRelex(ws: seq<string>, n: nat)
    requires forall i :: 0 <= i < |ws| ==> ws[i] in SymbolTable || ws[i] in KeywordTable
    requires forall i :: 0 <= i < |ws| ==> ws[i] != "//"
    ensures Lexemes(LineTokens(Unwords(ws), n)) == ws
    ensures Unwords(Lexemes(LineTokens(Unwords(ws), n))) == Unwords(ws)
  {
    TableLineWords(ws);
    LexWordsRelex(ws, n);
  }

  /** The same for any words the splitter keeps whole, none of them the comment marker. */
  lemma LexWordsRelex(ws: seq<string>, n: nat)
    requires AllLexWords(ws)
    requires forall i :: 0 <= i < |ws| ==> ws[i] != "//"
    ensures Lexemes(LineTokens(Unwords(ws), n)) == ws
  {
    WordLineCandidates(ws);
    LineTokensOf(Unwords(ws), ws, n);
    EmitLineLexemes(ws, n);
  }

  lemma LineTokensOf(line: string, cands: seq<string>, n: nat)
    requires Candidates(LineText(line)) == cands
    ensures LineTokens(line, n) == EmitLine(cands, n)
  {
  }

  /** The candidates of a line of words, voiding included, are the words. */
  lemma WordLineCandidates(ws: seq<string>)
    requires AllLexWords(ws)
    requires forall i :: 0 <= i < |ws| ==> ws[i] != "//"
    ensures Candidates(LineText(Unwords(ws))) == ws
  {
    WordLineNotVoided(ws);
    UnwordsRoundTrip(ws);
  }

  /** Candidates without a comment marker each become one token, carrying the candidate as its lexeme. */
  lemma {:induction false} EmitLineLexemes(cands: seq<string>, n: nat)
    requires forall i :: 0 <= i < |cands| ==> cands[i] != "//"
    ensures Lexemes(EmitLine(cands, n)) == cands
    decreases |cands|
  {
    if cands != [] {
      ClassifyEndOfLine(cands[0]);
      EmitLineLexemes(cands[1..], n);
      var k := Classify(cands[0]).kind;
      assert EmitLine(cands, n) == [Token(k, cands[0], n)] + EmitLine(cands[1..], n);
      assert ([Token(k, cands[0], n)] + EmitLine(cands[1..], n))[1..] == EmitLine(cands[1..], n);
      assert cands == [cands[0]] + cands[1..];
    }
  }

  /** The comment marker as a word ends the line: `x // y` yields only `x`. */
  lemma CommentWordEndsLine()
    ensures Lexemes(LineTokens(Unwords(["x", "//", "y"]), 1)) == ["x"]
  {
    var ws := ["x", "//", "y"];
    assert IsLexWord(ws[0]) && IsLexWord(ws[1]) && IsLexWord(ws[2]);
    UnwordsRoundTrip(ws);
    WordLineNotVoided(ws);
    EmitLineCandidates(ws, 1);
    assert CommentCut(ws) == 1 by {
      assert ws[1..] == ["//", "y"];
    }
  }
}
