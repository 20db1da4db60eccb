/**
 * The classifier: the cascade of tests the lexer applies to each candidate
 * lexeme, in order — the comment marker, the symbol table, the string
 * literal pattern, the identifier pattern (then the keyword table), the
 * integer pattern, the real-number pattern, and finally the illegal token.
 *
 * The patterns are anchored with `^` and `$`.  Without the multi-line flag,
 * `$` matches at the end of the text or just before a final newline, which
 * is what `Chomp` captures.  The string-literal pattern is only anchored at
 * the start.
 */
module Classifier {
  import opened Catalogue
  import opened Tables
  import opened Splitter

  /** The text `$` sees: a single final newline does not count. */
  function Chomp(t: string): (r: string)
    ensures |r| <= |t| && r == t[..|r|]
    ensures |t| - 1 <= |r|
    ensures |r| < |t| <==> t != "" && t[|t| - 1] == '\n'
  {
    if t != "" && t[|t| - 1] == '\n' then t[..|t| - 1] else t
  }

  predicate IsDigit(c: char)
  {
    '0' <= c <= '9'
  }

  predicate IsLetter(c: char)
  {
    'a' <= c <= 'z' || 'A' <= c <= 'Z'
  }

  predicate AllDigits(u: string)
  {
    forall k :: 0 <= k < |u| ==> IsDigit(u[k])
  }

  /** `[=a-zA-Z][a-zA-Z0-9_]*` over the whole text. */
  predicate IdShape(u: string)
  {
    && u != ""
    && (u[0] == '=' || IsLetter(u[0]))
    && forall k :: 1 <= k < |u| ==> IsLetter(u[k]) || IsDigit(u[k]) || u[k] == '_'
  }

  /** `[0-9][0-9]*` over the whole text. */
  predicate IntShape(u: string)
  {
    u != "" && AllDigits(u)
  }

  /** How many digits the text starts with. */
  function LeadingDigits(u: string): (d: nat)
    ensures d <= |u|
    ensures AllDigits(u[..d])
    ensures d < |u| ==> !IsDigit(u[d])
  {
    if u != [] && IsDigit(u[0]) then
      assert u[..1 + LeadingDigits(u[1..])] == [u[0]] + u[1..][..LeadingDigits(u[1..])];
      1 + LeadingDigits(u[1..])
    else 0
  }

  /** `([0-9])+(\.)(\d*)` over the whole text: digits, one dot, digits. */
  predicate RealShape(u: string)
  {
    var d := LeadingDigits(u);
    1 <= d < |u| && u[d] == '.' && AllDigits(u[d + 1..])
  }

  /** The identifier pattern `^[=a-zA-Z][a-zA-Z0-9_]*$` finds a match. */
  predicate IdMatch(t: string)
  {
    IdShape(Chomp(t))
  }

  /** The integer pattern `^[0-9][0-9]*$` finds a match. */
  predicate IntMatch(t: string)
  {
    IntShape(Chomp(t))
  }

  /** The real-number pattern `^([0-9])+(\.)(\d*)$` finds a match. */
  predicate RealMatch(t: string)
  {
    RealShape(Chomp(t))
  }

  /**
   * The string-literal pattern `".*"|\s$` matches at the start: a double
   * quote with another one later before any newline, or a single whitespace
   * character that ends the text (or precedes its final newline).
   */
  predicate StrLitMatch(t: string)
  {
    && t != ""
    && ((t[0] == '"' && QuoteClose(t, 0).Some?)
        || (IsSpace(t[0]) && (|t| == 1 || (|t| == 2 && t[1] == '\n'))))
  }

  /** What the cascade does with a candidate: stop the line, or emit a label. */
  datatype Verdict = EndOfLine | Emit(kind: string)

  /** The classification cascade, test by test in the source's order. */
  function Classify(t: string): Verdict
  {
    if t == "//" then EndOfLine
    else if t in SymbolTable then Emit(SymbolName(t))
    else if StrLitMatch(t) then Emit(StrLitEntry.name)
    else if IdMatch(t) then
      (if t in KeywordTable then Emit(KeywordTable[t].name) else Emit(IdEntry.name))
    else if IntMatch(t) then Emit(IntEntry.name)
    else if RealMatch(t) then Emit(RealEntry.name)
    else Emit(IllegalTokenEntry.name)
  }

  // ---------------------------------------------------------------------
  // Which tests can overlap

  /** A match of the identifier, integer or real pattern starts with its shape's first character. */
  lemma ChompHead(t: string)
    requires Chomp(t) != ""
    ensures t != "" && t[0] == Chomp(t)[0]
  {
  }

  /** No symbol-table key has the shape of an identifier, integer, real or string literal. */
  lemma SymbolsAreNotWords(t: string)
    requires t in SymbolTable
    ensures !IdMatch(t) && !IntMatch(t) && !RealMatch(t) && !StrLitMatch(t)
  {
    SymbolSpelling(t);
    assert Chomp(t) == t;
    if t[0] == '=' {
      assert t[1] == '=';
    }
  }

  /** The keywords are identifiers and nothing else the cascade tests first. */
  lemma KeywordsAreIdentifiers(t: string)
    requires t in KeywordTable
    ensures IdMatch(t) && t !in SymbolTable && !StrLitMatch(t) && t != "//"
    ensures KeywordTable[t].name == Ky
  {
    KeywordSpelling(t);
    assert Chomp(t) == t;
    if t in SymbolTable {
      SymbolSpelling(t);
    }
  }

  /** A text the identifier pattern accepts is no string literal, integer or real. */
  lemma IdExcludes(t: string)
    requires IdMatch(t)
    ensures !StrLitMatch(t) && !IntMatch(t) && !RealMatch(t) && t != "//"
  {
    ChompHead(t);
  }

  /** A text the integer or real pattern accepts starts with a digit, so it is no string literal. */
  lemma NumberExcludesString(t: string)
    requires IntMatch(t) || RealMatch(t)
    ensures !StrLitMatch(t) && t != "//" && t !in SymbolTable
  {
    ChompHead(t);
    if t in SymbolTable {
      SymbolsAreNotWords(t);
    }
  }

  /** A real number holds a dot, so it is never an integer. */
  lemma RealIsNotInt(t: string)
    requires RealMatch(t)
    ensures !IntMatch(t)
  {
    var u := Chomp(t);
    var d := LeadingDigits(u);
    assert !IsDigit(u[d]);
  }

  // ---------------------------------------------------------------------
  // Each label, and exactly when the cascade gives it

  lemma ClassifyEndOfLine(t: string)
    ensures Classify(t) == EndOfLine <==> t == "//"
  {
  }

  /** A symbol other than the comment marker gets its display name from the symbol table. */
  lemma ClassifySymbol(t: string)
    requires t in SymbolTable && t != "//"
    ensures Classify(t) == Emit(SymbolTable[t].entry.name)
    ensures SymbolTable[t].entry.name !in {Ky, IdEntry.name, StrLitEntry.name, IntEntry.name, RealEntry.name, IllegalTokenEntry.name}
  {
    var name := SymbolName(t);
  }

  lemma ClassifyKeyword(t: string)
    ensures Classify(t) == Emit(Ky) <==> t in KeywordTable
  {
    if t in KeywordTable {
      KeywordsAreIdentifiers(t);
    } else if t != "//" && t in SymbolTable {
      ClassifySymbol(t);
    }
  }

  lemma ClassifyIdentifier(t: string)
    ensures Classify(t) == Emit(IdEntry.name) <==> IdMatch(t) && t !in KeywordTable
  {
    if IdMatch(t) {
      IdExcludes(t);
      if t in SymbolTable {
        SymbolsAreNotWords(t);
      }
    } else if t != "//" && t in SymbolTable {
      ClassifySymbol(t);
    }
  }

  lemma ClassifyStringLiteral(t: string)
    ensures Classify(t) == Emit(StrLitEntry.name) <==> StrLitMatch(t)
  {
    if t in SymbolTable {
      SymbolsAreNotWords(t);
      if t != "//" {
        ClassifySymbol(t);
      }
    }
    if t in KeywordTable {
      KeywordsAreIdentifiers(t);
    }
  }

  /** Integers are labelled `Int`, not `Int-Literal`. */
  lemma ClassifyInt(t: string)
    ensures Classify(t) == Emit(IntEntry.name) <==> IntMatch(t)
  {
    if IntMatch(t) {
      NumberExcludesString(t);
      if IdMatch(t) {
        IdExcludes(t);
      }
    } else {
      if t != "//" && t in SymbolTable {
        ClassifySymbol(t);
      }
      if t in KeywordTable {
        KeywordsAreIdentifiers(t);
      }
    }
  }

  lemma ClassifyReal(t: string)
    ensures Classify(t) == Emit(RealEntry.name) <==> RealMatch(t)
  {
    if RealMatch(t) {
      NumberExcludesString(t);
      RealIsNotInt(t);
      if IdMatch(t) {
        IdExcludes(t);
      }
    } else {
      if t != "//" && t in SymbolTable {
        ClassifySymbol(t);
      }
      if t in KeywordTable {
        KeywordsAreIdentifiers(t);
      }
    }
  }

  /** What no test accepts is an illegal token. */
  lemma ClassifyIllegal(t: string)
    ensures Classify(t) == Emit(IllegalTokenEntry.name) <==>
      t !in SymbolTable && !StrLitMatch(t) && !IdMatch(t) && !IntMatch(t) && !RealMatch(t)
  {
    if t != "//" && t in SymbolTable {
      ClassifySymbol(t);
    }
    if t in KeywordTable {
      KeywordsAreIdentifiers(t);
    }
  }

  // ---------------------------------------------------------------------
  // Candidates of a split line

  /** For the three shapes a candidate can take, the string-literal pattern accepts exactly the quoted spans. */
  lemma StrLitIffQuotedSpan(c: string)
    requires c != "" && (c in SplitSymbols || IsQuotedSpan(c) || IsPlainRun(c))
    ensures StrLitMatch(c) <==> IsQuotedSpan(c)
  {
    if IsQuotedSpan(c) {
      LineEndUnique(c, 1, |c|);
      assert c[|c| - 1] == '"';
    } else if c in SplitSymbols {
      SplitSymbolChars(c);
    } else {
      assert !IsSpace(c[0]);
      if c[0] == '"' {
        assert forall k :: 0 < k < |c| ==> c[k] != '"';
      }
    }
  }

  /** Among the candidates of a line, the string literals are exactly the quoted spans. */
  lemma CandidateStringLiteral(s: string, c: string)
    requires c in Candidates(s)
    ensures Classify(c) == Emit(StrLitEntry.name) <==> IsQuotedSpan(c)
  {
    CandidateShapes(s);
    StrLitIffQuotedSpan(c);
    ClassifyStringLiteral(c);
  }

  /** A lone `=` is an identifier, and `main` is a keyword. */
  lemma WordExamples()
    ensures Classify("=") == Emit("Identifier")
    ensures Classify("main") == Emit("Keyword")
  {
    assert Classify("=") == Emit("Identifier") by {
      if "=" in KeywordTable {
        KeywordSpelling("=");
      }
      ClassifyIdentifier("=");
    }
    assert Classify("main") == Emit("Keyword") by {
      ClassifyKeyword("main");
    }
  }

  /** An assignment written without spaces is one illegal token. */
  lemma AssignmentExample()
    ensures Classify("x=1") == Emit("Illegal-Token")
  {
    assert !IdShape("x=1") by { assert "x=1"[1] == '='; }
    assert LeadingDigits("x=1") == 0;
    if "x=1" in SymbolTable {
      SymbolSpelling("x=1");
    }
    ClassifyIllegal("x=1");
  }

  /** A double quote with no partner is an illegal token, not a string literal. */
  lemma UnterminatedStringExample()
    ensures Classify("\"abc") == Emit("Illegal-Token")
  {
    assert QuoteClose("\"abc", 0).None? by {
      LineEndUnique("\"abc", 1, 4);
    }
    assert LeadingDigits("\"abc") == 0;
    if "\"abc" in SymbolTable {
      SymbolSpelling("\"abc");
    }
    ClassifyIllegal("\"abc");
  }

  /** Integers are labelled `Int`, and a real number may end at its dot. */
  lemma NumberExamples()
    ensures Classify("123") == Emit("Int")
    ensures Classify("12.") == Emit("Float-Literal")
  {
    assert Classify("123") == Emit("Int") by {
      ClassifyInt("123");
    }
    assert LeadingDigits("12.") == 2 by {
      assert "12."[1..] == "2.";
      assert "2."[1..] == ".";
    }
    ClassifyReal("12.");
  }

  /** A real number with digits after its dot. */
  lemma RealExample()
    ensures Classify("12.5") == Emit("Float-Literal")
  {
    assert LeadingDigits("12.5") == 2 by {
      assert "12.5"[1..] == "2.5";
      assert "2.5"[1..] == ".5";
    }
    assert "12.5"[3..] == "5";
    ClassifyReal("12.5");
  }

  /** A number with no digit before its dot is an illegal token. */
  lemma LeadingDotExample()
    ensures Classify(".5") == Emit("Illegal-Token")
  {
    assert LeadingDigits(".5") == 0;
    if ".5" in SymbolTable {
      SymbolSpelling(".5");
    }
    ClassifyIllegal(".5");
  }

  /** A number with two dots is an illegal token. */
  lemma TwoDotsExample()
    ensures Classify("1.2.3") == Emit("Illegal-Token")
  {
    assert LeadingDigits("1.2.3") == 1 by {
      assert "1.2.3"[1..] == ".2.3";
    }
    assert "1.2.3"[2..][1] == '.';
    assert !IntShape("1.2.3") by { assert "1.2.3"[1] == '.'; }
    if "1.2.3" in SymbolTable {
      SymbolSpelling("1.2.3");
    }
    ClassifyIllegal("1.2.3");
  }

  /** An identifier may not start with an underscore. */
  lemma UnderscoreExample()
    ensures Classify("_foo") == Emit("Illegal-Token")
  {
    assert LeadingDigits("_foo") == 0;
    if "_foo" in SymbolTable {
      SymbolSpelling("_foo");
    }
    ClassifyIllegal("_foo");
  }

  /** Two symbols and their display names. */
  lemma SymbolExamples()
    ensures Classify("<=") == Emit("Less-Equal")
    ensures Classify(";") == Emit("Semi-Col")
  {
    ClassifySymbol("<=");
    ClassifySymbol(";");
  }
}
