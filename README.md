# Lexer for a small C-like teaching language, modelled in Dafny

This project models the lexical analyser in `lexer_fixed.py`. The analyser reads
source text line by line and turns each line into classified tokens
`(label, lexeme, line number)`. The model has six modules, one file each:

- `wrappers.dfy` (`Wrappers`): the `Option` type, used for a quoted span that
  may have no closing quote.

- `catalogue.dfy` (`Catalogue`): the token classifier constants.
  - A `Counter` class models the counter generator.
  - A numbering loop draws one number per constant from a fresh counter, in
    declaration order.
  - `Entry` pairs a constant with its display name, like the source's
    `[code, name]` lists.
- `tables.dfy` (`Tables`): the symbol table `td` and the keyword table `kwd`,
  as constant maps.
- `splitter.dfy` (`Splitter`): the split pattern applied to one line,
  followed by the filter that drops empty strings. It is a recursive
  character scanner.
  - At each position it tries the pattern's alternatives in their written
    order: whitespace, the two- and one-character symbols, then the greedy
    quoted span.
  - Text that no alternative matches accumulates into a run.
  - The scanner's pieces are whitespace separators, runs and captures.
- `classifier.dfy` (`Classifier`): the cascade of tests applied to each
  candidate, in the source's order:
  - the comment marker;
  - the symbol table;
  - the string-literal pattern;
  - the identifier pattern, then the keyword table;
  - the integer pattern;
  - the real-number pattern;
  - otherwise an illegal token.
- `scanner.dfy` (`Scanner`): the body of `token_generator`.
  - `Scan` is the specification function.
  - `TokenGenerator` is an imperative method with the source's line counter,
    its voiding of comment lines and its inner loop with `break`. It is
    proved equal to `Scan`.

Character classes are ASCII. `\s` is a space or one of tab, newline,
vertical tab, form feed and carriage return. `.` is any character except a
newline. `$` (no multi-line flag) matches at the end of the text or just
before a final newline; `Classifier.Chomp` captures this.

Where a reader might expect otherwise, the model follows the code:

- No EOF token is emitted. The generator simply ends (`lexer_fixed.py:184-225`);
  only the driver prints "End of File".
- Integers are labelled `Int` (the `INT` entry, `lexer_fixed.py:29`), not
  `Int-Literal`.
- The identifier pattern also accepts `=` as its first character
  (`lexer_fixed.py:120`). A lone `=`, which is not in the symbol table, is
  therefore an `Identifier`.
- A quoted span runs greedily to the last double quote before the end of the
  line (`lexer_fixed.py:108`).
- A double quote with no partner on the line does not start a span. It stays
  in a run, and the run is an `Illegal-Token`.

## Model

| member | source | states |
|---|---|---|
| Catalogue.Counter.constructor | lexer_fixed.py:5-6 | a new counter starts at 0 |
| Catalogue.Counter.Next | lexer_fixed.py:7-9 | hands out the current value and advances the counter by one |
| Catalogue.NumberClasses | lexer_fixed.py:19-66 | numbering constants from one counter gives every listed constant a number; each number is a position holding that constant, no later position holds it, and distinct constants get distinct numbers |
| Catalogue.DeclaredIsComplete | lexer_fixed.py:20-66 | every classifier constant is among the declared constants |
| Catalogue.LexerConstants | lexer_fixed.py:19-66 | the class's numbering gives every constant a number at its place in the declaration, and no two constants share a number |
| Tables.SymbolTable | lexer_fixed.py:129-151 | the table `td`: 21 symbols with their classifier constants and display names; its spelling is stated by `SymbolSpelling` and its names by `SymbolName` |
| Tables.KeywordTable | lexer_fixed.py:154-165 | the table `kwd`: ten words, `main` included, all named `Keyword`; stated by `KeywordSpelling` and `ClassifyKeyword` |
| Tables.SymbolName | lexer_fixed.py:129-151 | every symbol-table key except `//` has a non-empty display name, distinct from `Keyword`, `Identifier`, `String-Literal`, `Int`, `Float-Literal` and `Illegal-Token` |
| Tables.KeywordSpelling | lexer_fixed.py:154-165 | every keyword is a non-empty lower-case word, and every keyword entry, `main` included, is named `Keyword` |
| Tables.SymbolSpelling | lexer_fixed.py:129-151 | every symbol is one or two characters, does not start with a letter, digit, quote or whitespace, and starts with `=` only as `==` |
| Splitter.PiecesFrom | lexer_fixed.py:83-115 | the split as a scan from left to right that closes the pending run at each match; its meaning is stated by `SplitRoundTrip`, `PiecesFromShape`, `SplitCapturesFollowedWell` and `SplitRunsAreMaximal` |
| Splitter.Pieces | lexer_fixed.py:194 | the split of a whole line, separators included, scanned from its first character; stated by `SplitRoundTrip`, `SplitCapturesFollowedWell` and `SplitRunsAreMaximal` |
| Splitter.Split | lexer_fixed.py:194 | `split_patt.split(line)` without its `None` slots; its meaning is stated by `Texts`, `ConcatTexts` (order kept), `SplitRoundTrip`, `SplitRunsAreMaximal`, `CandidatesSpell` and `CandidatesSpellLine` |
| Splitter.Candidates | lexer_fixed.py:194-195 | the split with empty strings filtered out; its meaning is stated by `NonEmpty`, `CandidateShapes`, `CandidatesSpell` (in line order), `CandidatesSpellLine`, `SplitRunsAreMaximal`, `UnwordsRoundTrip`, `AssignmentStaysWhole` and `RealStaysWhole` |
| Splitter.LineEnd | lexer_fixed.py:108 | the first newline at or after a position, or the end of the line: where `.*` must stop |
| Splitter.LastQuote | lexer_fixed.py:108 | the last double quote in a range, or none when the range has no double quote |
| Splitter.QuoteClose | lexer_fixed.py:108 | the greedy span `".*"` ends just after the last double quote before the next newline; none exists exactly when no double quote follows before that newline |
| Splitter.MatchAt | lexer_fixed.py:83-115 | the match of the first alternative that applies at a position lies inside the line |
| Splitter.Texts | lexer_fixed.py:194 | the split keeps exactly the texts of runs and captures, dropping whitespace separators; `ConcatTexts` states that it keeps their order |
| Splitter.NonEmpty | lexer_fixed.py:195 | the filter keeps exactly the non-empty strings |
| Splitter.SplitRoundTrip | lexer_fixed.py:83-115 | the pieces of the split, separators included, spell the line exactly |
| Splitter.NoMatchChar | lexer_fixed.py:86-108 | a character that no alternative matches is neither whitespace nor a symbol character, and a double quote there has no partner before the next newline |
| Splitter.SymbolShape | lexer_fixed.py:87-108 | a capture is a split symbol or a quoted span |
| Splitter.RunShape | lexer_fixed.py:83-115 | text between two matches holds no whitespace, no symbol character, no two-character symbol (`&&`, `==`, the double bar) and at most one double quote |
| Splitter.PiecesFromShape | lexer_fixed.py:83-115 | every separator is whitespace, every run is plain text and every capture is a symbol or a quoted span |
| Splitter.SplitSymbolChars | lexer_fixed.py:87-107 | no split symbol holds whitespace or a double quote |
| Splitter.CandidateShapes | lexer_fixed.py:194-195 | candidates are non-empty symbols, quoted spans or plain runs holding no symbol; none holds a newline, and only quoted spans hold whitespace |
| Splitter.MatchIsLongest | lexer_fixed.py:87-101 | no split symbol longer than the match starts where a match starts |
| Splitter.QuoteMatchIsGreedy | lexer_fixed.py:108 | a quoted-span match leaves no double quote between its end and the next newline |
| Splitter.MatchFollowedWell | lexer_fixed.py:87-108 | a capture and the rest of its line satisfy longest-symbol-first and, for a quoted span, greediness |
| Splitter.SplitCapturesFollowedWell | lexer_fixed.py:83-115 | in the split, each capture followed by the text after it satisfies longest-symbol-first and greediness, so `<=`, `>=`, `!=` and `//` never come apart |
| Splitter.UnmatchedRun | lexer_fixed.py:86-108 | where the scanner found no match, no alternative of the pattern could match: no whitespace, no split symbol of one or two characters starting there, and no double quote with a partner before the next newline |
| Splitter.PiecesAlternate | lexer_fixed.py:83-115 | the pieces alternate run, match, run, ..., starting and ending with a run, so no two runs are ever adjacent |
| Splitter.SplitRunsAreMaximal | lexer_fixed.py:83-115 | runs and matches alternate, and given the text after it no match could start anywhere inside a run: no run is cut where the pattern does not match, and `&&`, `==` and the double bar never stay inside a run |
| Splitter.AssignmentStaysWhole | lexer_fixed.py:194-195 | `x=1` is one candidate |
| Splitter.RealStaysWhole | lexer_fixed.py:194-195 | `2.5` is one candidate |
| Splitter.ConcatNonEmpty | lexer_fixed.py:195 | dropping empty strings leaves what the list spells unchanged |
| Splitter.CandidatesSpellLine | lexer_fixed.py:194-195 | on a line without double quotes, the candidates spell the line with its whitespace removed |
| Splitter.LessEqualExample | lexer_fixed.py:91-92 | `a<=b` splits into `a`, `<=`, `b` |
| Splitter.NoGaps | lexer_fixed.py:194 | the pieces without their whitespace separators: never longer, and no separator left |
| Splitter.ConcatTexts | lexer_fixed.py:194 | the kept texts, joined in order, spell the runs and captures of the pieces in their order in the line |
| Splitter.CandidatesSpell | lexer_fixed.py:194-195 | on every line, double quotes included, the candidates joined in order spell the line's runs and captures in order, whitespace separators left out |
| Splitter.CandidatesOfWords | lexer_fixed.py:83-115 | from the start of a word in a line of words separated by single spaces, the scan yields exactly the remaining words |
| Splitter.CandidatesAfterWord | lexer_fixed.py:83-115 | after a word's last letter, the scan closes the word's run at the next space or the end of the line and then yields the remaining words |
| Splitter.UnwordsRoundTrip | lexer_fixed.py:194-195 | a line of lower-case words and split symbols separated by single spaces splits into exactly those words, and joining the candidates with spaces gives the line back |
| Classifier.StrLitMatch | lexer_fixed.py:73 | `strlit_patt.match`, anchored at the start only: a greedy quoted span or a lone whitespace at the end; stated by `StrLitIffQuotedSpan` and `ClassifyStringLiteral` |
| Classifier.IdMatch | lexer_fixed.py:120 | `id_patt.search`: a letter or `=`, then letters, digits and underscores, before an optional final newline; stated by `ClassifyIdentifier`, `IdExcludes` and the word examples |
| Classifier.IntMatch | lexer_fixed.py:123 | `int_patt.search`: digits only, before an optional final newline; stated by `ClassifyInt` and `NumberExamples` |
| Classifier.RealMatch | lexer_fixed.py:126 | `realnum_patt.search`: digits, one dot, digits; stated by `ClassifyReal`, `RealIsNotInt` and the number examples |
| Classifier.Classify | lexer_fixed.py:201-225 | the cascade in the source's order; its meaning is stated label by label by `ClassifyEndOfLine`, `ClassifySymbol`, `ClassifyKeyword`, `ClassifyIdentifier`, `ClassifyStringLiteral`, `ClassifyInt`, `ClassifyReal` and `ClassifyIllegal` |
| Classifier.Chomp | lexer_fixed.py:120-126 | what `$` sees: the text without a single final newline, and shorter only when the text ends in one |
| Classifier.LeadingDigits | lexer_fixed.py:126 | the length of the digit prefix: all digits up to it, and a non-digit at it |
| Classifier.SymbolsAreNotWords | lexer_fixed.py:206-222 | no symbol-table key matches the string, identifier, integer or real pattern |
| Classifier.KeywordsAreIdentifiers | lexer_fixed.py:212-214 | every keyword matches the identifier pattern, is not a symbol, and is not a string literal |
| Classifier.IdExcludes | lexer_fixed.py:209-222 | an identifier match is neither a string literal, an integer, a real nor the comment marker |
| Classifier.NumberExcludesString | lexer_fixed.py:209-222 | an integer or real match is not a string literal, a symbol or the comment marker |
| Classifier.RealIsNotInt | lexer_fixed.py:218-222 | a real-number match never matches the integer pattern |
| Classifier.ClassifyEndOfLine | lexer_fixed.py:201-202 | the cascade ends the line exactly for `//` |
| Classifier.ClassifySymbol | lexer_fixed.py:206-207 | a symbol-table key other than `//` gets its entry's name, which no other rule produces |
| Classifier.ClassifyKeyword | lexer_fixed.py:212-214 | the label is `Keyword` exactly for the keyword-table words |
| Classifier.ClassifyIdentifier | lexer_fixed.py:212-216 | the label is `Identifier` exactly for identifier matches that are not keywords |
| Classifier.ClassifyStringLiteral | lexer_fixed.py:209-210 | the label is `String-Literal` exactly when the string pattern matches at the start |
| Classifier.ClassifyInt | lexer_fixed.py:218-219 | the label is `Int` exactly when the integer pattern matches |
| Classifier.ClassifyReal | lexer_fixed.py:221-222 | the label is `Float-Literal` exactly when the real-number pattern matches |
| Classifier.ClassifyIllegal | lexer_fixed.py:224-225 | the label is `Illegal-Token` exactly when no symbol, string, identifier, integer or real test succeeds |
| Classifier.StrLitIffQuotedSpan | lexer_fixed.py:73 | on symbols, quoted spans and plain runs, the string pattern accepts exactly the quoted spans |
| Classifier.CandidateStringLiteral | lexer_fixed.py:209-210 | a candidate is labelled `String-Literal` exactly when it is a quoted span, quotes included |
| Classifier.WordExamples | lexer_fixed.py:120 | `=` is an `Identifier` and `main` a `Keyword` |
| Classifier.AssignmentExample | lexer_fixed.py:120 | `x=1` is an `Illegal-Token` |
| Classifier.UnterminatedStringExample | lexer_fixed.py:73 | `"abc` is an `Illegal-Token` |
| Classifier.NumberExamples | lexer_fixed.py:123-126 | `123` is `Int` and `12.` is `Float-Literal` |
| Classifier.RealExample | lexer_fixed.py:126 | `12.5` is `Float-Literal` |
| Classifier.LeadingDotExample | lexer_fixed.py:126 | `.5` is an `Illegal-Token` |
| Classifier.TwoDotsExample | lexer_fixed.py:126 | `1.2.3` is an `Illegal-Token` |
| Classifier.UnderscoreExample | lexer_fixed.py:120 | `_foo` is an `Illegal-Token` |
| Classifier.SymbolExamples | lexer_fixed.py:135-145 | `<=` is `Less-Equal` and `;` is `Semi-Col` |
| Scanner.LineText | lexer_fixed.py:187-188 | a line starting with `//` is voided; `CommentLineCheckIsRedundant` shows the voiding changes no output |
| Scanner.LineTokens | lexer_fixed.py:187-225 | the tokens of one line: voiding, split, filter and the cascade up to the first `//`; stated by `LineTokensNumbered`, `CommentLineIsSilent` and `CommentLineCheckIsRedundant` |
| Scanner.EmitLine | lexer_fixed.py:198-225 | the tokens of one line's candidates, up to the first `//`; stated by `EmitLineCandidates` |
| Scanner.Scan | lexer_fixed.py:181-225 | the tokens of the whole file, lines numbered from 1; stated by `ScanLineNumbers` and `ScanTokenOrigin`, and computed by `TokenGenerator` |
| Scanner.TokenGenerator | lexer_fixed.py:181-225 | the generator's nested loops, with line counter and `break`, yield exactly `Scan` of the file |
| Scanner.CommentCut | lexer_fixed.py:198-202 | the position of the first `//` candidate, or the end: no `//` before it |
| Scanner.EmitLineCandidates | lexer_fixed.py:198-225 | a line yields one token per candidate before the first `//`, in order, each with its classifier label and the line number |
| Scanner.CommentLineIsSilent | lexer_fixed.py:187-188 | a line starting with `//` yields no tokens |
| Scanner.CommentLineFirstCandidate | lexer_fixed.py:187-202 | the first candidate of a line starting with `//` is `//` |
| Scanner.CommentLineCheckIsRedundant | lexer_fixed.py:186-202 | voiding comment lines yields the same tokens as not voiding them |
| Scanner.ScanLineNumbers | lexer_fixed.py:181-191 | every token's line number is between 1 and the number of lines, comment lines counted, and numbers never decrease along the stream |
| Scanner.LineTokensNumbered | lexer_fixed.py:207-225 | every token of a line carries that line's number |
| Scanner.ScanTokenOrigin | lexer_fixed.py:184-225 | every token's lexeme is a candidate of its own line, is never `//`, and carries the classifier's label; so no EOF or other sentinel token appears |
| Scanner.QuotedMarkerExample | lexer_fixed.py:201-210 | a `//` inside a quoted span does not end the line: `"//"` yields one `String-Literal` token |
| Scanner.LineTokenOrigin | lexer_fixed.py:198-225 | every token of a line carries its number, has a lexeme that is a candidate of the line and not `//`, and carries the classifier's label |
| Scanner.Lexemes | lexer_fixed.py:207-225 | the lexemes of a token list, position by position |
| Scanner.TableWordsAreLexWords | lexer_fixed.py:129-165 | every key of the symbol or keyword table is a split symbol or a non-empty lower-case word |
| Scanner.TableLineWords | lexer_fixed.py:129-165 | a list of table keys is a list of split symbols and lower-case words |
| Scanner.WordLineNotVoided | lexer_fixed.py:187-188 | a line of words separated by single spaces whose first word is not `//` is not voided |
| Scanner.WordLineCandidates | lexer_fixed.py:187-195 | the candidates of such a line, `//` nowhere in it, are its words |
| Scanner.EmitLineLexemes | lexer_fixed.py:198-225 | when no candidate is `//`, the tokens' lexemes are exactly the candidates, in order |
| Scanner.LexWordsRelex | lexer_fixed.py:187-225 | a line of split symbols and lower-case words other than `//`, separated by single spaces, yields tokens whose lexemes are exactly those words |
| Scanner.WordsRelex | lexer_fixed.py:187-225 | a line of symbol-table keys and keywords other than `//`, separated by single spaces, is tokenised into exactly those words, so joining the lexemes with spaces gives the line back |
| Scanner.CommentWordEndsLine | lexer_fixed.py:201-202 | `//` is the exception to that round trip: `x // y` yields only `x` |

## Left out

- Opening the file and its error branches (`lexer_fixed.py:172-177`) are not modelled. The scanner takes the file's lines as a sequence of strings. The `FILENOTFOUND` and `INVALIDFILENAME` outputs are never produced.
- The `__main__` driver (`lexer_fixed.py:228-255`) is not modelled: argument checks, a fixed file name and printing are input/output glue.
- Generator laziness is not modelled. The model returns the complete token sequence.
- Python's Unicode meaning of `\s`, `\d` and `.` is not modelled. The model uses the ASCII classes.
- The `\s$` alternative at the end of the split pattern (`lexer_fixed.py:108`) is absent from `Splitter.MatchAt`, because the plain `\s` alternative earlier in the pattern always matches first.
- The `None` entries that `re.split` returns for groups that took no part in a match are not modelled. `Splitter.Split` leaves them out, and the filter would drop them anyway.
- Catalogue.LexerConstants: the numbers are not proved to be exactly 0 to 39 in declaration order. The contract says each number is a position holding its constant; proving the declaration list free of repeats was too costly for the verifier.
- Splitter.CandidatesSpellLine: it is stated only for lines without double quotes. With quotes, quoted spans keep their inner whitespace (`Splitter.CandidateShapes`); `Splitter.CandidatesSpell` states the spelling of every line in terms of its pieces.
