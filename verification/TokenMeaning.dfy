/** What the scanning of a source means, told without scanning it: by byte values, by the bytes that stand
    before a byte, and by counting. */
module TokenMeaning {
  import opened Prelude
  import opened SourceTokens

  // ----- Bytes -----

  predicate IsBlankByte(c: char) {
    c as int in {9, 10, 11, 12, 13, 32}
  }

  predicate IsLetterByte(c: char) {
    65 <= c as int <= 90 || 97 <= c as int <= 122 || c as int == 95
  }

  predicate IsWordByte(c: char) {
    IsLetterByte(c) || 48 <= c as int <= 57
  }

  lemma BytesMean(c: char)
    ensures Blank(c) <==> IsBlankByte(c)
    ensures Letter(c) <==> IsLetterByte(c)
    ensures WordPart(c) <==> IsWordByte(c)
  {
  }

  /** Two bytes stand at an offset. */
  predicate Pair(s: string, o: int, a: char, b: char) {
    0 <= o && o + 1 < |s| && s[o] == a && s[o + 1] == b
  }

  lemma PairMeans(s: string, o: nat, word: string)
    requires |word| == 2
    ensures At(s, o, word) <==> Pair(s, o, word[0], word[1])
  {
    if o + 2 <= |s| {
      assert s[o..o + 2] == [s[o], s[o + 1]];
      assert word == [word[0], word[1]];
    }
  }

  // ----- Lines and words -----

  /** After the first newline from `o` on, or at the end if there is none. */
  ghost predicate EndsLine(s: string, o: nat, e: nat) {
    && o <= e <= |s|
    && if e > o && s[e - 1] == '\n' then forall j :: o <= j < e - 1 ==> s[j] != '\n'
       else e == |s| && forall j :: o <= j < e ==> s[j] != '\n'
  }

  lemma {:induction false} LineEndMeans(s: string, o: nat, e: nat)
    requires o <= |s|
    ensures LineEnd(s, o) == e <==> EndsLine(s, o, e)
    decreases |s| - o
  {
    if o < |s| && s[o] != '\n' {
      LineEndMeans(s, o + 1, e);
    }
  }

  /** After the longest run of word bytes from `o` on. */
  ghost predicate EndsWord(s: string, o: nat, e: nat) {
    o <= e <= |s| && (forall j :: o <= j < e ==> IsWordByte(s[j])) && (e < |s| ==> !IsWordByte(s[e]))
  }

  lemma {:induction false} WordEndMeans(s: string, o: nat, e: nat)
    requires o <= |s|
    ensures WordEnd(s, o) == e <==> EndsWord(s, o, e)
    decreases |s| - o
  {
    if o < |s| {
      BytesMean(s[o]);
      if WordPart(s[o]) {
        WordEndMeans(s, o + 1, e);
      }
    }
  }

  // ----- Literals -----

  /** How many backslashes stand right before `j`, from `o` on. */
  function Backslashes(s: string, o: nat, j: nat): nat
    requires j <= |s|
    decreases j
  {
    if o < j && s[j - 1] == '\\' then 1 + Backslashes(s, o, j - 1) else 0
  }

  /** A quote that an even number of backslashes precedes. */
  predicate Unescaped(s: string, o: nat, quote: char, j: int) {
    o <= j < |s| && s[j] == quote && Backslashes(s, o, j) % 2 == 0
  }

  /** After the first quote that is not escaped. */
  ghost predicate EndsLiteral(s: string, o: nat, quote: char, e: nat) {
    Unescaped(s, o, quote, e - 1) && forall j :: o <= j < e - 1 ==> !Unescaped(s, o, quote, j)
  }

  lemma {:induction false} BackslashesFrom(s: string, o: nat, j: nat)
    requires o < j <= |s| && s[o] != '\\'
    ensures Backslashes(s, o, j) == Backslashes(s, o + 1, j)
    decreases j
  {
    if s[j - 1] == '\\' {
      BackslashesFrom(s, o, j - 1);
    }
  }

  lemma {:induction false} BackslashesSkip(s: string, o: nat, j: nat)
    requires o + 2 <= j <= |s| && s[o] == '\\'
    ensures Backslashes(s, o, j) % 2 == Backslashes(s, o + 2, j) % 2
    decreases j
  {
    if j == o + 2 {
      assert Backslashes(s, o, o) == 0 && Backslashes(s, o, o + 1) == 1;
    } else if s[j - 1] == '\\' {
      BackslashesSkip(s, o, j - 1);
    }
  }

  /** A literal ends at the first quote of its kind that an even number of backslashes precedes. */
  lemma {:induction false} LiteralEndMeans(s: string, o: nat, quote: char, e: nat)
    requires quote != '\\'
    ensures LiteralEnd(s, o, quote) == Some(e) <==> EndsLiteral(s, o, quote, e)
    decreases |s| - o
  {
    if o < |s| {
      var next := if s[o] == '\\' then o + 2 else o + 1;
      if s[o] != quote {
        forall j | next <= j < |s| ensures Unescaped(s, o, quote, j) <==> Unescaped(s, next, quote, j) {
          if s[o] == '\\' {
            BackslashesSkip(s, o, j);
          } else {
            BackslashesFrom(s, o, j);
          }
        }
        assert o + 1 < |s| && s[o] == '\\' ==> Backslashes(s, o, o + 1) == 1 by {
          assert Backslashes(s, o, o) == 0;
        }
        assert forall j :: o <= j < next ==> !Unescaped(s, o, quote, j);
        LiteralEndMeans(s, next, quote, e);
        if EndsLiteral(s, o, quote, e) {
          assert EndsLiteral(s, next, quote, e);
        }
      } else {
        assert Unescaped(s, o, quote, o);
      }
    }
  }

  // ----- Comments -----

  /** What stands at an offset of a comment: an opening, a closing or neither. Of two that overlap the
      first counts. */
  function Mark(s: string, o: nat, j: nat): int
    decreases j
  {
    if j < o || (j > o && Mark(s, o, j - 1) != 0) then 0
    else if Pair(s, j, '/', '*') then 1
    else if Pair(s, j, '*', '/') then -1
    else 0
  }

  /** How many more comments open than close at the offsets of [o, j). */
  function Nesting(s: string, o: nat, j: nat): int
    decreases j
  {
    if j <= o then 0 else Nesting(s, o, j - 1) + Mark(s, o, j - 1)
  }

  /** After the closing that balances the openings, those before `o` included, for the first time. */
  ghost predicate EndsComment(s: string, o: nat, e: nat, depth: nat) {
    && o + 2 <= e <= |s|
    && Mark(s, o, e - 2) == -1 && depth + Nesting(s, o, e - 1) == 0
    && forall j: nat :: o <= j < e - 1 ==> depth + Nesting(s, o, j) > 0
  }

  /** The offset after what stands at `o`. */
  function Past(s: string, o: nat): nat {
    if Mark(s, o, o) == 0 then o + 1 else o + 2
  }

  lemma {:induction false} MarkFrom(s: string, o: nat, next: nat, j: nat)
    requires next <= j && next == Past(s, o)
    ensures Mark(s, o, j) == Mark(s, next, j)
    decreases j
  {
    if j > next {
      MarkFrom(s, o, next, j - 1);
    } else if next == o + 2 {
      assert Mark(s, o, o + 1) == 0;
    }
  }

  lemma {:induction false} NestingFrom(s: string, o: nat, next: nat, j: nat)
    requires next <= j && next == Past(s, o)
    ensures Nesting(s, o, j) == Mark(s, o, o) + Nesting(s, next, j)
    decreases j
  {
    if j > next {
      NestingFrom(s, o, next, j - 1);
      MarkFrom(s, o, next, j - 1);
    } else {
      assert Nesting(s, o, o) == 0 && Nesting(s, o, o + 1) == Mark(s, o, o);
      if next == o + 2 {
        assert Mark(s, o, o + 1) == 0;
      }
    }
  }

  lemma EndsLater(s: string, o: nat, e: nat, depth: nat)
    requires depth > 0 && o < |s| && depth + Mark(s, o, o) > 0
    ensures EndsComment(s, o, e, depth) <==> EndsComment(s, Past(s, o), e, depth + Mark(s, o, o))
  {
    var next := Past(s, o);
    forall j: nat | next <= j ensures Mark(s, o, j) == Mark(s, next, j) && Nesting(s, o, j) == Mark(s, o, o) + Nesting(s, next, j) {
      MarkFrom(s, o, next, j);
      NestingFrom(s, o, next, j);
    }
    assert Nesting(s, o, o) == 0 && Nesting(s, o, o + 1) == Mark(s, o, o);
    hide Nesting;
    if EndsComment(s, o, e, depth) {
      assert Mark(s, o, e - 2) == -1;
      assert e - 2 >= next;
    }
    if EndsComment(s, next, e, depth + Mark(s, o, o)) {
      forall j: nat | o <= j < e - 1 ensures depth + Nesting(s, o, j) > 0 {
        if j >= next {
          assert depth + Mark(s, o, o) + Nesting(s, next, j) > 0;
        }
      }
    }
  }

  /** A comment ends where closings first balance openings, of which those that overlap count once. */
  lemma {:induction false} CommentEndMeans(s: string, o: nat, depth: nat, e: nat)
    requires o <= |s| && depth > 0
    ensures CommentEnd(s, o, depth) == Some(e) <==> EndsComment(s, o, e, depth)
    decreases |s| - o
  {
    if o < |s| {
      PairMeans(s, o, "/*");
      PairMeans(s, o, "*/");
      hide At;
      if depth + Mark(s, o, o) > 0 {
        EndsLater(s, o, e, depth);
        CommentEndMeans(s, Past(s, o), depth + Mark(s, o, o), e);
      } else {
        assert Nesting(s, o, o) == 0 && Nesting(s, o, o + 1) == -1;
        assert CommentEnd(s, o + 2, 0) == Some(o + 2);
      }
    }
  }

  // ----- Items -----

  predicate IsQuote(c: char) {
    c as int == 34 || c as int == 39
  }

  predicate StartsComment(s: string, o: int) {
    Pair(s, o, '/', '/') || Pair(s, o, '/', '*')
  }

  /** From `o` to `e` there is nothing that counts: a blank, a comment or a quoted literal. */
  ghost predicate Skipped(s: string, o: nat, e: nat)
    requires o < |s|
  {
    || (IsBlankByte(s[o]) && e == o + 1)
    || (Pair(s, o, '/', '/') && EndsLine(s, o + 2, e))
    || (Pair(s, o, '/', '*') && EndsComment(s, o + 2, e, 1))
    || (IsQuote(s[o]) && EndsLiteral(s, o + 1, s[o], e))
  }

  /** From `o` to `e` there is a token: a word, an arrow, or any other single byte. */
  ghost predicate IsToken(s: string, o: nat, e: nat)
    requires o < |s|
  {
    if IsLetterByte(s[o]) then EndsWord(s, o + 1, e)
    else
      && !IsBlankByte(s[o]) && !StartsComment(s, o) && !IsQuote(s[o])
      && e == if Pair(s, o, '-', '>') then o + 2 else o + 1
  }

  ghost predicate Unfinished(s: string, o: nat, error: LexError)
    requires o < |s|
  {
    match error
    case OpenComment => Pair(s, o, '/', '*') && CommentStaysOpen(s, o + 2)
    case OpenLiteral => IsQuote(s[o]) && LiteralStaysOpen(s, o + 1, s[o])
  }

  ghost predicate CommentStaysOpen(s: string, o: nat) {
    forall e: nat :: !EndsComment(s, o, e, 1)
  }

  ghost predicate LiteralStaysOpen(s: string, o: nat, quote: char) {
    forall e: nat :: !EndsLiteral(s, o, quote, e)
  }

  lemma StaysOpenMeans(s: string, o: nat, quote: char)
    ensures o <= |s| ==> (CommentEnd(s, o, 1).None? <==> CommentStaysOpen(s, o))
    ensures quote != '\\' ==> (LiteralEnd(s, o, quote).None? <==> LiteralStaysOpen(s, o, quote))
  {
    hide CommentEnd, LiteralEnd, EndsComment, EndsLiteral;
    forall e: nat ensures o <= |s| ==> (CommentEnd(s, o, 1) == Some(e) <==> EndsComment(s, o, e, 1)) {
      if o <= |s| {
        CommentEndMeans(s, o, 1, e);
      }
    }
    forall e: nat ensures quote != '\\' ==> (LiteralEnd(s, o, quote) == Some(e) <==> EndsLiteral(s, o, quote, e)) {
      if quote != '\\' {
        LiteralEndMeans(s, o, quote, e);
      }
    }
  }

  /** What starts at an offset. */
  lemma ScanMeans(s: string, o: nat, e: nat, error: LexError)
    requires o < |s|
    ensures Scan(s, o) == Skip(e) <==> Skipped(s, o, e)
    ensures Scan(s, o) == Emit(e) <==> IsToken(s, o, e)
    ensures Scan(s, o) == Fail(error) <==> Unfinished(s, o, error)
  {
    BytesMean(s[o]);
    PairMeans(s, o, "//");
    PairMeans(s, o, "/*");
    PairMeans(s, o, "->");
    BytesApart(s[o]);
    hide At, Blank, Letter, IsBlankByte, IsLetterByte, IsQuote;
    if o + 2 <= |s| {
      LineEndMeans(s, o + 2, e);
      CommentEndMeans(s, o + 2, 1, e);
    }
    if s[o] != '\\' {
      LiteralEndMeans(s, o + 1, s[o], e);
    }
    WordEndMeans(s, o + 1, e);
    StaysOpenMeans(s, o + 2, s[o]);
    StaysOpenMeans(s, o + 1, s[o]);
    hide LineEnd, CommentEnd, LiteralEnd, WordEnd, EndsLine, EndsComment, EndsLiteral, EndsWord, CommentStaysOpen, LiteralStaysOpen;
  }

  lemma BytesApart(c: char)
    ensures IsBlankByte(c) ==> !IsLetterByte(c) && !IsQuote(c) && c != '/'
    ensures IsLetterByte(c) ==> !IsQuote(c) && c != '/' && c != '-'
    ensures IsQuote(c) ==> c != '/' && c != '\\' && (c == '"' || c == '\'')
    ensures c == '"' || c == '\'' ==> IsQuote(c)
  {
  }

  // ----- Sources -----

  /** A source cut from `o` to its end into what is skipped and tokens. */
  ghost predicate CutAt(s: string, o: nat, cuts: seq<nat>) {
    && cuts != [] && cuts[0] == o && cuts[|cuts| - 1] == |s|
    && forall k :: 0 <= k < |cuts| - 1 ==> cuts[k] < |s| && (Skipped(s, cuts[k], cuts[k + 1]) || IsToken(s, cuts[k], cuts[k + 1]))
  }

  /** The tokens among the pieces, in order. */
  ghost function TokensAt(s: string, cuts: seq<nat>): seq<Token> {
    if |cuts| < 2 then []
    else if cuts[0] < cuts[1] <= |s| && IsToken(s, cuts[0], cuts[1]) then [Token(s[cuts[0]..cuts[1]], cuts[0], cuts[1])] + TokensAt(s, cuts[1..])
    else TokensAt(s, cuts[1..])
  }

  lemma {:induction false} LexCuts(s: string, o: nat)
    requires o <= |s| && Lex(s, o).Ok?
    ensures exists cuts :: CutAt(s, o, cuts) && Lex(s, o).value == TokensAt(s, cuts)
    decreases |s| - o
  {
    if o == |s| {
      assert CutAt(s, o, [o]);
    } else {
      hide Scan, Skipped, IsToken;
      var e := Scan(s, o).end;
      ScanMeans(s, o, e, OpenComment);
      LexCuts(s, e);
      var rest :| CutAt(s, e, rest) && Lex(s, e).value == TokensAt(s, rest);
      var cuts := [o] + rest;
      assert cuts[1..] == rest;
      assert CutAt(s, o, cuts);
    }
  }

  lemma {:induction false} CutsLex(s: string, o: nat, cuts: seq<nat>)
    requires o <= |s| && CutAt(s, o, cuts)
    ensures Lex(s, o) == Ok(TokensAt(s, cuts))
    decreases |cuts|
  {
    hide Scan, Skipped, IsToken;
    if o < |s| {
      ScanMeans(s, o, cuts[1], OpenComment);
      var rest := cuts[1..];
      assert CutAt(s, cuts[1], rest);
      CutsLex(s, cuts[1], rest);
    } else {
      assert |cuts| == 1;
    }
  }

  /** The tokens of a source are those of the one way to cut it into tokens and what is skipped. */
  lemma LexMeans(s: string, tokens: seq<Token>)
    ensures Lex(s, 0) == Ok(tokens) <==> exists cuts :: CutAt(s, 0, cuts) && TokensAt(s, cuts) == tokens
  {
    hide Lex, CutAt, TokensAt;
    if Lex(s, 0) == Ok(tokens) {
      LexCuts(s, 0);
    }
    if cuts :| CutAt(s, 0, cuts) && TokensAt(s, cuts) == tokens {
      CutsLex(s, 0, cuts);
    }
  }

  /** Up to some offset the source is cut, and what starts there has no end. */
  ghost predicate StopsAt(s: string, o: nat, cuts: seq<nat>, error: LexError) {
    && cuts != [] && cuts[0] == o && cuts[|cuts| - 1] < |s| && Unfinished(s, cuts[|cuts| - 1], error)
    && forall k :: 0 <= k < |cuts| - 1 ==> cuts[k] < |s| && (Skipped(s, cuts[k], cuts[k + 1]) || IsToken(s, cuts[k], cuts[k + 1]))
  }

  lemma {:induction false} LexStops(s: string, o: nat)
    requires o <= |s| && Lex(s, o).Err?
    ensures exists cuts :: StopsAt(s, o, cuts, Lex(s, o).error)
    decreases |s| - o
  {
    hide Scan, Skipped, IsToken, Unfinished;
    if Scan(s, o).Fail? {
      ScanMeans(s, o, 0, Scan(s, o).error);
      assert StopsAt(s, o, [o], Lex(s, o).error);
    } else {
      var e := Scan(s, o).end;
      ScanMeans(s, o, e, OpenComment);
      LexStops(s, e);
      var rest :| StopsAt(s, e, rest, Lex(s, e).error);
      var cuts := [o] + rest;
      assert cuts[1..] == rest;
      assert StopsAt(s, o, cuts, Lex(s, o).error);
    }
  }

  lemma {:induction false} StopsLex(s: string, o: nat, cuts: seq<nat>, error: LexError)
    requires o <= |s| && StopsAt(s, o, cuts, error)
    ensures Lex(s, o) == Err(error)
    decreases |cuts|
  {
    hide Scan, Skipped, IsToken, Unfinished;
    if |cuts| == 1 {
      ScanMeans(s, o, 0, error);
    } else {
      ScanMeans(s, o, cuts[1], error);
      var rest := cuts[1..];
      assert StopsAt(s, cuts[1], rest, error);
      StopsLex(s, cuts[1], rest, error);
    }
  }

  /** A source is refused exactly when the comment or the literal that starts after such pieces never ends. */
  lemma LexFailsWhen(s: string, error: LexError)
    ensures Lex(s, 0) == Err(error) <==> exists cuts :: StopsAt(s, 0, cuts, error)
  {
    hide Lex, StopsAt;
    if Lex(s, 0) == Err(error) {
      LexStops(s, 0);
    }
    if cuts :| StopsAt(s, 0, cuts, error) {
      StopsLex(s, 0, cuts, error);
    }
  }
}
