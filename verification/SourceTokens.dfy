/** Splitting source bytes into tokens. A byte is a `char` below 256. */
module SourceTokens {
  import opened Prelude

  predicate Letter(c: char) {
    'A' <= c <= 'Z' || 'a' <= c <= 'z' || c == '_'
  }

  predicate WordPart(c: char) {
    Letter(c) || '0' <= c <= '9'
  }

  predicate Blank(c: char) {
    c == ' ' || c == '\t' || c == '\r' || c == '\n' || c == 11 as char || c == 12 as char
  }

  predicate At(s: string, o: nat, word: string) {
    o + |word| <= |s| && s[o..o + |word|] == word
  }

  function LineEnd(s: string, o: nat): (end: nat)
    ensures o <= |s| ==> o <= end <= |s|
    decreases |s| - o
  {
    if o >= |s| then |s| else if s[o] == '\n' then o + 1 else LineEnd(s, o + 1)
  }

  /** The end of a block comment of which `depth` openings are pending. */
  function CommentEnd(s: string, o: nat, depth: nat): (end: Option<nat>)
    requires o <= |s|
    ensures end.Some? ==> o <= end.value <= |s|
    decreases |s| - o
  {
    if depth == 0 then Some(o)
    else if o == |s| then None
    else if At(s, o, "/*") then CommentEnd(s, o + 2, depth + 1)
    else if At(s, o, "*/") then CommentEnd(s, o + 2, depth - 1)
    else CommentEnd(s, o + 1, depth)
  }

  /** The end of a quoted literal; a backslash takes the next byte with it. */
  function LiteralEnd(s: string, o: nat, quote: char): (end: Option<nat>)
    ensures end.Some? ==> o < end.value <= |s|
    decreases |s| - o
  {
    if o >= |s| then None
    else if s[o] == '\\' then LiteralEnd(s, o + 2, quote)
    else if s[o] == quote then Some(o + 1)
    else LiteralEnd(s, o + 1, quote)
  }

  function WordEnd(s: string, o: nat): (end: nat)
    requires o <= |s|
    ensures o <= end <= |s|
    decreases |s| - o
  {
    if o < |s| && WordPart(s[o]) then WordEnd(s, o + 1) else o
  }

  datatype LexError = OpenComment | OpenLiteral

  datatype Item = Skip(end: nat) | Emit(end: nat) | Fail(error: LexError)

  /** One pass of the loop: what starts at an offset. */
  function Scan(s: string, o: nat): (item: Item)
    requires o < |s|
    ensures !item.Fail? ==> o < item.end <= |s|
  {
    if Blank(s[o]) then Skip(o + 1)
    else if At(s, o, "//") then Skip(LineEnd(s, o + 2))
    else if At(s, o, "/*") then
      var end := CommentEnd(s, o + 2, 1); if end.Some? then Skip(end.value) else Fail(OpenComment)
    else if s[o] == '"' || s[o] == '\'' then
      var end := LiteralEnd(s, o + 1, s[o]); if end.Some? then Skip(end.value) else Fail(OpenLiteral)
    else if Letter(s[o]) then Emit(WordEnd(s, o + 1))
    else if At(s, o, "->") then Emit(o + 2)
    else Emit(o + 1)
  }

  datatype Token = Token(text: string, start: nat, end: nat)

  /** The tokens from an offset on. */
  function Lex(s: string, o: nat): (r: Result<seq<Token>, LexError>)
    requires o <= |s|
    decreases |s| - o
  {
    if o == |s| then Ok([])
    else
      match Scan(s, o)
      case Fail(e) => Err(e)
      case Skip(end) => Lex(s, end)
      case Emit(end) =>
        var rest := Lex(s, end);
        if rest.Err? then rest else Ok([Token(s[o..end], o, end)] + rest.value)
  }

  // The loops

  method FindLineEnd(s: string, o: nat) returns (end: nat)
    requires o <= |s|
    ensures end == LineEnd(s, o)
  {
    end := o;
    while end < |s|
      invariant o <= end <= |s| && LineEnd(s, end) == LineEnd(s, o)
    {
      if s[end] == '\n' {
        return end + 1;
      }
      end := end + 1;
    }
  }

  method FindCommentEnd(s: string, start: nat) returns (end: Option<nat>)
    requires start <= |s|
    ensures end == CommentEnd(s, start, 1)
  {
    var depth, o := 1, start;
    while o < |s| && depth != 0
      invariant o <= |s| && CommentEnd(s, o, depth) == CommentEnd(s, start, 1)
      decreases |s| - o
    {
      if At(s, o, "/*") {
        depth, o := depth + 1, o + 2;
      } else if At(s, o, "*/") {
        depth, o := depth - 1, o + 2;
      } else {
        o := o + 1;
      }
    }
    end := if depth == 0 then Some(o) else None;
  }

  method FindLiteralEnd(s: string, start: nat, quote: char) returns (end: Option<nat>)
    ensures end == LiteralEnd(s, start, quote)
  {
    var o := start;
    while o < |s|
      invariant LiteralEnd(s, o, quote) == LiteralEnd(s, start, quote)
    {
      if s[o] == '\\' {
        o := o + 2;
      } else if s[o] == quote {
        return Some(o + 1);
      } else {
        o := o + 1;
      }
    }
    end := None;
  }

  method FindWordEnd(s: string, start: nat) returns (end: nat)
    requires start <= |s|
    ensures end == WordEnd(s, start)
  {
    end := start;
    while end < |s| && WordPart(s[end])
      invariant end <= |s| && WordEnd(s, end) == WordEnd(s, start)
    {
      end := end + 1;
    }
  }

  method NextItem(s: string, o: nat) returns (item: Item)
    requires o < |s|
    ensures item == Scan(s, o)
  {
    hide At, LineEnd, CommentEnd, LiteralEnd, WordEnd;
    if Blank(s[o]) {
      return Skip(o + 1);
    }
    AtFits(s, o, "//");
    AtFits(s, o, "/*");
    if At(s, o, "//") {
      var end := FindLineEnd(s, o + 2);
      return Skip(end);
    }
    if At(s, o, "/*") {
      var end := FindCommentEnd(s, o + 2);
      return if end.Some? then Skip(end.value) else Fail(OpenComment);
    }
    if s[o] == '"' || s[o] == '\'' {
      var end := FindLiteralEnd(s, o + 1, s[o]);
      return if end.Some? then Skip(end.value) else Fail(OpenLiteral);
    }
    if Letter(s[o]) {
      var end := FindWordEnd(s, o + 1);
      return Emit(end);
    }
    return if At(s, o, "->") then Emit(o + 2) else Emit(o + 1);
  }

  method Tokens(s: string) returns (r: Result<seq<Token>, LexError>)
    ensures r == Lex(s, 0)
    ensures r.Ok? ==> Ordered(s, r.value, 0)
  {
    hide Scan, Ordered;
    LexedIsOrdered(s, 0);
    PrependNothing(Lex(s, 0));
    var tokens := [];
    var o := 0;
    while o < |s|
      invariant o <= |s| && Lex(s, 0) == Prepended(tokens, Lex(s, o))
      decreases |s| - o
    {
      var item := NextItem(s, o);
      if item.Fail? {
        return Err(item.error);
      }
      if item.Emit? {
        var token := Token(s[o..item.end], o, item.end);
        PrependNext(s, o, tokens, token);
        tokens := tokens + [token];
      }
      o := item.end;
    }
    assert Lex(s, o) == Ok([]) && tokens + [] == tokens;
    return Ok(tokens);
  }

  lemma PrependNext(s: string, o: nat, tokens: seq<Token>, token: Token)
    requires o < |s| && Scan(s, o).Emit? && token == Token(s[o..Scan(s, o).end], o, Scan(s, o).end)
    ensures Prepended(tokens, Lex(s, o)) == Prepended(tokens + [token], Lex(s, Scan(s, o).end))
  {
    hide Scan;
    PrependOne(tokens, token, Lex(s, Scan(s, o).end));
  }

  function Prepended(tokens: seq<Token>, rest: Result<seq<Token>, LexError>): Result<seq<Token>, LexError> {
    if rest.Err? then rest else Ok(tokens + rest.value)
  }

  lemma PrependNothing(rest: Result<seq<Token>, LexError>)
    ensures Prepended([], rest) == rest
  {
    if rest.Ok? {
      assert [] + rest.value == rest.value;
    }
  }

  lemma PrependOne(tokens: seq<Token>, token: Token, rest: Result<seq<Token>, LexError>)
    ensures Prepended(tokens, Prepended([token], rest)) == Prepended(tokens + [token], rest)
  {
    if rest.Ok? {
      assert tokens + ([token] + rest.value) == tokens + [token] + rest.value;
    }
  }

  lemma PrependTo(token: Token, tokens: seq<Token>, rest: Result<seq<Token>, LexError>)
    ensures Prepended([token], Prepended(tokens, rest)) == Prepended([token] + tokens, rest)
  {
    if rest.Ok? {
      assert [token] + (tokens + rest.value) == [token] + tokens + rest.value;
    }
  }

  /** Tokens are non-empty slices of the source, in order and apart. */
  ghost predicate Ordered(s: string, tokens: seq<Token>, from: nat) {
    && (forall k :: 0 <= k < |tokens| ==>
      from <= tokens[k].start < tokens[k].end <= |s| && tokens[k].text == s[tokens[k].start..tokens[k].end])
    && (forall j, k :: 0 <= j < k < |tokens| ==> tokens[j].end <= tokens[k].start)
  }

  lemma {:induction false} LexedIsOrdered(s: string, o: nat)
    requires o <= |s|
    ensures Lex(s, o).Ok? ==> Ordered(s, Lex(s, o).value, o)
    decreases |s| - o
  {
    hide Scan;
    if o < |s| && !Scan(s, o).Fail? {
      LexedIsOrdered(s, Scan(s, o).end);
    }
  }

  // Locality

  lemma SliceOfSlice(s: string, a: nat, b: nat, i: nat, j: nat)
    requires a <= i <= j <= b <= |s|
    ensures s[a..b][i - a..j - a] == s[i..j]
  {
    var x, y := s[a..b][i - a..j - a], s[i..j];
    assert |x| == |y|;
    forall k | 0 <= k < |x| ensures x[k] == y[k] {
    }
  }

  lemma AtSlice(s: string, a: nat, b: nat, o: nat, word: string)
    requires a <= o <= b <= |s|
    ensures At(s[a..b], o - a, word) <==> At(s, o, word) && o + |word| <= b
  {
    if o + |word| <= b {
      SliceOfSlice(s, a, b, o, o + |word|);
    }
  }

  lemma {:induction false} LineEndLocal(s: string, a: nat, b: nat, o: nat)
    requires a <= o <= b <= |s| && LineEnd(s, o) <= b
    ensures LineEnd(s[a..b], o - a) == LineEnd(s, o) - a
    decreases |s| - o
  {
    if o < b && s[o] != '\n' {
      LineEndLocal(s, a, b, o + 1);
    }
  }

  lemma {:induction false} CommentEndLocal(s: string, a: nat, b: nat, o: nat, depth: nat)
    requires a <= o <= b <= |s| && CommentEnd(s, o, depth).Some? && CommentEnd(s, o, depth).value <= b
    ensures CommentEnd(s[a..b], o - a, depth) == Some(CommentEnd(s, o, depth).value - a)
    decreases |s| - o
  {
    hide At;
    AtSlice(s, a, b, o, "/*");
    AtSlice(s, a, b, o, "*/");
    if depth != 0 {
      if At(s, o, "/*") {
        CommentEndLocal(s, a, b, o + 2, depth + 1);
      } else if At(s, o, "*/") {
        CommentEndLocal(s, a, b, o + 2, depth - 1);
      } else {
        CommentEndLocal(s, a, b, o + 1, depth);
      }
    }
  }

  lemma {:induction false} LiteralEndLocal(s: string, a: nat, b: nat, o: nat, quote: char)
    requires a <= o && b <= |s| && a <= b && LiteralEnd(s, o, quote).Some? && LiteralEnd(s, o, quote).value <= b
    ensures LiteralEnd(s[a..b], o - a, quote) == Some(LiteralEnd(s, o, quote).value - a)
    decreases |s| - o
  {
    if s[o] == '\\' {
      LiteralEndLocal(s, a, b, o + 2, quote);
    } else if s[o] != quote {
      LiteralEndLocal(s, a, b, o + 1, quote);
    }
  }

  lemma {:induction false} WordEndLocal(s: string, a: nat, b: nat, o: nat)
    requires a <= o <= b <= |s| && WordEnd(s, o) <= b
    ensures WordEnd(s[a..b], o - a) == WordEnd(s, o) - a
    decreases |s| - o
  {
    if o < |s| && WordPart(s[o]) {
      WordEndLocal(s, a, b, o + 1);
    }
  }

  function ShiftedItem(item: Item, a: nat): Item
    requires !item.Fail? ==> item.end >= a
  {
    match item
    case Skip(end) => Skip(end - a)
    case Emit(end) => Emit(end - a)
    case Fail(e) => item
  }

  /** What starts at an offset is the same in any slice that holds all of it. */
  lemma ScanIsLocal(s: string, a: nat, b: nat, o: nat)
    requires a <= o < b <= |s| && !Scan(s, o).Fail? && Scan(s, o).end <= b
    ensures Scan(s[a..b], o - a) == ShiftedItem(Scan(s, o), a)
  {
    hide At, LineEnd, CommentEnd, LiteralEnd, WordEnd;
    AtSlice(s, a, b, o, "//");
    AtSlice(s, a, b, o, "/*");
    AtSlice(s, a, b, o, "->");
    AtFits(s, o, "//");
    AtFits(s, o, "/*");
    if Blank(s[o]) {
    } else if At(s, o, "//") {
      LineEndLocal(s, a, b, o + 2);
    } else if At(s, o, "/*") {
      CommentEndLocal(s, a, b, o + 2, 1);
    } else if s[o] == '"' || s[o] == '\'' {
      LiteralEndLocal(s, a, b, o + 1, s[o]);
    } else if Letter(s[o]) {
      WordEndLocal(s, a, b, o + 1);
    }
  }

  lemma AtFits(s: string, o: nat, word: string)
    ensures At(s, o, word) ==> o + |word| <= |s|
  {
  }

  /** The items from one offset on end exactly at another. */
  ghost predicate Reaches(s: string, o: nat, b: nat)
    requires o <= b <= |s|
    decreases |s| - o
  {
    o == b || (!Scan(s, o).Fail? && Scan(s, o).end <= b && Reaches(s, Scan(s, o).end, b))
  }

  function Shifted(t: Token, a: nat): Token
    requires a <= t.start && a <= t.end
  {
    Token(t.text, t.start - a, t.end - a)
  }

  /** The tokens between two item boundaries. */
  ghost function Between(s: string, o: nat, b: nat): seq<Token>
    requires o <= b <= |s| && Reaches(s, o, b)
    decreases |s| - o
  {
    if o == b then []
    else
      var item := Scan(s, o);
      (if item.Emit? then [Token(s[o..item.end], o, item.end)] else []) + Between(s, item.end, b)
  }

  /** Lexing what lies between two boundaries, cut out, gives the same tokens moved. */
  lemma {:induction false} LexingIsLocal(s: string, a: nat, b: nat, o: nat)
    requires a <= o <= b <= |s| && Reaches(s, o, b)
    ensures Lex(s[a..b], o - a).Ok?
    ensures |Lex(s[a..b], o - a).value| == |Between(s, o, b)|
    ensures forall k :: 0 <= k < |Between(s, o, b)| ==>
      Between(s, o, b)[k].start >= a && Between(s, o, b)[k].end >= a && Lex(s[a..b], o - a).value[k] == Shifted(Between(s, o, b)[k], a)
    decreases |s| - o
  {
    hide Scan;
    if o < b {
      ScanIsLocal(s, a, b, o);
      var end := Scan(s, o).end;
      LexingIsLocal(s, a, b, end);
      SliceOfSlice(s, a, b, o, end);
    }
  }

  /** The whole list of tokens, split at an offset that the items reach. */
  lemma {:induction false} LexSplits(s: string, o: nat, b: nat)
    requires o <= b <= |s| && Reaches(s, o, b)
    ensures Lex(s, o) == Prepended(Between(s, o, b), Lex(s, b))
    decreases |s| - o
  {
    hide Scan;
    if o < b {
      var item := Scan(s, o);
      LexSplits(s, item.end, b);
      var rest := Between(s, item.end, b);
      if item.Emit? {
        PrependTo(Token(s[o..item.end], o, item.end), rest, Lex(s, b));
      } else {
        assert [] + rest == rest;
      }
    } else {
      PrependNothing(Lex(s, b));
    }
  }

  /** Every token starts and ends at a boundary. */
  lemma {:induction false} TokensAreReached(s: string, o: nat, k: nat)
    requires o <= |s| && Lex(s, o).Ok? && k < |Lex(s, o).value|
    ensures var t := Lex(s, o).value[k];
            && o <= t.start < t.end <= |s| && Reaches(s, o, t.start) && Reaches(s, t.start, t.end)
            && |Between(s, o, t.start)| == k
    decreases |s| - o
  {
    hide Scan;
    var item := Scan(s, o);
    if item.Skip? {
      TokensAreReached(s, item.end, k);
    } else if k > 0 {
      TokensAreReached(s, item.end, k - 1);
    }
  }
}
