/** Cutting one function definition out of a source. */
module FunctionExtraction {
  import opened Prelude
  import opened SourceTokens

  datatype ExtractError =
    | NotAscii
    | Unlexable(error: LexError)
    | Definitions(found: nat)
    | Malformed
    | NoBody
    | Unterminated

  /** `fn`, the name, and then type or value parameters. */
  predicate DefinesAt(tokens: seq<Token>, name: string, k: int) {
    && 0 <= k < |tokens| - 2
    && tokens[k].text == "fn" && tokens[k + 1].text == name && tokens[k + 2].text in ["<", "("]
  }

  function DefinitionsBelow(tokens: seq<Token>, name: string, k: nat): seq<nat> {
    if k == 0 then [] else DefinitionsBelow(tokens, name, k - 1) + if DefinesAt(tokens, name, k - 1) then [k - 1] else []
  }

  /** The depth after a token. */
  function Deeper(t: string, opening: string, closing: string, depth: int): int {
    if t == opening then depth + 1 else if t == closing then depth - 1 else depth
  }

  /** A `>` with no open `<` is not a bracket. */
  function Angles(t: string, angles: nat): nat {
    if t == "<" then angles + 1 else if t == ">" && angles > 0 then angles - 1 else angles
  }

  /** The token that opens the body, scanning a signature with these brackets open. */
  function BodyOpen(tokens: seq<Token>, k: nat, parens: int, brackets: int, angles: nat): (r: Result<nat, ExtractError>)
    ensures r.Ok? ==> k <= r.value < |tokens| && tokens[r.value].text == "{"
    decreases |tokens| - k
  {
    if k >= |tokens| then Err(NoBody)
    else
      var t := tokens[k].text;
      if t == "{" && parens == 0 && brackets == 0 && angles == 0 then Ok(k)
      else
        var p, b, a := Deeper(t, "(", ")", parens), Deeper(t, "[", "]", brackets), Angles(t, angles);
        if p < 0 || b < 0 then Err(Malformed) else BodyOpen(tokens, k + 1, p, b, a)
  }

  /** The brace that closes the body, with `depth` braces open. */
  function BodyClose(tokens: seq<Token>, k: nat, depth: nat): (r: Option<nat>)
    ensures r.Some? ==> k <= r.value < |tokens| && tokens[r.value].text == "}"
    decreases |tokens| - k
  {
    if k >= |tokens| then None
    else if tokens[k].text == "{" then BodyClose(tokens, k + 1, depth + 1)
    else if tokens[k].text == "}" then
      if depth == 1 then Some(k) else if depth == 0 then None else BodyClose(tokens, k + 1, depth - 1)
    else BodyClose(tokens, k + 1, depth)
  }

  /** The first and last token of the one definition of a name. */
  function Locate(tokens: seq<Token>, name: string): Result<(nat, nat), ExtractError> {
    var definitions := DefinitionsBelow(tokens, name, |tokens|);
    if |definitions| != 1 then Err(Definitions(|definitions|))
    else
      var first := definitions[0];
      match BodyOpen(tokens, first + 2, 0, 0, 0)
      case Err(e) => Err(e)
      case Ok(open) =>
        var close := BodyClose(tokens, open, 0);
        if close.None? then Err(Unterminated) else Ok((first, close.value))
  }

  datatype Extract = Extract(text: string, start: nat, end: nat)

  predicate Ascii(name: string) {
    forall k :: 0 <= k < |name| ==> name[k] < 128 as char
  }

  /** The positions found are those of the definitions below `n`, rising. */
  lemma {:induction false} DefinitionsHold(tokens: seq<Token>, name: string, n: nat)
    ensures forall k :: k in DefinitionsBelow(tokens, name, n) <==> 0 <= k < n && DefinesAt(tokens, name, k)
    ensures Rising(DefinitionsBelow(tokens, name, n))
  {
    hide DefinesAt;
    if n > 0 {
      DefinitionsHold(tokens, name, n - 1);
      var before := DefinitionsBelow(tokens, name, n - 1);
      if DefinesAt(tokens, name, n - 1) {
        RisingNext(before, n - 1);
      }
    }
  }

  ghost predicate Rising(s: seq<nat>) {
    forall i, j :: 0 <= i < j < |s| ==> s[i] < s[j]
  }

  lemma OnlyMember(s: seq<nat>, x: nat)
    requires Rising(s) && x in s && forall y :: y in s ==> y == x
    ensures s == [x]
  {
    assert s[0] in s && s[|s| - 1] in s;
  }

  lemma RisingNext(s: seq<nat>, n: nat)
    requires Rising(s) && forall k :: k in s ==> k < n
    ensures Rising(s + [n])
  {
    assert forall i :: 0 <= i < |s| ==> s[i] in s;
  }

  /** The word `fn`, the name, and then what opens type or value parameters. */
  ghost predicate Heads(tokens: seq<Token>, name: string, k: int) {
    && 0 <= k && k + 2 < |tokens|
    && tokens[k].text == ['f', 'n'] && tokens[k + 1].text == name && (tokens[k + 2].text == ['<'] || tokens[k + 2].text == ['('])
  }

  lemma HeadsMean(tokens: seq<Token>, name: string, k: int)
    ensures DefinesAt(tokens, name, k) <==> Heads(tokens, name, k)
  {
  }

  ghost predicate OnlyDefinition(tokens: seq<Token>, name: string, first: int) {
    Heads(tokens, name, first) && forall k :: Heads(tokens, name, k) ==> k == first
  }

  lemma OneDefinition(tokens: seq<Token>, name: string)
    ensures var definitions := DefinitionsBelow(tokens, name, |tokens|);
            && (|definitions| == 1 ==> OnlyDefinition(tokens, name, definitions[0]))
            && forall first :: OnlyDefinition(tokens, name, first) ==> definitions == [first]
  {
    hide DefinesAt;
    DefinitionsHold(tokens, name, |tokens|);
    var definitions := DefinitionsBelow(tokens, name, |tokens|);
    forall k: int ensures DefinesAt(tokens, name, k) <==> Heads(tokens, name, k) {
      HeadsMean(tokens, name, k);
    }
    assert |definitions| == 1 ==> definitions[0] in definitions;
    forall first | OnlyDefinition(tokens, name, first) ensures definitions == [first] {
      OnlyMember(definitions, first);
    }
  }

  method FindDefinitions(tokens: seq<Token>, name: string) returns (definitions: seq<nat>)
    ensures definitions == DefinitionsBelow(tokens, name, |tokens|)
  {
    definitions := [];
    for k := 0 to |tokens|
      invariant definitions == DefinitionsBelow(tokens, name, k)
    {
      if DefinesAt(tokens, name, k) {
        definitions := definitions + [k];
      }
    }
  }

  method FindBodyOpen(tokens: seq<Token>, start: nat) returns (r: Result<nat, ExtractError>)
    ensures r == BodyOpen(tokens, start, 0, 0, 0)
  {
    var parens, brackets := 0, 0;
    var angles: nat := 0;
    var k := start;
    while k < |tokens|
      invariant k >= start && parens >= 0 && brackets >= 0
      invariant BodyOpen(tokens, k, parens, brackets, angles) == BodyOpen(tokens, start, 0, 0, 0)
    {
      var token := tokens[k].text;
      if token == "(" {
        parens := parens + 1;
      } else if token == ")" {
        parens := parens - 1;
      } else if token == "[" {
        brackets := brackets + 1;
      } else if token == "]" {
        brackets := brackets - 1;
      } else if token == "<" {
        angles := angles + 1;
      } else if token == ">" && angles > 0 {
        angles := angles - 1;
      } else if token == "{" && parens == 0 && brackets == 0 && angles == 0 {
        return Ok(k);
      }
      if parens < 0 || brackets < 0 {
        return Err(Malformed);
      }
      k := k + 1;
    }
    return Err(NoBody);
  }

  method FindBodyClose(tokens: seq<Token>, open: nat) returns (r: Option<nat>)
    ensures r == BodyClose(tokens, open, 0)
  {
    var depth: int := 0;
    var k := open;
    while k < |tokens|
      invariant k >= open && depth >= 0
      invariant BodyClose(tokens, k, depth) == BodyClose(tokens, open, 0)
    {
      if tokens[k].text == "{" {
        depth := depth + 1;
      } else if tokens[k].text == "}" {
        depth := depth - 1;
        if depth == 0 {
          return Some(k);
        }
        if depth < 0 {
          break;
        }
      }
      k := k + 1;
    }
    return None;
  }

  ghost function Extracted(source: string, name: string): Result<Extract, ExtractError> {
    if !Ascii(name) then Err(NotAscii)
    else
      match Lex(source, 0)
      case Err(e) => Err(Unlexable(e))
      case Ok(tokens) =>
        match Locate(tokens, name)
        case Err(e) => Err(e)
        case Ok((first, last)) => Cut(source, tokens, first, last)
  }

  /** The slice from one token to another. */
  ghost function Cut(source: string, tokens: seq<Token>, first: nat, last: nat): Result<Extract, ExtractError> {
    if first <= last < |tokens| && tokens[first].start <= tokens[last].end <= |source| then
      Ok(Extract(source[tokens[first].start..tokens[last].end], tokens[first].start, tokens[last].end))
    else Err(Malformed)
  }

  lemma Located(tokens: seq<Token>, name: string)
    requires Locate(tokens, name).Ok?
    ensures var (first, last) := Locate(tokens, name).value;
            first + 2 < last < |tokens| && OnlyDefinition(tokens, name, first)
  {
    OneDefinition(tokens, name);
    var first := DefinitionsBelow(tokens, name, |tokens|)[0];
    assert tokens[first + 2].text != "{";
    var open := BodyOpen(tokens, first + 2, 0, 0, 0).value;
    assert open > first + 2;
  }

  // What a located definition is, by counting brackets

  /** How many more tokens of [from, end) open than close. */
  function Net(tokens: seq<Token>, opening: string, closing: string, start: int, end: int): int
    requires 0 <= start && end <= |tokens|
    decreases end - start
  {
    if start >= end then 0
    else
      (if tokens[start].text == opening then 1 else if tokens[start].text == closing then -1 else 0)
      + Net(tokens, opening, closing, start + 1, end)
  }

  /** No `<` before `end` still waits for its `>`: a stray `>` closes nothing. */
  ghost predicate AnglesClosed(tokens: seq<Token>, start: nat, end: int, angles: nat)
    requires end <= |tokens|
  {
    && angles + Net(tokens, "<", ">", start, end) <= 0
    && forall j: nat :: start <= j <= end ==> Net(tokens, "<", ">", j, end) <= 0
  }

  /** A brace outside of every bracket of a signature that starts with these brackets open. */
  ghost predicate OpensAt(tokens: seq<Token>, start: nat, k: int, parens: int, brackets: int, angles: nat) {
    && start <= k < |tokens| && tokens[k].text == "{"
    && parens + Net(tokens, "(", ")", start, k) == 0
    && brackets + Net(tokens, "[", "]", start, k) == 0
    && AnglesClosed(tokens, start, k, angles)
  }

  ghost predicate NeverNegative(tokens: seq<Token>, opening: string, closing: string, start: nat, end: int, depth: int)
    requires end <= |tokens|
  {
    forall j: nat :: start <= j <= end ==> depth + Net(tokens, opening, closing, start, j) >= 0
  }

  /** The body opens at the first brace outside of every bracket, if no bracket was closed that
      was not open. */
  ghost predicate Opens(tokens: seq<Token>, start: nat, open: int, parens: int, brackets: int, angles: nat) {
    && OpensAt(tokens, start, open, parens, brackets, angles)
    && (forall k :: start <= k < open ==> !OpensAt(tokens, start, k, parens, brackets, angles))
    && NeverNegative(tokens, "(", ")", start, open, parens)
    && NeverNegative(tokens, "[", "]", start, open, brackets)
  }

  lemma OpensLater(tokens: seq<Token>, start: nat, k: int, parens: int, brackets: int, angles: nat)
    requires start < k <= |tokens|
    ensures var t := tokens[start].text;
            OpensAt(tokens, start, k, parens, brackets, angles) <==>
            OpensAt(tokens, start + 1, k,
              Deeper(t, "(", ")", parens),
              Deeper(t, "[", "]", brackets),
              Angles(t, angles))
  {
    if k < |tokens| {
      var t := tokens[start].text;
      var a := Angles(t, angles);
      assert Net(tokens, "<", ">", start, k) == (if t == "<" then 1 else if t == ">" then -1 else 0) + Net(tokens, "<", ">", start + 1, k);
      assert AnglesClosed(tokens, start, k, angles) <==> AnglesClosed(tokens, start + 1, k, a);
    }
  }

  lemma NegativeLater(tokens: seq<Token>, opening: string, closing: string, start: nat, end: int, depth: int)
    requires start < end <= |tokens| && depth >= 0 && opening != closing
    ensures var t := tokens[start].text;
            NeverNegative(tokens, opening, closing, start, end, depth) <==>
            NeverNegative(tokens, opening, closing, start + 1, end,
              Deeper(t, opening, closing, depth))
  {
    var t := tokens[start].text;
    var d := Deeper(t, opening, closing, depth);
    forall j: nat | start < j <= end
      ensures depth + Net(tokens, opening, closing, start, j) == d + Net(tokens, opening, closing, start + 1, j)
    {
    }
    if NeverNegative(tokens, opening, closing, start, end, depth) {
      var next := start + 1;
      forall j: nat | next <= j <= end ensures d + Net(tokens, opening, closing, next, j) >= 0 {
        assert depth + Net(tokens, opening, closing, start, j) >= 0;
      }
      assert NeverNegative(tokens, opening, closing, next, end, d);
    }
    if NeverNegative(tokens, opening, closing, start + 1, end, d) {
      forall j: nat | start <= j <= end ensures depth + Net(tokens, opening, closing, start, j) >= 0 {
        assert j > start ==> d + Net(tokens, opening, closing, start + 1, j) >= 0;
      }
      assert NeverNegative(tokens, opening, closing, start, end, depth);
    }
  }

  lemma OpensStep(tokens: seq<Token>, k: nat, parens: int, brackets: int, angles: nat, open: int)
    requires parens >= 0 && brackets >= 0 && k < |tokens| && !OpensAt(tokens, k, k, parens, brackets, angles)
    ensures var t := tokens[k].text;
            var p, b, a := Deeper(t, "(", ")", parens), Deeper(t, "[", "]", brackets), Angles(t, angles);
            Opens(tokens, k, open, parens, brackets, angles) <==> p >= 0 && b >= 0 && Opens(tokens, k + 1, open, p, b, a)
  {
    hide OpensAt, NeverNegative;
    var t := tokens[k].text;
    var p, b, a := Deeper(t, "(", ")", parens), Deeper(t, "[", "]", brackets), Angles(t, angles);
    OpensInside(tokens, k, open, parens, brackets, angles);
    OpensInside(tokens, k + 1, open, p, b, a);
    if k < open < |tokens| {
      forall j | k < j <= open ensures OpensAt(tokens, k, j, parens, brackets, angles) <==> OpensAt(tokens, k + 1, j, p, b, a) {
        OpensLater(tokens, k, j, parens, brackets, angles);
      }
      NegativeLater(tokens, "(", ")", k, open, parens);
      NegativeLater(tokens, "[", "]", k, open, brackets);
      StartsNegative(tokens, k + 1, open, p, b);
      if Opens(tokens, k + 1, open, p, b, a) {
        forall j | k <= j < open ensures !OpensAt(tokens, k, j, parens, brackets, angles) {
          assert j > k ==> !OpensAt(tokens, k + 1, j, p, b, a);
        }
      }
      if Opens(tokens, k, open, parens, brackets, angles) {
        var next := k + 1;
        forall j | next <= j < open ensures !OpensAt(tokens, next, j, p, b, a) {
          assert !OpensAt(tokens, k, j, parens, brackets, angles);
        }
        assert Opens(tokens, next, open, p, b, a);
      }
    }
  }

  lemma {:induction false} BodyOpenMeans(tokens: seq<Token>, k: nat, parens: int, brackets: int, angles: nat, open: int)
    requires parens >= 0 && brackets >= 0
    ensures BodyOpen(tokens, k, parens, brackets, angles) == Ok(open) <==> Opens(tokens, k, open, parens, brackets, angles)
    decreases |tokens| - k
  {
    hide OpensAt, NeverNegative;
    OpensInside(tokens, k, open, parens, brackets, angles);
    if k < |tokens| {
      OpensHere(tokens, k, parens, brackets, angles);
      if OpensAt(tokens, k, k, parens, brackets, angles) {
        assert Opens(tokens, k, open, parens, brackets, angles) ==> open == k;
      } else {
        var t := tokens[k].text;
        var p, b, a := Deeper(t, "(", ")", parens), Deeper(t, "[", "]", brackets), Angles(t, angles);
        OpensStep(tokens, k, parens, brackets, angles, open);
        if p >= 0 && b >= 0 {
          BodyOpenMeans(tokens, k + 1, p, b, a, open);
        }
      }
    }
  }

  lemma OpensHere(tokens: seq<Token>, k: nat, parens: int, brackets: int, angles: nat)
    requires k < |tokens| && parens >= 0 && brackets >= 0
    ensures OpensAt(tokens, k, k, parens, brackets, angles) <==> tokens[k].text == "{" && parens == 0 && brackets == 0 && angles == 0
    ensures NeverNegative(tokens, "(", ")", k, k, parens) && NeverNegative(tokens, "[", "]", k, k, brackets)
  {
  }

  lemma OpensInside(tokens: seq<Token>, start: nat, k: int, parens: int, brackets: int, angles: nat)
    ensures OpensAt(tokens, start, k, parens, brackets, angles) ==> start <= k < |tokens|
  {
  }

  lemma StartsNegative(tokens: seq<Token>, start: nat, end: int, parens: int, brackets: int)
    requires start <= end <= |tokens|
    ensures NeverNegative(tokens, "(", ")", start, end, parens) ==> parens >= 0
    ensures NeverNegative(tokens, "[", "]", start, end, brackets) ==> brackets >= 0
  {
    assert Net(tokens, "(", ")", start, start) == 0 == Net(tokens, "[", "]", start, start);
  }

  /** A bracket is closed that was not open, and no body opens before that. */
  ghost predicate Breaks(tokens: seq<Token>, start: nat, end: int, parens: int, brackets: int, angles: nat) {
    && start <= end <= |tokens|
    && (parens + Net(tokens, "(", ")", start, end) < 0 || brackets + Net(tokens, "[", "]", start, end) < 0)
    && forall k :: start <= k < end ==> !OpensAt(tokens, start, k, parens, brackets, angles)
  }

  lemma BreaksStep(tokens: seq<Token>, k: nat, parens: int, brackets: int, angles: nat, end: int)
    requires parens >= 0 && brackets >= 0 && k < end <= |tokens| && !OpensAt(tokens, k, k, parens, brackets, angles)
    ensures var t := tokens[k].text;
            var p, b, a := Deeper(t, "(", ")", parens), Deeper(t, "[", "]", brackets), Angles(t, angles);
            Breaks(tokens, k, end, parens, brackets, angles) <==> Breaks(tokens, k + 1, end, p, b, a)
  {
    hide OpensAt;
    var t := tokens[k].text;
    var p, b, a := Deeper(t, "(", ")", parens), Deeper(t, "[", "]", brackets), Angles(t, angles);
    var next := k + 1;
    forall j | k < j <= |tokens| ensures OpensAt(tokens, k, j, parens, brackets, angles) <==> OpensAt(tokens, next, j, p, b, a) {
      OpensLater(tokens, k, j, parens, brackets, angles);
    }
    assert parens + Net(tokens, "(", ")", k, end) == p + Net(tokens, "(", ")", next, end);
    assert brackets + Net(tokens, "[", "]", k, end) == b + Net(tokens, "[", "]", next, end);
    if Breaks(tokens, k, end, parens, brackets, angles) {
      forall j | next <= j < end ensures !OpensAt(tokens, next, j, p, b, a) {
        assert !OpensAt(tokens, k, j, parens, brackets, angles);
      }
    }
    if Breaks(tokens, next, end, p, b, a) {
      forall j | k <= j < end ensures !OpensAt(tokens, k, j, parens, brackets, angles) {
        assert j > k ==> !OpensAt(tokens, next, j, p, b, a);
      }
    }
  }

  lemma BreaksHere(tokens: seq<Token>, k: nat, parens: int, brackets: int, angles: nat)
    ensures parens >= 0 && brackets >= 0 ==> !Breaks(tokens, k, k, parens, brackets, angles)
    ensures k <= |tokens| && (parens < 0 || brackets < 0) ==> Breaks(tokens, k, k, parens, brackets, angles)
  {
  }

  ghost predicate BreaksSomewhere(tokens: seq<Token>, start: nat, parens: int, brackets: int, angles: nat) {
    exists end :: Breaks(tokens, start, end, parens, brackets, angles)
  }

  lemma NoTokensBreak(tokens: seq<Token>, k: nat, parens: int, brackets: int, angles: nat)
    requires k >= |tokens| && parens >= 0 && brackets >= 0
    ensures !BreaksSomewhere(tokens, k, parens, brackets, angles)
  {
  }

  lemma BreaksAtOnce(tokens: seq<Token>, k: nat, parens: int, brackets: int, angles: nat)
    requires k <= |tokens| && (parens < 0 || brackets < 0)
    ensures BreaksSomewhere(tokens, k, parens, brackets, angles)
  {
    BreaksHere(tokens, k, parens, brackets, angles);
  }

  lemma OpeningKeeps(tokens: seq<Token>, k: nat, parens: int, brackets: int, angles: nat)
    requires parens >= 0 && brackets >= 0 && OpensAt(tokens, k, k, parens, brackets, angles)
    ensures !BreaksSomewhere(tokens, k, parens, brackets, angles)
  {
    hide OpensAt;
    BreaksHere(tokens, k, parens, brackets, angles);
  }

  lemma BreaksLater(tokens: seq<Token>, k: nat, parens: int, brackets: int, angles: nat)
    requires parens >= 0 && brackets >= 0 && k < |tokens| && !OpensAt(tokens, k, k, parens, brackets, angles)
    ensures var t := tokens[k].text;
            var p, b, a := Deeper(t, "(", ")", parens), Deeper(t, "[", "]", brackets), Angles(t, angles);
            BreaksSomewhere(tokens, k, parens, brackets, angles) <==> BreaksSomewhere(tokens, k + 1, p, b, a)
  {
    hide OpensAt;
    var t := tokens[k].text;
    var p, b, a := Deeper(t, "(", ")", parens), Deeper(t, "[", "]", brackets), Angles(t, angles);
    BreaksHere(tokens, k, parens, brackets, angles);
    if end :| Breaks(tokens, k, end, parens, brackets, angles) {
      BreaksStep(tokens, k, parens, brackets, angles, end);
    }
    var next := k + 1;
    if end :| Breaks(tokens, next, end, p, b, a) {
      BreaksStep(tokens, k, parens, brackets, angles, end);
    }
  }

  /** A signature is malformed exactly when a bracket is closed that was not open. */
  lemma {:induction false} BodyOpenBreaks(tokens: seq<Token>, k: nat, parens: int, brackets: int, angles: nat)
    requires parens >= 0 && brackets >= 0
    ensures BodyOpen(tokens, k, parens, brackets, angles) == Err(Malformed) <==> BreaksSomewhere(tokens, k, parens, brackets, angles)
    ensures BodyOpen(tokens, k, parens, brackets, angles).Err? ==> BodyOpen(tokens, k, parens, brackets, angles).error in {Malformed, NoBody}
    decreases |tokens| - k
  {
    hide OpensAt, BreaksSomewhere;
    if k >= |tokens| {
      NoTokensBreak(tokens, k, parens, brackets, angles);
    } else {
      OpensHere(tokens, k, parens, brackets, angles);
      if OpensAt(tokens, k, k, parens, brackets, angles) {
        OpeningKeeps(tokens, k, parens, brackets, angles);
      } else {
        var t := tokens[k].text;
        var p, b, a := Deeper(t, "(", ")", parens), Deeper(t, "[", "]", brackets), Angles(t, angles);
        BreaksLater(tokens, k, parens, brackets, angles);
        if p >= 0 && b >= 0 {
          BodyOpenBreaks(tokens, k + 1, p, b, a);
        } else {
          BreaksAtOnce(tokens, k + 1, p, b, a);
        }
      }
    }
  }

  /** The body closes where as many braces were closed as opened, for the first time. */
  ghost predicate Closes(tokens: seq<Token>, start: nat, close: int, depth: nat) {
    && start <= close < |tokens|
    && depth + Net(tokens, "{", "}", start, close + 1) == 0
    && forall j: nat :: start <= j <= close ==> depth + Net(tokens, "{", "}", start, j) > 0
  }

  lemma {:induction false} BodyCloseMeans(tokens: seq<Token>, k: nat, depth: nat, close: int)
    requires depth > 0
    ensures BodyClose(tokens, k, depth) == Some(close) <==> Closes(tokens, k, close, depth)
    decreases |tokens| - k
  {
    if k < |tokens| {
      var t := tokens[k].text;
      var d := if t == "{" then depth + 1 else if t == "}" then depth - 1 else depth;
      assert forall j: nat :: k < j <= |tokens| ==> depth + Net(tokens, "{", "}", k, j) == d + Net(tokens, "{", "}", k + 1, j);
      assert Net(tokens, "{", "}", k, k) == 0 == Net(tokens, "{", "}", k + 1, k + 1);
      assert depth + Net(tokens, "{", "}", k, k + 1) == d;
      if d > 0 {
        BodyCloseMeans(tokens, k + 1, d, close);
        if Closes(tokens, k, close, depth) {
          assert close != k;
          var next := k + 1;
          forall j: nat | next <= j <= close ensures d + Net(tokens, "{", "}", next, j) > 0 {
            assert depth + Net(tokens, "{", "}", k, j) > 0;
          }
          assert Closes(tokens, next, close, d);
        }
      }
    }
  }

  /** The only definition of the name, its signature up to the brace that opens the body, and its
      body up to the brace that balances that one. */
  ghost predicate IsDefinition(tokens: seq<Token>, name: string, first: int, open: int, last: int) {
    OnlyDefinition(tokens, name, first) && first >= 0 && Opens(tokens, first + 2, open, 0, 0, 0) && open >= 0 && Closes(tokens, open + 1, last, 1)
  }

  lemma BodyCloseAt(tokens: seq<Token>, open: nat, last: int)
    requires open < |tokens| && tokens[open].text == "{"
    ensures BodyClose(tokens, open, 0) == Some(last) <==> Closes(tokens, open + 1, last, 1)
  {
    BodyCloseMeans(tokens, open + 1, 1, last);
  }

  /** A definition is located exactly when there is one and its signature and body are as they
      should be. */
  lemma LocateMeans(tokens: seq<Token>, name: string, first: nat, last: nat)
    ensures Locate(tokens, name) == Ok((first, last)) <==> exists open :: IsDefinition(tokens, name, first, open, last)
  {
    hide OpensAt, NeverNegative, Closes, BodyClose, BodyOpen, DefinitionsBelow, Heads, Opens;
    OneDefinition(tokens, name);
    if Locate(tokens, name) == Ok((first, last)) {
      var open := BodyOpen(tokens, first + 2, 0, 0, 0).value;
      BodyOpenMeans(tokens, first + 2, 0, 0, 0, open);
      BodyCloseAt(tokens, open, last);
      assert IsDefinition(tokens, name, first, open, last);
    }
    if open :| IsDefinition(tokens, name, first, open, last) {
      BodyOpenMeans(tokens, first + 2, 0, 0, 0, open);
      BodyCloseAt(tokens, open, last);
    }
  }

  ghost predicate BadSignature(tokens: seq<Token>, start: nat) {
    BreaksSomewhere(tokens, start, 0, 0, 0)
  }

  ghost predicate BodyStaysOpen(tokens: seq<Token>, start: nat) {
    exists open: nat :: Opens(tokens, start, open, 0, 0, 0) && !BodyEnds(tokens, open + 1)
  }

  ghost predicate BodyOpens(tokens: seq<Token>, start: nat) {
    exists open: nat :: Opens(tokens, start, open, 0, 0, 0)
  }

  lemma OpensWhen(tokens: seq<Token>, start: nat)
    ensures BodyOpens(tokens, start) <==> BodyOpen(tokens, start, 0, 0, 0).Ok?
  {
    hide Opens, BodyOpen;
    if open: nat :| Opens(tokens, start, open, 0, 0, 0) {
      BodyOpenMeans(tokens, start, 0, 0, 0, open);
    }
    if BodyOpen(tokens, start, 0, 0, 0).Ok? {
      BodyOpenMeans(tokens, start, 0, 0, 0, BodyOpen(tokens, start, 0, 0, 0).value);
    }
  }

  ghost predicate BodyEnds(tokens: seq<Token>, start: nat) {
    exists close :: Closes(tokens, start, close, 1)
  }

  ghost function Definers(tokens: seq<Token>, name: string): set<int> {
    set k | 0 <= k < |tokens| && Heads(tokens, name, k)
  }

  lemma {:induction false} RisingCounts(s: seq<nat>)
    requires Rising(s)
    ensures |set x: int | x in s| == |s|
  {
    if s != [] {
      var before := s[..|s| - 1];
      RisingCounts(before);
      assert (set x: int | x in s) == (set x: int | x in before) + {s[|s| - 1]};
    }
  }

  lemma DefinitionsCount(tokens: seq<Token>, name: string)
    ensures |DefinitionsBelow(tokens, name, |tokens|)| == |Definers(tokens, name)|
  {
    hide DefinesAt, Heads;
    DefinitionsHold(tokens, name, |tokens|);
    var definitions := DefinitionsBelow(tokens, name, |tokens|);
    forall k: int ensures DefinesAt(tokens, name, k) <==> Heads(tokens, name, k) {
      HeadsMean(tokens, name, k);
    }
    RisingCounts(definitions);
    assert (set x: int | x in definitions) == Definers(tokens, name);
  }

  /** Which refusal each ill-formed source gets, and how many definitions the first one counts. */
  lemma LocateFails(tokens: seq<Token>, name: string)
    ensures (exists found :: Locate(tokens, name) == Err(Definitions(found))) <==> !exists first :: OnlyDefinition(tokens, name, first)
    ensures forall found :: Locate(tokens, name) == Err(Definitions(found)) ==> found == |Definers(tokens, name)|
    ensures Locate(tokens, name) == Err(Malformed) <==>
              exists first: nat :: OnlyDefinition(tokens, name, first) && BadSignature(tokens, first + 2)
    ensures Locate(tokens, name) == Err(Unterminated) <==>
              exists first: nat :: OnlyDefinition(tokens, name, first) && BodyStaysOpen(tokens, first + 2)
    ensures Locate(tokens, name) == Err(NoBody) <==>
              exists first: nat :: OnlyDefinition(tokens, name, first) && !BadSignature(tokens, first + 2) && !BodyOpens(tokens, first + 2)
  {
    hide BodyStaysOpen, BodyOpens, BodyClose, BodyOpen, DefinitionsBelow, Definers, Heads, BreaksSomewhere;
    OneDefinition(tokens, name);
    DefinitionsCount(tokens, name);
    var definitions := DefinitionsBelow(tokens, name, |tokens|);
    if |definitions| == 1 {
      var first := definitions[0];
      BodyOpenBreaks(tokens, first + 2, 0, 0, 0);
      StaysOpenWhen(tokens, first + 2);
      OpensWhen(tokens, first + 2);
    }
  }

  lemma BodyEndsWhen(tokens: seq<Token>, open: nat)
    requires open < |tokens| && tokens[open].text == "{"
    ensures BodyClose(tokens, open, 0).Some? <==> BodyEnds(tokens, open + 1)
  {
    hide Closes, BodyClose;
    if BodyClose(tokens, open, 0).Some? {
      BodyCloseAt(tokens, open, BodyClose(tokens, open, 0).value);
    }
    var next := open + 1;
    if last :| Closes(tokens, next, last, 1) {
      BodyCloseAt(tokens, open, last);
    }
  }

  lemma StaysOpenWhen(tokens: seq<Token>, start: nat)
    ensures BodyStaysOpen(tokens, start) <==>
              BodyOpen(tokens, start, 0, 0, 0).Ok? && BodyClose(tokens, BodyOpen(tokens, start, 0, 0, 0).value, 0).None?
  {
    hide Opens, BodyEnds, BodyClose, BodyOpen;
    var found := BodyOpen(tokens, start, 0, 0, 0);
    if open: nat :| Opens(tokens, start, open, 0, 0, 0) && !BodyEnds(tokens, open + 1) {
      BodyOpenMeans(tokens, start, 0, 0, 0, open);
    }
    if found.Ok? {
      BodyEndsWhen(tokens, found.value);
      BodyOpenMeans(tokens, start, 0, 0, 0, found.value);
    }
  }

  /** The braces of the body balance, so those of the whole definition do exactly when those of
      its signature do. */
  lemma BracesBalance(tokens: seq<Token>, name: string, first: int, open: int, last: int)
    requires IsDefinition(tokens, name, first, open, last)
    ensures 0 <= first && first + 2 < open < last < |tokens| && tokens[open].text == "{" && tokens[last].text == "}"
    ensures Net(tokens, "{", "}", open, last + 1) == 0
    ensures forall j :: open < j <= last ==> Net(tokens, "{", "}", open, j) > 0
    ensures Net(tokens, "(", ")", first + 2, open) == 0 == Net(tokens, "[", "]", first + 2, open)
    ensures Net(tokens, "{", "}", first, last + 1) == Net(tokens, "{", "}", first, open)
  {
    hide NeverNegative, AnglesClosed, Heads;
    assert tokens[first + 2].text != "{" by { DefinitionStarts(tokens, name, first); }
    assert Net(tokens, "{", "}", open + 1, open + 1) == 0;
    assert forall j :: open < j <= last + 1 ==> Net(tokens, "{", "}", open, j) == 1 + Net(tokens, "{", "}", open + 1, j);
    NetAppend(tokens, "{", "}", open + 1, last, last + 1);
    NetAppend(tokens, "{", "}", first, open, last + 1);
  }

  const BraceInSignature := "fn f({){}"

  const BraceTokens := [
    Token("fn", 0, 2), Token("f", 3, 4), Token("(", 4, 5), Token("{", 5, 6), Token(")", 6, 7), Token("{", 7, 8), Token("}", 8, 9)]

  /** A signature may hold braces inside of its parentheses, and need not balance them: this source
      lexes, and its function is extracted with two braces opened and one closed. */
  lemma BracesMayNotBalance()
    ensures Lex(BraceInSignature, 0) == Ok(BraceTokens)
    ensures IsDefinition(BraceTokens, "f", 0, 5, 6) && Net(BraceTokens, "{", "}", 0, 7) == 1
    ensures Extracted(BraceInSignature, "f") == Ok(Extract(BraceInSignature, 0, 9))
  {
    hide Net, Opens, Heads, Closes, Lex, Locate, Extracted, BodyOpen, BodyClose;
    ExampleLexes(BraceInSignature, BraceTokens);
    ExampleOpens(BraceTokens);
    ExampleCloses(BraceTokens);
    ExampleDefines(BraceTokens);
    assert IsDefinition(BraceTokens, "f", 0, 5, 6);
    LocateMeans(BraceTokens, "f", 0, 6);
    ExampleIsCut();
  }

  lemma ExampleIsCut()
    requires Lex(BraceInSignature, 0) == Ok(BraceTokens) && Locate(BraceTokens, "f") == Ok((0, 6))
    ensures Extracted(BraceInSignature, "f") == Ok(Extract(BraceInSignature, 0, 9))
  {
    hide Lex, Locate;
    var s := BraceInSignature;
    assert s[0..9] == s;
  }

  lemma EmitNext(s: string, o: nat, end: nat, tokens: seq<Token>, k: nat)
    requires o < |s| && Scan(s, o) == Emit(end) && k < |tokens| && tokens[k] == Token(s[o..end], o, end)
    requires Lex(s, end) == Ok(tokens[k + 1..])
    ensures Lex(s, o) == Ok(tokens[k..])
  {
    hide Scan;
    assert tokens[k..] == [tokens[k]] + tokens[k + 1..];
  }

  /** A byte that starts no comment, literal, word or arrow is a token by itself. */
  lemma ScanByte(s: string, o: nat)
    requires o < |s| && s[o] in "(){}"
    ensures Scan(s, o) == Emit(o + 1)
  {
    hide CommentEnd, LiteralEnd, LineEnd, WordEnd;
    NotAt(s, o);
  }

  lemma EmitByte(s: string, o: nat, tokens: seq<Token>, k: nat)
    requires o < |s| && s[o] in "(){}" && k < |tokens| && tokens[k] == Token([s[o]], o, o + 1)
    requires Lex(s, o + 1) == Ok(tokens[k + 1..])
    ensures Lex(s, o) == Ok(tokens[k..])
  {
    hide Lex, Scan;
    ScanByte(s, o);
    assert s[o..o + 1] == [s[o]];
    EmitNext(s, o, o + 1, tokens, k);
  }

  lemma ScanWord(s: string, o: nat)
    requires o < |s| && Letter(s[o])
    ensures Scan(s, o) == Emit(WordEnd(s, o + 1))
  {
    hide CommentEnd, LiteralEnd, LineEnd, WordEnd;
    NotAt(s, o);
  }

  lemma NotAt(s: string, o: nat)
    requires o < |s| && s[o] != '/' && s[o] != '-'
    ensures !At(s, o, "//") && !At(s, o, "/*") && !At(s, o, "->")
  {
    forall word | At(s, o, word) && |word| == 2 ensures s[o] == word[0] {
      assert s[o..o + 2][0] == s[o];
    }
  }

  lemma ExampleLexes(s: string, t: seq<Token>)
    requires s == BraceInSignature && t == BraceTokens
    ensures Lex(s, 0) == Ok(t)
  {
    hide Lex;
    ExampleEndLexes(s, t);
    assert Scan(s, 2) == Skip(3);
    assert WordEnd(s, 2) == 2 && WordEnd(s, 1) == 2 && WordEnd(s, 4) == 4;
    hide Scan, WordEnd;
    ScanWord(s, 3);
    EmitNext(s, 3, 4, t, 1);
    SkipNext(s, 2, 3);
    ScanWord(s, 0);
    EmitNext(s, 0, 2, t, 0);
    assert t[0..] == t;
  }

  lemma ExampleEndLexes(s: string, t: seq<Token>)
    requires s == BraceInSignature && t == BraceTokens
    ensures Lex(s, 4) == Ok(t[2..])
  {
    hide Lex, Scan;
    LexEnds(s);
    assert t[7..] == [];
    EmitByte(s, 8, t, 6);
    EmitByte(s, 7, t, 5);
    EmitByte(s, 6, t, 4);
    EmitByte(s, 5, t, 3);
    EmitByte(s, 4, t, 2);
  }

  lemma SkipNext(s: string, o: nat, end: nat)
    requires o < |s| && Scan(s, o) == Skip(end)
    ensures Lex(s, o) == Lex(s, end)
  {
    hide Scan;
  }

  lemma LexEnds(s: string)
    ensures Lex(s, |s|) == Ok([])
  {
  }

  lemma ExampleDefines(tokens: seq<Token>)
    requires tokens == BraceTokens
    ensures OnlyDefinition(tokens, "f", 0)
  {
    forall k | Heads(tokens, "f", k) ensures k == 0 {
      assert tokens[k].text == "fn";
    }
  }

  lemma ExampleOpens(tokens: seq<Token>)
    requires tokens == BraceTokens
    ensures Opens(tokens, 2, 5, 0, 0, 0)
  {
    hide Opens;
    assert BodyOpen(tokens, 5, 0, 0, 0) == Ok(5);
    assert BodyOpen(tokens, 4, 1, 0, 0) == Ok(5);
    assert BodyOpen(tokens, 3, 1, 0, 0) == Ok(5);
    assert BodyOpen(tokens, 2, 0, 0, 0) == Ok(5);
    BodyOpenMeans(tokens, 2, 0, 0, 0, 5);
  }

  lemma ExampleCloses(tokens: seq<Token>)
    requires tokens == BraceTokens
    ensures Net(tokens, "{", "}", 0, 7) == 1 && Closes(tokens, 6, 6, 1)
  {
  }

  lemma DefinitionStarts(tokens: seq<Token>, name: string, first: int)
    requires Heads(tokens, name, first)
    ensures 0 <= first < |tokens| - 2 && tokens[first + 2].text != "{"
  {
  }

  lemma {:induction false} NetAppend(tokens: seq<Token>, opening: string, closing: string, a: int, b: int, c: int)
    requires 0 <= a <= b <= c <= |tokens|
    ensures Net(tokens, opening, closing, a, c) == Net(tokens, opening, closing, a, b) + Net(tokens, opening, closing, b, c)
    decreases b - a
  {
    if a < b {
      NetAppend(tokens, opening, closing, a + 1, b, c);
    }
  }

  lemma AsciiMeans(name: string)
    ensures Ascii(name) <==> forall c :: c in name ==> c as int <= 127
  {
    if Ascii(name) {
      forall c | c in name ensures c as int <= 127 {
        var k :| 0 <= k < |name| && name[k] == c;
      }
    } else {
      var k :| 0 <= k < |name| && name[k] >= 128 as char;
      assert name[k] in name;
    }
  }

  /** A name with a byte above 127 is refused, and so is a source that does not lex, as it does not. */
  lemma ExtractionRefuses(source: string, name: string)
    ensures Extracted(source, name) == Err(NotAscii) <==> exists c :: c in name && c as int > 127
    ensures forall e :: Extracted(source, name) == Err(Unlexable(e)) <==> (forall c :: c in name ==> c as int <= 127) && Lex(source, 0) == Err(e)
  {
    hide Lex, Locate, Ascii;
    AsciiMeans(name);
    if Ascii(name) && Lex(source, 0).Ok? {
      LocateErrors(Lex(source, 0).value, name);
    }
  }

  lemma LocateErrors(tokens: seq<Token>, name: string)
    ensures Locate(tokens, name).Err? ==> !Locate(tokens, name).error.NotAscii? && !Locate(tokens, name).error.Unlexable?
  {
    hide BodyOpen, BodyClose, DefinitionsBelow;
    var definitions := DefinitionsBelow(tokens, name, |tokens|);
    if |definitions| == 1 {
      BodyOpenBreaks(tokens, definitions[0] + 2, 0, 0, 0);
    }
  }

  /** Extraction succeeds exactly when the source lexes and defines the name once, well formed,
      and gives the text from the definition's first token to its last. */
  lemma Extracts(source: string, name: string)
    ensures Extracted(source, name).Ok? <==>
              (forall c :: c in name ==> c as int <= 127) && Lex(source, 0).Ok?
              && exists first, open, last :: IsDefinition(Lex(source, 0).value, name, first, open, last)
    ensures Extracted(source, name).Ok? ==>
              var tokens, r := Lex(source, 0).value, Extracted(source, name).value;
              exists first, open, last :: IsDefinition(tokens, name, first, open, last) && 0 <= first < last < |tokens|
                && r.start == tokens[first].start && r.end == tokens[last].end && r.start <= r.end <= |source| && r.text == source[r.start..r.end]
  {
    hide Lex, IsDefinition, BodyOpen, BodyClose, DefinitionsBelow, Locate, Ascii, Opens, Closes, OnlyDefinition, Net;
    AsciiMeans(name);
    if Ascii(name) && Lex(source, 0).Ok? {
      var tokens := Lex(source, 0).value;
      LexedIsOrdered(source, 0);
      if Locate(tokens, name).Ok? {
        var (first, last) := Locate(tokens, name).value;
        LocateMeans(tokens, name, first, last);
        var open :| IsDefinition(tokens, name, first, open, last);
        BracesBalance(tokens, name, first, open, last);
      }
      if first, open, last :| IsDefinition(tokens, name, first, open, last) {
        BracesBalance(tokens, name, first, open, last);
        LocateMeans(tokens, name, first, last);
      }
    }
  }

  method ExtractFunction(source: string, name: string) returns (r: Result<Extract, ExtractError>)
    ensures r == Extracted(source, name)
    ensures r == Err(NotAscii) <==> exists c :: c in name && c as int > 127
    ensures r.Ok? <==>
              (forall c :: c in name ==> c as int <= 127) && Lex(source, 0).Ok?
              && exists first, open, last :: IsDefinition(Lex(source, 0).value, name, first, open, last)
    ensures r.Ok? ==> r.value.start < r.value.end <= |source| && r.value.text == source[r.value.start..r.value.end]
  {
    hide Lex, BodyOpen, BodyClose, DefinitionsBelow, IsDefinition;
    Extracts(source, name);
    ExtractionRefuses(source, name);
    if !Ascii(name) {
      return Err(NotAscii);
    }
    var lexed := Tokens(source);
    if lexed.Err? {
      return Err(Unlexable(lexed.error));
    }
    var tokens := lexed.value;
    var definitions := FindDefinitions(tokens, name);
    if |definitions| != 1 {
      return Err(Definitions(|definitions|));
    }
    var first := definitions[0];
    var open := FindBodyOpen(tokens, first + 2);
    if open.Err? {
      return Err(open.error);
    }
    var close := FindBodyClose(tokens, open.value);
    if close.None? {
      return Err(Unterminated);
    }
    Located(tokens, name);
    assert tokens[first].end <= tokens[close.value].start;
    var start, end := tokens[first].start, tokens[close.value].end;
    return Ok(Extract(source[start..end], start, end));
  }

  // Extracting again

  ghost predicate SameTexts(tokens: seq<Token>, inner: seq<Token>, first: nat) {
    first + |inner| <= |tokens| && forall k :: 0 <= k < |inner| ==> inner[k].text == tokens[first + k].text
  }

  lemma {:induction false} BodyOpenLocal(tokens: seq<Token>, inner: seq<Token>, first: nat, k: nat, parens: int, brackets: int, angles: nat)
    requires SameTexts(tokens, inner, first) && first <= k
    requires var open := BodyOpen(tokens, k, parens, brackets, angles); open.Ok? && open.value < first + |inner|
    ensures BodyOpen(inner, k - first, parens, brackets, angles) == Ok(BodyOpen(tokens, k, parens, brackets, angles).value - first)
    decreases |tokens| - k
  {
    var t := tokens[k].text;
    assert inner[k - first].text == t;
    if !(t == "{" && parens == 0 && brackets == 0 && angles == 0) {
      BodyOpenLocal(tokens, inner, first, k + 1,
        Deeper(t, "(", ")", parens),
        Deeper(t, "[", "]", brackets),
        Angles(t, angles));
    }
  }

  lemma {:induction false} BodyCloseLocal(tokens: seq<Token>, inner: seq<Token>, first: nat, k: nat, depth: nat)
    requires SameTexts(tokens, inner, first) && first <= k
    requires var close := BodyClose(tokens, k, depth); close.Some? && close.value < first + |inner|
    ensures BodyClose(inner, k - first, depth) == Some(BodyClose(tokens, k, depth).value - first)
    decreases |tokens| - k
  {
    assert inner[k - first].text == tokens[k].text;
    if tokens[k].text == "{" {
      BodyCloseLocal(tokens, inner, first, k + 1, depth + 1);
    } else if tokens[k].text != "}" {
      BodyCloseLocal(tokens, inner, first, k + 1, depth);
    } else if depth > 1 {
      BodyCloseLocal(tokens, inner, first, k + 1, depth - 1);
    }
  }

  lemma LocateLocal(tokens: seq<Token>, inner: seq<Token>, name: string)
    requires Locate(tokens, name).Ok?
    requires var (first, last) := Locate(tokens, name).value;
             SameTexts(tokens, inner, first) && |inner| == last - first + 1
    ensures Locate(inner, name) == Ok((0, |inner| - 1))
  {
    hide BodyOpen, BodyClose, DefinitionsBelow;
    var (first, last) := Locate(tokens, name).value;
    Located(tokens, name);
    OneDefinition(tokens, name);
    OneDefinition(inner, name);
    assert OnlyDefinition(inner, name, 0) by {
      assert inner[0].text == tokens[first].text && inner[1].text == tokens[first + 1].text && inner[2].text == tokens[first + 2].text;
      forall k | Heads(inner, name, k) ensures k == 0 {
        assert inner[k].text == tokens[first + k].text && inner[k + 1].text == tokens[first + k + 1].text && inner[k + 2].text == tokens[first + k + 2].text;
        assert Heads(tokens, name, first + k);
      }
    }
    var open := BodyOpen(tokens, first + 2, 0, 0, 0).value;
    BodyOpenLocal(tokens, inner, first, first + 2, 0, 0, 0);
    BodyCloseLocal(tokens, inner, first, open, 0);
  }

  /** The tokens of a slice from one token to another are those tokens, moved. */
  lemma SliceTokens(source: string, tokens: seq<Token>, first: nat, last: nat)
    requires Lex(source, 0) == Ok(tokens) && first <= last < |tokens|
    ensures var a, b := tokens[first].start, tokens[last].end;
            && a <= b <= |source|
            && Lex(source[a..b], 0).Ok?
            && var inner := Lex(source[a..b], 0).value;
            && |inner| == last - first + 1
            && forall k :: 0 <= k < |inner| ==>
                 tokens[first + k].start >= a && tokens[first + k].end >= a && inner[k] == Shifted(tokens[first + k], a)
  {
    hide Lex, Reaches, Between, Shifted;
    TokensBetween(source, tokens, first, last);
    var a, b := tokens[first].start, tokens[last].end;
    LexingIsLocal(source, a, b, a);
    var cut := Between(source, a, b);
    assert forall k :: 0 <= k < |cut| ==> cut[k] == tokens[first + k];
  }

  /** The tokens between the ends of two tokens are those from the one to the other. */
  lemma TokensBetween(source: string, tokens: seq<Token>, first: nat, last: nat)
    requires Lex(source, 0) == Ok(tokens) && first <= last < |tokens|
    ensures var a, b := tokens[first].start, tokens[last].end;
            a <= b <= |source| && Reaches(source, a, b) && Between(source, a, b) == tokens[first..last + 1]
  {
    hide Lex, Reaches, Between;
    TokensAreReached(source, 0, first);
    TokensAreReached(source, 0, last);
    LexedIsOrdered(source, 0);
    var a, c, b := tokens[first].start, tokens[last].start, tokens[last].end;
    LexSplits(source, 0, c);
    BetweenSuffix(source, 0, a, c);
    BetweenJoins(source, a, c, b);
    OneToken(source, 0, last);
    hide Ordered;
    assert tokens == Between(source, 0, c) + Lex(source, c).value;
    assert Between(source, 0, c) == tokens[..last];
    assert Between(source, a, c) == tokens[first..last] by {
      assert Between(source, 0, c) == Between(source, 0, a) + Between(source, a, c);
    }
    assert tokens[first..last] + [tokens[last]] == tokens[first..last + 1];
  }

  /** Two boundaries of one run of items are boundaries of each other. */
  lemma {:induction false} BetweenSuffix(s: string, o: nat, a: nat, b: nat)
    requires o <= a <= b <= |s| && Reaches(s, o, a) && Reaches(s, o, b)
    ensures Reaches(s, a, b) && Between(s, o, b) == Between(s, o, a) + Between(s, a, b)
    decreases |s| - o
  {
    hide Scan;
    if o < a {
      BetweenSuffix(s, Scan(s, o).end, a, b);
    } else {
      assert [] + Between(s, a, b) == Between(s, a, b);
    }
  }

  lemma {:induction false} BetweenJoins(s: string, a: nat, c: nat, b: nat)
    requires a <= c <= b <= |s| && Reaches(s, a, c) && Reaches(s, c, b)
    ensures Reaches(s, a, b) && Between(s, a, b) == Between(s, a, c) + Between(s, c, b)
    decreases |s| - a
  {
    hide Scan;
    if a < c {
      BetweenJoins(s, Scan(s, a).end, c, b);
    } else {
      assert [] + Between(s, c, b) == Between(s, c, b);
    }
  }

  /** What lies between the ends of one token is that token. */
  lemma {:induction false} OneToken(s: string, o: nat, k: nat)
    requires o <= |s| && Lex(s, o).Ok? && k < |Lex(s, o).value|
    requires var t := Lex(s, o).value[k]; o <= t.start < t.end <= |s| && Reaches(s, t.start, t.end)
    ensures var t := Lex(s, o).value[k]; Between(s, t.start, t.end) == [t]
    decreases |s| - o
  {
    hide Scan;
    var item := Scan(s, o);
    if item.Skip? {
      TokensAreReached(s, item.end, k);
      OneToken(s, item.end, k);
    } else if k > 0 {
      TokensAreReached(s, item.end, k - 1);
      OneToken(s, item.end, k - 1);
    } else {
      assert Between(s, item.end, item.end) == [];
    }
  }

  /** A definition that was extracted extracts to itself. */
  lemma ExtractionSettles(source: string, name: string)
    requires Extracted(source, name).Ok?
    ensures var text := Extracted(source, name).value.text;
            Extracted(text, name) == Ok(Extract(text, 0, |text|))
  {
    hide Lex, Locate, Ascii;
    var tokens := Lex(source, 0).value;
    var (first, last) := Locate(tokens, name).value;
    Located(tokens, name);
    SliceTokens(source, tokens, first, last);
    var a, b := tokens[first].start, tokens[last].end;
    var text := source[a..b];
    var inner := Lex(text, 0).value;
    assert inner[0].start == tokens[first + 0].start - a && inner[|inner| - 1].end == tokens[first + (|inner| - 1)].end - a;
    LocateLocal(tokens, inner, name);
    assert text[0..|text|] == text;
  }
}
