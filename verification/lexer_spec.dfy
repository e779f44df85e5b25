/** Where the tokens of a source text are, and when they are all of it (src/banjo/lexer/lexer.cpp). */
module LexerSpec {

  const EOF_CHAR: char := '\0'

  datatype TokenType = Identifier | Literal | Character | String | Punctuation | Eof | Whitespace | Comment

  datatype Token = Token(tokenType: TokenType, value: string, position: nat, endOfLine: bool)

  // ---- Characters ----

  predicate IsWhitespaceChar(c: char) {
    c == ' ' || c == '\n' || c == '\r' || c == '\t'
  }

  predicate IsLetter(c: char) {
    'a' <= c <= 'z' || 'A' <= c <= 'Z' || c == '_'
  }

  predicate IsDigit(c: char) {
    '0' <= c <= '9'
  }

  predicate IsNumberChar(c: char) {
    IsDigit(c) || 'a' <= c <= 'f' || 'A' <= c <= 'F' || c == 'x' || c == 'o' || c == '.'
  }

  /** Punctuation that may be followed by an equals sign. */
  predicate TakesEquals(c: char) {
    c in {'+', '-', '*', '/', '%', '&', '|', '!', '^', '>', '<', '='}
  }

  /** Punctuation that may be doubled. */
  predicate TakesItself(c: char) {
    c in {'&', '|', '>', '<', '.'}
  }

  predicate StartsPunctuation(c: char) {
    TakesEquals(c) || TakesItself(c) || c in {'~', '(', ')', '{', '}', '[', ']', ';', ':', ',', '?', '@'}
  }

  predicate StartsToken(c: char) {
    IsLetter(c) || IsDigit(c) || c == '\'' || c == '\"' || StartsPunctuation(c)
  }

  // ---- Where tokens end ----

  /** The source with the characters after its end that the reader may look at. */
  function Padded(content: string): string {
    content + [EOF_CHAR, EOF_CHAR]
  }

  predicate IsPadded(buffer: string) {
    |buffer| >= 2 && buffer[|buffer| - 1] == EOF_CHAR && buffer[|buffer| - 2] == EOF_CHAR
  }

  /** Whitespace, identifiers, numbers and comments go on for as long as their characters do. */
  predicate GoesOn(kind: TokenType, buffer: string, p: nat)
    requires p + 1 < |buffer|
  {
    match kind
    case Whitespace => IsWhitespaceChar(buffer[p])
    case Identifier => IsLetter(buffer[p]) || IsDigit(buffer[p])
    case Literal => IsNumberChar(buffer[p]) && !(buffer[p] == '.' && buffer[p + 1] == '.')
    case Comment => buffer[p] != '\n' && buffer[p] != EOF_CHAR
    case _ => false
  }

  function RunEnd(kind: TokenType, buffer: string, p: nat): (end: nat)
    requires IsPadded(buffer) && p + 1 < |buffer|
    ensures p <= end && end + 1 < |buffer| && (GoesOn(kind, buffer, p) ==> p < end)
    decreases |buffer| - p
  {
    if GoesOn(kind, buffer, p) then RunEnd(kind, buffer, p + 1) else p
  }

  /** Past the terminator, or past the first end-of-file character if that comes first; an escaped character is neither. */
  function LiteralEnd(buffer: string, p: nat, terminator: char): (end: nat)
    requires IsPadded(buffer) && p + 1 < |buffer| && terminator != EOF_CHAR
    ensures p < end < |buffer|
    decreases |buffer| - p
  {
    if buffer[p] == EOF_CHAR || buffer[p] == terminator then p + 1
    else if buffer[p] != '\\' then LiteralEnd(buffer, p + 1, terminator)
    else if buffer[p + 1] == EOF_CHAR then p + 2
    else LiteralEnd(buffer, p + 2, terminator)
  }

  /** The longest punctuation that starts with the character at `p`. */
  function PunctuationEnd(buffer: string, p: nat): (end: nat)
    requires IsPadded(buffer) && p + 2 < |buffer|
    ensures p < end < |buffer|
  {
    var c, next := buffer[p], buffer[p + 1];
    if c == '-' then (if next == '>' || next == '=' then p + 2 else p + 1)
    else if c == '>' || c == '<' then
      if next != c then (if next == '=' then p + 2 else p + 1)
      else if buffer[p + 2] == '=' then p + 3 else p + 2
    else if c == '.' then
      if next != '.' then p + 1 else if buffer[p + 2] == '.' then p + 3 else p + 2
    else if (TakesItself(c) && next == c) || (TakesEquals(c) && next == '=') then p + 2
    else p + 1
  }

  /** What begins with the character `c`, if anything does. */
  function KindOf(c: char): TokenType
    requires StartsPiece(c)
  {
    if IsWhitespaceChar(c) then Whitespace
    else if IsLetter(c) then Identifier
    else if IsDigit(c) then Literal
    else if c == '\'' then Character
    else if c == '\"' then String
    else if c == '#' then Comment
    else Punctuation
  }

  predicate StartsPiece(c: char) {
    IsWhitespaceChar(c) || c == '#' || StartsToken(c)
  }

  function PieceEnd(buffer: string, p: nat): (end: nat)
    requires IsPadded(buffer) && p + 2 < |buffer| && StartsPiece(buffer[p])
    ensures p < end < |buffer|
  {
    var kind := KindOf(buffer[p]);
    if kind == Character || kind == String then LiteralEnd(buffer, p + 1, buffer[p])
    else if kind == Punctuation then PunctuationEnd(buffer, p)
    else RunEnd(kind, buffer, p)
  }

  function PieceAt(content: string, p: nat): Token
    requires p < |content| && StartsPiece(content[p])
  {
    Token(KindOf(content[p]), Padded(content)[p..PieceEnd(Padded(content), p)], p, false)
  }

  /** The tokens, whitespace and comments of the source from `p` on. Characters that start nothing are passed over. */
  function Pieces(content: string, p: nat): seq<Token>
    requires p <= |content| + 1
    decreases |content| + 1 - p
  {
    if |content| <= p || content[p] == EOF_CHAR then []
    else if !StartsPiece(content[p]) then Pieces(content, p + 1)
    else [PieceAt(content, p)] + Pieces(content, PieceEnd(Padded(content), p))
  }

  predicate IsAttached(t: Token) {
    t.tokenType == Whitespace || t.tokenType == Comment
  }

  predicate EndsLine(t: Token) {
    t.tokenType == Whitespace && '\n' in t.value
  }

  function MarkLast(tokens: seq<Token>): seq<Token> {
    if tokens == [] then [] else tokens[|tokens| - 1 := tokens[|tokens| - 1].(endOfLine := true)]
  }

  /** The tokens among the pieces; with optional semicolons, one that is last on its line is marked. */
  function TokensIn(pieces: seq<Token>, optionalSemicolons: bool): seq<Token> {
    if pieces == [] then []
    else
      var tokens, t := TokensIn(pieces[..|pieces| - 1], optionalSemicolons), pieces[|pieces| - 1];
      if !IsAttached(t) then tokens + [t]
      else if optionalSemicolons && EndsLine(t) then MarkLast(tokens)
      else tokens
  }

  function AttachedIn(pieces: seq<Token>): seq<Token> {
    if pieces == [] then []
    else AttachedIn(pieces[..|pieces| - 1]) + if IsAttached(pieces[|pieces| - 1]) then [pieces[|pieces| - 1]] else []
  }

  function Concat(pieces: seq<Token>): string {
    if pieces == [] then "" else Concat(pieces[..|pieces| - 1]) + pieces[|pieces| - 1].value
  }

  // ---- When nothing is lost ----

  /** From `p` on, every character belongs to something that starts and ends within the source. */
  predicate Clean(content: string, p: nat)
    requires p <= |content|
    decreases |content| - p
  {
    p == |content| ||
    (StartsPiece(content[p]) && PieceEnd(Padded(content), p) <= |content| && Clean(content, PieceEnd(Padded(content), p)))
  }

  lemma {:induction false} ConcatJoins(a: seq<Token>, b: seq<Token>)
    ensures Concat(a + b) == Concat(a) + Concat(b)
  {
    if b == [] {
      assert a + b == a;
    } else {
      var n := |b| - 1;
      assert (a + b)[..|a| + n] == a + b[..n];
      ConcatJoins(a, b[..n]);
    }
  }

  lemma ConcatFirst(t: Token, rest: seq<Token>)
    ensures Concat([t] + rest) == t.value + Concat(rest)
  {
    ConcatJoins([t], rest);
    assert [t][..0] == [];
    assert Concat([t]) == "" + t.value;
  }

  lemma PiecesUnfold(content: string, p: nat)
    requires p < |content| && StartsPiece(content[p])
    ensures var end := PieceEnd(Padded(content), p);
            Concat(Pieces(content, p)) == Padded(content)[p..end] + Concat(Pieces(content, end))
  {
    ConcatFirst(PieceAt(content, p), Pieces(content, PieceEnd(Padded(content), p)));
  }

  /** A literal that runs over the end of the source does so from its last character, not from an end-of-file character in it. */
  lemma {:induction false} OpenLiteralEnds(buffer: string, p: nat, terminator: char)
    requires IsPadded(buffer) && 0 < p && p + 1 < |buffer| && terminator != EOF_CHAR && buffer[p - 1] != EOF_CHAR
    ensures var end := LiteralEnd(buffer, p, terminator); 2 <= end && (buffer[end - 1] == EOF_CHAR ==> buffer[end - 2] != EOF_CHAR)
    decreases |buffer| - p
  {
    if buffer[p] == EOF_CHAR || buffer[p] == terminator {
    } else if buffer[p] != '\\' {
      OpenLiteralEnds(buffer, p + 1, terminator);
    } else if buffer[p + 1] != EOF_CHAR {
      OpenLiteralEnds(buffer, p + 2, terminator);
    }
  }

  /** Only a literal runs over the end. */
  lemma OpenPieceEnds(content: string, p: nat)
    requires p < |content| && StartsPiece(content[p]) && PieceEnd(Padded(content), p) > |content|
    ensures PieceEnd(Padded(content), p) == |content| + 1 && content[|content| - 1] != EOF_CHAR
  {
    var buffer := Padded(content);
    if KindOf(content[p]) in {Character, String} {
      OpenLiteralEnds(buffer, p + 1, content[p]);
    }
  }

  /** What is kept is not longer than what was read, and if nothing was dropped and the end was overrun, one can tell. */
  lemma {:induction false} KeptIsShorter(content: string, p: nat)
    requires p <= |content|
    ensures var kept := Concat(Pieces(content, p));
            && |kept| <= |content| + 1 - p
            && (|kept| == |content| + 1 - p ==> kept[|kept| - 1] == EOF_CHAR && content[|content| - 1] != EOF_CHAR)
    decreases |content| - p
  {
    if |content| <= p || content[p] == EOF_CHAR {
    } else if !StartsPiece(content[p]) {
      KeptIsShorter(content, p + 1);
    } else {
      PiecesUnfold(content, p);
      var end := PieceEnd(Padded(content), p);
      if end <= |content| { KeptIsShorter(content, end); } else { OpenPieceEnds(content, p); }
    }
  }

  lemma SamePrefix(whole: string, head: string, rest: string, n: nat)
    requires n <= |whole| && head == whole[..n]
    ensures head + rest == whole <==> rest == whole[n..]
  {
    assert whole == whole[..n] + whole[n..];
    if head + rest == whole { assert (head + rest)[n..] == rest; }
  }

  /** Everything from `p` on is kept, character by character, exactly if the source is clean from there. */
  lemma {:induction false} KeptIffClean(content: string, p: nat)
    requires p <= |content|
    ensures Concat(Pieces(content, p)) == content[p..] <==> Clean(content, p)
    decreases |content| - p
  {
    if |content| <= p || content[p] == EOF_CHAR {
    } else if !StartsPiece(content[p]) {
      KeptIsShorter(content, p + 1);
    } else {
      PiecesUnfold(content, p);
      var end := PieceEnd(Padded(content), p);
      if end <= |content| {
        KeptIffClean(content, end);
        assert Padded(content)[p..end] == content[p..][..end - p] && content[p..][end - p..] == content[end..];
        SamePrefix(content[p..], Padded(content)[p..end], Concat(Pieces(content, end)), end - p);
      } else {
        OpenPieceEnds(content, p);
      }
    }
  }

  // ---- The same, one character after the other ----

  /** Where a character stands: outside of literals and comments, in a comment, or in a literal. */
  datatype Mode = Outside | InComment | Inside(quote: char)

  function Entered(c: char): Mode {
    if c == '\'' || c == '\"' then Inside(c) else if c == '#' then InComment else Outside
  }

  /**
    Outside of literals and comments, every character starts something or goes on with it; and no literal is left open at the
    end. An end-of-file character in the source closes a literal.
   */
  predicate Balanced(content: string, p: nat, mode: Mode)
    requires p <= |content|
    decreases |content| - p
  {
    if p == |content| then !mode.Inside?
    else
      var c := content[p];
      match mode
      case Outside => StartsPiece(c) && Balanced(content, p + 1, Entered(c))
      case InComment => c != EOF_CHAR && Balanced(content, p + 1, if c == '\n' then Outside else InComment)
      case Inside(quote) =>
        if c == quote || c == EOF_CHAR then Balanced(content, p + 1, Outside)
        else if c != '\\' then Balanced(content, p + 1, mode)
        else p + 1 < |content| && Balanced(content, p + 2, if content[p + 1] == EOF_CHAR then Outside else mode)
  }

  lemma {:induction false} RunStaysOutside(kind: TokenType, content: string, p: nat)
    requires p <= |content| && kind in {Whitespace, Identifier, Literal}
    ensures var end := RunEnd(kind, Padded(content), p); Balanced(content, p, Outside) <==> Balanced(content, end, Outside)
    decreases |content| - p
  {
    if GoesOn(kind, Padded(content), p) {
      assert p < |content| && StartsPiece(content[p]) && Entered(content[p]) == Outside;
      RunStaysOutside(kind, content, p + 1);
    }
  }

  lemma {:induction false} CommentIsPassed(content: string, p: nat)
    requires p <= |content|
    ensures var end := RunEnd(Comment, Padded(content), p); Balanced(content, p, InComment) <==> Balanced(content, end, Outside)
    decreases |content| - p
  {
    if GoesOn(Comment, Padded(content), p) { CommentIsPassed(content, p + 1); }
  }

  lemma {:induction false} LiteralIsPassed(content: string, p: nat, quote: char)
    requires p <= |content| && quote in {'\'', '\"'}
    ensures var end := LiteralEnd(Padded(content), p, quote);
            Balanced(content, p, Inside(quote)) <==> end <= |content| && Balanced(content, end, Outside)
    decreases |content| - p
  {
    var buffer := Padded(content);
    if buffer[p] == EOF_CHAR || buffer[p] == quote {
    } else if buffer[p] != '\\' {
      LiteralIsPassed(content, p + 1, quote);
    } else if buffer[p + 1] != EOF_CHAR {
      LiteralIsPassed(content, p + 2, quote);
    }
  }

  lemma {:induction false} StaysOutside(content: string, p: nat, end: nat)
    requires p <= end <= |content| && forall k | p <= k < end :: StartsPiece(content[k]) && Entered(content[k]) == Outside
    ensures Balanced(content, p, Outside) <==> Balanced(content, end, Outside)
    decreases end - p
  {
    if p < end { StaysOutside(content, p + 1, end); }
  }

  /** The characters that go on with punctuation are punctuation. */
  lemma PunctuationIsKnown(buffer: string, p: nat, k: nat)
    requires IsPadded(buffer) && p + 2 < |buffer| && StartsPunctuation(buffer[p]) && p <= k < PunctuationEnd(buffer, p)
    ensures StartsPunctuation(buffer[k]) && k < |buffer| - 2
  {
  }

  lemma PunctuationIsPassed(content: string, p: nat)
    requires p < |content| && StartsPiece(content[p]) && KindOf(content[p]) == Punctuation
    ensures var end := PunctuationEnd(Padded(content), p);
            end <= |content| && (Balanced(content, p, Outside) <==> Balanced(content, end, Outside))
  {
    var end := PunctuationEnd(Padded(content), p);
    forall k | p <= k < end
      ensures k < |content| && StartsPiece(content[k]) && Entered(content[k]) == Outside
    {
      PunctuationIsKnown(Padded(content), p, k);
    }
    assert end - 1 < |content|;
    StaysOutside(content, p, end);
  }

  lemma {:induction false} CleanIffBalanced(content: string, p: nat)
    requires p <= |content|
    ensures Clean(content, p) <==> Balanced(content, p, Outside)
    decreases |content| - p
  {
    if p < |content| && StartsPiece(content[p]) {
      var kind, end := KindOf(content[p]), PieceEnd(Padded(content), p);
      if kind == Character || kind == String {
        LiteralIsPassed(content, p + 1, content[p]);
      } else if kind == Comment {
        CommentIsPassed(content, p);
        assert Balanced(content, p, Outside) <==> Balanced(content, p + 1, InComment);
        assert Balanced(content, p, InComment) <==> Balanced(content, p + 1, InComment);
      } else if kind == Punctuation {
        PunctuationIsPassed(content, p);
      } else {
        RunStaysOutside(kind, content, p);
      }
      if end <= |content| { CleanIffBalanced(content, end); }
    }
  }

  /** A character that starts nothing is dropped. */
  lemma UnknownIsDropped()
    ensures Pieces("$", 0) == []
  {
    assert Pieces("$", 1) == [];
  }

  /** An end-of-file character ends the text. */
  lemma EmbeddedEndCuts()
    ensures Pieces("a\0b", 0) == [Token(Identifier, "a", 0, false)]
  {
    var buffer := Padded("a\0b");
    assert RunEnd(Identifier, buffer, 1) == 1;
    assert RunEnd(Identifier, buffer, 0) == 1;
    assert buffer[0..1] == "a";
    assert Pieces("a\0b", 1) == [];
  }

  /** A literal that is left open takes a character with it that is not in the source. */
  lemma OpenLiteralOverruns()
    ensures Pieces("\"a", 0) == [Token(String, "\"a\0", 0, false)]
  {
    var buffer := Padded("\"a");
    assert LiteralEnd(buffer, 2, '\"') == 3;
    assert LiteralEnd(buffer, 1, '\"') == 3;
    assert buffer[0..3] == "\"a\0";
    assert Pieces("\"a", 3) == [];
  }

  // ---- Pieces are where they say they are ----

  ghost predicate FromSource(buffer: string, t: Token) {
    t.position + |t.value| <= |buffer| && t.value == buffer[t.position..t.position + |t.value|]
  }

  /** Each piece is a part of the source from `p` on, after the one ahead of it. */
  ghost predicate InOrder(buffer: string, pieces: seq<Token>, p: nat) {
    pieces != [] ==>
      p <= pieces[0].position && FromSource(buffer, pieces[0]) && InOrder(buffer, pieces[1..], pieces[0].position + |pieces[0].value|)
  }

  lemma FirstInOrder(buffer: string, t: Token, rest: seq<Token>, end: nat)
    requires FromSource(buffer, t) && t.position + |t.value| == end && InOrder(buffer, rest, end)
    ensures InOrder(buffer, [t] + rest, t.position)
  {
    assert ([t] + rest)[1..] == rest;
  }

  lemma {:induction false} PiecesInOrder(content: string, p: nat)
    requires p <= |content| + 1
    ensures InOrder(Padded(content), Pieces(content, p), p)
    decreases |content| + 1 - p
  {
    if p < |content| && content[p] != EOF_CHAR {
      if StartsPiece(content[p]) {
        var end := PieceEnd(Padded(content), p);
        PiecesInOrder(content, end);
        FirstInOrder(Padded(content), PieceAt(content, p), Pieces(content, end), end);
      } else {
        PiecesInOrder(content, p + 1);
      }
    }
  }

  lemma {:induction false} InOrderFromSource(buffer: string, pieces: seq<Token>, p: nat, k: nat)
    requires InOrder(buffer, pieces, p) && k < |pieces|
    ensures FromSource(buffer, pieces[k])
  {
    if k > 0 { InOrderFromSource(buffer, pieces[1..], pieces[0].position + |pieces[0].value|, k - 1); }
  }

  /** Every token is one of the pieces, but for its mark. */
  lemma {:induction false} TokensFromPieces(pieces: seq<Token>, optionalSemicolons: bool, buffer: string)
    requires forall k | 0 <= k < |pieces| :: FromSource(buffer, pieces[k])
    ensures forall t | t in TokensIn(pieces, optionalSemicolons) || t in AttachedIn(pieces) :: FromSource(buffer, t)
  {
    if pieces != [] {
      TokensFromPieces(pieces[..|pieces| - 1], optionalSemicolons, buffer);
      MarkFromSource(TokensIn(pieces[..|pieces| - 1], optionalSemicolons), buffer);
    }
  }

  lemma MarkFromSource(tokens: seq<Token>, buffer: string)
    requires forall t | t in tokens :: FromSource(buffer, t)
    ensures forall t | t in MarkLast(tokens) :: FromSource(buffer, t)
  {
    if tokens != [] { assert tokens[|tokens| - 1] in tokens; }
  }
}
