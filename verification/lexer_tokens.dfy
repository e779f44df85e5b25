/** What the pieces of a source are, told from their characters (src/banjo/lexer/lexer.cpp:65-255). */
module LexerTokens {
  import opened LexerSpec

  // ---- Characters ----

  predicate Blank(c: char) {
    c in " \n\r\t"
  }

  predicate Decimal(c: char) {
    c in "0123456789"
  }

  predicate WordStart(c: char) {
    c in "abcdefghijklm" || c in "nopqrstuvwxyz" || c in "ABCDEFGHIJKLM" || c in "NOPQRSTUVWXYZ" || c == '_'
  }

  predicate InNumber(c: char) {
    c in "0123456789" || c in "abcdef" || c in "ABCDEF" || c in "xo."
  }

  lemma SmallLetters(c: char)
    ensures c in "abcdefghijklm" <==> 'a' <= c <= 'm'
    ensures c in "nopqrstuvwxyz" <==> 'n' <= c <= 'z'
  {
    if 'a' <= c <= 'm' { assert c == "abcdefghijklm"[c as int - 'a' as int]; }
    if 'n' <= c <= 'z' { assert c == "nopqrstuvwxyz"[c as int - 'n' as int]; }
  }

  lemma CapitalLetters(c: char)
    ensures c in "ABCDEFGHIJKLM" <==> 'A' <= c <= 'M'
    ensures c in "NOPQRSTUVWXYZ" <==> 'N' <= c <= 'Z'
  {
    if 'A' <= c <= 'M' { assert c == "ABCDEFGHIJKLM"[c as int - 'A' as int]; }
    if 'N' <= c <= 'Z' { assert c == "NOPQRSTUVWXYZ"[c as int - 'N' as int]; }
  }

  lemma LettersAre(c: char)
    ensures IsLetter(c) <==> WordStart(c)
  {
    SmallLetters(c);
    CapitalLetters(c);
  }

  lemma DigitsAndBlanksAre(c: char)
    ensures (IsDigit(c) <==> Decimal(c)) && (IsWhitespaceChar(c) <==> Blank(c))
  {
    if IsDigit(c) { assert c == "0123456789"[c as int - '0' as int]; }
    assert " \n\r\t"[0] == ' ' && " \n\r\t"[1] == '\n' && " \n\r\t"[2] == '\r' && " \n\r\t"[3] == '\t';
  }

  lemma NumberCharsAre(c: char)
    ensures IsNumberChar(c) <==> InNumber(c)
  {
    DigitsAndBlanksAre(c);
    if 'a' <= c <= 'f' { assert c == "abcdef"[c as int - 'a' as int]; }
    if 'A' <= c <= 'F' { assert c == "ABCDEF"[c as int - 'A' as int]; }
    assert "xo."[0] == 'x' && "xo."[1] == 'o' && "xo."[2] == '.';
  }

  // ---- Runs of characters ----

  /** From `p` up to `end` all places are inside, and `end` is not, unless the source ends there. */
  ghost predicate LongestRun(content: string, p: nat, end: nat, inside: nat -> bool) {
    p < end <= |content| && (forall k: nat | p <= k < end :: inside(k)) && (end < |content| ==> !inside(end))
  }

  lemma {:induction false} RunIsLongest(kind: TokenType, content: string, p: nat)
    requires p <= |content| && kind in {Whitespace, Identifier, Literal, Comment}
    ensures var buffer, end := Padded(content), RunEnd(kind, Padded(content), p);
            && p <= end <= |content| && (forall k | p <= k < end :: GoesOn(kind, buffer, k))
            && (end < |content| ==> !GoesOn(kind, buffer, end))
    decreases |content| - p
  {
    if GoesOn(kind, Padded(content), p) { RunIsLongest(kind, content, p + 1); }
  }

  /** Whitespace is as long as it goes on. */
  lemma BlanksAreLongest(content: string, p: nat)
    requires p < |content| && Blank(content[p])
    ensures StartsPiece(content[p]) && PieceAt(content, p).tokenType == Whitespace
    ensures LongestRun(content, p, PieceEnd(Padded(content), p), (k: nat) => k < |content| && Blank(content[k]))
  {
    DigitsAndBlanksAre(content[p]);
    RunIsLongest(Whitespace, content, p);
    forall k: nat | k < |content|
      ensures GoesOn(Whitespace, Padded(content), k) <==> Blank(content[k])
    {
      DigitsAndBlanksAre(content[k]);
    }
  }

  /** An identifier is the longest word of letters, digits and underscores that does not start with a digit. */
  lemma WordIsLongest(content: string, p: nat)
    requires p < |content| && WordStart(content[p])
    ensures StartsPiece(content[p]) && PieceAt(content, p).tokenType == Identifier
    ensures LongestRun(content, p, PieceEnd(Padded(content), p), (k: nat) => k < |content| && (WordStart(content[k]) || Decimal(content[k])))
  {
    LettersAre(content[p]);
    RunIsLongest(Identifier, content, p);
    forall k: nat | k < |content|
      ensures GoesOn(Identifier, Padded(content), k) <==> WordStart(content[k]) || Decimal(content[k])
    {
      LettersAre(content[k]);
      DigitsAndBlanksAre(content[k]);
    }
  }

  /** Inside a number, two dots in a row end it. */
  predicate InNumberAt(content: string, k: nat) {
    k < |content| && InNumber(content[k]) && !(k + 1 < |content| && content[k] == '.' && content[k + 1] == '.')
  }

  lemma NumberIsLongest(content: string, p: nat)
    requires p < |content| && Decimal(content[p])
    ensures StartsPiece(content[p]) && PieceAt(content, p).tokenType == Literal
    ensures LongestRun(content, p, PieceEnd(Padded(content), p), (k: nat) => InNumberAt(content, k))
  {
    DigitsAndBlanksAre(content[p]);
    RunIsLongest(Literal, content, p);
    forall k: nat | k < |content|
      ensures GoesOn(Literal, Padded(content), k) <==> InNumberAt(content, k)
    {
      NumberCharsAre(content[k]);
    }
  }

  /** A comment takes the rest of its line. */
  lemma CommentIsLongest(content: string, p: nat)
    requires p < |content| && content[p] == '#'
    ensures StartsPiece(content[p]) && PieceAt(content, p).tokenType == Comment
    ensures LongestRun(content, p, PieceEnd(Padded(content), p), (k: nat) => k < |content| && content[k] != '\n' && content[k] != '\0')
  {
    RunIsLongest(Comment, content, p);
    forall k: nat | k < |content|
      ensures GoesOn(Comment, Padded(content), k) <==> content[k] != '\n' && content[k] != '\0'
    {
    }
  }

  // ---- Literals ----

  /** How many backslashes stand right before `k`, after `p`. */
  function Backslashes(content: string, p: nat, k: nat): nat
    requires k <= |content|
  {
    if k <= p + 1 || content[k - 1] != '\\' then 0 else Backslashes(content, p, k - 1) + 1
  }

  /** The quote at `k` closes the literal that starts at `p`: the backslashes before it escape each other. */
  predicate Closes(content: string, p: nat, k: nat) {
    p < k < |content| && content[k] == content[p] && Backslashes(content, p, k) % 2 == 0
  }

  lemma {:induction false} LiteralEndsAt(content: string, p: nat, i: nat, e: nat)
    requires p < i <= |content| && EOF_CHAR !in content && content[p] in {'\'', '\"'} && Backslashes(content, p, i) % 2 == 0
    requires i <= e <= |content| && (e < |content| ==> Closes(content, p, e)) && forall k | i <= k < e :: !Closes(content, p, k)
    ensures LiteralEnd(Padded(content), i, content[p]) == if e < |content| then e + 1 else |content| + 1
    decreases |content| - i
  {
    if i < |content| {
      assert content[i] in content;
      if content[i] == content[p] {
        assert Closes(content, p, i);
      } else if content[i] != '\\' {
        LiteralEndsAt(content, p, i + 1, e);
      } else if i + 1 < |content| {
        assert content[i + 1] in content;
        assert Backslashes(content, p, i + 1) == Backslashes(content, p, i) + 1;
        assert !Closes(content, p, i + 1);
        LiteralEndsAt(content, p, i + 2, e);
      }
    }
  }

  /** A literal ends with the first quote of its kind that is not escaped; if there is none, it takes an end-of-file character. */
  lemma LiteralEndsWithQuote(content: string, p: nat, e: nat)
    requires p < |content| && EOF_CHAR !in content && content[p] in {'\'', '\"'}
    requires p < e <= |content| && (e < |content| ==> Closes(content, p, e)) && forall k | p < k < e :: !Closes(content, p, k)
    ensures StartsPiece(content[p]) && PieceAt(content, p).tokenType == if content[p] == '\'' then Character else String
    ensures PieceEnd(Padded(content), p) == if e < |content| then e + 1 else |content| + 1
  {
    LiteralEndsAt(content, p, p + 1, e);
  }

  // ---- Punctuation ----

  predicate IsPunctuation(s: string) {
    || s in {"+", "-", "*", "/", "%", "&", "|", "!", "^", "~", ">", "<", "="}
    || s in {"(", ")", "{", "}", "[", "]", ";", ":", ",", ".", "?", "@"}
    || s in {"+=", "-=", "*=", "/=", "%=", "&=", "|=", "!=", "^=", ">=", "<=", "==", "->"}
    || s in {"&&", "||", ">>", "<<", "..", ">>=", "<<=", "..."}
  }

  lemma SameTwo(s: string, t: string)
    requires |s| == |t| == 2
    ensures s == t <==> s[0] == t[0] && s[1] == t[1]
  {
  }

  lemma SameThree(s: string, t: string)
    requires |s| == |t| == 3
    ensures s == t <==> s[0] == t[0] && s[1] == t[1] && s[2] == t[2]
  {
  }

  lemma OnePunctuation(c: char)
    ensures IsPunctuation([c]) <==> StartsPunctuation(c)
  {
  }

  lemma TwoPunctuation(s: string)
    requires |s| == 2
    ensures IsPunctuation(s) <==>
            (TakesEquals(s[0]) && s[1] == '=') || (TakesItself(s[0]) && s[1] == s[0]) || (s[0] == '-' && s[1] == '>')
  {
    SameTwo(s, "+=");
    SameTwo(s, "-=");
    SameTwo(s, "*=");
    SameTwo(s, "/=");
    SameTwo(s, "%=");
    SameTwo(s, "&=");
    SameTwo(s, "|=");
    SameTwo(s, "!=");
    SameTwo(s, "^=");
    SameTwo(s, ">=");
    SameTwo(s, "<=");
    SameTwo(s, "==");
    SameTwo(s, "->");
    SameTwo(s, "&&");
    SameTwo(s, "||");
    SameTwo(s, ">>");
    SameTwo(s, "<<");
    SameTwo(s, "..");
  }

  lemma ThreePunctuation(s: string)
    requires |s| == 3
    ensures IsPunctuation(s) <==>
            ((s[0] == '>' || s[0] == '<') && s[1] == s[0] && s[2] == '=') || (s[0] == '.' && s[1] == '.' && s[2] == '.')
  {
    SameThree(s, ">>=");
    SameThree(s, "<<=");
    SameThree(s, "...");
  }

  lemma LongIsNoPunctuation(s: string)
    requires |s| > 3
    ensures !IsPunctuation(s)
  {
  }

  lemma LongestIs(buffer: string, p: nat)
    requires IsPadded(buffer) && p + 2 < |buffer| && StartsPunctuation(buffer[p])
    ensures var end := PunctuationEnd(buffer, p);
            && end <= p + 3 && IsPunctuation(buffer[p..end])
            && (end < p + 2 ==> !IsPunctuation(buffer[p..p + 2])) && (end < p + 3 ==> !IsPunctuation(buffer[p..p + 3]))
  {
    OnePunctuation(buffer[p]);
    assert buffer[p..p + 1] == [buffer[p]];
    TwoPunctuation(buffer[p..p + 2]);
    ThreePunctuation(buffer[p..p + 3]);
  }

  lemma NoneIsLonger(buffer: string, p: nat, n: nat)
    requires IsPadded(buffer) && p + 2 < |buffer| && StartsPunctuation(buffer[p]) && PunctuationEnd(buffer, p) < n <= |buffer|
    ensures !IsPunctuation(buffer[p..n])
  {
    LongestIs(buffer, p);
    if n > p + 3 { LongIsNoPunctuation(buffer[p..n]); }
  }

  lemma IsPunctuationPiece(content: string, p: nat)
    requires p < |content| && StartsPunctuation(content[p])
    ensures StartsPiece(content[p]) && KindOf(content[p]) == Punctuation && PieceEnd(Padded(content), p) == PunctuationEnd(Padded(content), p)
  {
  }

  /** Punctuation is the longest that there is. */
  lemma PunctuationIsLongest(content: string, p: nat)
    requires p < |content| && IsPunctuation([content[p]])
    ensures StartsPiece(content[p]) && PieceAt(content, p).tokenType == Punctuation
    ensures var end := PieceEnd(Padded(content), p);
            end <= |content| && IsPunctuation(content[p..end]) && forall n | end < n <= |content| :: !IsPunctuation(content[p..n])
  {
    OnePunctuation(content[p]);
    IsPunctuationPiece(content, p);
    PunctuationIsPassed(content, p);
    var buffer, end := Padded(content), PunctuationEnd(Padded(content), p);
    LongestIs(buffer, p);
    assert buffer[p..end] == content[p..end];
    forall n | end < n <= |content|
      ensures !IsPunctuation(content[p..n])
    {
      assert buffer[p..n] == content[p..n];
      NoneIsLonger(buffer, p, n);
    }
  }

  /** Nothing else starts anything. */
  lemma StartsAre(c: char)
    ensures StartsPiece(c) <==> Blank(c) || WordStart(c) || Decimal(c) || c in "'\"#" || IsPunctuation([c])
  {
    LettersAre(c);
    DigitsAndBlanksAre(c);
    OnePunctuation(c);
    assert "'\"#"[0] == '\'' && "'\"#"[1] == '\"' && "'\"#"[2] == '#';
  }

  // ---- Ends of lines ----

  /** Whitespace and comments. */
  predicate NoTokens(pieces: seq<Token>) {
    forall k | 0 <= k < |pieces| :: pieces[k].tokenType == Whitespace || pieces[k].tokenType == Comment
  }

  predicate BreaksLine(pieces: seq<Token>) {
    exists k :: 0 <= k < |pieces| && pieces[k].tokenType == Whitespace && '\n' in pieces[k].value
  }

  /** With optional semicolons a token is marked exactly if a line break follows it before the next token. */
  lemma {:induction false} MarkedIffLineBreaks(before: seq<Token>, t: Token, after: seq<Token>, optionalSemicolons: bool)
    requires t.tokenType != Whitespace && t.tokenType != Comment && !t.endOfLine && NoTokens(after)
    ensures TokensIn(before + [t] + after, optionalSemicolons)
         == TokensIn(before, optionalSemicolons) + [t.(endOfLine := optionalSemicolons && BreaksLine(after))]
    decreases |after|
  {
    var all := before + [t] + after;
    if after == [] {
      assert all[..|all| - 1] == before && all[|all| - 1] == t;
    } else {
      var n := |after| - 1;
      MarkedIffLineBreaks(before, t, after[..n], optionalSemicolons);
      assert all[..|all| - 1] == before + [t] + after[..n] && all[|all| - 1] == after[n];
      LineBreaksNext(after);
    }
  }

  lemma LineBreaksNext(pieces: seq<Token>)
    requires pieces != []
    ensures var n := |pieces| - 1;
            BreaksLine(pieces) <==> BreaksLine(pieces[..n]) || (pieces[n].tokenType == Whitespace && '\n' in pieces[n].value)
  {
    var n := |pieces| - 1;
    if BreaksLine(pieces[..n]) {
      var k :| 0 <= k < n && pieces[..n][k].tokenType == Whitespace && '\n' in pieces[..n][k].value;
      assert pieces[k] == pieces[..n][k];
    }
    if BreaksLine(pieces) {
      var k :| 0 <= k < |pieces| && pieces[k].tokenType == Whitespace && '\n' in pieces[k].value;
      if k < n { assert pieces[..n][k] == pieces[k]; }
    }
  }

  /** Whitespace and comments are attached, in order, and nothing else is. */
  lemma {:induction false} AttachedAre(before: seq<Token>, t: Token)
    ensures AttachedIn(before + [t]) == AttachedIn(before) + if t.tokenType == Whitespace || t.tokenType == Comment then [t] else []
  {
    assert (before + [t])[..|before|] == before;
  }
}
