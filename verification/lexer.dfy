/** The lexer in the mode that keeps whitespace and comments as attachments (src/banjo/lexer/lexer.cpp). */
module Lexers {
  import opened LexerSpec

  /** Which attached tokens stand before a token. */
  datatype Span = Span(first: nat, count: nat)

  // ---- What tokens and attachments spell ----

  /** The text of attached tokens `lo` up to but not including `hi`. */
  function TextOf(attached: seq<Token>, lo: nat, hi: nat): string
    requires lo <= hi <= |attached|
  {
    if lo == hi then "" else TextOf(attached, lo, hi - 1) + attached[hi - 1].value
  }

  function SpanText(attached: seq<Token>, s: Span): string {
    if s.count == 0 || |attached| < s.first + s.count then "" else TextOf(attached, s.first, s.first + s.count)
  }

  /** Each of the first `k` tokens after what is attached to it, and what is attached to the next. */
  function Spelled(tokens: seq<Token>, attached: seq<Token>, attachments: seq<Span>, k: nat): string
    requires k <= |tokens| && |attachments| == |tokens| + 1
  {
    if k == 0 then SpanText(attached, attachments[0])
    else Spelled(tokens, attached, attachments, k - 1) + tokens[k - 1].value + SpanText(attached, attachments[k])
  }

  function AttachedBefore(attachments: seq<Span>, k: nat): nat
    requires k <= |attachments|
  {
    if k == 0 then 0 else AttachedBefore(attachments, k - 1) + attachments[k - 1].count
  }

  /** The spans that are not empty lie one after the other, and together hold all attached tokens. */
  ghost predicate Partition(attached: seq<Token>, attachments: seq<Span>) {
    && AttachedBefore(attachments, |attachments|) == |attached|
    && forall k {:trigger SpanInPlace(attachments, k)} :: 0 <= k < |attachments| ==> SpanInPlace(attachments, k)
  }

  ghost predicate SpanInPlace(attachments: seq<Span>, k: nat)
    requires k < |attachments|
  {
    attachments[k].count > 0 ==> attachments[k].first == AttachedBefore(attachments, k)
  }

  // ---- Adding a token ----

  lemma {:induction false} TextOfPrefix(attached: seq<Token>, attached': seq<Token>, lo: nat, hi: nat)
    requires lo <= hi <= |attached| <= |attached'| && attached'[..|attached|] == attached
    ensures TextOf(attached', lo, hi) == TextOf(attached, lo, hi)
  {
    if lo < hi {
      assert attached'[hi - 1] == attached'[..|attached|][hi - 1];
      TextOfPrefix(attached, attached', lo, hi - 1);
    }
  }

  /** The lists agree on the first `n` tokens and on what is attached to the first `n + 1`. */
  ghost predicate AgreeUpTo(tokens: seq<Token>, attachments: seq<Span>, tokens': seq<Token>, attachments': seq<Span>, n: nat) {
    && n <= |tokens| && n <= |tokens'| && n < |attachments| && n < |attachments'|
    && (forall k :: 0 <= k < n ==> tokens[k].value == tokens'[k].value)
    && forall k :: 0 <= k <= n ==> attachments[k] == attachments'[k]
  }

  ghost predicate SpansWithin(attached: seq<Token>, attachments: seq<Span>, n: nat) {
    forall k :: 0 <= k <= n && k < |attachments| ==> attachments[k].first + attachments[k].count <= |attached|
  }

  lemma SpanTextPrefix(attached: seq<Token>, attached': seq<Token>, s: Span)
    requires s.first + s.count <= |attached| <= |attached'| && attached'[..|attached|] == attached
    ensures SpanText(attached', s) == SpanText(attached, s)
  {
    if s.count > 0 { TextOfPrefix(attached, attached', s.first, s.first + s.count); }
  }

  lemma SpelledUnfolds(tokens: seq<Token>, attached: seq<Token>, attachments: seq<Span>, n: nat)
    requires 0 < n <= |tokens| && |attachments| == |tokens| + 1
    ensures Spelled(tokens, attached, attachments, n)
         == Spelled(tokens, attached, attachments, n - 1) + tokens[n - 1].value + SpanText(attached, attachments[n])
  {
  }

  lemma {:induction false} SpelledPrefix(tokens: seq<Token>, attached: seq<Token>, attachments: seq<Span>,
                                         tokens': seq<Token>, attached': seq<Token>, attachments': seq<Span>, n: nat)
    requires |attachments| == |tokens| + 1 && |attachments'| == |tokens'| + 1
    requires AgreeUpTo(tokens, attachments, tokens', attachments', n) && SpansWithin(attached, attachments, n)
    requires |attached| <= |attached'| && attached'[..|attached|] == attached
    ensures Spelled(tokens', attached', attachments', n) == Spelled(tokens, attached, attachments, n)
  {
    SpanTextPrefix(attached, attached', attachments[n]);
    if n > 0 {
      SpelledUnfolds(tokens, attached, attachments, n);
      SpelledUnfolds(tokens', attached', attachments', n);
      assert tokens[n - 1].value == tokens'[n - 1].value;
      SpelledPrefix(tokens, attached, attachments, tokens', attached', attachments', n - 1);
    }
  }

  lemma {:induction false} BeforeIsPrefix(attachments: seq<Span>, attachments': seq<Span>, n: nat)
    requires n <= |attachments| && n <= |attachments'| && forall k :: 0 <= k < n ==> attachments[k] == attachments'[k]
    ensures AttachedBefore(attachments', n) == AttachedBefore(attachments, n)
  {
    if n > 0 { BeforeIsPrefix(attachments, attachments', n - 1); }
  }

  lemma {:induction false} BeforeGrows(attachments: seq<Span>, k: nat, n: nat)
    requires k <= n <= |attachments|
    ensures AttachedBefore(attachments, k) <= AttachedBefore(attachments, n)
  {
    if k < n { BeforeGrows(attachments, k, n - 1); }
  }

  /** Spans in place stay within the attached tokens, if empty ones start at 0. */
  lemma PartitionWithin(attached: seq<Token>, attachments: seq<Span>, n: nat)
    requires Partition(attached, attachments) && forall k :: 0 <= k < |attachments| && attachments[k].count == 0 ==> attachments[k].first == 0
    ensures SpansWithin(attached, attachments, n)
  {
    forall k | 0 <= k <= n && k < |attachments|
      ensures attachments[k].first + attachments[k].count <= |attached|
    {
      assert SpanInPlace(attachments, k);
      BeforeGrows(attachments, k + 1, |attachments|);
    }
  }

  /** What the lexer has produced, in the order of the source. */
  datatype Output = Output(tokens: seq<Token>, attached: seq<Token>, attachments: seq<Span>)

  ghost predicate WellFormed(o: Output) {
    && |o.attachments| == |o.tokens| + 1 && Partition(o.attached, o.attachments)
    && forall k :: 0 <= k < |o.attachments| && o.attachments[k].count == 0 ==> o.attachments[k].first == 0
  }

  function Text(o: Output): string
    requires |o.attachments| == |o.tokens| + 1
  {
    Spelled(o.tokens, o.attached, o.attachments, |o.tokens|)
  }

  function WithToken(o: Output, t: Token): Output {
    Output(o.tokens + [t], o.attached, o.attachments + [Span(0, 0)])
  }

  function WithAttached(o: Output, t: Token): Output
    requires o.attachments != []
  {
    var last := o.attachments[|o.attachments| - 1];
    var span := if last.count == 0 then Span(|o.attached|, 1) else last.(count := last.count + 1);
    Output(o.tokens, o.attached + [t], o.attachments[|o.attachments| - 1 := span])
  }

  lemma TokenIsAppended(o: Output, t: Token)
    requires WellFormed(o)
    ensures WellFormed(WithToken(o, t)) && Text(WithToken(o, t)) == Text(o) + t.value
  {
    var o', n := WithToken(o, t), |o.tokens|;
    PartitionWithin(o.attached, o.attachments, n);
    SpelledPrefix(o.tokens, o.attached, o.attachments, o'.tokens, o'.attached, o'.attachments, n);
    forall k | 0 <= k < |o'.attachments|
      ensures SpanInPlace(o'.attachments, k)
    {
      if k < |o.attachments| {
        assert SpanInPlace(o.attachments, k);
        BeforeIsPrefix(o.attachments, o'.attachments, k);
      }
    }
    BeforeIsPrefix(o.attachments, o'.attachments, |o.attachments|);
    assert Text(o) + t.value + "" == Text(o) + t.value;
  }

  lemma LastSpanGrows(o: Output, t: Token)
    requires WellFormed(o)
    ensures var o' := WithAttached(o, t);
            SpanText(o'.attached, o'.attachments[|o.tokens|]) == SpanText(o.attached, o.attachments[|o.tokens|]) + t.value
  {
    var o', n := WithAttached(o, t), |o.tokens|;
    var s := o.attachments[n];
    assert SpanInPlace(o.attachments, n);
    PartitionWithin(o.attached, o.attachments, n);
    if s.count > 0 {
      TextOfPrefix(o.attached, o'.attached, s.first, s.first + s.count);
    } else {
      assert TextOf(o'.attached, |o.attached|, |o.attached|) == "";
      assert TextOf(o'.attached, |o.attached|, |o.attached| + 1) == "" + t.value;
    }
  }

  lemma AttachedKeepsForm(o: Output, t: Token)
    requires WellFormed(o)
    ensures WellFormed(WithAttached(o, t))
  {
    var o', n := WithAttached(o, t), |o.tokens|;
    forall k | 0 <= k < |o'.attachments|
      ensures SpanInPlace(o'.attachments, k)
    {
      assert SpanInPlace(o.attachments, k);
      BeforeIsPrefix(o.attachments, o'.attachments, k);
    }
    BeforeIsPrefix(o.attachments, o'.attachments, n);
  }

  /** What attaching a token leaves as it is. */
  lemma EarlierTextStays(o: Output, t: Token, n: nat)
    requires WellFormed(o) && n < |o.tokens|
    ensures Spelled(o.tokens, o.attached + [t], WithAttached(o, t).attachments, n) == Spelled(o.tokens, o.attached, o.attachments, n)
  {
    PartitionWithin(o.attached, o.attachments, n);
    SpelledPrefix(o.tokens, o.attached, o.attachments, o.tokens, o.attached + [t], WithAttached(o, t).attachments, n);
  }

  lemma JoinIsAssociative<T>(a: seq<T>, b: seq<T>, c: seq<T>)
    ensures a + (b + c) == a + b + c
  {
  }

  lemma AttachedIsAppended(o: Output, t: Token)
    requires WellFormed(o)
    ensures Text(WithAttached(o, t)) == Text(o) + t.value
  {
    var o', n := WithAttached(o, t), |o.tokens|;
    LastSpanGrows(o, t);
    if n > 0 {
      EarlierTextStays(o, t, n - 1);
      SpelledUnfolds(o.tokens, o.attached, o.attachments, n);
      SpelledUnfolds(o'.tokens, o'.attached, o'.attachments, n);
      JoinIsAssociative(Spelled(o.tokens, o.attached, o.attachments, n - 1) + o.tokens[n - 1].value,
                        SpanText(o.attached, o.attachments[n]), t.value);
    }
  }

  /** Marking the end of a line changes no text. */
  lemma MarkKeepsText(o: Output, o': Output)
    requires WellFormed(o) && |o'.tokens| == |o.tokens| && o'.attached == o.attached && o'.attachments == o.attachments
    requires forall k :: 0 <= k < |o.tokens| ==> o'.tokens[k].value == o.tokens[k].value
    ensures WellFormed(o') && Text(o') == Text(o)
  {
    PartitionWithin(o.attached, o.attachments, |o.tokens|);
    SpelledPrefix(o.tokens, o.attached, o.attachments, o'.tokens, o'.attached, o'.attachments, |o.tokens|);
  }

  // ---- The lexer ----

  /** `done` is what has been found of the source up to `p`, and the lists hold it. */
  ghost predicate Keeps(content: string, optionalSemicolons: bool, o: Output, p: nat, done: seq<Token>) {
    && p <= |content| + 1 && WellFormed(o) && Pieces(content, 0) == done + Pieces(content, p)
    && Text(o) == Concat(done) && o.tokens == TokensIn(done, optionalSemicolons) && o.attached == AttachedIn(done)
  }

  lemma StartKeeps(content: string, optionalSemicolons: bool)
    ensures Keeps(content, optionalSemicolons, Output([], [], [Span(0, 0)]), 0, [])
  {
    assert SpanInPlace([Span(0, 0)], 0);
    assert AttachedBefore([Span(0, 0)], 1) == 0;
  }

  lemma AppendedPiece(done: seq<Token>, t: Token, optionalSemicolons: bool)
    ensures Concat(done + [t]) == Concat(done) + t.value
    ensures AttachedIn(done + [t]) == AttachedIn(done) + if IsAttached(t) then [t] else []
    ensures var tokens := TokensIn(done, optionalSemicolons);
            TokensIn(done + [t], optionalSemicolons) ==
            if !IsAttached(t) then tokens + [t] else if optionalSemicolons && EndsLine(t) then MarkLast(tokens) else tokens
  {
    assert (done + [t])[..|done|] == done;
  }

  lemma NextPiece(content: string, done: seq<Token>, p: nat)
    requires p < |content| && StartsPiece(content[p]) && Pieces(content, 0) == done + Pieces(content, p)
    ensures Pieces(content, 0) == done + [PieceAt(content, p)] + Pieces(content, PieceEnd(Padded(content), p))
  {
    JoinIsAssociative(done, [PieceAt(content, p)], Pieces(content, PieceEnd(Padded(content), p)));
  }

  lemma TokenKeeps(content: string, optionalSemicolons: bool, o: Output, p: nat, done: seq<Token>)
    requires Keeps(content, optionalSemicolons, o, p, done) && p < |content| && StartsPiece(content[p])
    requires !IsAttached(PieceAt(content, p))
    ensures var t := PieceAt(content, p);
            Keeps(content, optionalSemicolons, WithToken(o, t), PieceEnd(Padded(content), p), done + [t])
  {
    var t := PieceAt(content, p);
    NextPiece(content, done, p);
    AppendedPiece(done, t, optionalSemicolons);
    TokenIsAppended(o, t);
  }

  function Marked(o: Output): Output {
    o.(tokens := MarkLast(o.tokens))
  }

  lemma AttachedKeeps(content: string, optionalSemicolons: bool, o: Output, p: nat, done: seq<Token>)
    requires Keeps(content, optionalSemicolons, o, p, done) && p < |content| && StartsPiece(content[p])
    requires IsAttached(PieceAt(content, p))
    ensures var t := PieceAt(content, p);
            var o' := if optionalSemicolons && EndsLine(t) then Marked(o) else o;
            o'.attachments != [] && Keeps(content, optionalSemicolons, WithAttached(o', t), PieceEnd(Padded(content), p), done + [t])
  {
    var t := PieceAt(content, p);
    var o' := if optionalSemicolons && EndsLine(t) then Marked(o) else o;
    NextPiece(content, done, p);
    AppendedPiece(done, t, optionalSemicolons);
    MarkKeepsText(o, o');
    AttachedKeepsForm(o', t);
    AttachedIsAppended(o', t);
  }

  /** Where there is nothing more to find, all has been found. */
  lemma AllFound(content: string, optionalSemicolons: bool, o: Output, p: nat, done: seq<Token>)
    requires Keeps(content, optionalSemicolons, o, p, done) && Padded(content)[p] == EOF_CHAR
    ensures done == Pieces(content, 0)
    ensures var o' := if optionalSemicolons then Marked(o) else o;
            WellFormed(o') && Text(o') == Concat(Pieces(content, 0)) && (Text(o') == content <==> Balanced(content, 0, Outside))
    ensures forall t | t in o.tokens || t in o.attached || t in MarkLast(o.tokens) :: FromSource(Padded(content), t)
  {
    assert Pieces(content, p) == [] && done + [] == done;
    MarkKeepsText(o, if optionalSemicolons then Marked(o) else o);
    KeptIffClean(content, 0);
    CleanIffBalanced(content, 0);
    assert content[0..] == content;
    PiecesInOrder(content, 0);
    forall k | 0 <= k < |done|
      ensures FromSource(Padded(content), done[k])
    {
      InOrderFromSource(Padded(content), done, 0, k);
    }
    TokensFromPieces(done, optionalSemicolons, Padded(content));
    MarkFromSource(o.tokens, Padded(content));
  }

  class Lexer {
    const content: string
    const optionalSemicolons: bool
    var position: nat
    var startPosition: nat
    var tokens: seq<Token>
    var attachedTokens: seq<Token>
    var attachments: seq<Span>
    ghost var done: seq<Token>

    constructor (content: string, optionalSemicolons: bool)
      ensures this.content == content && this.optionalSemicolons == optionalSemicolons && AtRest() && position == 0
    {
      this.content, this.optionalSemicolons := content, optionalSemicolons;
      position, startPosition, tokens, attachedTokens, attachments, done := 0, 0, [], [], [Span(0, 0)], [];
      new;
      StartKeeps(content, optionalSemicolons);
    }

    function Buffer(): string {
      Padded(content)
    }

    function Produced(): Output
      reads this
    {
      Output(tokens, attachedTokens, attachments)
    }

    /** Between two tokens. */
    ghost predicate AtRest()
      reads this
    {
      startPosition == position && Keeps(content, optionalSemicolons, Produced(), position, done)
    }

    function Get(): char
      requires position < |content| + 2
      reads this
    {
      Buffer()[position]
    }

    method Consume() returns (c: char)
      requires position < |content| + 2
      modifies this`position
      ensures position == old(position) + 1 && c == Buffer()[old(position)]
    {
      c := Buffer()[position];
      position := position + 1;
    }

    method ReadIf(c: char) returns (read: bool)
      requires position <= |content| && c != EOF_CHAR
      modifies this`position
      ensures read == (Buffer()[old(position)] == c) && position == old(position) + (if read then 1 else 0)
      ensures position <= |content|
    {
      read := Get() == c;
      if read {
        position := position + 1;
      }
    }

    /** The token from `startPosition` up to here. */
    method FinishToken(tokenType: TokenType)
      requires startPosition <= position <= |content| + 2
      modifies this`tokens, this`attachments
      ensures Produced() == WithToken(old(Produced()), Token(tokenType, Buffer()[startPosition..position], startPosition, false))
    {
      tokens := tokens + [Token(tokenType, Buffer()[startPosition..position], startPosition, false)];
      attachments := attachments + [Span(0, 0)];
    }

    method AttachToken(tokenType: TokenType)
      requires startPosition <= position <= |content| + 2 && attachments != []
      modifies this`attachedTokens, this`attachments
      ensures Produced() == WithAttached(old(Produced()), Token(tokenType, Buffer()[startPosition..position], startPosition, false))
    {
      attachedTokens := attachedTokens + [Token(tokenType, Buffer()[startPosition..position], startPosition, false)];
      var last := attachments[|attachments| - 1];
      if last.count == 0 {
        attachments := attachments[|attachments| - 1 := Span(|attachedTokens| - 1, 1)];
      } else {
        attachments := attachments[|attachments| - 1 := last.(count := last.count + 1)];
      }
    }

    method FinishLine()
      modifies this`tokens
      ensures tokens == if optionalSemicolons then MarkLast(old(tokens)) else old(tokens)
    {
      if optionalSemicolons && tokens != [] {
        tokens := tokens[|tokens| - 1 := tokens[|tokens| - 1].(endOfLine := true)];
      }
    }

    /** A piece of the kind that begins at `position`. */
    ghost predicate Starting(kind: TokenType)
      reads this
    {
      AtRest() && position < |content| && StartsPiece(content[position]) && KindOf(content[position]) == kind
    }

    /** The piece that began at `start` has been recorded, up to where it ends. */
    twostate predicate Recorded(start: nat)
      requires start < |content| && StartsPiece(content[start])
      reads this
    {
      AtRest() && position == PieceEnd(Buffer(), start) && done == old(done) + [PieceAt(content, start)]
    }

    method ReadWhitespace()
      requires Starting(Whitespace)
      modifies this
      ensures Recorded(old(position))
    {
      var endOfLine := SkipWhitespace();
      FinishAttached(Whitespace, endOfLine);
    }

    method SkipWhitespace() returns (endOfLine: bool)
      requires position <= |content|
      modifies this`position
      ensures position == RunEnd(Whitespace, Buffer(), old(position))
      ensures endOfLine <==> '\n' in Buffer()[old(position)..position]
    {
      endOfLine := false;
      while IsWhitespaceChar(Get())
        invariant old(position) <= position <= |content|
        invariant RunEnd(Whitespace, Buffer(), old(position)) == RunEnd(Whitespace, Buffer(), position)
        invariant endOfLine <==> '\n' in Buffer()[old(position)..position]
        decreases |content| - position
      {
        if Get() == '\n' {
          endOfLine := true;
        }
        assert Buffer()[old(position)..position + 1] == Buffer()[old(position)..position] + [Get()];
        position := position + 1;
      }
    }

    /** `finish_line`, if a line ends within the piece, and `attach_token`. */
    method FinishAttached(tokenType: TokenType, endOfLine: bool)
      requires startPosition < |content| && StartsPiece(content[startPosition]) && position == PieceEnd(Buffer(), startPosition)
      requires KindOf(content[startPosition]) == tokenType && (tokenType == Whitespace || tokenType == Comment)
      requires endOfLine == EndsLine(PieceAt(content, startPosition))
      requires Keeps(content, optionalSemicolons, Produced(), startPosition, done)
      modifies this
      ensures AtRest() && position == old(position) && done == old(done) + [PieceAt(content, old(startPosition))]
    {
      AttachedKeeps(content, optionalSemicolons, Produced(), startPosition, done);
      if endOfLine {
        FinishLine();
      }
      AttachToken(tokenType);
      done := done + [PieceAt(content, startPosition)];
      startPosition := position;
    }

    method ReadIdentifier()
      requires Starting(Identifier)
      modifies this
      ensures Recorded(old(position))
    {
      while IsLetter(Get()) || IsDigit(Get())
        invariant startPosition == old(position) <= position <= |content|
        invariant RunEnd(Identifier, Buffer(), startPosition) == RunEnd(Identifier, Buffer(), position)
        invariant Produced() == old(Produced()) && done == old(done)
        decreases |content| - position
      {
        position := position + 1;
      }
      FinishPiece(Identifier);
    }

    /** Two dots end a number: they are a range. */
    method ReadNumber()
      requires Starting(Literal)
      modifies this
      ensures Recorded(old(position))
    {
      while IsNumberChar(Get()) && !(Get() == '.' && Buffer()[position + 1] == '.')
        invariant startPosition == old(position) <= position <= |content|
        invariant RunEnd(Literal, Buffer(), startPosition) == RunEnd(Literal, Buffer(), position)
        invariant Produced() == old(Produced()) && done == old(done)
        decreases |content| - position
      {
        position := position + 1;
      }
      FinishPiece(Literal);
    }

    method ReadCharOrString(tokenType: TokenType, terminator: char)
      requires Starting(tokenType) && tokenType in {Character, String} && terminator == Get()
      modifies this
      ensures Recorded(old(position))
    {
      position := position + 1;
      SkipPast(terminator);
      FinishPiece(tokenType);
    }

    method SkipPast(terminator: char)
      requires position <= |content| && terminator != EOF_CHAR
      modifies this`position
      ensures position == LiteralEnd(Buffer(), old(position), terminator)
    {
      var c := Consume();
      while c != EOF_CHAR && c != terminator
        invariant 0 < position <= |content| + 1 && c == Buffer()[position - 1]
        invariant position == |content| + 1 ==> c == EOF_CHAR
        invariant LiteralEnd(Buffer(), old(position), terminator) == LiteralEnd(Buffer(), position - 1, terminator)
        decreases |content| + 1 - position
      {
        if c == '\\' {
          c := Consume();
          if c == EOF_CHAR {
            break;
          }
        }
        c := Consume();
      }
    }

    method ReadComment()
      requires Starting(Comment)
      modifies this
      ensures Recorded(old(position))
    {
      SkipComment();
      FinishAttached(Comment, false);
    }

    method SkipComment()
      requires position <= |content|
      modifies this`position
      ensures position == RunEnd(Comment, Buffer(), old(position))
    {
      while Get() != '\n' && Get() != EOF_CHAR
        invariant old(position) <= position <= |content|
        invariant RunEnd(Comment, Buffer(), old(position)) == RunEnd(Comment, Buffer(), position)
        decreases |content| - position
      {
        position := position + 1;
      }
    }

    /** `finish_token` for the piece that ends here. */
    method FinishPiece(tokenType: TokenType)
      requires startPosition < |content| && StartsPiece(content[startPosition]) && position == PieceEnd(Buffer(), startPosition)
      requires KindOf(content[startPosition]) == tokenType && tokenType != Whitespace && tokenType != Comment
      requires Keeps(content, optionalSemicolons, Produced(), startPosition, done)
      modifies this
      ensures AtRest() && position == old(position) && done == old(done) + [PieceAt(content, old(startPosition))]
    {
      TokenKeeps(content, optionalSemicolons, Produced(), startPosition, done);
      FinishToken(tokenType);
      done := done + [PieceAt(content, startPosition)];
      startPosition := position;
    }

    /** A character that starts nothing is passed over. */
    method ReadPunctuation()
      requires AtRest() && position < |content| && Get() != EOF_CHAR
      requires !StartsPiece(Get()) || KindOf(Get()) == Punctuation
      modifies this
      ensures StartsPiece(Buffer()[old(position)]) ==> Recorded(old(position))
      ensures !StartsPiece(Buffer()[old(position)]) ==> AtRest() && position == old(position) + 1 && done == old(done)
    {
      var c := Consume();
      if !StartsPunctuation(c) {
        startPosition := position;
        return;
      }
      ReadRest(c);
      FinishPiece(Punctuation);
    }

    /** The characters that go on with punctuation beginning with `c`. */
    method ReadRest(c: char)
      requires 0 < position <= |content| && c == Buffer()[position - 1]
      modifies this`position
      ensures position == PunctuationEnd(Buffer(), old(position) - 1)
    {
      var read: bool;
      if c == '-' {
        read := ReadIf('>');
        if !read { read := ReadIf('='); }
      } else if c == '>' || c == '<' {
        read := ReadIf(c);
        read := ReadIf('=');
      } else if c == '.' {
        read := ReadIf('.');
        if read { read := ReadIf('.'); }
      } else if TakesItself(c) {
        read := ReadIf(c);
        if !read { read := ReadIf('='); }
      } else if TakesEquals(c) {
        read := ReadIf('=');
      }
    }

    method ReadToken()
      requires AtRest() && position < |content| && Get() != EOF_CHAR
      modifies this
      ensures StartsPiece(Buffer()[old(position)]) ==> Recorded(old(position))
      ensures !StartsPiece(Buffer()[old(position)]) ==> AtRest() && position == old(position) + 1 && done == old(done)
    {
      var c := Get();
      if IsWhitespaceChar(c) {
        ReadWhitespace();
      } else if IsLetter(c) {
        ReadIdentifier();
      } else if IsDigit(c) {
        ReadNumber();
      } else if c == '\'' {
        ReadCharOrString(Character, '\'');
      } else if c == '\"' {
        ReadCharOrString(String, '\"');
      } else if c == '#' {
        ReadComment();
      } else {
        ReadPunctuation();
      }
    }

    /**
      The lists hold the pieces of the source, in order, and they are all of it exactly if every character is known where it
      stands and no literal is left open. Whatever the source, no place outside the buffer is read.
     */
    method Tokenize() returns (list: Output)
      requires AtRest() && position == 0
      modifies this
      ensures var found := TokensIn(Pieces(content, 0), optionalSemicolons);
              list.tokens == if optionalSemicolons then MarkLast(found) else found
      ensures list.attached == AttachedIn(Pieces(content, 0)) && WellFormed(list)
      ensures Text(list) == Concat(Pieces(content, 0))
      ensures Text(list) == content <==> Balanced(content, 0, Outside)
      ensures forall t | t in list.tokens || t in list.attached :: FromSource(Buffer(), t)
      ensures position < |Buffer()| && Buffer()[position] == EOF_CHAR
      ensures tokens == list.tokens + [Token(Eof, "", position, false), Token(Eof, "", position, false)]
      ensures list.attached == attachedTokens && list.attachments == attachments
    {
      while Get() != EOF_CHAR
        invariant AtRest()
        decreases |content| + 1 - position
      {
        ReadToken();
      }
      AllFound(content, optionalSemicolons, Produced(), position, done);
      FinishLine();
      list := Produced();
      var eof := Token(Eof, "", position, false);
      tokens := tokens + [eof, eof];
    }
  }
}
