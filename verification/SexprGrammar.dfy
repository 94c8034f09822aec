/** What the tokenizer accepts, as a grammar: gaps of blanks and comments, and tokens between them. Every
    text either is made of these or has a first fault, and the tokenizer finds exactly that. */
module SexprGrammar {
  import opened Statuses
  import opened SexprLex

  // ---- The grammar --------------------------------------------------------------------------------

  predicate Blank(c: char) {
    c == ' ' || c == '\t' || c == '\r' || c == '\n'
  }

  predicate WordChar(c: char) {
    '!' <= c <= '~' && c != '"' && c != '(' && c != ')' && c != ';' && c != '\\'
  }

  predicate Word(text: string) {
    text != [] && forall c | c in text :: WordChar(c)
  }

  /** What may stand between the quotes. */
  predicate Body(text: string)
    decreases |text|
  {
    if text == [] then true
    else if text[0] == '\\' then
      |text| > 1 && (text[1] == '"' || text[1] == '\\' || text[1] == 'n' || text[1] == 't' || text[1] == 'r')
      && Body(text[2..])
    else text[0] != '"' && text[0] != '\0' && text[0] != '\n' && text[0] != '\r' && Body(text[1..])
  }

  predicate Spelled(kind: TokenKind, text: string) {
    match kind
    case LParen => text == "("
    case RParen => text == ")"
    case Symbol => Word(text)
    case String => |text| >= 2 && text[0] == '"' && text[|text| - 1] == '"' && Body(text[1..|text| - 1])
  }

  /** The first newline, or the end. */
  function LineOf(text: string): (n: nat)
    ensures n <= |text| && (n < |text| ==> text[n] == '\n')
    ensures forall k | 0 <= k < n :: text[k] != '\n'
  {
    if text == [] || text[0] == '\n' then 0 else 1 + LineOf(text[1..])
  }

  /** Blanks, and comments that reach to the end of their line; the last comment may lack its newline
      only at the end of the text. */
  predicate Gap(text: string, atEnd: bool)
    decreases |text|
  {
    if text == [] then true
    else if Blank(text[0]) then Gap(text[1..], atEnd)
    else text[0] == ';' && if LineOf(text) == |text| then atEnd else Gap(text[LineOf(text)..], atEnd)
  }

  /** A gap, and the token behind it. */
  datatype Piece = Piece(gap: string, kind: TokenKind, text: string)

  function Written(pieces: seq<Piece>, end: string): string {
    if pieces == [] then end else pieces[0].gap + (pieces[0].text + Written(pieces[1..], end))
  }

  /** Gaps and tokens; a symbol is followed by a gap or a parenthesis, or is the last thing. */
  predicate WellSpaced(pieces: seq<Piece>) {
    && (forall k | 0 <= k < |pieces| :: Gap(pieces[k].gap, false) && Spelled(pieces[k].kind, pieces[k].text))
    && forall k | 1 <= k < |pieces| ::
         pieces[k - 1].kind == Symbol && pieces[k].gap == [] ==> pieces[k].kind == LParen || pieces[k].kind == RParen
  }

  /** What goes wrong at the start of `rest`, and how far behind that: no token begins so, a string is not
      closed, ends in the middle of its line or has a bad escape, or a symbol runs into a bad byte. */
  predicate Fault(rest: string, at: nat) {
    rest != [] &&
    if rest[0] == '"' then
      exists n: nat | n < |rest| :: StringFault(rest, n, at)
    else if WordChar(rest[0]) then
      && at < |rest| && (forall k | 0 <= k < at :: WordChar(rest[k]))
      && !WordChar(rest[at]) && !Blank(rest[at]) && rest[at] != '(' && rest[at] != ')' && rest[at] != ';'
    else
      !Blank(rest[0]) && rest[0] != '(' && rest[0] != ')' && rest[0] != ';' && at == 0
  }

  /** n bytes behind the quote are fine. */
  predicate StringFault(rest: string, n: nat, at: nat)
    requires n < |rest|
  {
    && Body(rest[1..1 + n])
    && if n + 1 == |rest| then at == 0
       else
         var c := rest[n + 1];
         && at == n + 1
         && (|| c == '\0' || c == '\n' || c == '\r'
             || (c == '\\' && (n + 2 == |rest|
                               || (var e := rest[n + 2]; e != '"' && e != '\\' && e != 'n' && e != 't' && e != 'r'))))
  }

  // ---- Moving over text ---------------------------------------------------------------------------

  function Move(p: Position, text: string): (q: Position)
    ensures q.offset == p.offset + |text|
  {
    if text == [] then p
    else
      var q := Move(p, text[..|text| - 1]);
      if text[|text| - 1] == '\n' then Position(q.offset + 1, q.line + 1, 1)
      else Position(q.offset + 1, q.line, q.column + 1)
  }

  function TokensOf(p: Position, pieces: seq<Piece>): (tokens: seq<Token>)
    ensures |tokens| == |pieces|
    decreases |pieces|
  {
    if pieces == [] then []
    else
      var q := Move(p, pieces[0].gap);
      [TokenAt(pieces[0].kind, q, q.offset + |pieces[0].text|)] + TokensOf(Move(q, pieces[0].text), pieces[1..])
  }

  function EndOf(p: Position, pieces: seq<Piece>): Position
    decreases |pieces|
  {
    if pieces == [] then p else EndOf(Move(Move(p, pieces[0].gap), pieces[0].text), pieces[1..])
  }

  lemma {:induction false} MoveTwice(p: Position, a: string, b: string)
    ensures Move(p, a + b) == Move(Move(p, a), b)
    decreases |b|
  {
    if b == [] {
      assert a + b == a;
    } else {
      assert (a + b)[..|a + b| - 1] == a + b[..|b| - 1];
      MoveTwice(p, a, b[..|b| - 1]);
    }
  }

  lemma {:induction false} MoveOnLine(p: Position, text: string)
    requires '\n' !in text
    ensures Move(p, text) == Advance(p, p.offset + |text|)
  {
    if text != [] {
      MoveOnLine(p, text[..|text| - 1]);
      assert text[|text| - 1] in text;
    }
  }

  // ---- The tokenizer reads the grammar --------------------------------------------------------------

  lemma {:induction false} LineEndIs(input: string, i: nat, text: string)
    requires TextAt(input, i, text) && (LineOf(text) == |text| ==> i + |text| == |input|)
    ensures LineEnd(input, i) == i + LineOf(text)
    decreases |text|
  {
    if text != [] {
      ByteAt(input, i, text, 0);
      assert text == [text[0]] + text[1..];
      TextParts(input, i, [text[0]], text[1..]);
      if text[0] != '\n' {
        LineEndIs(input, i + 1, text[1..]);
      }
    }
  }

  lemma {:induction false} MoveFirst(p: Position, text: string)
    requires text != []
    ensures Move(p, text) == Move(Move(p, text[..1]), text[1..])
    ensures Move(p, text[..1]) == if text[0] == '\n' then Position(p.offset + 1, p.line + 1, 1) else Advance(p, p.offset + 1)
  {
    MoveTwice(p, text[..1], text[1..]);
    assert text == text[..1] + text[1..];
    assert text[..1][..0] == [];
  }

  lemma {:induction false} BlankSkipped(input: string, p: Position, blank: string)
    requires |blank| == 1 && Blank(blank[0]) && TextAt(input, p.offset, blank)
    ensures Lex(input, p) == Lex(input, Move(p, blank))
  {
    ByteAt(input, p.offset, blank, 0);
    hide StringScan, SymbolScan, LineEnd;
    assert blank[..0] == [];
  }

  lemma {:induction false} CommentLexed(input: string, p: Position)
    requires p.offset < |input| && input[p.offset] == ';'
    ensures Lex(input, p) == Lex(input, Advance(p, LineEnd(input, p.offset + 1)))
  {
    hide StringScan, SymbolScan, LineEnd;
  }

  lemma {:induction false} CommentSkipped(input: string, p: Position, gap: string)
    requires gap != [] && gap[0] == ';' && TextAt(input, p.offset, gap)
    requires LineOf(gap) == |gap| ==> p.offset + |gap| == |input|
    ensures 0 < LineOf(gap) && Lex(input, p) == Lex(input, Move(p, gap[..LineOf(gap)]))
  {
    var first, rest := [gap[0]], gap[1..];
    assert gap == first + rest;
    ByteAt(input, p.offset, gap, 0);
    TextParts(input, p.offset, first, rest);
    LineEndIs(input, p.offset + 1, rest);
    MoveOnLine(p, gap[..LineOf(gap)]);
    CommentLexed(input, p);
    hide Lex, LineEnd, Move, TextAt;
  }

  /** Gaps are skipped. */
  lemma {:induction false} LexGap(input: string, p: Position, gap: string, atEnd: bool)
    requires Gap(gap, atEnd) && TextAt(input, p.offset, gap) && (atEnd ==> p.offset + |gap| == |input|)
    ensures Lex(input, p) == Lex(input, Move(p, gap))
    decreases |gap|, 1
  {
    hide Lex, TextAt;
    if gap == [] {
      assert Move(p, gap) == p;
    } else {
      hide Move;
      if Blank(gap[0]) {
        assert gap == gap[..1] + gap[1..];
        LexGapBehind(input, p, gap[..1], gap[1..], atEnd);
        BlankSkipped(input, p, gap[..1]);
      } else {
        CommentSkipped(input, p, gap);
        var n := LineOf(gap);
        assert gap == gap[..n] + gap[n..];
        if n < |gap| {
          LexGapBehind(input, p, gap[..n], gap[n..], atEnd);
        } else {
          assert gap[..n] == gap;
        }
      }
    }
  }

  lemma {:induction false} LexGapBehind(input: string, p: Position, first: string, rest: string, atEnd: bool)
    requires first != [] && Gap(rest, atEnd) && TextAt(input, p.offset, first + rest)
    requires atEnd ==> p.offset + |first + rest| == |input|
    ensures TextAt(input, p.offset, first) && Lex(input, Move(p, first)) == Lex(input, Move(p, first + rest))
    decreases |first + rest|, 0
  {
    TextParts(input, p.offset, first, rest);
    MoveTwice(p, first, rest);
    LexGap(input, Move(p, first), rest, atEnd);
  }

  lemma ByteAt(input: string, i: nat, text: string, k: nat)
    requires TextAt(input, i, text) && k < |text|
    ensures input[i + k] == text[k]
  {
    assert input[i..i + |text|][k] == text[k];
  }

  lemma {:induction false} BodyScan(input: string, i: nat, body: string, tail: string)
    requires Body(body) && TextAt(input, i, body + tail)
    ensures i + |body| <= |input| && StringScan(input, i) == StringScan(input, i + |body|)
    decreases |body|
  {
    TextParts(input, i, body, tail);
    if body != [] {
      ByteAt(input, i, body, 0);
      var n := if body[0] == '\\' then 2 else 1;
      if n == 2 {
        ByteAt(input, i, body, 1);
      }
      assert body == body[..n] + body[n..] && body + tail == body[..n] + (body[n..] + tail);
      TextParts(input, i, body[..n], body[n..] + tail);
      BodyScan(input, i + n, body[n..], tail);
    }
  }

  lemma {:induction false} ScanOne(input: string, i: nat)
    requires i < |input| && WordChar(input[i])
    ensures SymbolScan(input, i) == SymbolScan(input, i + 1)
  {
  }

  lemma {:induction false} WordScan(input: string, i: nat, word: string)
    requires (forall c | c in word :: WordChar(c)) && TextAt(input, i, word)
    ensures SymbolScan(input, i) == SymbolScan(input, i + |word|)
    decreases |word|
  {
    hide SymbolScan;
    if word != [] {
      ByteAt(input, i, word, 0);
      assert word == word[..1] + word[1..] && word[0] in word;
      TextParts(input, i, word[..1], word[1..]);
      ScanOne(input, i);
      hide SymbolScan, TextAt, WordChar;
      WordScan(input, i + 1, word[1..]);
    }
  }

  /** What may follow a symbol. */
  predicate Delimited(input: string, i: nat) {
    i < |input| ==> Blank(input[i]) || input[i] == '(' || input[i] == ')' || input[i] == ';'
  }

  lemma {:induction false} BodyOnLine(body: string)
    requires Body(body)
    ensures '\n' !in body
    decreases |body|
  {
    if body != [] {
      var n := if body[0] == '\\' then 2 else 1;
      BodyOnLine(body[n..]);
      assert body == body[..n] + body[n..];
    }
  }

  lemma {:induction false} SpelledOnLine(kind: TokenKind, text: string)
    requires Spelled(kind, text)
    ensures '\n' !in text && text != []
  {
    if kind == String {
      BodyOnLine(text[1..|text| - 1]);
      assert text == [text[0]] + text[1..|text| - 1] + [text[|text| - 1]];
    }
  }

  lemma {:induction false} LexSymbol(input: string, p: Position, text: string)
    requires Word(text) && TextAt(input, p.offset, text) && Delimited(input, p.offset + |text|)
    ensures Lex(input, p) == Prepend([TokenAt(Symbol, p, p.offset + |text|)], Lex(input, Advance(p, p.offset + |text|)))
  {
    SymbolClosed(input, p.offset, text);
    ByteAt(input, p.offset, text, 0);
    assert text[0] in text;
    hide TextAt, Lex, SymbolScan;
    LexToken(input, p, Symbol, p.offset + |text|);
  }

  lemma {:induction false} SymbolClosed(input: string, i: nat, text: string)
    requires Word(text) && TextAt(input, i, text) && Delimited(input, i + |text|)
    ensures SymbolScan(input, i + 1) == Done(i + |text|)
  {
    assert text == text[..1] + text[1..];
    TextParts(input, i, text[..1], text[1..]);
    WordScan(input, i + 1, text[1..]);
    assert SymbolScan(input, i + |text|) == Done(i + |text|);
  }

  lemma {:induction false} LexString(input: string, p: Position, text: string)
    requires Spelled(String, text) && TextAt(input, p.offset, text)
    ensures Lex(input, p) == Prepend([TokenAt(String, p, p.offset + |text|)], Lex(input, Advance(p, p.offset + |text|)))
  {
    StringClosed(input, p.offset, text);
    ByteAt(input, p.offset, text, 0);
    hide Spelled, TextAt, Lex, StringScan;
    LexToken(input, p, String, p.offset + |text|);
  }

  lemma {:induction false} StringClosed(input: string, i: nat, text: string)
    requires Spelled(String, text) && TextAt(input, i, text)
    ensures StringScan(input, i + 1) == Done(i + |text|)
  {
    var n := |text|;
    InsideQuote(input, i, text, text[1..n - 1], text[n - 1..]);
    hide Body, TextAt;
    assert input[i + (n - 1) + 0] == text[n - 1..][0] == '"';
  }

  lemma {:induction false} LexParen(input: string, p: Position, kind: TokenKind, text: string)
    requires kind == LParen || kind == RParen
    requires Spelled(kind, text) && TextAt(input, p.offset, text)
    ensures Lex(input, p) == Prepend([TokenAt(kind, p, p.offset + 1)], Lex(input, Advance(p, p.offset + 1)))
  {
    ByteAt(input, p.offset, text, 0);
    hide Lex;
    LexToken(input, p, kind, p.offset + 1);
  }

  /** A token is read. */
  lemma {:induction false} LexSpelled(input: string, p: Position, kind: TokenKind, text: string)
    requires Spelled(kind, text) && TextAt(input, p.offset, text)
    requires kind == Symbol ==> Delimited(input, p.offset + |text|)
    ensures Lex(input, p) == Prepend([TokenAt(kind, p, p.offset + |text|)], Lex(input, Move(p, text)))
  {
    SpelledOnLine(kind, text);
    MoveOnLine(p, text);
    hide Lex, Move, Prepend;
    match kind
    case Symbol => LexSymbol(input, p, text);
    case String => LexString(input, p, text);
    case _ => LexParen(input, p, kind, text);
  }

  /** Nothing, or something that a symbol ends at. */
  predicate Ends(text: string) {
    text != [] ==> Blank(text[0]) || text[0] == '(' || text[0] == ')' || text[0] == ';'
  }

  predicate LastEnds(pieces: seq<Piece>, end: string) {
    pieces != [] && pieces[|pieces| - 1].kind == Symbol ==> Ends(end)
  }

  lemma {:induction false} FollowerEnds(pieces: seq<Piece>, end: string)
    requires WellSpaced(pieces) && pieces != [] && pieces[0].kind == Symbol && LastEnds(pieces, end)
    ensures Ends(Written(pieces[1..], end))
  {
    if |pieces| > 1 {
      var next := pieces[1];
      assert pieces[1..][0] == next && Gap(next.gap, false) && Spelled(next.kind, next.text);
      assert Written(pieces[1..], end) == next.gap + (next.text + Written(pieces[1..][1..], end));
      if next.gap == [] {
        assert pieces[1 - 1].kind == Symbol;
      }
    }
  }

  lemma TailSpaced(pieces: seq<Piece>, end: string)
    requires WellSpaced(pieces) && pieces != [] && LastEnds(pieces, end)
    ensures WellSpaced(pieces[1..]) && LastEnds(pieces[1..], end)
  {
    hide Gap, Spelled;
    var rest := pieces[1..];
    assert forall k | 0 <= k < |rest| :: rest[k] == pieces[k + 1];
  }

  lemma {:induction false} PrependMore(a: seq<Token>, b: seq<Token>, rest: Lexed)
    ensures Prepend(a, Prepend(b, rest)) == Prepend(a + b, rest)
  {
    assert a + (b + rest.tokens) == a + b + rest.tokens;
  }

  lemma {:induction false} PiecePlaces(input: string, i: nat, piece: Piece, rest: string)
    requires TextAt(input, i, piece.gap + (piece.text + rest)) && i + |piece.gap + (piece.text + rest)| == |input|
    ensures var j := i + |piece.gap|; var k := j + |piece.text|;
            && TextAt(input, i, piece.gap) && TextAt(input, j, piece.text) && TextAt(input, k, rest)
            && k + |rest| == |input| && (Ends(rest) ==> Delimited(input, k))
  {
    TextParts(input, i, piece.gap, piece.text + rest);
    TextParts(input, i + |piece.gap|, piece.text, rest);
    if rest != [] {
      ByteAt(input, i + |piece.gap| + |piece.text|, rest, 0);
    }
    hide TextAt;
  }

  /** The input ends with this text, which begins at i. */
  predicate Rest(input: string, i: nat, text: string) {
    TextAt(input, i, text) && i + |text| == |input|
  }

  /** Reading on from p gives the tokens and then goes on at q, in front of the text. */
  predicate Leads(input: string, p: Position, tokens: seq<Token>, q: Position, text: string) {
    && p.offset <= |input| && Rest(input, q.offset, text) && Lex(input, p) == Prepend(tokens, Lex(input, q))
  }

  lemma {:induction false} LeadsOn(input: string, p: Position, a: seq<Token>, q: Position, middle: string,
                                   b: seq<Token>, r: Position, text: string)
    requires Leads(input, p, a, q, middle) && Leads(input, q, b, r, text)
    ensures Leads(input, p, a + b, r, text)
  {
    PrependMore(a, b, Lex(input, r));
    hide Lex, Prepend, TextAt;
  }

  /** The first piece is read, and the rest goes on behind it. */
  lemma {:induction false} LexPiece(input: string, p: Position, piece: Piece, rest: string)
    requires Gap(piece.gap, false) && Spelled(piece.kind, piece.text) && (piece.kind == Symbol ==> Ends(rest))
    requires Rest(input, p.offset, piece.gap + (piece.text + rest))
    ensures var q := Move(p, piece.gap);
            && Leads(input, p, [TokenAt(piece.kind, q, q.offset + |piece.text|)], Move(q, piece.text), rest)
            && Rest(input, Move(q, piece.text).offset, rest)
  {
    hide Lex, Move, Gap, Spelled, TextAt, Delimited, Ends;
    PiecePlaces(input, p.offset, piece, rest);
    var q := Move(p, piece.gap);
    LexGap(input, p, piece.gap, false);
    LexSpelled(input, q, piece.kind, piece.text);
  }

  lemma FirstPiece(p: Position, pieces: seq<Piece>, end: string)
    requires pieces != []
    ensures var piece := pieces[0];
            && Written(pieces, end) == piece.gap + (piece.text + Written(pieces[1..], end))
            && var q := Move(p, piece.gap);
               && TokensOf(p, pieces)
                  == [TokenAt(piece.kind, q, q.offset + |piece.text|)] + TokensOf(Move(q, piece.text), pieces[1..])
               && EndOf(p, pieces) == EndOf(Move(q, piece.text), pieces[1..])
  {
    hide Move;
  }

  lemma {:induction false} LexPieces(input: string, p: Position, pieces: seq<Piece>, end: string)
    requires WellSpaced(pieces) && LastEnds(pieces, end) && Rest(input, p.offset, Written(pieces, end))
    ensures Leads(input, p, TokensOf(p, pieces), EndOf(p, pieces), end)
    decreases |pieces|
  {
    hide Lex, Move, TextAt, Prepend;
    if pieces == [] {
      LexBegins(Lex(input, p));
    } else {
      var piece, rest := pieces[0], Written(pieces[1..], end);
      TailSpaced(pieces, end);
      if piece.kind == Symbol {
        FollowerEnds(pieces, end);
      }
      assert Gap(piece.gap, false) && Spelled(piece.kind, piece.text);
      FirstPiece(p, pieces, end);
      hide *;
      var q := Move(p, piece.gap);
      var token, after := TokenAt(piece.kind, q, q.offset + |piece.text|), Move(q, piece.text);
      LexPiece(input, p, piece, rest);
      LexPieces(input, after, pieces[1..], end);
      LeadsOn(input, p, [token], after, rest, TokensOf(after, pieces[1..]), EndOf(after, pieces[1..]), end);
    }
  }

  /** What is found in the rest of a text: its tokens, each in its place, up to the first fault. */
  lemma {:induction false} PartsAreRead(input: string, p: Position, text: string, parts: Parts)
    requires PartsOf(text, parts) && TextAt(input, p.offset, text) && p.offset + |text| == |input|
    ensures Lex(input, p) == Lexed(TokensOf(p, parts.pieces), ErrorOf(p, parts))
  {
    hide TokensOf, EndOf, Written, WellSpaced, Gap, Move, Lex, Fault, TextAt, Prepend, LastEnds, ErrorOf;
    LexPieces(input, p, parts.pieces, parts.gap + parts.rest);
    LexEnd(input, p, parts);
    PrependNothing(TokensOf(p, parts.pieces), ErrorOf(p, parts));
  }

  lemma {:induction false} LexEnd(input: string, p: Position, parts: Parts)
    requires if parts.rest == [] then Gap(parts.gap, true) else Gap(parts.gap, false) && Fault(parts.rest, parts.at)
    requires var end := EndOf(p, parts.pieces);
             TextAt(input, end.offset, parts.gap + parts.rest) && end.offset + |parts.gap + parts.rest| == |input|
    ensures Lex(input, EndOf(p, parts.pieces)) == Lexed([], ErrorOf(p, parts))
  {
    hide EndOf, Gap, Move, Lex, Fault, TextAt;
    if parts.rest == [] {
      assert parts.gap + parts.rest == parts.gap;
      LexLastGap(input, EndOf(p, parts.pieces), parts.gap);
    } else {
      LexGapAndFault(input, EndOf(p, parts.pieces), parts.gap, parts.rest, parts.at);
    }
  }

  function ErrorOf(p: Position, parts: Parts): Option<Position> {
    if parts.rest == [] then None
    else
      var q := Move(EndOf(p, parts.pieces), parts.gap);
      Some(Advance(q, q.offset + parts.at))
  }

  lemma {:induction false} LexLastGap(input: string, p: Position, gap: string)
    requires Gap(gap, true) && TextAt(input, p.offset, gap) && p.offset + |gap| == |input|
    ensures Lex(input, p) == Lexed([], None)
  {
    LexGap(input, p, gap, true);
    hide Gap, Move, TextAt;
  }

  lemma GapEnds(gap: string, atEnd: bool)
    requires Gap(gap, atEnd)
    ensures Ends(gap)
  {
  }

  /** A text made of gaps and tokens is read as just these, each in its place. */
  lemma {:induction false} WellSpacedIsRead(pieces: seq<Piece>, end: string)
    requires WellSpaced(pieces) && Gap(end, true)
    ensures Lex(Written(pieces, end), START) == Lexed(TokensOf(START, pieces), None)
  {
    var input := Written(pieces, end);
    GapEnds(end, true);
    hide Lex, TokensOf, Written, Gap, WellSpaced;
    assert input[0..|input|] == input && end + [] == end;
    PartsAreRead(input, START, input, Parts(pieces, end, [], 0));
  }

  lemma PrependNothing(tokens: seq<Token>, error: Option<Position>)
    ensures Prepend(tokens, Lexed([], error)) == Lexed(tokens, error)
  {
  }

  lemma {:induction false} LexGapAndFault(input: string, p: Position, gap: string, rest: string, at: nat)
    requires Gap(gap, false) && Fault(rest, at) && TextAt(input, p.offset, gap + rest) && p.offset + |gap + rest| == |input|
    ensures var q := Move(p, gap); Lex(input, p) == Lexed([], Some(Advance(q, q.offset + at)))
  {
    TextParts(input, p.offset, gap, rest);
    hide Lex, Gap, Fault, TextAt, Move;
    LexGap(input, p, gap, false);
    LexFault(input, Move(p, gap), rest, at);
  }

  lemma {:induction false} LexFault(input: string, p: Position, rest: string, at: nat)
    requires Fault(rest, at) && TextAt(input, p.offset, rest) && p.offset + |rest| == |input|
    ensures Lex(input, p) == Fail(Advance(p, p.offset + at))
  {
    ByteAt(input, p.offset, rest, 0);
    hide LineEnd, Prepend;
    if rest[0] == '"' {
      LexStringFault(input, p, rest, at);
    } else if WordChar(rest[0]) {
      SymbolFaultScan(input, p.offset, rest, at);
      hide StringScan, SymbolScan, TextAt;
    } else {
      hide StringScan, SymbolScan;
    }
  }

  lemma {:induction false} SymbolFaultScan(input: string, i: nat, rest: string, at: nat)
    requires Fault(rest, at) && WordChar(rest[0]) && TextAt(input, i, rest)
    ensures at > 0 && SymbolScan(input, i + 1) == Bad(i + at)
  {
    assert at > 0;
    var word := rest[1..at];
    ByteAt(input, i, rest, at);
    assert rest == [rest[0]] + (word + rest[at..]);
    TextParts(input, i, [rest[0]], word + rest[at..]);
    TextParts(input, i + 1, word, rest[at..]);
    hide TextAt;
    WordScan(input, i + 1, word);
  }

  lemma {:induction false} LexStringFault(input: string, p: Position, rest: string, at: nat)
    requires Fault(rest, at) && rest[0] == '"' && TextAt(input, p.offset, rest) && p.offset + |rest| == |input|
    ensures Lex(input, p) == Fail(Advance(p, p.offset + at))
  {
    var n: nat :| n < |rest| && StringFault(rest, n, at);
    ByteAt(input, p.offset, rest, 0);
    StringFaultScan(input, p.offset, rest, n, at);
    hide LineEnd, Prepend, SymbolScan, Body, StringScan, TextAt;
  }

  lemma {:induction false} StringFaultScan(input: string, i: nat, rest: string, n: nat, at: nat)
    requires n < |rest| && StringFault(rest, n, at) && TextAt(input, i, rest) && i + |rest| == |input|
    ensures StringScan(input, i + 1) == if n + 1 == |rest| then Open else Bad(i + n + 1)
  {
    var body, tail := rest[1..1 + n], rest[1 + n..];
    InsideQuote(input, i, rest, body, tail);
    hide Body, TextAt;
    assert tail != [] ==> tail[0] == rest[n + 1];
    assert |tail| > 1 ==> tail[1] == rest[n + 2];
  }

  /** Behind the quote and the body the scan is at the tail. */
  lemma {:induction false} InsideQuote(input: string, i: nat, rest: string, body: string, tail: string)
    requires TextAt(input, i, rest) && rest != [] && rest[1..] == body + tail && Body(body)
    ensures var j := i + 1 + |body|; j <= |input| && StringScan(input, i + 1) == StringScan(input, j)
    ensures var j := i + 1 + |body|; j + |tail| <= |input| && forall k | 0 <= k < |tail| :: input[j + k] == tail[k]
  {
    assert rest == rest[..1] + (body + tail);
    TextParts(input, i, rest[..1], body + tail);
    BodyScan(input, i + 1, body, tail);
    TextParts(input, i + 1, body, tail);
    hide Body, StringScan;
    forall k | 0 <= k < |tail|
      ensures input[i + 1 + |body| + k] == tail[k]
    {
      ByteAt(input, i + 1 + |body|, tail, k);
    }
  }

  // ---- Every text is one or the other -----------------------------------------------------------------

  /** A text taken apart: gaps and tokens to its end, or up to a fault. */
  datatype Parts = Parts(pieces: seq<Piece>, gap: string, rest: string, at: nat)

  predicate PartsOf(text: string, parts: Parts) {
    && WellSpaced(parts.pieces) && LastEnds(parts.pieces, parts.gap + parts.rest)
    && text == Written(parts.pieces, parts.gap + parts.rest)
    && if parts.rest == [] then Gap(parts.gap, true) else Gap(parts.gap, false) && Fault(parts.rest, parts.at)
  }

  /** How far a string body goes. */
  lemma {:induction false} LongestBody(text: string) returns (n: nat)
    ensures n <= |text| && Body(text[..n])
    ensures n < |text| ==>
      || text[n] == '"' || text[n] == '\0' || text[n] == '\n' || text[n] == '\r'
      || (text[n] == '\\' && (n + 1 == |text| || (var e := text[n + 1]; e != '"' && e != '\\' && e != 'n' && e != 't' && e != 'r')))
    decreases |text|
  {
    n := 0;
    if text != [] && text[0] == '\\' {
      if |text| > 1 && Escapes(text[1]) {
        n := LongestBody(text[2..]);
        assert text[..n + 2][2..] == text[2..][..n] && text[..n + 2][1] == text[1];
        n := n + 2;
      }
    } else if text != [] && Plain(text[0]) {
      n := LongestBody(text[1..]);
      assert text[..n + 1][1..] == text[1..][..n];
      n := n + 1;
    }
    if n == 0 {
      assert text[..n] == [];
    }
  }

  predicate Escapes(c: char) {
    c == '"' || c == '\\' || c == 'n' || c == 't' || c == 'r'
  }

  predicate Plain(c: char) {
    c != '"' && c != '\\' && c != '\0' && c != '\n' && c != '\r'
  }

  lemma {:induction false} LongestWord(text: string) returns (n: nat)
    ensures n <= |text| && (forall k | 0 <= k < n :: WordChar(text[k])) && (n < |text| ==> !WordChar(text[n]))
    decreases |text|
  {
    n := 0;
    if text != [] && WordChar(text[0]) {
      n := LongestWord(text[1..]);
      assert forall k | 1 <= k < n + 1 :: text[k] == text[1..][k - 1];
      n := n + 1;
    }
  }

  /** A blank, or a comment without its newline. */
  predicate Skipped(first: string) {
    first != [] && if first[0] == ';' then '\n' !in first else |first| == 1 && Blank(first[0])
  }

  lemma {:induction false} LineBehind(first: string, rest: string)
    requires '\n' !in first
    ensures LineOf(first + rest) == |first| + LineOf(rest)
  {
    if first == [] {
      assert first + rest == rest;
    } else {
      assert (first + rest)[1..] == first[1..] + rest && first[0] in first;
      LineBehind(first[1..], rest);
    }
  }

  lemma {:induction false} GapMore(first: string, gap: string, atEnd: bool)
    requires Skipped(first) && Gap(gap, atEnd) && (first[0] == ';' ==> gap != [] && gap[0] == '\n')
    ensures Gap(first + gap, atEnd)
  {
    if first[0] == ';' {
      LineBehind(first, gap);
      assert (first + gap)[|first|..] == gap;
    } else {
      assert (first + gap)[1..] == gap;
    }
  }

  lemma FirstByte(piece: Piece, rest: string)
    requires '\n' !in piece.text && piece.text != []
    ensures var text := piece.gap + (piece.text + rest);
            text[0] == '\n' ==> piece.gap != [] && piece.gap[0] == '\n'
  {
    assert piece.text[0] in piece.text;
  }

  /** Where the text begins with a newline, so does its first gap. */
  lemma {:induction false} NewlineInGap(text: string, parts: Parts)
    requires PartsOf(text, parts) && text != [] && text[0] == '\n'
    ensures var gap := if parts.pieces == [] then parts.gap else parts.pieces[0].gap;
            gap != [] && gap[0] == '\n'
  {
    if parts.pieces != [] {
      var piece := parts.pieces[0];
      SpelledOnLine(piece.kind, piece.text);
      FirstByte(piece, Written(parts.pieces[1..], parts.gap + parts.rest));
    }
  }

  /** A blank or a comment in front. */
  lemma {:induction false} GapInFront(first: string, text: string, parts: Parts) returns (all: Parts)
    requires PartsOf(text, parts) && Skipped(first) && (first[0] == ';' ==> text != [] && text[0] == '\n')
    ensures PartsOf(first + text, all)
  {
    if first[0] == ';' {
      NewlineInGap(text, parts);
    }
    var end := parts.gap + parts.rest;
    if parts.pieces == [] {
      GapMore(first, parts.gap, parts.rest == []);
      all := parts.(gap := first + parts.gap);
      assert first + parts.gap + parts.rest == first + end;
    } else {
      var piece := parts.pieces[0];
      GapMore(first, piece.gap, false);
      var more := piece.(gap := first + piece.gap);
      all := parts.(pieces := [more] + parts.pieces[1..]);
      hide Gap, Spelled, Fault, Ends;
      SpacedWithGap(parts.pieces, more, end);
      WrittenWithGap(first, parts.pieces, more, end);
    }
  }

  lemma {:induction false} SpacedWithGap(pieces: seq<Piece>, more: Piece, end: string)
    requires WellSpaced(pieces) && LastEnds(pieces, end) && pieces != []
    requires Gap(more.gap, false) && more.kind == pieces[0].kind && more.text == pieces[0].text
    ensures WellSpaced([more] + pieces[1..]) && LastEnds([more] + pieces[1..], end)
  {
    hide Gap, Spelled, Ends;
    var all := [more] + pieces[1..];
    assert forall k | 1 <= k < |all| :: all[k] == pieces[k];
    assert Spelled(pieces[0].kind, pieces[0].text);
  }

  lemma {:induction false} WrittenWithGap(first: string, pieces: seq<Piece>, more: Piece, end: string)
    requires pieces != [] && more == pieces[0].(gap := first + pieces[0].gap)
    ensures Written([more] + pieces[1..], end) == first + Written(pieces, end)
  {
    var all, rest := [more] + pieces[1..], Written(pieces[1..], end);
    assert all[1..] == pieces[1..];
    assert first + pieces[0].gap + (more.text + rest) == first + (pieces[0].gap + (more.text + rest));
  }

  /** A token in front. */
  lemma {:induction false} TokenInFront(kind: TokenKind, token: string, text: string, parts: Parts) returns (all: Parts)
    requires PartsOf(text, parts) && Spelled(kind, token) && (kind == Symbol ==> Ends(text))
    ensures PartsOf(token + text, all)
  {
    var piece, end := Piece([], kind, token), parts.gap + parts.rest;
    all := parts.(pieces := [piece] + parts.pieces);
    if kind == Symbol && parts.pieces != [] && parts.pieces[0].gap == [] {
      var next := parts.pieces[0];
      SpelledOnLine(next.kind, next.text);
      assert Spelled(next.kind, next.text);
      assert text == next.gap + (next.text + Written(parts.pieces[1..], end));
      assert text[0] == next.text[0];
      StartsLikeParen(next.kind, next.text);
    }
    SpacedInFront(piece, parts.pieces, text, end);
    assert all.pieces[1..] == parts.pieces;
    assert Written(all.pieces, end) == [] + (token + text);
  }

  lemma StartsLikeParen(kind: TokenKind, text: string)
    requires Spelled(kind, text) && text != [] && Ends(text)
    ensures kind == LParen || kind == RParen
  {
    assert text[0] in text;
  }

  lemma {:induction false} SpacedInFront(piece: Piece, pieces: seq<Piece>, text: string, end: string)
    requires WellSpaced(pieces) && LastEnds(pieces, end) && piece.gap == [] && Spelled(piece.kind, piece.text)
    requires piece.kind == Symbol ==> if pieces == [] then Ends(end)
                                      else pieces[0].gap != [] || pieces[0].kind == LParen || pieces[0].kind == RParen
    ensures WellSpaced([piece] + pieces) && LastEnds([piece] + pieces, end)
  {
    assert Gap(piece.gap, false);
    hide Gap, Spelled, Ends;
    var all := [piece] + pieces;
    assert forall k | 1 <= k < |all| :: all[k] == pieces[k - 1];
  }

  /** Every text can be taken apart. */
  lemma {:induction false} EveryText(text: string) returns (parts: Parts)
    ensures PartsOf(text, parts)
    decreases |text|
  {
    hide Body, PartsOf;
    if text == [] {
      NoText();
      return Parts([], [], [], 0);
    }
    var c := text[0];
    if Blank(c) {
      var rest := EveryText(text[1..]);
      parts := GapInFront(text[..1], text[1..], rest);
      assert text == text[..1] + text[1..];
    } else if c == ';' {
      parts := CommentApart(text);
    } else if c == '(' || c == ')' {
      var rest := EveryText(text[1..]);
      parts := TokenInFront(if c == '(' then LParen else RParen, text[..1], text[1..], rest);
      assert text == text[..1] + text[1..];
    } else if c == '"' {
      parts := StringApart(text);
    } else if WordChar(c) {
      parts := WordApart(text);
    } else {
      FaultAlone(text, 0);
      parts := Parts([], [], text, 0);
    }
  }

  lemma NoText()
    ensures PartsOf([], Parts([], [], [], 0))
  {
  }

  lemma FaultAlone(text: string, at: nat)
    requires Fault(text, at)
    ensures PartsOf(text, Parts([], [], text, at))
  {
    hide Fault;
    assert [] + text == text;
  }

  lemma {:induction false} CommentApart(text: string) returns (parts: Parts)
    requires text != [] && text[0] == ';'
    ensures PartsOf(text, parts)
    decreases |text|, 0
  {
    var n := LineOf(text);
    if n == |text| {
      parts := Parts([], text, [], 0);
      assert text + [] == text;
    } else {
      assert n > 0;
      hide PartsOf;
      var rest := EveryText(text[n..]);
      parts := GapInFront(text[..n], text[n..], rest);
      assert text == text[..n] + text[n..];
    }
  }

  lemma {:induction false} StringApart(text: string) returns (parts: Parts)
    requires text != [] && text[0] == '"'
    ensures PartsOf(text, parts)
    decreases |text|, 0
  {
    var n := LongestBody(text[1..]);
    assert text[1..1 + n] == text[1..][..n];
    if n + 1 < |text| && text[n + 1] == '"' {
      var token := text[..n + 2];
      assert token[1..|token| - 1] == text[1..1 + n];
      hide PartsOf;
      var rest := EveryText(text[n + 2..]);
      parts := TokenInFront(String, token, text[n + 2..], rest);
      assert text == token + text[n + 2..];
    } else {
      var at := if n + 1 == |text| then 0 else n + 1;
      assert n + 1 < |text| ==> text[n + 1] == text[1..][n];
      assert n + 2 < |text| ==> text[n + 2] == text[1..][n + 1];
      assert StringFault(text, n, at);
      FaultAlone(text, at);
      parts := Parts([], [], text, at);
    }
  }

  lemma {:induction false} WordApart(text: string) returns (parts: Parts)
    requires text != [] && WordChar(text[0])
    ensures PartsOf(text, parts)
    decreases |text|, 0
  {
    var n := LongestWord(text);
    assert n > 0;
    if Ends(text[n..]) {
      hide PartsOf;
      var rest := EveryText(text[n..]);
      parts := TokenInFront(Symbol, text[..n], text[n..], rest);
      assert text == text[..n] + text[n..];
    } else {
      FaultAlone(text, n);
      parts := Parts([], [], text, n);
    }
  }

  /** What the tokenizer finds in any text. */
  lemma {:induction false} EveryTextIsRead(text: string) returns (parts: Parts)
    ensures PartsOf(text, parts) && Lex(text, START) == Lexed(TokensOf(START, parts.pieces), ErrorOf(START, parts))
  {
    parts := EveryText(text);
    hide Lex, TokensOf, ErrorOf, PartsOf;
    assert text[0..|text|] == text;
    PartsAreRead(text, START, text, parts);
  }

  // ---- Comments -----------------------------------------------------------------------------------------

  lemma {:induction false} CommentIsGap(comment: string)
    requires '\n' !in comment
    ensures Gap([';'] + comment + ['\n'], false)
  {
    var a, first := [';'] + comment + ['\n'], [';'] + comment;
    LineBehind(first, ['\n']);
    assert a == first + ['\n'] && a[|first|..] == ['\n'] && ['\n'][1..] == [];
    assert Gap(['\n'], false);
  }

  lemma {:induction false} ReadBehindGap(gap: string, rest: string, parts: Parts)
    requires Gap(gap, false) && PartsOf(rest, parts)
    ensures var q := Move(START, gap);
            Lex(gap + rest, START) == Lexed(TokensOf(q, parts.pieces), ErrorOf(q, parts))
  {
    hide Lex, Gap, PartsOf, TokensOf, ErrorOf;
    var input := gap + rest;
    assert input[0..|input|] == input;
    TextParts(input, 0, gap, rest);
    LexGap(input, START, gap, false);
    PartsAreRead(input, Move(START, gap), rest, parts);
  }

  /** A comment is as good as blanks: the tokens behind it, their positions, and the error, if there is one,
      are the same. */
  lemma {:induction false} CommentIsBlank(comment: string, blanks: string, rest: string)
    requires '\n' !in comment && |blanks| == 1 + |comment| && forall c | c in blanks :: c == ' '
    ensures Lex([';'] + comment + ['\n'] + rest, START) == Lex(blanks + ['\n'] + rest, START)
  {
    var a, b := [';'] + comment + ['\n'], blanks + ['\n'];
    CommentIsGap(comment);
    BlanksAreGap(b);
    SameMove(a, b);
    var parts := EveryText(rest);
    hide *;
    ReadBehindGap(a, rest, parts);
    ReadBehindGap(b, rest, parts);
  }

  lemma {:induction false} BlanksAreGap(blanks: string)
    requires forall c | c in blanks :: Blank(c)
    ensures Gap(blanks, false)
  {
    if blanks != [] {
      assert blanks[0] in blanks;
      BlanksAreGap(blanks[1..]);
    }
  }

  lemma {:induction false} SameMove(a: string, b: string)
    requires |a| == |b| > 0 && a[|a| - 1] == b[|b| - 1] == '\n' && '\n' !in a[..|a| - 1] && '\n' !in b[..|b| - 1]
    ensures Move(START, a) == Move(START, b)
  {
    MoveOnLine(START, a[..|a| - 1]);
    MoveOnLine(START, b[..|b| - 1]);
  }
}
