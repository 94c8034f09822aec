/** The s-expression tokenizer of src/dsl/sexpr.c. A char stands for one byte. */
module SexprLex {
  import opened Statuses

  datatype Span = Span(offset: nat, length: nat) {
    predicate In(input: string) {
      offset + length <= |input|
    }

    function Text(input: string): string
      requires In(input)
    {
      input[offset..offset + length]
    }
  }

  datatype TokenKind = LParen | RParen | Symbol | String

  datatype Token = Token(kind: TokenKind, span: Span, line: nat, column: nat)

  datatype Position = Position(offset: nat, line: nat, column: nat)

  predicate IsSpace(c: char) {
    c == ' ' || c == '\t' || c == '\n' || c == '\r'
  }

  predicate IsDelimiter(c: char) {
    IsSpace(c) || c == '(' || c == ')' || c == ';'
  }

  predicate IsSymbolChar(c: char) {
    33 as char <= c <= 126 as char && c != '"' && c != '(' && c != ')' && c != ';' && c != '\\'
  }

  predicate IsEscapable(c: char) {
    c == '"' || c == '\\' || c == 'n' || c == 't' || c == 'r'
  }

  // ---- What the tokenizer computes -----------------------------------------------

  /** The index of the first newline at or after i, or the end of the input. */
  function LineEnd(input: string, i: nat): (end: nat)
    requires i <= |input|
    ensures i <= end <= |input|
    ensures forall k :: i <= k < end ==> input[k] != '\n'
    ensures end < |input| ==> input[end] == '\n'
    decreases |input| - i
  {
    if i < |input| && input[i] != '\n' then LineEnd(input, i + 1) else i
  }

  /** Where a scan stopped: just past what it accepted, at an offending byte, or at the end of the input. */
  datatype Scan = Done(end: nat) | Bad(at: nat) | Open

  /** Scan the rest of a string whose opening quote lies before i. */
  function StringScan(input: string, i: nat): (s: Scan)
    requires i <= |input|
    ensures s.Done? ==> i < s.end <= |input| && forall k :: i <= k < s.end ==> input[k] != '\n'
    ensures s.Bad? ==> i <= s.at < |input| && forall k :: i <= k < s.at ==> input[k] != '\n'
    decreases |input| - i
  {
    if i == |input| then Open
    else if input[i] == '\0' || input[i] == '\n' || input[i] == '\r' then Bad(i)
    else if input[i] == '\\' then
      if i + 1 >= |input| || !IsEscapable(input[i + 1]) then Bad(i) else StringScan(input, i + 2)
    else if input[i] == '"' then Done(i + 1)
    else StringScan(input, i + 1)
  }

  function SymbolScan(input: string, i: nat): (s: Scan)
    requires i <= |input|
    ensures s.Done? ==> i <= s.end <= |input| && (forall k :: i <= k < s.end ==> IsSymbolChar(input[k]))
                        && (s.end < |input| ==> IsDelimiter(input[s.end]))
    ensures s.Bad? ==> i <= s.at < |input| && (forall k :: i <= k < s.at ==> IsSymbolChar(input[k]))
                       && !IsDelimiter(input[s.at]) && !IsSymbolChar(input[s.at])
    ensures !s.Open?
    decreases |input| - i
  {
    if i == |input| || IsDelimiter(input[i]) then Done(i)
    else if !IsSymbolChar(input[i]) then Bad(i)
    else SymbolScan(input, i + 1)
  }

  /** The tokens before the first lexical error, and where that error is. */
  datatype Lexed = Lexed(tokens: seq<Token>, error: Option<Position>)

  function Prepend(tokens: seq<Token>, rest: Lexed): Lexed {
    Lexed(tokens + rest.tokens, rest.error)
  }

  function Fail(p: Position): Lexed {
    Lexed([], Some(p))
  }

  function Lex(input: string, p: Position): Lexed
    requires p.offset <= |input|
    decreases |input| - p.offset
  {
    var i := p.offset;
    if i == |input| then Lexed([], None)
    else if input[i] == '\0' then Fail(p)
    else if input[i] == '\n' then Lex(input, Position(i + 1, p.line + 1, 1))
    else if IsSpace(input[i]) then Lex(input, Advance(p, i + 1))
    else if input[i] == ';' then Lex(input, Advance(p, LineEnd(input, i + 1)))
    else if input[i] == '(' then Prepend([TokenAt(LParen, p, i + 1)], Lex(input, Advance(p, i + 1)))
    else if input[i] == ')' then Prepend([TokenAt(RParen, p, i + 1)], Lex(input, Advance(p, i + 1)))
    else if input[i] == '"' then
      match StringScan(input, i + 1)
      case Open => Fail(p)
      case Bad(at) => Fail(Advance(p, at))
      case Done(end) => Prepend([TokenAt(String, p, end)], Lex(input, Advance(p, end)))
    else if !IsSymbolChar(input[i]) then Fail(p)
    else
      match SymbolScan(input, i + 1)
      case Bad(at) => Fail(Advance(p, at))
      case Done(end) => Prepend([TokenAt(Symbol, p, end)], Lex(input, Advance(p, end)))
  }

  /** The position of a later offset on the same line. */
  function Advance(p: Position, offset: nat): Position
    requires offset >= p.offset
  {
    Position(offset, p.line, p.column + (offset - p.offset))
  }

  function TokenAt(kind: TokenKind, p: Position, end: nat): Token
    requires end >= p.offset
  {
    Token(kind, Span(p.offset, end - p.offset), p.line, p.column)
  }

  const START := Position(0, 1, 1)

  // ---- The tokenizer --------------------------------------------------------------

  method SkipComment(input: string, p: Position) returns (q: Position)
    requires p.offset < |input| && input[p.offset] == ';'
    ensures q == Advance(p, LineEnd(input, p.offset + 1))
  {
    var i, column := p.offset, p.column;
    while i < |input| && input[i] != '\n'
      invariant p.offset <= i <= |input| && column == p.column + (i - p.offset)
      invariant LineEnd(input, i) == LineEnd(input, p.offset)
    {
      i, column := i + 1, column + 1;
    }
    q := Position(i, p.line, column);
  }

  method ScanString(input: string, p: Position) returns (scan: Scan, q: Position)
    requires p.offset < |input|
    ensures scan == StringScan(input, p.offset + 1)
    ensures scan.Done? ==> q == Advance(p, scan.end)
    ensures scan.Bad? ==> q == Advance(p, scan.at)
  {
    var i, column := p.offset + 1, p.column + 1;
    while i < |input|
      invariant p.offset < i <= |input| && column == p.column + (i - p.offset)
      invariant StringScan(input, i) == StringScan(input, p.offset + 1)
    {
      var c := input[i];
      q := Position(i, p.line, column);
      if c == '\0' || c == '\n' || c == '\r' {
        return Bad(i), q;
      }
      if c == '\\' {
        if i + 1 >= |input| {
          return Bad(i), q;
        }
        if !IsEscapable(input[i + 1]) {
          return Bad(i), q;
        }
        i, column := i + 2, column + 2;
        continue;
      }
      if c == '"' {
        return Done(i + 1), Position(i + 1, p.line, column + 1);
      }
      i, column := i + 1, column + 1;
    }
    return Open, p;
  }

  method ScanSymbol(input: string, p: Position) returns (scan: Scan, q: Position)
    requires p.offset < |input| && IsSymbolChar(input[p.offset])
    ensures scan == SymbolScan(input, p.offset + 1)
    ensures q == Advance(p, if scan.Done? then scan.end else scan.at)
  {
    var i, column := p.offset, p.column;
    while i < |input| && !IsDelimiter(input[i])
      invariant p.offset <= i <= |input| && column == p.column + (i - p.offset)
      invariant SymbolScan(input, i) == SymbolScan(input, p.offset + 1)
    {
      if !IsSymbolChar(input[i]) {
        return Bad(i), Position(i, p.line, column);
      }
      i, column := i + 1, column + 1;
    }
    return Done(i), Position(i, p.line, column);
  }

  /** What a token array of this capacity receives from a lexed text. */
  predicate Delivers(lexed: Lexed, capacity: nat, status: Status, tokens: seq<Token>, error: Position) {
    if |lexed.tokens| > capacity then
      && status == Limit && tokens == lexed.tokens[..capacity]
      && error == TokenPosition(lexed.tokens[capacity])
    else
      && tokens == lexed.tokens
      && status == (if lexed.error.Some? then Format else Ok)
      && error == (if lexed.error.Some? then lexed.error.value else START)
  }

  function TokenPosition(t: Token): Position {
    Position(t.span.offset, t.line, t.column)
  }

  /** One turn of the tokenizer's loop. */
  datatype Step = Skip(next: Position) | Emit(kind: TokenKind, next: Position) | Stop(error: Position)

  /** What a turn that starts at p leaves to the rest of the input. */
  predicate Agrees(input: string, p: Position, step: Step)
    requires p.offset < |input|
  {
    match step
    case Skip(q) => p.offset < q.offset <= |input| && Lex(input, p) == Lex(input, q)
    case Emit(kind, q) =>
      p.offset < q.offset <= |input| && Lex(input, p) == Prepend([TokenAt(kind, p, q.offset)], Lex(input, q))
    case Stop(e) => Lex(input, p) == Fail(e)
  }

  method LexStep(input: string, p: Position) returns (step: Step)
    requires p.offset < |input|
    ensures Agrees(input, p, step)
  {
    hide LineEnd, StringScan, SymbolScan;
    var i := p.offset;
    var c := input[i];
    if c == '\0' {
      return Stop(p);
    }
    if c == '\n' {
      return Skip(Position(i + 1, p.line + 1, 1));
    }
    if c == ' ' || c == '\t' || c == '\r' {
      return Skip(Advance(p, i + 1));
    }
    if c == ';' {
      var q := SkipComment(input, p);
      return Skip(q);
    }
    if c == '(' || c == ')' {
      return Emit(if c == '(' then LParen else RParen, Advance(p, i + 1));
    }
    if c == '"' {
      var scan, q := ScanString(input, p);
      return if scan.Done? then Emit(String, q) else Stop(if scan.Open? then p else q);
    }
    if !IsSymbolChar(c) {
      return Stop(p);
    }
    var scan, q := ScanSymbol(input, p);
    return if scan.Bad? then Stop(q) else Emit(Symbol, q);
  }

  method Tokenize(input: string, tokens: array<Token>) returns (status: Status, count: nat, error: Position)
    modifies tokens
    ensures count <= tokens.Length
    ensures tokens.Length == 0 ==> status == InvalidArg && error == START
    ensures tokens.Length > 0 ==> Delivers(Lex(input, START), tokens.Length, status, tokens[..count], error)
  {
    hide Lex, Prepend;
    count := 0;
    if tokens.Length == 0 {
      return InvalidArg, 0, START;
    }
    ghost var lexed := Lex(input, START);
    LexBegins(lexed);
    var p := START;
    while p.offset < |input|
      invariant p.offset <= |input| && count <= tokens.Length
      invariant lexed == Prepend(tokens[..count], Lex(input, p))
      decreases |input| - p.offset
    {
      var step := LexStep(input, p);
      LexEnds(input, p, tokens[..count], step);
      if step.Stop? {
        return Format, count, step.error;
      }
      if step.Emit? {
        var token := TokenAt(step.kind, p, step.next.offset);
        ghost var before := tokens[..count];
        PushedToken(lexed, before, token, Lex(input, step.next));
        if count >= tokens.Length {
          return Limit, count, p;
        }
        tokens[count] := token;
        count := count + 1;
        assert tokens[..count] == before + [token];
      }
      p := step.next;
    }
    LexEnds(input, p, tokens[..count], Skip(p));
    return Ok, count, START;
  }

  lemma {:induction false} LexBegins(lexed: Lexed)
    ensures Prepend([], lexed) == lexed
  {
  }

  lemma {:induction false} LexEnds(input: string, p: Position, before: seq<Token>, step: Step)
    requires p.offset <= |input|
    requires step.Stop? ==> Lex(input, p) == Fail(step.error)
    ensures p.offset == |input| ==> Prepend(before, Lex(input, p)) == Lexed(before, None)
    ensures step.Stop? ==> Prepend(before, Lex(input, p)) == Lexed(before, Some(step.error))
  {
  }

  lemma {:induction false} PushedToken(lexed: Lexed, before: seq<Token>, token: Token, rest: Lexed)
    requires lexed == Prepend(before, Prepend([token], rest))
    ensures lexed == Prepend(before + [token], rest)
    ensures |lexed.tokens| > |before| && lexed.tokens[|before|] == token && lexed.tokens[..|before|] == before
  {
    assert before + ([token] + rest.tokens) == before + [token] + rest.tokens;
  }

  // ---- Text in its place ------------------------------------------------------------

  /** `text` stands in `input` from i on. */
  predicate TextAt(input: string, i: nat, text: string) {
    i + |text| <= |input| && input[i..i + |text|] == text
  }

  lemma {:induction false} TextParts(input: string, i: nat, a: string, b: string)
    ensures TextAt(input, i, a + b) <==> TextAt(input, i, a) && TextAt(input, i + |a|, b)
  {
    if TextAt(input, i, a + b) {
      assert input[i..i + |a|] == input[i..i + |a + b|][..|a|];
      assert input[i + |a|..i + |a| + |b|] == input[i..i + |a + b|][|a|..];
    }
    if TextAt(input, i, a) && TextAt(input, i + |a|, b) {
      assert input[i..i + |a + b|] == input[i..i + |a|] + input[i + |a|..i + |a| + |b|];
    }
  }

  predicate StartsToken(input: string, i: nat, kind: TokenKind, end: nat)
    requires i < |input|
  {
    match kind
    case LParen => input[i] == '(' && end == i + 1
    case RParen => input[i] == ')' && end == i + 1
    case String => input[i] == '"' && StringScan(input, i + 1) == Done(end)
    case Symbol => IsSymbolChar(input[i]) && SymbolScan(input, i + 1) == Done(end)
  }

  lemma {:induction false} LexToken(input: string, p: Position, kind: TokenKind, end: nat)
    requires p.offset < |input| && StartsToken(input, p.offset, kind, end)
    ensures p.offset <= end <= |input|
    ensures Lex(input, p) == Prepend([TokenAt(kind, p, end)], Lex(input, Advance(p, end)))
  {
  }

  // ---- Spans ------------------------------------------------------------------------

  /** A token lies inside the input; a string has both its quotes. */
  predicate TokenIn(input: string, token: Token) {
    token.span.In(input) && token.span.length >= if token.kind == String then 2 else 1
  }

  lemma {:induction false} LexedIn(input: string, p: Position)
    requires p.offset <= |input|
    ensures forall t :: t in Lex(input, p).tokens ==> TokenIn(input, t)
    decreases |input| - p.offset
  {
    var i := p.offset;
    if i == |input| || input[i] == '\0' {
    } else if input[i] == '\n' {
      LexedIn(input, Position(i + 1, p.line + 1, 1));
    } else if !LexStops(input, p) {
      LexedIn(input, Advance(p, NextOffset(input, p)));
    }
  }

  // ---- Positions --------------------------------------------------------------------

  function Newlines(text: string): nat {
    if text == [] then 0 else Newlines(text[..|text| - 1]) + if text[|text| - 1] == '\n' then 1 else 0
  }

  /** Bytes since the last newline. */
  function SinceNewline(text: string): nat {
    if text == [] || text[|text| - 1] == '\n' then 0 else SinceNewline(text[..|text| - 1]) + 1
  }

  /** Line and column of an offset, counted from the input alone. */
  predicate Exact(input: string, p: Position) {
    p.offset <= |input|
    && p.line == 1 + Newlines(input[..p.offset])
    && p.column == 1 + SinceNewline(input[..p.offset])
  }

  lemma {:induction false} AdvanceExact(input: string, p: Position, offset: nat)
    requires Exact(input, p) && p.offset <= offset <= |input|
    requires forall k :: p.offset <= k < offset ==> input[k] != '\n'
    ensures Exact(input, Advance(p, offset))
    decreases offset
  {
    if p.offset < offset {
      AdvanceExact(input, p, offset - 1);
      assert input[..offset][..offset - 1] == input[..offset - 1];
    }
  }

  lemma {:induction false} NewlineExact(input: string, p: Position)
    requires Exact(input, p) && p.offset < |input| && input[p.offset] == '\n'
    ensures Exact(input, Position(p.offset + 1, p.line + 1, 1))
  {
    assert input[..p.offset + 1][..p.offset] == input[..p.offset];
  }

  /** Every token and every lexical error carries the true line and column of its offset. */
  lemma {:induction false} PositionsExact(input: string, p: Position)
    requires Exact(input, p)
    ensures forall t :: t in Lex(input, p).tokens ==> Exact(input, TokenPosition(t))
    ensures var e := Lex(input, p).error; e.Some? ==> Exact(input, e.value)
    decreases |input| - p.offset
  {
    var i := p.offset;
    if i == |input| || input[i] == '\0' {
    } else if input[i] == '\n' {
      NewlineExact(input, p);
      PositionsExact(input, Position(i + 1, p.line + 1, 1));
    } else {
      var next := NextOffset(input, p);
      AdvanceExact(input, p, next);
      if LexStops(input, p) {
      } else {
        PositionsExact(input, Advance(p, next));
      }
    }
  }

  /** Lines and columns count from 1, newline by newline and byte by byte, from the start of the text on. */
  lemma {:induction false} PositionsOfText(input: string)
    ensures forall t :: t in Lex(input, START).tokens ==> Exact(input, TokenPosition(t))
    ensures var e := Lex(input, START).error; e.Some? ==> Exact(input, e.value)
  {
    assert input[..0] == [];
    PositionsExact(input, START);
    hide Lex;
  }

  /** Where the step that starts at p, on a byte other than a newline, ends or fails. */
  function NextOffset(input: string, p: Position): (next: nat)
    requires p.offset < |input| && input[p.offset] != '\0' && input[p.offset] != '\n'
    ensures p.offset <= next <= |input|
    ensures forall k :: p.offset <= k < next ==> input[k] != '\n'
    ensures !LexStops(input, p) ==> p.offset < next
  {
    var i := p.offset;
    if input[i] == ';' then LineEnd(input, i + 1)
    else if input[i] == '"' then
      match StringScan(input, i + 1)
      case Open => i
      case Bad(at) => at
      case Done(end) => end
    else if IsSymbolChar(input[i]) then
      match SymbolScan(input, i + 1)
      case Bad(at) => at
      case Done(end) => end
    else if IsDelimiter(input[i]) then i + 1
    else i
  }

  predicate LexStops(input: string, p: Position)
    requires p.offset < |input| && input[p.offset] != '\0' && input[p.offset] != '\n'
  {
    var i := p.offset;
    if input[i] == '"' then !StringScan(input, i + 1).Done?
    else if IsSymbolChar(input[i]) then !SymbolScan(input, i + 1).Done?
    else !IsDelimiter(input[i])
  }
}
