/** How a datum may be laid out: any gaps of blanks, line ends and comments between its tokens. */
module SexprSpacing {
  import opened Statuses
  import opened SexprLex
  import opened SexprTree
  import opened SexprParse
  import opened SexprGrammar
  import opened SexprRead
  import P = SexprPrint

  datatype Lexeme = Lexeme(kind: TokenKind, text: string)

  /** The tokens of a datum. */
  function Spelling(d: P.Datum): seq<Lexeme>
    decreases d, 0
  {
    match d
    case Name(name) => [Lexeme(Symbol, name)]
    case Text(text) => [Lexeme(String, P.Quote(text))]
    case Form(items) => [Lexeme(LParen, "(")] + SpellingAll(items) + [Lexeme(RParen, ")")]
  }

  function SpellingAll(items: seq<P.Datum>): seq<Lexeme>
    decreases items, |items|
  {
    if items == [] then [] else Spelling(items[0]) + SpellingAll(items[1..])
  }

  /** These tokens stand for the spelling. */
  predicate Stand(input: string, tokens: seq<Token>, spelling: seq<Lexeme>) {
    && |tokens| == |spelling|
    && forall k | 0 <= k < |tokens| ::
         && tokens[k].kind == spelling[k].kind && TokenIn(input, tokens[k])
         && tokens[k].span.Text(input) == spelling[k].text
  }

  /** The tokens of a datum make its tree. */
  lemma {:induction false} TreeOfTokens(input: string, tokens: seq<Token>, d: P.Datum) returns (t: Tree)
    requires P.Printable(d) && Stand(input, tokens, Spelling(d))
    ensures Proper(t) && Flatten(t) == tokens && TextIn(input, t) && P.DatumOf(input, t) == d
    decreases d, 0
  {
    match d
    case Name(_) =>
      t := Atom(tokens[0]);
    case Text(text) =>
      t := Atom(tokens[0]);
      P.UnquoteBack(text);
    case Form(items) =>
      var n := |tokens| - 1;
      var inner := tokens[1..n];
      assert Spelling(d)[1..n] == SpellingAll(items);
      var f := ForestOfTokens(input, inner, items);
      t := List(tokens[0], f, tokens[n]);
      assert tokens == [tokens[0]] + inner + [tokens[n]];
  }

  lemma {:induction false} ForestOfTokens(input: string, tokens: seq<Token>, items: seq<P.Datum>) returns (f: seq<Tree>)
    requires (forall item | item in items :: P.Printable(item)) && Stand(input, tokens, SpellingAll(items))
    ensures ForestMeans(input, f, tokens, items)
    decreases items, |items|
  {
    if items == [] {
      f := [];
    } else {
      var n := SpellingParts(input, tokens, items);
      assert P.Printable(items[0]) && forall item | item in items[1..] :: P.Printable(item);
      hide *;
      var t := TreeOfTokens(input, tokens[..n], items[0]);
      var rest := ForestOfTokens(input, tokens[n..], items[1..]);
      f := [t] + rest;
      ForestStep(input, t, rest, tokens, n, items);
    }
  }

  /** The trees make up these tokens and say the items. */
  predicate ForestMeans(input: string, f: seq<Tree>, tokens: seq<Token>, items: seq<P.Datum>) {
    ProperAll(f) && FlattenAll(f) == tokens && TextInAll(input, f) && P.DataOf(input, f) == items
  }

  lemma {:induction false} ForestStep(input: string, t: Tree, rest: seq<Tree>, tokens: seq<Token>, n: nat,
                                      items: seq<P.Datum>)
    requires n <= |tokens| && items != [] && Proper(t) && Flatten(t) == tokens[..n]
    requires TextIn(input, t) && P.DatumOf(input, t) == items[0]
    requires ForestMeans(input, rest, tokens[n..], items[1..])
    ensures ForestMeans(input, [t] + rest, tokens, items)
  {
    ForestMore(input, t, rest);
    assert tokens == tokens[..n] + tokens[n..] && items == [items[0]] + items[1..];
    hide Flatten, FlattenAll, TextIn, TextInAll, Proper, ProperAll, P.DatumOf, P.DataOf;
  }

  lemma {:induction false} SpellingParts(input: string, tokens: seq<Token>, items: seq<P.Datum>) returns (n: nat)
    requires items != [] && Stand(input, tokens, SpellingAll(items))
    ensures n <= |tokens| && Stand(input, tokens[..n], Spelling(items[0]))
    ensures Stand(input, tokens[n..], SpellingAll(items[1..]))
  {
    n := |Spelling(items[0])|;
    assert SpellingAll(items)[..n] == Spelling(items[0]) && SpellingAll(items)[n..] == SpellingAll(items[1..]);
    hide Spelling, SpellingAll;
  }

  lemma {:induction false} ForestMore(input: string, t: Tree, rest: seq<Tree>)
    requires Proper(t) && ProperAll(rest) && TextIn(input, t) && TextInAll(input, rest)
    ensures ProperAll([t] + rest) && TextInAll(input, [t] + rest)
    ensures FlattenAll([t] + rest) == Flatten(t) + FlattenAll(rest)
    ensures P.DataOf(input, [t] + rest) == [P.DatumOf(input, t)] + P.DataOf(input, rest)
  {
    hide Flatten, FlattenAll, TextIn, Proper, P.DatumOf;
    var f := [t] + rest;
    assert f[1..] == rest;
    FlattenFront(f);
    P.TextInFront(input, f);
  }

  lemma {:induction false} EscapeIsBody(text: string)
    requires '\0' !in text
    ensures Body(P.Escape(text))
  {
    if text != [] {
      assert text == [text[0]] + text[1..];
      EscapeIsBody(text[1..]);
      var e, rest := P.EscapeChar(text[0]), P.Escape(text[1..]);
      hide P.Escape;
      assert (e + rest)[|e|..] == rest;
    }
  }

  /** The tokens of a printable datum are tokens of the grammar. */
  lemma {:induction false} SpellingIsSpelled(d: P.Datum, k: nat)
    requires P.Printable(d) && k < |Spelling(d)|
    ensures Spelled(Spelling(d)[k].kind, Spelling(d)[k].text)
    decreases d, 0
  {
    match d
    case Name(_) =>
    case Text(text) =>
      EscapeIsBody(text);
      var q := P.Quote(text);
      assert q[1..|q| - 1] == P.Escape(text);
    case Form(items) =>
      if 0 < k < |Spelling(d)| - 1 {
        assert Spelling(d)[k] == SpellingAll(items)[k - 1];
        SpellingsAreSpelled(items, k - 1);
      }
  }

  lemma {:induction false} SpellingsAreSpelled(items: seq<P.Datum>, k: nat)
    requires (forall item | item in items :: P.Printable(item)) && k < |SpellingAll(items)|
    ensures Spelled(SpellingAll(items)[k].kind, SpellingAll(items)[k].text)
    decreases items, |items|
  {
    hide P.Printable, Spelling, Spelled;
    var n := |Spelling(items[0])|;
    if k < n {
      assert SpellingAll(items)[k] == Spelling(items[0])[k];
      SpellingIsSpelled(items[0], k);
    } else {
      assert SpellingAll(items)[k] == SpellingAll(items[1..])[k - n];
      SpellingsAreSpelled(items[1..], k - n);
    }
  }

  /** The pieces' tokens are these, whatever their gaps. */
  predicate Spells(pieces: seq<Piece>, spelling: seq<Lexeme>) {
    |pieces| == |spelling| && forall k | 0 <= k < |pieces| :: Lexeme(pieces[k].kind, pieces[k].text) == spelling[k]
  }

  lemma {:induction false} PiecesStand(input: string, p: Position, pieces: seq<Piece>, end: string, spelling: seq<Lexeme>)
    requires Spells(pieces, spelling) && TextAt(input, p.offset, Written(pieces, end))
    requires forall k | 0 <= k < |pieces| :: Spelled(pieces[k].kind, pieces[k].text)
    ensures Stand(input, TokensOf(p, pieces), spelling)
    decreases |pieces|
  {
    if pieces != [] {
      var piece, rest := pieces[0], Written(pieces[1..], end);
      PieceStands(input, p, piece, rest);
      var q := Move(p, piece.gap);
      var token, after := TokenAt(piece.kind, q, q.offset + |piece.text|), Move(q, piece.text);
      assert TokensOf(p, pieces) == [token] + TokensOf(after, pieces[1..]);
      assert spelling[0] == Lexeme(piece.kind, piece.text);
      hide Move, Written, Spelled, TextAt, TokensOf, Stand;
      assert forall k | 0 <= k < |pieces[1..]| :: pieces[1..][k] == pieces[k + 1];
      PiecesStand(input, after, pieces[1..], end, spelling[1..]);
      StandMore(input, token, TokensOf(after, pieces[1..]), spelling);
    }
  }

  lemma {:induction false} PieceStands(input: string, p: Position, piece: Piece, rest: string)
    requires Spelled(piece.kind, piece.text) && TextAt(input, p.offset, piece.gap + (piece.text + rest))
    ensures var q := Move(p, piece.gap); var after := Move(q, piece.text);
            var token := TokenAt(piece.kind, q, q.offset + |piece.text|);
            && TokenIn(input, token) && token.span.Text(input) == piece.text && TextAt(input, after.offset, rest)
  {
    TextParts(input, p.offset, piece.gap, piece.text + rest);
    TextParts(input, p.offset + |piece.gap|, piece.text, rest);
    SpelledOnLine(piece.kind, piece.text);
    hide Move;
  }

  lemma StandMore(input: string, token: Token, more: seq<Token>, spelling: seq<Lexeme>)
    requires spelling != [] && Stand(input, more, spelling[1..]) && TokenIn(input, token)
    requires Lexeme(token.kind, token.span.Text(input)) == spelling[0]
    ensures Stand(input, [token] + more, spelling)
  {
    hide TokenIn, Span.Text;
  }

  /** A datum is read back however it is laid out: with any gaps between its tokens, as long as names do
      not run together, and with any gap and comment at the end. */
  lemma {:induction false} SpacedIsReadBack(d: P.Datum, pieces: seq<Piece>, end: string) returns (t: Tree)
    requires P.Printable(d) && Spells(pieces, Spelling(d)) && Gap(end, true)
    requires forall k | 0 <= k < |pieces| :: Gap(pieces[k].gap, false)
    requires forall k | 1 <= k < |pieces| ::
      pieces[k - 1].kind == Symbol && pieces[k].gap == [] ==> pieces[k].kind == LParen || pieces[k].kind == RParen
    ensures var input := Written(pieces, end);
            && Lex(input, START) == Lexed(Flatten(t), None)
            && Run(Top([]), Flatten(t)) == Some(Top([t]))
            && Proper(t) && TextIn(input, t) && P.DatumOf(input, t) == d
  {
    forall k | 0 <= k < |pieces|
      ensures Spelled(pieces[k].kind, pieces[k].text)
    {
      SpellingIsSpelled(d, k);
      assert Lexeme(pieces[k].kind, pieces[k].text) == Spelling(d)[k];
    }
    var input := Written(pieces, end);
    hide Lex, Gap, Spelled, Written, TokensOf, Spelling, Stand;
    WellSpacedIsRead(pieces, end);
    assert input[0..|input|] == input;
    PiecesStand(input, START, pieces, end, Spelling(d));
    t := TreeOfTokens(input, TokensOf(START, pieces), d);
    hide Run, Flatten, TextIn, P.DatumOf;
    RunTree(Top([]), t);
    assert [] + [t] == [t];
  }

  /** The status of a text, from its pieces: too many of them, then a fault, then the lists they open and close. */
  lemma {:induction false} TextStatusInWords(text: string, parts: Parts, tokenCapacity: nat, nodeCapacity: nat)
    requires PartsOf(text, parts) && tokenCapacity > 0 && nodeCapacity > 0
    ensures TextStatus(text, tokenCapacity, nodeCapacity)
         == if |parts.pieces| > tokenCapacity then Limit
            else if parts.rest != [] then Format
            else StatusFrom(0, TokensOf(START, parts.pieces), nodeCapacity)
  {
    assert text[0..|text|] == text;
    PartsAreRead(text, START, text, parts);
    hide Lex, StatusFrom, TokensOf, PartsOf;
  }
}
