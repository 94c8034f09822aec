/** Printing values as s-expressions, and reading them back through the tokenizer and the
    parser. Quoting is append_quoted_cstr of src/context/context.c. */
module SexprPrint {
  import opened Statuses
  import opened SexprLex
  import opened SexprTree
  import opened SexprParse

  datatype Datum = Name(name: string) | Text(text: string) | Form(items: seq<Datum>)

  predicate Printable(d: Datum) {
    match d
    case Name(name) => name != [] && forall c | c in name :: IsSymbolChar(c)
    case Text(text) => '\0' !in text
    case Form(items) => forall item | item in items :: Printable(item)
  }

  function EscapeChar(c: char): string {
    if c == '"' || c == '\\' then ['\\', c]
    else if c == '\n' then "\\n"
    else if c == '\r' then "\\r"
    else if c == '\t' then "\\t"
    else [c]
  }

  function Escape(text: string): string {
    if text == [] then [] else EscapeChar(text[0]) + Escape(text[1..])
  }

  function Quote(text: string): string {
    ['"'] + Escape(text) + ['"']
  }

  function UnescapeChar(c: char): char {
    if c == 'n' then '\n' else if c == 'r' then '\r' else if c == 't' then '\t' else c
  }

  /** What the payload of a string token stands for. */
  function Unescape(payload: string): string
    decreases |payload|
  {
    if payload == [] then []
    else if payload[0] == '\\' && |payload| > 1 then [UnescapeChar(payload[1])] + Unescape(payload[2..])
    else [payload[0]] + Unescape(payload[1..])
  }

  function Print(d: Datum): (s: string)
    ensures |s| > 0 || d == Name("")
    decreases d, 0
  {
    match d
    case Name(name) => name
    case Text(text) => Quote(text)
    case Form(items) => ['('] + PrintAll(items) + [')']
  }

  /** Items with a blank after each. */
  function PrintAll(items: seq<Datum>): string
    decreases items, |items|
  {
    if items == [] then [] else Print(items[0]) + [' '] + PrintAll(items[1..])
  }

  // ---- Reading printed text ------------------------------------------------------------

  lemma {:induction false} QuoteParts(input: string, i: nat, text: string)
    requires TextAt(input, i, Escape(text) + ['"'])
    ensures i + |Escape(text)| < |input| && input[i + |Escape(text)|] == '"'
    ensures text != [] ==> TextAt(input, i, EscapeChar(text[0]))
                           && TextAt(input, i + |EscapeChar(text[0])|, Escape(text[1..]) + ['"'])
  {
    TextParts(input, i, Escape(text), ['"']);
    assert input[i + |Escape(text)|..i + |Escape(text)| + 1][0] == '"';
    if text != [] {
      assert Escape(text) + ['"'] == EscapeChar(text[0]) + (Escape(text[1..]) + ['"']);
      hide Escape, EscapeChar, TextAt;
      TextParts(input, i, EscapeChar(text[0]), Escape(text[1..]) + ['"']);
    }
  }

  lemma {:induction false} ScanEscapedChar(input: string, i: nat, c: char)
    requires TextAt(input, i, EscapeChar(c)) && c != '\0'
    ensures StringScan(input, i) == StringScan(input, i + |EscapeChar(c)|)
  {
    assert input[i] == input[i..i + |EscapeChar(c)|][0];
    if |EscapeChar(c)| == 2 {
      assert input[i + 1] == input[i..i + 2][1];
    }
  }

  /** An escaped text is scanned up to its closing quote, whatever the text. */
  lemma {:induction false} ScanEscaped(input: string, i: nat, text: string)
    requires TextAt(input, i, Escape(text) + ['"']) && '\0' !in text
    ensures StringScan(input, i) == Done(i + |Escape(text)| + 1)
    decreases |text|
  {
    QuoteParts(input, i, text);
    if text != [] {
      ScanEscapedChar(input, i, text[0]);
      assert |Escape(text)| == |EscapeChar(text[0])| + |Escape(text[1..])|;
      hide StringScan, EscapeChar, TextAt, Escape;
      ScanEscaped(input, i + |EscapeChar(text[0])|, text[1..]);
    }
  }

  lemma {:induction false} UnescapeEscape(text: string)
    ensures Unescape(Escape(text)) == text
  {
    if text != [] {
      var e, rest := EscapeChar(text[0]), Escape(text[1..]);
      assert (e + rest)[|e|..] == rest;
      UnescapeEscape(text[1..]);
    }
  }

  lemma {:induction false} ScanName(input: string, i: nat, name: string)
    requires TextAt(input, i, name) && forall c | c in name :: IsSymbolChar(c)
    requires i + |name| < |input| ==> IsDelimiter(input[i + |name|])
    ensures SymbolScan(input, i) == Done(i + |name|)
    decreases |name|
  {
    if name != [] {
      assert input[i] == input[i..i + |name|][0] == name[0];
      assert name == [name[0]] + name[1..];
      TextParts(input, i, [name[0]], name[1..]);
      assert SymbolScan(input, i) == SymbolScan(input, i + 1);
      hide SymbolScan, TextAt;
      ScanName(input, i + 1, name[1..]);
    }
  }

  /** The tree a printed datum is read as when it starts at p. */
  function TreeOf(d: Datum, p: Position): (t: Tree)
    ensures Proper(t)
    decreases d, 0
  {
    var end := Advance(p, p.offset + |Print(d)|);
    match d
    case Name(_) => Atom(TokenAt(Symbol, p, end.offset))
    case Text(_) => Atom(TokenAt(String, p, end.offset))
    case Form(items) =>
      List(TokenAt(LParen, p, p.offset + 1), TreesOf(items, Advance(p, p.offset + 1)),
           TokenAt(RParen, Advance(p, end.offset - 1), end.offset))
  }

  function TreesOf(items: seq<Datum>, p: Position): (f: seq<Tree>)
    ensures ProperAll(f) && |f| == |items|
    decreases items, |items|
  {
    if items == [] then []
    else [TreeOf(items[0], p)] + TreesOf(items[1..], Advance(p, p.offset + |Print(items[0])| + 1))
  }

  lemma {:induction false} PrependTwice(a: seq<Token>, b: seq<Token>, rest: Lexed)
    ensures Prepend(a, Prepend(b, rest)) == Prepend(a + b, rest)
    ensures Prepend([], rest) == rest
  {
    assert a + (b + rest.tokens) == a + b + rest.tokens;
  }

  lemma {:induction false} LexBlank(input: string, p: Position)
    requires p.offset < |input| && input[p.offset] == ' '
    ensures Lex(input, p) == Lex(input, Advance(p, p.offset + 1))
  {
  }

  /** A form's printed text, taken apart. */
  lemma {:induction false} FormParts(input: string, i: nat, items: seq<Datum>)
    requires TextAt(input, i, Print(Form(items)))
    ensures var n := |PrintAll(items)|;
            && i + n + 1 < |input| && |Print(Form(items))| == n + 2
            && input[i] == '(' && TextAt(input, i + 1, PrintAll(items)) && input[i + n + 1] == ')'
  {
    var text := input[i..i + |Print(Form(items))|];
    assert input[i] == text[0] && input[i + |PrintAll(items)| + 1] == text[|PrintAll(items)| + 1];
    assert Print(Form(items)) == ['('] + (PrintAll(items) + [')']);
    TextParts(input, i, ['('], PrintAll(items) + [')']);
    TextParts(input, i + 1, PrintAll(items), [')']);
  }

  /** The printed text of a list of items, taken apart. */
  lemma {:induction false} ItemsParts(input: string, i: nat, items: seq<Datum>)
    requires items != [] && TextAt(input, i, PrintAll(items))
    ensures var n := |Print(items[0])|;
            && i + n < |input| && |PrintAll(items)| == n + 1 + |PrintAll(items[1..])| <= |input| - i
            && TextAt(input, i, Print(items[0])) && input[i + n] == ' ' && TextAt(input, i + n + 1, PrintAll(items[1..]))
  {
    var n := |Print(items[0])|;
    assert input[i + n] == input[i..i + |PrintAll(items)|][n];
    assert PrintAll(items) == Print(items[0]) + ([' '] + PrintAll(items[1..]));
    TextParts(input, i, Print(items[0]), [' '] + PrintAll(items[1..]));
    TextParts(input, i + n, [' '], PrintAll(items[1..]));
  }

  /** An atom's printed text is one token. */
  lemma {:induction false} AtomToken(input: string, i: nat, d: Datum)
    requires !d.Form? && Printable(d) && TextAt(input, i, Print(d))
    requires i + |Print(d)| < |input| ==> IsDelimiter(input[i + |Print(d)|])
    ensures i < |input| && StartsToken(input, i, if d.Name? then Symbol else String, i + |Print(d)|)
  {
    assert input[i] == input[i..i + |Print(d)|][0] == Print(d)[0];
    hide TextAt, SymbolScan, StringScan, Escape, PrintAll;
    match d
    case Name(name) =>
      assert name == [name[0]] + name[1..];
      TextParts(input, i, [name[0]], name[1..]);
      ScanName(input, i + 1, name[1..]);
    case Text(text) =>
      assert Print(d) == ['"'] + (Escape(text) + ['"']);
      TextParts(input, i, ['"'], Escape(text) + ['"']);
      ScanEscaped(input, i + 1, text);
  }

  /** Lexing a printed datum yields exactly its tokens and goes on behind it. */
  lemma {:induction false} LexDatum(input: string, p: Position, d: Datum)
    requires Printable(d) && TextAt(input, p.offset, Print(d))
    requires p.offset + |Print(d)| < |input| ==> IsDelimiter(input[p.offset + |Print(d)|])
    ensures Lex(input, p) == Prepend(Flatten(TreeOf(d, p)), Lex(input, Advance(p, p.offset + |Print(d)|)))
    decreases d, 0
  {
    hide Lex, Prepend, StartsToken;
    if d.Form? {
      LexForm(input, p, d.items);
    } else {
      AtomToken(input, p.offset, d);
      LexToken(input, p, if d.Name? then Symbol else String, p.offset + |Print(d)|);
    }
  }

  lemma {:induction false} LexForm(input: string, p: Position, items: seq<Datum>)
    requires Printable(Form(items)) && TextAt(input, p.offset, Print(Form(items)))
    ensures Lex(input, p)
         == Prepend(Flatten(TreeOf(Form(items), p)), Lex(input, Advance(p, p.offset + |Print(Form(items))|)))
    decreases items, |items| + 1
  {
    hide Lex, Prepend, TextAt, Print, PrintAll, FlattenAll;
    var i := p.offset;
    FormParts(input, i, items);
    var n := |PrintAll(items)|;
    var inner, close, end := Advance(p, i + 1), Advance(p, i + n + 1), Advance(p, i + n + 2);
    LexToken(input, p, LParen, i + 1);
    LexItems(input, inner, items);
    LexToken(input, close, RParen, i + n + 2);
    var open, shut := TokenAt(LParen, p, i + 1), TokenAt(RParen, close, i + n + 2);
    var rest, tokens := Lex(input, end), FlattenAll(TreesOf(items, inner));
    PrependTwice(tokens, [shut], rest);
    PrependTwice([open], tokens + [shut], rest);
    assert [open] + (tokens + [shut]) == [open] + tokens + [shut];
  }

  lemma {:induction false} LexItems(input: string, p: Position, items: seq<Datum>)
    requires p.offset <= |input| && (forall item | item in items :: Printable(item))
    requires TextAt(input, p.offset, PrintAll(items))
    ensures Lex(input, p)
         == Prepend(FlattenAll(TreesOf(items, p)), Lex(input, Advance(p, p.offset + |PrintAll(items)|)))
    decreases items, |items|
  {
    hide Lex, Prepend, TextAt;
    if items == [] {
      PrependTwice([], [], Lex(input, p));
    } else {
      hide Print, PrintAll, Flatten, FlattenAll;
      ItemsParts(input, p.offset, items);
      var end := p.offset + |Print(items[0])|;
      var next := Advance(p, end + 1);
      LexDatum(input, p, items[0]);
      LexBlank(input, Advance(p, end));
      LexItems(input, next, items[1..]);
      var f, last := TreesOf(items, p), Advance(p, p.offset + |PrintAll(items)|);
      assert f[0] == TreeOf(items[0], p) && f[1..] == TreesOf(items[1..], next);
      assert last == Advance(next, next.offset + |PrintAll(items[1..])|);
      hide TreesOf, TreeOf;
      FlattenFront(f);
      PrependTwice(Flatten(f[0]), FlattenAll(f[1..]), Lex(input, last));
    }
  }

  // ---- Back to the datum -----------------------------------------------------------------

  /** The datum a tree over `input` stands for. */
  function DatumOf(input: string, t: Tree): Datum
    requires Proper(t) && TextIn(input, t)
    decreases t, 0
  {
    match t
    case Atom(token) =>
      var text := token.span.Text(input);
      if token.kind == Symbol then Name(text) else Text(Unescape(text[1..|text| - 1]))
    case List(_, items, _) => Form(DataOf(input, items))
  }

  function DataOf(input: string, f: seq<Tree>): seq<Datum>
    requires ProperAll(f) && TextInAll(input, f)
    decreases f, |f|
  {
    if f == [] then [] else [DatumOf(input, f[0])] + DataOf(input, f[1..])
  }

  lemma {:induction false} DatumBack(input: string, p: Position, d: Datum)
    requires Printable(d) && TextAt(input, p.offset, Print(d))
    ensures TextIn(input, TreeOf(d, p)) && DatumOf(input, TreeOf(d, p)) == d
    decreases d, 0
  {
    match d
    case Name(_) =>
    case Text(text) =>
      assert input[p.offset..p.offset + |Quote(text)|] == Quote(text);
      UnquoteBack(text);
      hide Quote, Unescape, Escape;
    case Form(items) =>
      hide TextAt;
      FormParts(input, p.offset, items);
      DataBack(input, Advance(p, p.offset + 1), items);
  }

  lemma {:induction false} UnquoteBack(text: string)
    ensures |Quote(text)| >= 2 && Unescape(Quote(text)[1..|Quote(text)| - 1]) == text
  {
    assert Quote(text)[1..|Quote(text)| - 1] == Escape(text);
    hide Quote;
    UnescapeEscape(text);
  }

  lemma {:induction false} DataBack(input: string, p: Position, items: seq<Datum>)
    requires (forall item | item in items :: Printable(item)) && TextAt(input, p.offset, PrintAll(items))
    ensures var f := TreesOf(items, p); TextInAll(input, f) && DataOf(input, f) == items
    decreases items, |items|
  {
    if items == [] {
    } else {
      hide TextAt, Print, PrintAll, DatumOf, TreeOf, TextIn, TextInAll, Printable, DataOf;
      ItemsParts(input, p.offset, items);
      var next := Advance(p, p.offset + |Print(items[0])| + 1);
      DatumBack(input, p, items[0]);
      DataBack(input, next, items[1..]);
      var f, rest := TreesOf(items, p), TreesOf(items[1..], next);
      assert f == [TreeOf(items[0], p)] + rest;
      hide TreesOf;
      TextInFront(input, f);
      assert f[1..] == rest;
    }
  }

  lemma {:induction false} TextInFront(input: string, f: seq<Tree>)
    requires f != []
    ensures TextInAll(input, f) <==> TextIn(input, f[0]) && TextInAll(input, f[1..])
  {
    assert f == [f[0]] + f[1..];
  }

  // ---- The round trip ----------------------------------------------------------------------

  /** Printing a datum, tokenizing and parsing gives one tree, and that tree is the datum. */
  lemma {:induction false} RoundTrip(d: Datum)
    requires Printable(d)
    ensures var input, t := Print(d), TreeOf(d, START);
            && Lex(input, START) == Lexed(Flatten(t), None)
            && Run(Top([]), Flatten(t)) == Some(Top([t]))
            && TextIn(input, t) && DatumOf(input, t) == d
  {
    hide Lex, Print, TreeOf, Flatten, Run, DatumOf;
    var input, t := Print(d), TreeOf(d, START);
    assert input[0..|input|] == input;
    LexDatum(input, START, d);
    LexEnds(input, Advance(START, |input|), Flatten(t), Skip(START));
    DatumBack(input, START, d);
    RunTree(Top([]), t);
    assert [] + [t] == [t];
  }

  /** A quoted text is read as exactly one string token, spanning the quotes, whose payload
      unescapes to the text. */
  lemma {:induction false} QuotedIsOneToken(text: string)
    requires '\0' !in text
    ensures var input := Quote(text);
            && Lex(input, START) == Lexed([Token(String, Span(0, |input|), 1, 1)], None)
            && Unescape(input[1..|input| - 1]) == text
  {
    RoundTrip(Text(text));
    assert Quote(text)[1..|Quote(text)| - 1] == Escape(text);
    UnescapeEscape(text);
  }
}
