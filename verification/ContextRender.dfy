/** Rendering a context into a bounded buffer, from src/context/context.c: the text is written
    as far as it fits, its full length is counted, and its first part is the same for a whole run. */
module ContextRender {
  import opened Statuses
  import opened SexprText
  import opened SexprPrint

  /** A piece of text the renderer appends. */
  datatype Piece = Verbatim(text: string) | Quoted(quoted: string) | Number(value: nat)

  function PieceText(p: Piece): string {
    match p
    case Verbatim(text) => text
    case Quoted(quoted) => Quote(quoted)
    case Number(value) => Dec(value)
  }

  function PiecesText(pieces: seq<Piece>): string {
    if pieces == [] then [] else PiecesText(pieces[..|pieces| - 1]) + PieceText(pieces[|pieces| - 1])
  }

  lemma {:induction false} PiecesNext(before: seq<Piece>, pieces: seq<Piece>, i: nat)
    requires i < |pieces|
    ensures PiecesText(before + pieces[..i + 1]) == PiecesText(before + pieces[..i]) + PieceText(pieces[i])
  {
    hide PieceText;
    var next := before + pieces[..i + 1];
    assert next[..|next| - 1] == before + pieces[..i] && next[|next| - 1] == pieces[i];
  }

  lemma {:induction false} PiecesTextAppend(a: seq<Piece>, b: seq<Piece>)
    ensures PiecesText(a + b) == PiecesText(a) + PiecesText(b)
  {
    hide PieceText;
    if b == [] {
      assert a + b == a && PiecesText(b) == [];
    } else {
      var front, last := b[..|b| - 1], PieceText(b[|b| - 1]);
      assert PiecesText(b) == PiecesText(front) + last;
      assert a + b == a + b[..|b|];
      PiecesNext(a, b, |b| - 1);
      assert PiecesText(a + b) == PiecesText(a + front) + last;
      PiecesTextAppend(a, front);
      Associate(PiecesText(a), PiecesText(front), last);
    }
  }

  lemma {:induction false} Associate(a: string, b: string, c: string)
    ensures (a + b) + c == a + (b + c)
  {
  }

  // ---- What a context says --------------------------------------------------------------------

  /** What stays the same for a whole run; an empty string is a part that is not there. */
  datatype Standing = Standing(contract: string, directive: string, profile: string, goal: string,
                               tools: string, exemplars: string)

  datatype Budget = Budget(name: string, configured: nat, consumed: nat) {
    /** Never below zero. */
    function Remaining(): nat {
      if consumed >= configured then 0 else configured - consumed
    }

    function Pieces(): seq<Piece> {
      [Verbatim("  ("), Verbatim(name), Verbatim(" (configured "), Number(configured), Verbatim(") (consumed "),
       Number(consumed), Verbatim(") (remaining "), Number(Remaining()), Verbatim("))\n")]
    }
  }

  /** What changes with every tick: the budgets, and all blocks behind them. */
  datatype Tick = Tick(budgets: seq<Budget>, blocks: seq<Piece>)

  function Optional(text: string, pieces: seq<Piece>): seq<Piece> {
    if text == [] then [] else pieces
  }

  function StandingPieces(s: Standing): seq<Piece> {
    [Verbatim(s.contract)]
    + Optional(s.directive, [Verbatim("(directive "), Quoted(s.directive), Verbatim(")\n")])
    + Optional(s.profile, [Verbatim(s.profile), Verbatim("\n")])
    + Optional(s.goal, [Verbatim("(goal "), Quoted(s.goal), Verbatim(")\n")])
    + Optional(s.tools, [Verbatim("(tools\n"), Verbatim(s.tools), Verbatim(")\n")])
    + Optional(s.exemplars, [Verbatim("(examples\n"), Verbatim(s.exemplars), Verbatim(")\n")])
  }

  function BudgetPieces(budgets: seq<Budget>): seq<Piece> {
    if budgets == [] then [] else BudgetPieces(budgets[..|budgets| - 1]) + budgets[|budgets| - 1].Pieces()
  }

  function TickPieces(t: Tick): seq<Piece> {
    [Verbatim("(budgets\n")] + BudgetPieces(t.budgets) + [Verbatim(")\n")] + t.blocks
  }

  // ---- The render state -------------------------------------------------------------------------

  class RenderState {
    const dst: array<char>
    var used: nat
    var required: nat
    /** Everything appended so far, whether it fitted or not. */
    ghost var ideal: string

    ghost predicate Valid()
      reads this, dst
    {
      && dst.Length > 0 && required == |ideal|
      && used == Min(required, dst.Length - 1) && dst[..used] == ideal[..used]
    }

    constructor (dst: array<char>)
      requires dst.Length > 0
      ensures Valid() && this.dst == dst && ideal == []
    {
      this.dst := dst;
      used, required, ideal := 0, 0, [];
    }

    method AppendChar(ch: char)
      requires Valid()
      modifies this, dst
      ensures Valid() && ideal == old(ideal) + [ch]
    {
      if used + 1 < dst.Length {
        dst[used] := ch;
        used := used + 1;
      }
      required := required + 1;
      ideal := ideal + [ch];
    }

    method AppendSpan(text: string)
      requires Valid()
      modifies this, dst
      ensures Valid() && ideal == old(ideal) + text
    {
      ghost var before := dst[..used];
      if used + 1 < dst.Length {
        var take := Min(|text|, dst.Length - 1 - used);
        forall k | 0 <= k < take {
          dst[used + k] := text[k];
        }
        assert dst[..used] == before;
        assert dst[..used + take] == before + text[..take];
        used := used + take;
      }
      required := required + |text|;
      ideal := ideal + text;
    }

    method AppendNumber(value: nat)
      requires Valid() && value <= UINT64_MAX
      modifies this, dst
      ensures Valid() && ideal == old(ideal) + Dec(value)
    {
      var buffer := new char[21];
      var start := U64ToDec(value, buffer);
      AppendSpan(buffer[start..20]);
    }

    method AppendQuoted(text: string)
      requires Valid()
      modifies this, dst
      ensures Valid() && ideal == old(ideal) + Quote(text)
    {
      hide Escape;
      AppendChar('"');
      for i := 0 to |text|
        invariant Valid()
        invariant ideal + Escape(text[i..]) == old(ideal) + ['"'] + Escape(text)
      {
        var ch := text[i];
        EscapeNext(text, i, ideal);
        if ch == '"' || ch == '\\' {
          AppendChar('\\');
          AppendChar(ch);
        } else if ch == '\n' {
          AppendSpan("\\n");
        } else if ch == '\r' {
          AppendSpan("\\r");
        } else if ch == '\t' {
          AppendSpan("\\t");
        } else {
          AppendChar(ch);
        }
      }
      EscapeEnd(text, ideal);
      AppendChar('"');
    }

    method AppendPiece(p: Piece)
      requires Valid() && (p.Number? ==> p.value <= UINT64_MAX)
      modifies this, dst
      ensures Valid() && ideal == old(ideal) + PieceText(p)
    {
      match p
      case Verbatim(text) => AppendSpan(text);
      case Quoted(quoted) => AppendQuoted(quoted);
      case Number(value) => AppendNumber(value);
    }

    method AppendPieces(pieces: seq<Piece>, ghost before: seq<Piece>)
      requires Valid() && NumbersFit(pieces) && ideal == PiecesText(before)
      modifies this, dst
      ensures Valid() && ideal == PiecesText(before + pieces)
    {
      hide PieceText, Valid;
      assert before + pieces[..0] == before;
      for i := 0 to |pieces|
        invariant Valid() && ideal == PiecesText(before + pieces[..i])
      {
        PiecesNext(before, pieces, i);
        AppendPiece(pieces[i]);
      }
      assert pieces[..|pieces|] == pieces;
    }

    /** A part that is only there when its text is not empty. */
    method AppendOptional(text: string, pieces: seq<Piece>, ghost before: seq<Piece>)
      requires Valid() && NumbersFit(pieces) && ideal == PiecesText(before)
      modifies this, dst
      ensures Valid() && ideal == PiecesText(before + Optional(text, pieces))
    {
      hide PiecesText, Valid;
      assert before + [] == before;
      if text != [] {
        AppendPieces(pieces, before);
      }
    }
  }

  predicate NumbersFit(pieces: seq<Piece>) {
    forall p | p in pieces :: p.Number? ==> p.value <= UINT64_MAX
  }

  lemma {:induction false} EscapeNext(text: string, i: nat, ideal: string)
    requires i < |text|
    ensures ideal + Escape(text[i..]) == ideal + EscapeChar(text[i]) + Escape(text[i + 1..])
  {
    assert text[i..][1..] == text[i + 1..];
  }

  lemma {:induction false} EscapeEnd(text: string, ideal: string)
    ensures ideal + Escape(text[|text|..]) == ideal && text[0..] == text
  {
  }

  // ---- The renderer --------------------------------------------------------------------------------

  /** The whole text of a context, however long. */
  function FullText(s: Standing, t: Tick): string {
    PiecesText(StandingPieces(s)) + PiecesText(TickPieces(t))
  }

  /** A buffer after a render: as much of the text as fits before the final NUL, the number of
      bytes the text would have needed, and the length of its constant part in the buffer. */
  ghost predicate Rendered(s: Standing, t: Tick, buffer: string, required: nat, prefixLen: nat, status: Status) {
    var text := FullText(s, t);
    && |buffer| > 0 && required == |text| + 1
    && (status == if required <= |buffer| then Ok else Limit)
    && var used := Min(|text|, |buffer| - 1);
       && buffer[..used] == text[..used] && buffer[used] == '\0'
       && prefixLen == Min(|PiecesText(StandingPieces(s))|, |buffer| - 1)
  }

  method Render(s: Standing, t: Tick, dst: array<char>) returns (status: Status, required: nat, prefixLen: nat)
    requires NumbersFit(TickPieces(t))
    modifies dst
    ensures dst.Length == 0 ==> status == InvalidArg
    ensures dst.Length > 0 ==> Rendered(s, t, dst[..], required, prefixLen, status)
  {
    if dst.Length == 0 {
      return InvalidArg, 0, 0;
    }
    assert PiecesText([]) == [];
    hide PiecesText, StandingPieces, TickPieces;
    var state := new RenderState(dst);
    RenderStanding(state, s);
    prefixLen := state.used;
    RenderTick(state, t, StandingPieces(s));
    if state.used < dst.Length {
      dst[state.used] := '\0';
    }
    required := state.required + 1;
    status := if required <= dst.Length then Ok else Limit;
    assert dst[..][..state.used] == dst[..state.used];
  }

  method RenderStanding(state: RenderState, s: Standing)
    requires state.Valid() && state.ideal == []
    modifies state, state.dst
    ensures state.Valid() && state.ideal == PiecesText(StandingPieces(s))
  {
    assert PiecesText([]) == [];
    hide PiecesText, RenderState.Valid;
    ghost var log := [Verbatim(s.contract)];
    assert [] + log == log;
    state.AppendPieces([Verbatim(s.contract)], []);
    state.AppendOptional(s.directive, [Verbatim("(directive "), Quoted(s.directive), Verbatim(")\n")], log);
    log := log + Optional(s.directive, [Verbatim("(directive "), Quoted(s.directive), Verbatim(")\n")]);
    state.AppendOptional(s.profile, [Verbatim(s.profile), Verbatim("\n")], log);
    log := log + Optional(s.profile, [Verbatim(s.profile), Verbatim("\n")]);
    state.AppendOptional(s.goal, [Verbatim("(goal "), Quoted(s.goal), Verbatim(")\n")], log);
    log := log + Optional(s.goal, [Verbatim("(goal "), Quoted(s.goal), Verbatim(")\n")]);
    state.AppendOptional(s.tools, [Verbatim("(tools\n"), Verbatim(s.tools), Verbatim(")\n")], log);
    log := log + Optional(s.tools, [Verbatim("(tools\n"), Verbatim(s.tools), Verbatim(")\n")]);
    state.AppendOptional(s.exemplars, [Verbatim("(examples\n"), Verbatim(s.exemplars), Verbatim(")\n")], log);
  }

  method RenderTick(state: RenderState, t: Tick, ghost before: seq<Piece>)
    requires state.Valid() && NumbersFit(TickPieces(t)) && state.ideal == PiecesText(before)
    modifies state, state.dst
    ensures state.Valid() && state.ideal == PiecesText(before) + PiecesText(TickPieces(t))
  {
    hide RenderState.Valid;
    state.AppendPieces(TickPieces(t), before);
    PiecesTextAppend(before, TickPieces(t));
  }

  /** Two renders of a run, whatever happened between them, agree on the length of the constant
      part and on every byte of it, also when the text is cut off inside it. */
  lemma {:induction false} PrefixIndependentOfTick(s: Standing, t: Tick, u: Tick, first: string, second: string,
                                                   required: nat, required': nat, prefixLen: nat, prefixLen': nat,
                                                   status: Status, status': Status)
    requires |first| == |second|
    requires Rendered(s, t, first, required, prefixLen, status)
    requires Rendered(s, u, second, required', prefixLen', status')
    ensures prefixLen == prefixLen' < |first| && first[..prefixLen] == second[..prefixLen]
    ensures first[..prefixLen] == PiecesText(StandingPieces(s))[..prefixLen]
  {
    hide PiecesText, StandingPieces, TickPieces;
    var constant := PiecesText(StandingPieces(s));
    assert FullText(s, t)[..prefixLen] == constant[..prefixLen] == FullText(s, u)[..prefixLen];
    PrefixOfPrefix(first, FullText(s, t), Min(|FullText(s, t)|, |first| - 1), prefixLen);
    PrefixOfPrefix(second, FullText(s, u), Min(|FullText(s, u)|, |second| - 1), prefixLen);
  }

  lemma {:induction false} PrefixOfPrefix(a: string, b: string, n: nat, k: nat)
    requires k <= n <= |a| && n <= |b| && a[..n] == b[..n]
    ensures a[..k] == b[..k]
  {
    assert a[..k] == a[..n][..k];
    assert b[..k] == b[..n][..k];
  }
}
