/** Contexts in their own words: which references a context keeps, and the text it renders. */
module ContextForms {
  import opened Statuses
  import V = ContextView
  import opened ContextRender
  import T = SexprText
  import P = SexprPrint

  // ---- What is kept ---------------------------------------------------------------------------------

  /** The live items of a list, in its order. */
  lemma {:induction false} CandidatesJoin(a: seq<V.Item>, b: seq<V.Item>)
    ensures V.Candidates(a + b) == V.Candidates(a) + V.Candidates(b)
    decreases |b|
  {
    if b == [] {
      assert a + b == a;
    } else {
      var n := |b| - 1;
      assert (a + b)[..|a + b| - 1] == a + b[..n];
      CandidatesJoin(a, b[..n]);
    }
  }

  lemma {:induction false} OneCandidate(item: V.Item)
    ensures V.Candidates([item]) == if item.live then [item.ref] else []
  {
    assert [item][..0] == [];
  }

  lemma {:induction false} CandidatesAreLive(items: seq<V.Item>, ref: V.Ref)
    ensures ref in V.Candidates(items) <==> exists item | item in items :: item.live && item.ref == ref
  {
    if items != [] {
      var front, last := items[..|items| - 1], items[|items| - 1];
      CandidatesAreLive(front, ref);
      assert items == front + [last];
    }
  }

  /** Of a higher key, or of the same and not of a higher index. */
  predicate AtLeast(a: V.Ref, b: V.Ref) {
    a.key > b.key || (a.key == b.key && a.index <= b.index)
  }

  /** The k references that are kept: highest key first and equal keys by index, and nothing left out has a
      higher key than one that is kept, or the same with a lower index. */
  lemma {:induction false} KeptAreHighest(candidates: seq<V.Ref>, k: nat) returns (rest: seq<V.Ref>)
    ensures var kept := V.Take(V.Sort(candidates), k);
            && |kept| == (if |candidates| <= k then |candidates| else k)
            && multiset(kept) + multiset(rest) == multiset(candidates)
            && (forall i, j | 0 <= i < j < |kept| :: AtLeast(kept[i], kept[j]))
            && forall a, b | a in kept && b in rest :: AtLeast(a, b)
  {
    rest := V.TakenAreBest(candidates, k);
    BeforeIsHigher();
    hide V.Sort, V.Take, V.Before, AtLeast;
  }

  lemma BeforeIsHigher()
    ensures forall a: V.Ref, b: V.Ref :: !V.Before(b, a) <==> AtLeast(a, b)
  {
  }

  // ---- The text ---------------------------------------------------------------------------------------

  /** Quotes around the text; a quote, a backslash, a newline, a return and a tab are written with a backslash,
      and everything else as it is. */
  lemma {:induction false} QuoteIs(text: string)
    ensures P.Quote(text) == "\"" + Escaped(text) + "\""
  {
    if text != [] {
      QuoteIs(text[1..]);
      var e, f := P.Escape(text[1..]), Escaped(text[1..]);
      assert P.Quote(text[1..])[1..|e| + 1] == e;
      assert ("\"" + f + "\"")[1..|f| + 1] == f;
      assert |e| == |f|;
    }
  }

  function Escaped(text: string): string {
    if text == "" then ""
    else (match text[0]
          case '"' => "\\\""
          case '\\' => "\\\\"
          case '\n' => "\\n"
          case '\r' => "\\r"
          case '\t' => "\\t"
          case c => [c]) + Escaped(text[1..])
  }

  /** Decimal digits, as few as say the number. */
  lemma {:induction false} DecIs(v: nat)
    ensures T.Digits(T.Dec(v)) && T.Positional(T.Dec(v)) == v && |T.Dec(v)| > 0
    ensures |T.Dec(v)| > 1 ==> T.Dec(v)[0] != '0'
  {
    T.ValueOfDec(v);
    var digits := T.Dec(v);
    forall k | 0 <= k < |digits|
      ensures '0' <= digits[k] <= '9'
    {
      assert digits[k] in digits;
    }
    hide T.Dec;
    T.ValueIsPositional(T.Dec(v));
  }

  /** One piece after the other. */
  lemma {:induction false} OnePiece(p: Piece)
    ensures PiecesText([p]) == PieceText(p)
  {
    hide PieceText;
    assert [p][..0] == [];
    assert PiecesText([]) + PieceText(p) == PieceText(p);
  }

  lemma {:induction false} ThreePieces(a: Piece, b: Piece, c: Piece)
    ensures PiecesText([a, b, c]) == PieceText(a) + PieceText(b) + PieceText(c)
  {
    hide PieceText;
    OnePiece(a);
    assert [a, b][..1] == [a] && [a, b, c][..2] == [a, b];
  }

  /** A part that is there unless its text is empty. */
  function Part(text: string, whole: string): string {
    if text == "" then "" else whole
  }

  /** The text of everything that stays the same for a run, in its order. */
  function StandingText(s: Standing): string {
    s.contract
    + Part(s.directive, "(directive " + P.Quote(s.directive) + ")\n")
    + Part(s.profile, s.profile + "\n")
    + Part(s.goal, "(goal " + P.Quote(s.goal) + ")\n")
    + Part(s.tools, "(tools\n" + s.tools + ")\n")
    + Part(s.exemplars, "(examples\n" + s.exemplars + ")\n")
  }

  lemma {:induction false} OptionalText(text: string, a: Piece, b: Piece, c: Piece)
    ensures PiecesText(Optional(text, [a, b, c])) == Part(text, PieceText(a) + PieceText(b) + PieceText(c))
  {
    hide PieceText;
    ThreePieces(a, b, c);
  }

  lemma {:induction false} ProfileText(profile: string)
    ensures PiecesText(Optional(profile, [Verbatim(profile), Verbatim("\n")])) == Part(profile, profile + "\n")
  {
    OnePiece(Verbatim(profile));
    assert [Verbatim(profile), Verbatim("\n")][..1] == [Verbatim(profile)];
  }

  lemma {:induction false} StandingIs(s: Standing)
    ensures PiecesText(StandingPieces(s)) == StandingText(s)
  {
    hide PiecesText, P.Quote, Optional, Part;
    var a := [Verbatim(s.contract)];
    var b := Optional(s.directive, [Verbatim("(directive "), Quoted(s.directive), Verbatim(")\n")]);
    var c := Optional(s.profile, [Verbatim(s.profile), Verbatim("\n")]);
    var d := Optional(s.goal, [Verbatim("(goal "), Quoted(s.goal), Verbatim(")\n")]);
    var e := Optional(s.tools, [Verbatim("(tools\n"), Verbatim(s.tools), Verbatim(")\n")]);
    var f := Optional(s.exemplars, [Verbatim("(examples\n"), Verbatim(s.exemplars), Verbatim(")\n")]);
    OnePiece(Verbatim(s.contract));
    OptionalText(s.directive, Verbatim("(directive "), Quoted(s.directive), Verbatim(")\n"));
    ProfileText(s.profile);
    OptionalText(s.goal, Verbatim("(goal "), Quoted(s.goal), Verbatim(")\n"));
    OptionalText(s.tools, Verbatim("(tools\n"), Verbatim(s.tools), Verbatim(")\n"));
    OptionalText(s.exemplars, Verbatim("(examples\n"), Verbatim(s.exemplars), Verbatim(")\n"));
    PiecesTextAppend(a, b);
    PiecesTextAppend(a + b, c);
    PiecesTextAppend(a + b + c, d);
    PiecesTextAppend(a + b + c + d, e);
    PiecesTextAppend(a + b + c + d + e, f);
  }

  /** What is left of a budget, which is nothing when it is used up. */
  function Left(b: Budget): nat {
    if b.configured > b.consumed then b.configured - b.consumed else 0
  }

  function BudgetText(b: Budget): string {
    "  (" + b.name + " (configured " + T.Dec(b.configured) + ") (consumed " + T.Dec(b.consumed) + ") (remaining "
    + T.Dec(Left(b)) + "))\n"
  }

  function BudgetsText(budgets: seq<Budget>): string {
    if budgets == [] then "" else BudgetText(budgets[0]) + BudgetsText(budgets[1..])
  }

  lemma {:induction false} Triple(a: seq<Piece>, b: seq<Piece>, c: seq<Piece>)
    ensures PiecesText(a + b + c) == PiecesText(a) + PiecesText(b) + PiecesText(c)
  {
    hide PiecesText;
    PiecesTextAppend(a, b);
    PiecesTextAppend(a + b, c);
  }

  lemma {:induction false} BudgetIs(b: Budget)
    ensures PiecesText(b.Pieces()) == BudgetText(b)
  {
    var first := [Verbatim("  ("), Verbatim(b.name), Verbatim(" (configured ")];
    var second := [Number(b.configured), Verbatim(") (consumed "), Number(b.consumed)];
    var third := [Verbatim(") (remaining "), Number(Left(b)), Verbatim("))\n")];
    assert b.Pieces() == first + second + third;
    var name, configured, consumed, left := b.name, T.Dec(b.configured), T.Dec(b.consumed), T.Dec(Left(b));
    assert PiecesText(first) == "  (" + name + " (configured " by {
      ThreePieces(first[0], first[1], first[2]);
    }
    assert PiecesText(second) == configured + ") (consumed " + consumed by {
      ThreePieces(second[0], second[1], second[2]);
    }
    assert PiecesText(third) == ") (remaining " + left + "))\n" by {
      ThreePieces(third[0], third[1], third[2]);
    }
    hide T.Dec, PiecesText, Left, Budget.Pieces;
    Triple(first, second, third);
    Regrouped("  (" + name + " (configured ", configured, ") (consumed ", consumed, ") (remaining ", left, "))\n");
  }

  lemma {:induction false} Regrouped(a: string, b: string, c: string, d: string, e: string, f: string, g: string)
    ensures a + (b + c + d) + (e + f + g) == a + b + c + d + e + f + g
  {
    assert a + (b + c + d) == a + b + c + d;
    var front := a + b + c + d;
    assert front + (e + f + g) == front + e + f + g;
  }

  lemma {:induction false} BudgetsAre(budgets: seq<Budget>)
    ensures PiecesText(BudgetPieces(budgets)) == BudgetsText(budgets)
  {
    if budgets != [] {
      var front, last := budgets[..|budgets| - 1], budgets[|budgets| - 1];
      BudgetsAre(front);
      BudgetIs(last);
      hide PiecesText, BudgetText, Budget.Pieces;
      PiecesTextAppend(BudgetPieces(front), last.Pieces());
      BudgetsEnd(budgets);
    }
  }

  lemma {:induction false} BudgetsEnd(budgets: seq<Budget>)
    requires budgets != []
    ensures BudgetsText(budgets) == BudgetsText(budgets[..|budgets| - 1]) + BudgetText(budgets[|budgets| - 1])
  {
    hide BudgetText;
    if |budgets| > 1 {
      BudgetsEnd(budgets[1..]);
      assert budgets[1..][..|budgets| - 2] == budgets[..|budgets| - 1][1..];
    } else {
      assert budgets[..0] == [] && budgets[1..] == [];
    }
  }

  /** The whole text of a context. */
  lemma {:induction false} FullTextIs(s: Standing, t: Tick)
    ensures FullText(s, t)
         == StandingText(s) + ("(budgets\n" + BudgetsText(t.budgets) + ")\n" + PiecesText(t.blocks))
  {
    StandingIs(s);
    BudgetsAre(t.budgets);
    hide PiecesText, StandingText, BudgetsText, StandingPieces, BudgetPieces;
    var a, b, c := [Verbatim("(budgets\n")], BudgetPieces(t.budgets), [Verbatim(")\n")];
    OnePiece(a[0]);
    OnePiece(c[0]);
    PiecesTextAppend(a, b);
    PiecesTextAppend(a + b, c);
    PiecesTextAppend(a + b + c, t.blocks);
  }
}
