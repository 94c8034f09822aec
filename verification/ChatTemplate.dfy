/** The sliding chat transcript of src/chat/chat_template.c: whole exchanges are dropped from
    the front of one NUL-terminated buffer to make room for the next turn. */
module ChatTemplate {
  import opened Statuses

  const USER_MARK := "<start_of_turn>user"
  const USER_OPEN := USER_MARK + "\n"
  const TURN_CLOSE := "<end_of_turn>\n"
  const MODEL_OPEN := "<start_of_turn>model\n"

  // ---- Where the user mark occurs ---------------------------------------------------------

  predicate Occurs(text: string, i: nat) {
    i + |USER_MARK| <= |text| && forall k :: 0 <= k < |USER_MARK| ==> text[i + k] == USER_MARK[k]
  }

  ghost predicate MarkFree(text: string) {
    forall i: nat :: !Occurs(text, i)
  }

  /** strstr for the user mark: its first occurrence at or after `from`, or the end. */
  function FindMark(text: string, from: nat): (i: nat)
    requires from <= |text|
    ensures from <= i <= |text| && (i < |text| ==> Occurs(text, i))
    ensures forall k: nat :: from <= k < i ==> !Occurs(text, k)
    decreases |text| - from
  {
    if from == |text| || Occurs(text, from) then from else FindMark(text, from + 1)
  }

  /** x ends a line, or y opens with '<': no mark can straddle the two. */
  predicate Seam(x: string, y: string) {
    x == [] || x[|x| - 1] == '\n' || y == [] || y[0] == '<'
  }

  lemma {:induction false} NoStraddling(x: string, y: string, i: nat)
    requires Seam(x, y) && i < |x| < i + |USER_MARK|
    ensures !Occurs(x + y, i)
  {
    if y != [] {
      // One of the two letters at the seam differs from the mark's.
      var before, after := |x| - 1 - i, |x| - i;
      assert (x + y)[i + before] == x[|x| - 1] && (x + y)[i + after] == y[0];
      assert USER_MARK[before] != '\n' && USER_MARK[after] != '<';
    }
  }

  lemma {:induction false} OccursInConcat(x: string, y: string, i: nat)
    requires Seam(x, y)
    ensures i < |x| ==> (Occurs(x + y, i) <==> Occurs(x, i))
    ensures i >= |x| ==> (Occurs(x + y, i) <==> Occurs(y, i - |x|))
  {
    var n := |USER_MARK|;
    if i < |x| < i + n {
      NoStraddling(x, y, i);
    } else if i >= |x| && i + n <= |x + y| {
      if Occurs(x + y, i) {
        forall k | 0 <= k < n
          ensures y[(i - |x|) + k] == USER_MARK[k]
        {
          assert (x + y)[i + k] == USER_MARK[k];
        }
      }
      if Occurs(y, i - |x|) {
        forall k | 0 <= k < n
          ensures (x + y)[i + k] == USER_MARK[k]
        {
          assert y[(i - |x|) + k] == USER_MARK[k];
        }
      }
    }
  }

  /** Begins with the user mark, has no other, ends a line, and holds no NUL. */
  ghost predicate Segment(s: string) {
    Occurs(s, 0) && (forall i: nat :: i > 0 ==> !Occurs(s, i)) && s[|s| - 1] == '\n' && '\0' !in s
  }

  lemma {:induction false} SegmentGrows(s: string, more: string)
    requires Segment(s) && MarkFree(more) && '\0' !in more && more != [] && more[|more| - 1] == '\n'
    ensures Segment(s + more)
  {
    OccursInConcat(s, more, 0);
    forall i: nat | i > 0
      ensures !Occurs(s + more, i)
    {
      OccursInConcat(s, more, i);
    }
  }

  lemma {:induction false} ClosedTurnMarkFree(text: string, tail: string)
    requires MarkFree(text) && (tail == TURN_CLOSE || tail == TURN_CLOSE + MODEL_OPEN)
    ensures MarkFree(text + tail)
  {
    forall i: nat
      ensures !Occurs(text + tail, i)
    {
      OccursInConcat(text, tail, i);
      if i >= |text| {
        TailMarkFree(tail, i - |text|);
      }
    }
  }

  lemma {:induction false} TailMarkFree(tail: string, j: nat)
    requires tail == TURN_CLOSE || tail == TURN_CLOSE + MODEL_OPEN
    ensures !Occurs(tail, j)
  {
    if j + |USER_MARK| <= |tail| {
      var k := if j == 0 then 1 else if j == |TURN_CLOSE| then 15 else 0;
      assert tail[j + k] != USER_MARK[k];
    }
  }

  // ---- Eviction ---------------------------------------------------------------------------------

  predicate Fits(text: string, need: nat, capacity: nat) {
    |text| + need + 1 <= capacity
  }

  /** Where the next exchange of a transcript begins: at its next mark, or nowhere. */
  function Next(text: string): (i: nat)
    requires text != []
    ensures 0 < i <= |text| && (i < |text| ==> Occurs(text, i))
    ensures forall k: nat :: 0 < k < i ==> !Occurs(text, k)
  {
    FindMark(text, 1)
  }

  /** make_room: drop from the front up to the next mark until it fits, or no mark is left. */
  function Evicted(text: string, need: nat, capacity: nat): string
    decreases |text|
  {
    if Fits(text, need, capacity) || text == [] || Next(text) == |text| then text
    else Evicted(text[Next(text)..], need, capacity)
  }

  /** Where a transcript may be cut. */
  predicate Boundary(text: string, i: nat) {
    i == 0 || Occurs(text, i)
  }

  ghost predicate NoLaterMark(text: string) {
    forall i: nat :: i > 0 ==> !Occurs(text, i)
  }

  lemma {:induction false} OccursLater(text: string, n: nat, i: nat)
    requires n <= |text|
    ensures Occurs(text[n..], i) <==> Occurs(text, n + i)
  {
    var rest := text[n..];
    if Occurs(text, n + i) {
      forall k | 0 <= k < |USER_MARK|
        ensures rest[i + k] == USER_MARK[k]
      {
        assert text[(n + i) + k] == USER_MARK[k];
      }
    }
    if Occurs(rest, i) {
      forall k | 0 <= k < |USER_MARK|
        ensures text[(n + i) + k] == USER_MARK[k]
      {
        assert rest[i + k] == USER_MARK[k];
      }
    }
  }

  /** Whatever the texts said: what is kept is the longest part from a mark on that leaves room, or the
      part behind the last mark. */
  lemma {:induction false} EvictedIsLongest(text: string, need: nat, capacity: nat)
    ensures var kept := Evicted(text, need, capacity); var dropped := |text| - |kept|;
            && dropped >= 0 && kept == text[dropped..] && Boundary(text, dropped) && (text != [] ==> kept != [])
            && (Fits(kept, need, capacity) || NoLaterMark(kept))
            && forall i: nat :: i < dropped && Boundary(text, i) ==> !Fits(text[i..], need, capacity)
    decreases |text|
  {
    hide Occurs, FindMark;
    if Fits(text, need, capacity) || text == [] || Next(text) == |text| {
      assert text[0..] == text;
      NoMarkBehind(text);
    } else {
      var n := Next(text);
      var rest, kept := text[n..], Evicted(text, need, capacity);
      EvictedIsLongest(rest, need, capacity);
      var d := |rest| - |kept|;
      assert text[n + d..] == rest[d..];
      OccursLater(text, n, d);
      forall i: nat | i < n + d && Boundary(text, i)
        ensures !Fits(text[i..], need, capacity)
      {
        if i > 0 {
          assert i >= n && text[i..] == rest[i - n..];
          OccursLater(text, n, i - n);
        }
      }
    }
  }

  lemma {:induction false} NoMarkBehind(text: string)
    ensures text == [] || Next(text) == |text| ==> NoLaterMark(text)
  {
  }

  /** A turn is accepted exactly when it fits beside some part of the transcript that begins at a mark;
      room in an empty buffer is not enough. */
  lemma {:induction false} AcceptedIff(text: string, need: nat, capacity: nat)
    ensures Fits(Evicted(text, need, capacity), need, capacity)
       <==> exists i: nat :: i <= |text| && Boundary(text, i) && Fits(text[i..], need, capacity)
  {
    var kept := Evicted(text, need, capacity);
    var d := |text| - |kept|;
    EvictedIsLongest(text, need, capacity);
    hide Evicted, Occurs;
    forall i: nat | i <= |text| && Boundary(text, i) && !Fits(kept, need, capacity)
      ensures !Fits(text[i..], need, capacity)
    {
      if i > d {
        OccursLater(text, d, i - d);
      }
    }
  }

  /** A refused turn leaves the transcript as it was exactly when it holds one mark only. */
  lemma {:induction false} RefusalUnchangedIff(text: string, need: nat, capacity: nat)
    requires !Fits(Evicted(text, need, capacity), need, capacity)
    ensures Evicted(text, need, capacity) == text <==> NoLaterMark(text)
  {
    EvictedIsLongest(text, need, capacity);
    hide Occurs;
  }

  // ---- Exchanges --------------------------------------------------------------------------------

  function Join(segments: seq<string>): string {
    if segments == [] then [] else segments[0] + Join(segments[1..])
  }

  ghost predicate Segments(segments: seq<string>) {
    forall s | s in segments :: Segment(s)
  }

  /** The first exchange is dropped as a whole exactly when it holds no mark behind its own. */
  lemma {:induction false} FirstCutIff(first: string, rest: string)
    requires Occurs(first, 0) && first[|first| - 1] == '\n' && (rest == [] || Occurs(rest, 0))
    ensures Next(first + rest) == |first| <==> NoLaterMark(first)
  {
    forall i: nat
      ensures i < |first| ==> (Occurs(first + rest, i) <==> Occurs(first, i))
      ensures i >= |first| ==> (Occurs(first + rest, i) <==> Occurs(rest, i - |first|))
    {
      OccursInConcat(first, rest, i);
    }
    hide Occurs, FindMark;
    assert rest != [] ==> Occurs(first + rest, |first|);
    var next := Next(first + rest);
    if next < |first| {
      assert Occurs(first, next);
    } else {
      forall i: nat | 0 < i < |first|
        ensures !Occurs(first, i)
      {
        assert !Occurs(first + rest, i);
      }
      OccursWithin(first);
    }
  }

  lemma OccursWithin(text: string)
    ensures forall i: nat :: Occurs(text, i) ==> i < |text|
  {
  }

  /** Text between two turn markers holds what marks its message holds. */
  lemma {:induction false} MarksOfMessage(message: string, tail: string, i: nat)
    requires tail == TURN_CLOSE || tail == TURN_CLOSE + MODEL_OPEN
    ensures Occurs(message + tail, i) <==> Occurs(message, i)
  {
    OccursInConcat(message, tail, i);
    if i >= |message| {
      TailMarkFree(tail, i - |message|);
    }
  }

  lemma {:induction false} MarksOfTurn(message: string, i: nat)
    requires i > 0
    ensures Occurs(UserTurn(message), i) <==> i >= |USER_OPEN| && Occurs(message, i - |USER_OPEN|)
  {
    OccursInConcat(USER_OPEN, message + (TURN_CLOSE + MODEL_OPEN), i);
    OpenIsSegment();
    if i >= |USER_OPEN| {
      MarksOfMessage(message, TURN_CLOSE + MODEL_OPEN, i - |USER_OPEN|);
    }
  }

  /** A user turn is one exchange exactly when its message holds no mark. */
  lemma {:induction false} OneExchangeIff(message: string)
    ensures NoLaterMark(UserTurn(message)) <==> MarkFree(message)
  {
    forall i: nat | i > 0
      ensures Occurs(UserTurn(message), i) <==> i >= |USER_OPEN| && Occurs(message, i - |USER_OPEN|)
    {
      MarksOfTurn(message, i);
    }
    hide Occurs;
    forall i: nat
      ensures Occurs(message, i) <==> Occurs(UserTurn(message), |USER_OPEN| + i)
    {
    }
  }

  /** A turn with its reply is one exchange exactly when neither of them holds a mark. */
  lemma {:induction false} WholeExchangeIff(message: string, reply: string)
    ensures NoLaterMark(UserTurn(message) + (reply + TURN_CLOSE)) <==> MarkFree(message) && MarkFree(reply)
  {
    var turn, end := UserTurn(message), reply + TURN_CLOSE;
    TurnEnds(message);
    forall i: nat
      ensures i < |turn| ==> (Occurs(turn + end, i) <==> Occurs(turn, i))
      ensures i >= |turn| ==> (Occurs(turn + end, i) <==> Occurs(reply, i - |turn|))
    {
      OccursInConcat(turn, end, i);
      if i >= |turn| {
        MarksOfMessage(reply, TURN_CLOSE, i - |turn|);
      }
    }
    OneExchangeIff(message);
    OccursWithin(turn);
    hide Occurs, UserTurn, MarkFree;
    assert NoLaterMark(turn + end) ==> NoLaterMark(turn);
    ReplyMarks(turn + end, reply, |turn|);
  }

  lemma TurnEnds(message: string)
    ensures var turn := UserTurn(message); turn != [] && turn[|turn| - 1] == '\n'
  {
  }

  lemma ReplyMarks(text: string, reply: string, n: nat)
    requires n > 0 && forall i: nat | i >= n :: Occurs(text, i) <==> Occurs(reply, i - n)
    ensures (forall i: nat | i >= n :: !Occurs(text, i)) <==> MarkFree(reply)
  {
    hide Occurs;
    forall i: nat
      ensures Occurs(reply, i) <==> Occurs(text, n + i)
    {
      assert n + i - n == i;
    }
  }

  /** In front of another exchange a turn with its reply is dropped as a whole exactly when neither of
      them holds a mark. */
  lemma {:induction false} DroppedWholeIff(message: string, reply: string, rest: string)
    requires rest == [] || Occurs(rest, 0)
    ensures var exchange := UserTurn(message) + (reply + TURN_CLOSE);
            Next(exchange + rest) == |exchange| <==> MarkFree(message) && MarkFree(reply)
  {
    WholeExchangeIff(message, reply);
    TurnStartsWithMark(User(message));
    OccursAtStart(UserTurn(message), reply + TURN_CLOSE);
    hide Occurs, FindMark;
    FirstCutIff(UserTurn(message) + (reply + TURN_CLOSE), rest);
  }

  /** A message that holds a mark, answered by an empty reply in a buffer that has room for the turn
      alone: the exchange is cut open, and what is kept begins in the message. */
  lemma {:induction false} MarkInMessageCutsInside()
    ensures var turn := UserTurn(USER_MARK); var turns := [User(USER_MARK), Reply("")];
            && Transcript(turns[..1], |turn| + 1) == turn
            && Transcript(turns, |turn| + 1) == USER_MARK + TURN_CLOSE + MODEL_OPEN + TURN_CLOSE
  {
    var turn, need := UserTurn(USER_MARK), |Reply("").Said()|;
    var kept := USER_MARK + TURN_CLOSE + MODEL_OPEN;
    var capacity := |turn| + 1;
    NextInMessage();
    assert turn[|USER_OPEN|..] == kept;
    assert Reply("").Said() == TURN_CLOSE && User(USER_MARK).Said() == turn;
    var turns := [User(USER_MARK), Reply("")];
    assert turns[..1] == [turns[0]] && turns[..1][..0] == [] && turns[..|turns| - 1] == turns[..1];
    hide Occurs, FindMark, UserTurn, Turn.Said;
    assert Fits([], |turn|, capacity) && Evicted([], |turn|, capacity) == [];
    assert After([], User(USER_MARK), capacity) == [] + turn == turn;
    assert Fits(kept, need, capacity) && !Fits(turn, need, capacity);
    assert Evicted(turn, need, capacity) == Evicted(kept, need, capacity) == kept;
    assert Transcript(turns[..1], capacity) == After(Transcript([], capacity), User(USER_MARK), capacity);
  }

  lemma {:induction false} NextInMessage()
    ensures UserTurn(USER_MARK) != [] && Next(UserTurn(USER_MARK)) == |USER_OPEN|
  {
    var turn := UserTurn(USER_MARK);
    forall i: nat | i > 0
      ensures Occurs(turn, i) <==> i >= |USER_OPEN| && Occurs(USER_MARK, i - |USER_OPEN|)
    {
      MarksOfTurn(USER_MARK, i);
    }
    assert Occurs(USER_MARK, 0);
    hide Occurs, FindMark;
    assert Occurs(turn, |USER_OPEN|);
  }

  lemma {:induction false} DropExchange(segments: seq<string>)
    requires segments != [] && Segments(segments)
    ensures Segments(segments[1..]) && Join(segments) != []
    ensures Next(Join(segments)) == |segments[0]| && Join(segments)[|segments[0]|..] == Join(segments[1..])
    ensures |segments| == 1 <==> |segments[0]| == |Join(segments)|
  {
    var first, rest := segments[0], segments[1..];
    assert first in segments && forall s | s in rest :: s in segments;
    if rest != [] {
      StartsWithMark(rest);
    }
    FirstCutIff(first, Join(rest));
  }

  lemma {:induction false} StartsWithMark(segments: seq<string>)
    requires Segments(segments) && segments != []
    ensures Occurs(Join(segments), 0)
  {
    assert segments[0] in segments;
    OccursInConcat(segments[0], Join(segments[1..]), 0);
  }

  /** With mark-free messages whole exchanges are dropped, and never the last one. */
  lemma {:induction false} EvictsWholeExchanges(segments: seq<string>, need: nat, capacity: nat)
    returns (kept: seq<string>)
    requires Segments(segments)
    ensures Evicted(Join(segments), need, capacity) == Join(kept) && Segments(kept)
    ensures IsSuffix(kept, segments) && (segments != [] ==> kept != [])
  {
    hide Segment, Occurs, FindMark;
    kept := segments;
    if segments != [] {
      DropExchange(segments);
      if |segments| > 1 && !Fits(Join(segments), need, capacity) {
        kept := EvictsWholeExchanges(segments[1..], need, capacity);
      }
    }
  }

  lemma {:induction false} JoinAppend(a: seq<string>, b: seq<string>)
    ensures Join(a + b) == Join(a) + Join(b)
  {
    if a == [] {
      assert a + b == b;
    } else {
      assert (a + b)[1..] == a[1..] + b;
      JoinAppend(a[1..], b);
    }
  }

  lemma JoinOne(s: string)
    ensures Join([s]) == s
  {
    assert Join([s]) == s + Join([]);
  }

  function UserTurn(message: string): string {
    USER_OPEN + (message + (TURN_CLOSE + MODEL_OPEN))
  }

  lemma {:induction false} UserTurnIsSegment(message: string)
    requires MarkFree(message) && '\0' !in message
    ensures Segment(UserTurn(message))
  {
    ClosedTurnMarkFree(message, TURN_CLOSE + MODEL_OPEN);
    OpenIsSegment();
    SegmentGrows(USER_OPEN, message + (TURN_CLOSE + MODEL_OPEN));
  }

  lemma {:induction false} OpenIsSegment()
    ensures Segment(USER_OPEN)
  {
    forall i: nat | i > 0
      ensures !Occurs(USER_OPEN, i)
    {
      if i + |USER_MARK| <= |USER_OPEN| {
        assert USER_OPEN[i + 0] != USER_MARK[0];
      }
    }
  }

  predicate IsSuffix<T(==)>(s: seq<T>, all: seq<T>) {
    |s| <= |all| && all[|all| - |s|..] == s
  }

  // ---- Whole conversations ------------------------------------------------------------------------

  datatype Turn = User(message: string) | Reply(text: string) {
    /** What the turn adds; a reply closes the open model turn. */
    function Said(): string {
      if User? then UserTurn(message) else text + TURN_CLOSE
    }

    ghost predicate Plain() {
      if User? then MarkFree(message) && '\0' !in message else MarkFree(text) && '\0' !in text
    }
  }

  predicate Accepts(text: string, turn: Turn, capacity: nat) {
    Fits(Evicted(text, |turn.Said()|, capacity), |turn.Said()|, capacity)
  }

  function After(text: string, turn: Turn, capacity: nat): string {
    Evicted(text, |turn.Said()|, capacity) + if Accepts(text, turn, capacity) then turn.Said() else []
  }

  /** The transcript after these turns, accepted or not. */
  function Transcript(turns: seq<Turn>, capacity: nat): string {
    if turns == [] then []
    else After(Transcript(turns[..|turns| - 1], capacity), turns[|turns| - 1], capacity)
  }

  /** A user turn opens an exchange, a reply closes the last one. */
  function WithTurn(exchanges: seq<string>, turn: Turn): seq<string> {
    if turn.User? || exchanges == [] then exchanges + [turn.Said()]
    else
      var n := |exchanges| - 1;
      exchanges[..n] + [exchanges[n] + turn.Said()]
  }

  /** The exchanges that the accepted turns make up. */
  function Exchanges(turns: seq<Turn>, capacity: nat): seq<string> {
    if turns == [] then []
    else
      var n := |turns| - 1;
      var before := Exchanges(turns[..n], capacity);
      if Accepts(Transcript(turns[..n], capacity), turns[n], capacity) then WithTurn(before, turns[n]) else before
  }

  /** Every reply comes to a transcript that is not empty. */
  predicate Orderly(turns: seq<Turn>, capacity: nat) {
    turns == []
    || (&& Orderly(turns[..|turns| - 1], capacity)
        && (turns[|turns| - 1].Reply? ==> Transcript(turns[..|turns| - 1], capacity) != []))
  }

  lemma {:induction false} OccursAtStart(x: string, y: string)
    requires Occurs(x, 0)
    ensures Occurs(x + y, 0)
  {
    forall k | 0 <= k < |USER_MARK|
      ensures (x + y)[0 + k] == USER_MARK[k]
    {
      assert x[0 + k] == USER_MARK[k];
    }
  }

  /** Whatever the messages say, a transcript begins at a user turn. */
  lemma {:induction false} BeginsAtUserTurn(turns: seq<Turn>, capacity: nat)
    requires Orderly(turns, capacity)
    ensures Transcript(turns, capacity) == [] || Occurs(Transcript(turns, capacity), 0)
  {
    if turns != [] {
      var front, turn := turns[..|turns| - 1], turns[|turns| - 1];
      var text := Transcript(front, capacity);
      BeginsAtUserTurn(front, capacity);
      var kept := Evicted(text, |turn.Said()|, capacity);
      EvictedIsLongest(text, |turn.Said()|, capacity);
      OccursLater(text, |text| - |kept|, 0);
      hide Occurs, Evicted;
      if kept != [] {
        OccursAtStart(kept, turn.Said());
        assert kept + [] == kept;
      } else {
        TurnStartsWithMark(turn);
        assert [] + turn.Said() == turn.Said();
      }
    }
  }

  lemma {:induction false} TurnStartsWithMark(turn: Turn)
    ensures turn.User? ==> Occurs(turn.Said(), 0)
  {
    if turn.User? {
      OpenIsSegment();
      OccursAtStart(USER_OPEN, turn.message + (TURN_CLOSE + MODEL_OPEN));
    }
  }

  /** With mark-free texts a transcript is the last exchanges of the conversation, each of them whole. */
  lemma {:induction false} TranscriptIsExchanges(turns: seq<Turn>, capacity: nat) returns (segments: seq<string>)
    requires Orderly(turns, capacity) && forall turn | turn in turns :: turn.Plain()
    ensures Transcript(turns, capacity) == Join(segments) && Segments(segments)
    ensures IsSuffix(segments, Exchanges(turns, capacity))
  {
    segments := [];
    if turns != [] {
      var n := |turns| - 1;
      var front, turn := turns[..n], turns[n];
      assert turns == front + [turn];
      var before := TranscriptIsExchanges(front, capacity);
      var all, text, need := Exchanges(front, capacity), Transcript(front, capacity), |turn.Said()|;
      hide Transcript, Exchanges, Segment, Occurs, Evicted, Turn.Plain, Turn.Said;
      var kept := EvictsWholeExchanges(before, need, capacity);
      SuffixOfSuffix(kept, before, all);
      if Accepts(text, turn, capacity) {
        TurnTaken(turn, kept, all);
        segments := WithTurn(kept, turn);
      } else {
        segments := kept;
        assert Join(kept) + [] == Join(kept);
      }
      ExchangesNext(turns, capacity);
      TranscriptNext(turns, capacity);
    }
  }

  lemma ExchangesNext(turns: seq<Turn>, capacity: nat)
    requires turns != []
    ensures var n := |turns| - 1;
            Exchanges(turns, capacity)
            == if Accepts(Transcript(turns[..n], capacity), turns[n], capacity) then
                 WithTurn(Exchanges(turns[..n], capacity), turns[n])
               else Exchanges(turns[..n], capacity)
  {
  }

  lemma TranscriptNext(turns: seq<Turn>, capacity: nat)
    requires turns != []
    ensures Transcript(turns, capacity)
         == After(Transcript(turns[..|turns| - 1], capacity), turns[|turns| - 1], capacity)
  {
  }

  lemma SuffixOfSuffix(a: seq<string>, b: seq<string>, c: seq<string>)
    requires IsSuffix(a, b) && IsSuffix(b, c)
    ensures IsSuffix(a, c)
  {
  }

  /** An accepted turn extends the exchanges that were kept like those of the whole conversation. */
  lemma {:induction false} TurnTaken(turn: Turn, kept: seq<string>, all: seq<string>)
    requires turn.Plain() && Segments(kept) && IsSuffix(kept, all) && (turn.Reply? ==> kept != [])
    ensures var segments := WithTurn(kept, turn);
            Join(segments) == Join(kept) + turn.Said() && Segments(segments) && IsSuffix(segments, WithTurn(all, turn))
  {
    if turn.User? {
      UserTurnIsSegment(turn.message);
      hide Join, Segment, UserTurn;
      JoinAppend(kept, [turn.Said()]);
      JoinOne(turn.Said());
    } else {
      ReplyTaken(turn.text, kept, all);
    }
  }

  lemma {:induction false} ReplyTaken(reply: string, kept: seq<string>, all: seq<string>)
    requires Reply(reply).Plain() && Segments(kept) && IsSuffix(kept, all) && kept != []
    ensures var segments := WithTurn(kept, Reply(reply));
            && Join(segments) == Join(kept) + Reply(reply).Said() && Segments(segments)
            && IsSuffix(segments, WithTurn(all, Reply(reply)))
  {
    var n, said := |kept| - 1, reply + TURN_CLOSE;
    var last := kept[n];
    assert last in kept;
    ClosedTurnMarkFree(reply, TURN_CLOSE);
    SegmentGrows(last, said);
    hide Join, Segment, MarkFree, IsSuffix;
    JoinExtended(kept, said);
    LastsExtended(kept, all, said);
  }

  lemma {:induction false} JoinExtended(segments: seq<string>, more: string)
    requires segments != []
    ensures var n := |segments| - 1;
            Join(segments[..n] + [segments[n] + more]) == Join(segments) + more
  {
    hide Join;
    var n := |segments| - 1;
    var last := segments[n];
    assert segments == segments[..n] + [last];
    JoinAppend(segments[..n], [last]);
    JoinAppend(segments[..n], [last + more]);
    JoinOne(last);
    JoinOne(last + more);
  }

  lemma LastsExtended(a: seq<string>, b: seq<string>, more: string)
    requires IsSuffix(a, b) && a != []
    ensures b != [] && b[|b| - 1] == a[|a| - 1]
    ensures IsSuffix(a[..|a| - 1] + [a[|a| - 1] + more], b[..|b| - 1] + [b[|b| - 1] + more])
  {
    assert b == b[..|b| - |a|] + a;
  }

  // ---- A turn in words ------------------------------------------------------------------------------

  /** A user turn begins here. */
  predicate UserTurnAt(text: string, i: nat) {
    i + 19 <= |text| && text[i..i + 19] == "<start_of_turn>user"
  }

  lemma {:induction false} OccursIsMark(text: string, i: nat)
    ensures Occurs(text, i) <==> UserTurnAt(text, i)
  {
    if i + 19 <= |text| {
      var part := text[i..i + 19];
      assert forall k :: 0 <= k < 19 ==> part[k] == text[i + k];
      if Occurs(text, i) {
        assert part == USER_MARK;
      }
    }
  }

  /** The first d characters were dropped: nothing, or all in front of a user turn. */
  predicate CutAt(text: string, d: nat) {
    d == 0 || (d <= |text| && UserTurnAt(text, d))
  }

  /** What a turn that says this does to a transcript: of all cuts that leave room for it in the buffer, with
      its final NUL, the shortest is made and the turn is added; if no cut does, the longest is made and the
      turn is refused. */
  ghost predicate TakesTurn(before: string, after: string, said: string, capacity: nat, status: Status) {
    exists d: nat :: d <= |before| && CutAt(before, d) && TakesTurnFrom(before, after, said, capacity, status, d)
  }

  ghost predicate TakesTurnFrom(before: string, after: string, said: string, capacity: nat, status: Status, d: nat)
    requires d <= |before|
  {
    && (forall i: nat :: i < d && CutAt(before, i) ==> |before| - i + |said| + 1 > capacity)
    && if |before| - d + |said| + 1 <= capacity then status == Ok && after == before[d..] + said
       else status == Limit && after == before[d..] && forall i: nat :: i > d ==> !UserTurnAt(before, i)
  }

  lemma {:induction false} CutInWords(text: string, said: string, capacity: nat) returns (d: nat)
    ensures d <= |text| && CutAt(text, d) && Evicted(text, |said|, capacity) == text[d..]
    ensures forall i: nat :: i < d && CutAt(text, i) ==> |text| - i + |said| + 1 > capacity
    ensures |text| - d + |said| + 1 > capacity ==> forall i: nat :: i > d ==> !UserTurnAt(text, i)
  {
    var kept := Evicted(text, |said|, capacity);
    EvictedIsLongest(text, |said|, capacity);
    d := |text| - |kept|;
    forall i: nat
      ensures Occurs(text, i) <==> UserTurnAt(text, i)
    {
      OccursIsMark(text, i);
    }
    hide Occurs, UserTurnAt, Evicted;
    forall i: nat | i < d && CutAt(text, i)
      ensures |text| - i + |said| + 1 > capacity
    {
      assert Boundary(text, i) && |text[i..]| == |text| - i;
    }
    forall i: nat | i > d && |text| - d + |said| + 1 > capacity
      ensures !UserTurnAt(text, i)
    {
      OccursLater(text, d, i - d);
      assert !Occurs(kept, i - d);
    }
  }

  lemma {:induction false} TakenInWords(text: string, said: string, capacity: nat)
    ensures var kept := Evicted(text, |said|, capacity);
            if Fits(kept, |said|, capacity) then TakesTurn(text, kept + said, said, capacity, Ok)
            else TakesTurn(text, kept, said, capacity, Limit)
  {
    var d := CutInWords(text, said, capacity);
    hide CutAt, Evicted, UserTurnAt;
    var kept := text[d..];
    if Fits(kept, |said|, capacity) {
      assert TakesTurnFrom(text, kept + said, said, capacity, Ok, d);
    } else {
      assert TakesTurnFrom(text, kept, said, capacity, Limit, d);
    }
  }

  lemma UserTurnIs(message: string)
    ensures UserTurn(message) == "<start_of_turn>user\n" + message + "<end_of_turn>\n<start_of_turn>model\n"
  {
    assert TURN_CLOSE + MODEL_OPEN == "<end_of_turn>\n<start_of_turn>model\n";
    assert USER_OPEN == "<start_of_turn>user\n";
    hide *;
  }

  // ---- The buffer -----------------------------------------------------------------------------------

  class History {
    const buffer: array<char>
    var used: nat

    /** The transcript ends at the buffer's first NUL. */
    ghost predicate Valid()
      reads this, buffer
    {
      && (if buffer.Length == 0 then used == 0 else used < buffer.Length && buffer[used] == '\0')
      && '\0' !in buffer[..used]
    }

    ghost function Text(): string
      requires Valid()
      reads this, buffer
    {
      buffer[..used]
    }

    constructor (buffer: array<char>)
      modifies buffer
      ensures Valid() && this.buffer == buffer && Text() == []
    {
      this.buffer := buffer;
      used := 0;
      new;
      if buffer.Length > 0 {
        buffer[0] := '\0';
      }
    }

    method Reset()
      requires Valid()
      modifies this, buffer
      ensures Valid() && Text() == []
    {
      used := 0;
      if buffer.Length > 0 {
        buffer[0] := '\0';
      }
    }

    /** Slide the buffer to its next mark, if it has one. */
    method EvictOldest() returns (evicted: bool)
      requires Valid()
      modifies this, buffer
      ensures Valid() && evicted == (old(Text()) != [] && Next(old(Text())) < |old(Text())|)
      ensures Text() == if evicted then old(Text())[Next(old(Text()))..] else old(Text())
    {
      hide Occurs, FindMark;
      if used == 0 {
        return false;
      }
      var drop := Next(buffer[..used]);
      if drop == used {
        return false;
      }
      assert buffer[drop..used] == buffer[..used][drop..];
      Slide(drop);
      return true;
    }

    /** memmove to the front, terminator included. */
    method Slide(drop: nat)
      requires Valid() && 0 < buffer.Length && drop <= used
      modifies this, buffer
      ensures Valid() && Text() == old(buffer[drop..used])
    {
      ghost var kept := buffer[drop..used];
      forall k | 0 <= k <= used - drop {
        buffer[k] := buffer[drop + k];
      }
      used := used - drop;
      assert buffer[..used] == kept;
    }

    method MakeRoom(need: nat) returns (ok: bool)
      requires Valid()
      modifies this, buffer
      ensures Valid() && Text() == Evicted(old(Text()), need, buffer.Length)
      ensures ok == Fits(Text(), need, buffer.Length)
    {
      while used + need + 1 > buffer.Length
        invariant Valid()
        invariant Evicted(Text(), need, buffer.Length) == Evicted(old(Text()), need, buffer.Length)
        decreases used
      {
        var evicted := EvictOldest();
        if !evicted {
          return false;
        }
      }
      return true;
    }

    method RawAppend(text: string)
      requires Valid() && '\0' !in text && used + |text| + 1 <= buffer.Length
      modifies this, buffer
      ensures Valid() && Text() == old(Text()) + text
    {
      ghost var before := buffer[..used];
      forall k | 0 <= k < |text| {
        buffer[used + k] := text[k];
      }
      assert buffer[..used] == before;
      assert buffer[..used + |text|] == before + text;
      used := used + |text|;
      buffer[used] := '\0';
      assert buffer[..used] == before + text;
    }

    /** Append a user turn and open the model's. */
    method AddUser(message: string) returns (status: Status)
      requires Valid() && '\0' !in message
      modifies this, buffer
      ensures Valid() && Text() == After(old(Text()), User(message), buffer.Length)
      ensures status == if Accepts(old(Text()), User(message), buffer.Length) then Ok else Limit
      ensures TakesTurn(old(Text()), Text(),
                        "<start_of_turn>user\n" + message + "<end_of_turn>\n<start_of_turn>model\n", buffer.Length, status)
    {
      hide Evicted, TakesTurn;
      UserTurnIs(message);
      TakenInWords(Text(), UserTurn(message), buffer.Length);
      var need := |USER_OPEN| + |message| + |TURN_CLOSE| + |MODEL_OPEN|;
      var room := MakeRoom(need);
      if !room {
        return Limit;
      }
      ghost var kept := Text();
      AppendTurn(USER_OPEN, message, TURN_CLOSE, MODEL_OPEN);
      Regroup(kept, message);
      return Ok;
    }

    method AppendTurn(open: string, message: string, close: string, next: string)
      requires Valid() && used + |open| + |message| + |close| + |next| + 1 <= buffer.Length
      requires '\0' !in open && '\0' !in message && '\0' !in close && '\0' !in next
      modifies this, buffer
      ensures Valid() && Text() == old(Text()) + open + message + close + next
    {
      RawAppend(open);
      RawAppend(message);
      RawAppend(close);
      RawAppend(next);
    }

    /** Close the open model turn with its reply. */
    method AddAssistant(reply: string) returns (status: Status)
      requires Valid() && '\0' !in reply
      modifies this, buffer
      ensures Valid() && Text() == After(old(Text()), Reply(reply), buffer.Length)
      ensures status == if Accepts(old(Text()), Reply(reply), buffer.Length) then Ok else Limit
      ensures TakesTurn(old(Text()), Text(), reply + "<end_of_turn>\n", buffer.Length, status)
    {
      hide Evicted, TakesTurn;
      TakenInWords(Text(), reply + TURN_CLOSE, buffer.Length);
      var need := |reply| + |TURN_CLOSE|;
      var room := MakeRoom(need);
      if !room {
        return Limit;
      }
      ghost var kept := Text();
      RawAppend(reply);
      RawAppend(TURN_CLOSE);
      assert kept + reply + TURN_CLOSE == kept + (reply + TURN_CLOSE);
      return Ok;
    }
  }

  lemma Regroup(kept: string, message: string)
    ensures kept + USER_OPEN + message + TURN_CLOSE + MODEL_OPEN == kept + UserTurn(message)
  {
  }

  // ---- What a refused turn does -----------------------------------------------------------------

  /** Two exchanges, a third turn that would fit into an empty buffer: it is refused, and the
      first exchange is gone. */
  lemma {:induction false} RefusalDropsExchanges()
    ensures var a, b := UserTurn("a"), UserTurn("b");
            var need, capacity := |UserTurn("cc")|, |a| + |b| + 1;
            && Fits([], need, capacity) && Fits(a + b, 0, capacity)
            && Evicted(a + b, need, capacity) == b && !Fits(b, need, capacity)
  {
    var a, b := UserTurn("a"), UserTurn("b");
    PlainLetter("a");
    PlainLetter("b");
    UserTurnIsSegment("a");
    UserTurnIsSegment("b");
    var need, capacity := |UserTurn("cc")|, |a| + |b| + 1;
    FirstCutIff(a, b);
    NextOfLast(b);
    hide Occurs, FindMark;
    assert (a + b)[|a|..] == b;
    assert Evicted(b, need, capacity) == b;
  }

  lemma {:induction false} PlainLetter(text: string)
    requires |text| == 1
    ensures MarkFree(text)
  {
  }

  lemma {:induction false} NextOfLast(s: string)
    requires Segment(s)
    ensures s != [] && Next(s) == |s|
  {
  }
}
