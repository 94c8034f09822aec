/** Command runs in their own words: the bytes of a stream, one by one, and the words of a line. */
module CommandForms {
  import opened Statuses
  import opened CmdExecutor

  // ---- The bytes of a stream ------------------------------------------------------------------------

  predicate IsEnd(r: Read) {
    r == Eof || r == Broken
  }

  /** How many bytes the first k reads carry. */
  function Carried(made: seq<Read>, k: nat): nat
    requires k <= |made|
  {
    if k == 0 then 0 else Carried(made, k - 1) + if made[k - 1].Data? then |made[k - 1].bytes| else 0
  }

  lemma {:induction false} CarriedBehind(made: seq<Read>, k: nat)
    requires 0 < k <= |made|
    ensures Carried(made, k) == (if made[0].Data? then |made[0].bytes| else 0) + Carried(made[1..], k - 1)
  {
    if k > 1 {
      CarriedBehind(made, k - 1);
      assert made[1..][k - 2] == made[k - 1];
    } else {
      assert Carried(made, 0) == 0;
    }
  }

  /** Read i's bytes stand where those of the reads before it end. */
  predicate StandsAt(stream: string, made: seq<Read>, i: nat)
    requires i < |made|
  {
    made[i].Data? ==>
      && Carried(made, i) + |made[i].bytes| <= |stream|
      && stream[Carried(made, i)..Carried(made, i) + |made[i].bytes|] == made[i].bytes
  }

  /** A stream is the bytes of its reads one after the other, up to the first that finds the end of the pipe or
      an error: nothing is lost, repeated or reordered. */
  lemma {:induction false} StreamIs(made: seq<Read>, n: nat)
    requires n <= |made| && (forall i | 0 <= i < n :: !IsEnd(made[i])) && (n < |made| ==> IsEnd(made[n]))
    ensures |BytesOf(made)| == Carried(made, n)
    ensures forall i: nat | i < n :: StandsAt(BytesOf(made), made, i)
    ensures Ends(made) <==> n < |made|
  {
    if n > 0 {
      var rest := made[1..];
      StreamIs(rest, n - 1);
      EndsFront(made);
      CarriedBehind(made, n);
      hide Ends;
      forall i: nat | i < n
        ensures StandsAt(BytesOf(made), made, i)
      {
        if i > 0 {
          CarriedBehind(made, i);
          assert StandsAt(BytesOf(rest), rest, i - 1);
          Shifted(made, i);
        } else {
          assert Carried(made, 0) == 0;
        }
      }
    } else if made != [] {
      assert made[0] in made;
    }
  }

  lemma {:induction false} Shifted(made: seq<Read>, i: nat)
    requires 0 < i < |made| && StandsAt(BytesOf(made[1..]), made[1..], i - 1) && !IsEnd(made[0])
    requires Carried(made, i) == (if made[0].Data? then |made[0].bytes| else 0) + Carried(made[1..], i - 1)
    ensures StandsAt(BytesOf(made), made, i)
  {
    var head, tail := if made[0].Data? then made[0].bytes else [], BytesOf(made[1..]);
    assert BytesOf(made) == head + tail;
    hide BytesOf, Carried;
    if made[i].Data? {
      var at, n := Carried(made[1..], i - 1), |made[i].bytes|;
      assert (head + tail)[|head| + at..|head| + at + n] == tail[at..at + n];
    }
  }

  /** Of one poll the reads count up to the first that would block. */
  lemma {:induction false} ReadsUpToBlock(incoming: seq<Read>, n: nat)
    requires n <= |incoming| && (forall i | 0 <= i < n :: incoming[i] != WouldBlock)
    requires n < |incoming| ==> incoming[n] == WouldBlock
    ensures BeforeBlock(incoming) == incoming[..n]
  {
    if n > 0 {
      ReadsUpToBlock(incoming[1..], n - 1);
      assert incoming[..n] == [incoming[0]] + incoming[1..][..n - 1];
    }
  }

  /** The reads of a run are those of its polls, in their order; a poll that was interrupted, or does not report
      the pipe, has none. */
  lemma {:induction false} ReadsOfPoll(poll: Poll, pipe: nat)
    ensures ReadsOf([poll], pipe)
         == if poll.Ready? && pipe in poll.incoming then BeforeBlock(poll.incoming[pipe]) else []
  {
    assert [poll][..0] == [];
  }

  // ---- The words of a line ----------------------------------------------------------------------------

  predicate Blank(c: char) {
    c == ' ' || c == '\t'
  }

  /** From a to b there is a word: no blank inside, and a blank or an end of the line on both sides. */
  predicate WordAt(text: string, a: nat, b: nat) {
    && a < b <= |text| && (forall k | a <= k < b :: !Blank(text[k]))
    && (a > 0 ==> Blank(text[a - 1])) && (b < |text| ==> Blank(text[b]))
  }

  /** Word j stands at its start, and begins behind the one before it. */
  predicate WordStands(text: string, starts: seq<nat>, words: seq<string>, j: nat)
    requires |starts| == |words| && j < |words|
  {
    && WordAt(text, starts[j], starts[j] + |words[j]|) && text[starts[j]..starts[j] + |words[j]|] == words[j]
    && (j > 0 ==> starts[j - 1] + |words[j - 1]| < starts[j])
  }

  lemma {:induction false} BlanksAre(text: string)
    ensures forall k | 0 <= k < BlankRun(text) :: Blank(text[k])
    ensures BlankRun(text) < |text| ==> !Blank(text[BlankRun(text)])
  {
    if text != [] && IsBlank(text[0]) {
      BlanksAre(text[1..]);
      forall k | 0 <= k < BlankRun(text)
        ensures Blank(text[k])
      {
        assert k > 0 ==> text[k] == text[1..][k - 1];
      }
    }
  }

  lemma {:induction false} WordIs(text: string)
    ensures forall k | 0 <= k < WordRun(text) :: !Blank(text[k])
    ensures WordRun(text) < |text| ==> Blank(text[WordRun(text)])
  {
    if text != [] && !IsBlank(text[0]) {
      WordIs(text[1..]);
      forall k | 0 <= k < WordRun(text)
        ensures !Blank(text[k])
      {
        assert k > 0 ==> text[k] == text[1..][k - 1];
      }
    }
  }

  /** Where the first word behind i begins and ends, if there is one. */
  lemma {:induction false} NextWord(text: string, i: nat) returns (a: nat, b: nat)
    requires i <= |text| && (0 < i < |text| ==> Blank(text[i - 1]) || Blank(text[i]))
    ensures i <= a <= b <= |text| && (a < b ==> WordAt(text, a, b)) && (forall k | i <= k < a :: Blank(text[k]))
    ensures Words(text[i..]) == if a == b then [] else [text[a..b]] + Words(text[b..])
    ensures a == b ==> a == |text|
  {
    var rest := text[i..];
    BlanksAre(rest);
    a := i + BlankRun(rest);
    var word := SkipBlank(rest);
    assert word == text[a..];
    WordIs(word);
    b := a + WordRun(word);
    forall k | i <= k < a
      ensures Blank(text[k])
    {
      assert text[k] == rest[k - i];
    }
    forall k | a <= k < b
      ensures !Blank(text[k])
    {
      assert text[k] == word[k - a];
    }
    assert b < |text| ==> text[b] == word[b - a];
    if word != [] {
      assert word[..WordRun(word)] == text[a..b] && Behind(word) == text[b..];
    }
  }

  /** The words of a line are its maximal runs without blank or tab, all of them, in their order. */
  lemma {:induction false} WordsAre(text: string, i: nat) returns (starts: seq<nat>)
    requires i <= |text| && (0 < i < |text| ==> Blank(text[i - 1]) || Blank(text[i]))
    ensures |starts| == |Words(text[i..])| && forall j | 0 <= j < |starts| :: i <= starts[j]
    ensures forall j: nat | j < |starts| :: WordStands(text, starts, Words(text[i..]), j)
    ensures forall a: nat, b: nat | i <= a && WordAt(text, a, b) :: a in starts
    decreases |text| - i
  {
    hide Words;
    var a, b := NextWord(text, i);
    if a == b {
      starts := [];
      forall c: nat, d: nat | i <= c < |text|
        ensures !WordAt(text, c, d)
      {
        assert Blank(text[c]);
      }
    } else {
      var tail := WordsAre(text, b);
      starts := [a] + tail;
      var words, behind := Words(text[i..]), Words(text[b..]);
      forall j: nat | j < |starts|
        ensures WordStands(text, starts, words, j)
      {
        if j > 0 {
          assert WordStands(text, tail, behind, j - 1);
          StandsBehind(text, a, b, tail, behind, j);
        }
      }
      forall c: nat, d: nat | i <= c && WordAt(text, c, d)
        ensures c in starts
      {
        if c < b {
          OnlyOneWord(text, i, a, b, c, d);
        }
      }
    }
  }

  lemma {:induction false} StandsBehind(text: string, a: nat, b: nat, tail: seq<nat>, behind: seq<string>, j: nat)
    requires |tail| == |behind| && 0 < j <= |tail| && WordStands(text, tail, behind, j - 1)
    requires WordAt(text, a, b) && b <= tail[0] && (j == 1 ==> WordAt(text, tail[0], tail[0] + |behind[0]|))
    ensures WordStands(text, [a] + tail, [text[a..b]] + behind, j)
  {
    if j == 1 {
      assert b < |text| && Blank(text[b]) && !Blank(text[tail[0]]);
    }
  }

  lemma {:induction false} OnlyOneWord(text: string, i: nat, a: nat, b: nat, c: nat, d: nat)
    requires WordAt(text, a, b) && WordAt(text, c, d) && i <= c < b && i <= a && forall k | i <= k < a :: Blank(text[k])
    ensures c == a
  {
    var first, before := text[c], if c > 0 then text[c - 1] else ' ';
  }
}
