/** The multiplexing loop of src/exec/cmd_executor.c. Poll, read and the clock are the
    environment: a run is given what every poll and every read returns. */
module CmdExecutor {
  import opened Statuses

  const MAX_BATCH: nat := 32

  // ---- The environment -----------------------------------------------------------------------

  /** What one read of a pipe returns. */
  datatype Read = Data(bytes: string) | Eof | Interrupted | WouldBlock | Broken

  /** What one poll returns: for every pipe that is ready the reads that follow, up to the
      first one that would block, and the time afterwards. A poll that times out has no ready pipe. */
  datatype Poll = Interruption | Failure | Ready(incoming: map<nat, seq<Read>>, now: nat)

  // ---- What one pipe delivers, on its own -------------------------------------------------------

  datatype Flow = Flow(open: bool, delivered: string)

  /** Reading until the pipe would block or ends. */
  function Drained(f: Flow, incoming: seq<Read>): Flow
    decreases |incoming|
  {
    if incoming == [] then f
    else match incoming[0]
      case Data(bytes) => Drained(f.(delivered := f.delivered + bytes), incoming[1..])
      case Interrupted => Drained(f, incoming[1..])
      case WouldBlock => f
      case Eof => f.(open := false)
      case Broken => f.(open := false)
  }

  function AfterPoll(f: Flow, poll: Poll, pipe: nat): Flow {
    if f.open && poll.Ready? && pipe in poll.incoming then Drained(f, poll.incoming[pipe]) else f
  }

  /** The pipe after these polls; no other pipe's reads matter. */
  function FlowAfter(polls: seq<Poll>, pipe: nat, started: bool): Flow {
    if polls == [] then Flow(started, "")
    else AfterPoll(FlowAfter(polls[..|polls| - 1], pipe, started), polls[|polls| - 1], pipe)
  }

  /** What a buffer of this capacity captures of a stream: as much as fits before the terminator. */
  function Captured(stream: string, capacity: nat): string
    requires capacity > 0
  {
    stream[..Min(|stream|, capacity - 1)]
  }

  // ---- One pipe's buffer ---------------------------------------------------------------------------

  class Stream {
    const buf: array<char>
    var open: bool
    var len: nat
    var truncated: bool
    ghost var delivered: string

    ghost predicate Valid()
      reads this, buf
    {
      && len < buf.Length && buf[len] == '\0'
      && buf[..len] == Captured(delivered, buf.Length)
      && (truncated <==> |delivered| > buf.Length - 1)
    }

    /** The buffer holds what fits of `stream`. */
    ghost predicate Holds(stream: string)
      reads this, buf
    {
      Captures(buf[..], len, truncated, stream)
    }

    lemma ValidHolds()
      requires Valid()
      ensures Holds(delivered)
    {
      assert buf[..][..len] == buf[..len];
    }

    ghost function State(): Flow
      reads this
    {
      Flow(open, delivered)
    }

    constructor (buf: array<char>, started: bool)
      requires buf.Length > 0
      modifies buf
      ensures Valid() && this.buf == buf && State() == Flow(started, "")
    {
      this.buf := buf;
      open, len, truncated, delivered := started, 0, false, "";
      new;
      buf[0] := '\0';
    }

    method AppendCapped(data: string)
      requires Valid()
      modifies this`len, this`truncated, this`delivered, buf
      ensures Valid() && delivered == old(delivered) + data
    {
      var room := buf.Length - 1 - len;
      var take := Min(|data|, room);
      ghost var before := buf[..len];
      if take > 0 {
        forall k | 0 <= k < take {
          buf[len + k] := data[k];
        }
        assert buf[..len] == before;
        assert buf[..len + take] == before + data[..take];
        len := len + take;
      }
      if take < |data| {
        truncated := true;
      }
      buf[len] := '\0';
      assert buf[..len] == before + data[..take];
      CapturedAppend(delivered, data, buf.Length);
      delivered := delivered + data;
    }

    /** Read the pipe until it would block; close it at its end or on an error. */
    method Drain(incoming: seq<Read>, openFds: nat) returns (stillOpen: nat)
      requires Valid() && open && openFds > 0
      modifies this, buf
      ensures Valid() && State() == Drained(old(State()), incoming)
      ensures stillOpen == openFds - (if open then 0 else 1)
    {
      stillOpen := openFds;
      for i := 0 to |incoming|
        invariant Valid() && open && stillOpen == openFds
        invariant Drained(State(), incoming[i..]) == Drained(old(State()), incoming)
      {
        var r := incoming[i];
        assert incoming[i..][1..] == incoming[i + 1..];
        match r
        case Data(bytes) =>
          AppendCapped(bytes);
        case Interrupted =>
        case WouldBlock =>
          return;
        case _ =>
          open := false;
          return openFds - 1;
      }
    }
  }

  lemma {:induction false} CapturedAppend(stream: string, data: string, capacity: nat)
    requires capacity > 0
    ensures var room := capacity - 1 - |Captured(stream, capacity)|;
            Captured(stream + data, capacity) == Captured(stream, capacity) + data[..Min(|data|, room)]
  {
  }

  // ---- What a pipe's reads carry -------------------------------------------------------------------

  /** The reads that are made: a pipe that would block is left until it is reported again. */
  function BeforeBlock(incoming: seq<Read>): seq<Read> {
    if incoming == [] || incoming[0].WouldBlock? then [] else [incoming[0]] + BeforeBlock(incoming[1..])
  }

  function Reported(poll: Poll, pipe: nat): seq<Read> {
    if poll.Ready? && pipe in poll.incoming then BeforeBlock(poll.incoming[pipe]) else []
  }

  /** All reads of one pipe over a run, whatever else the polls report. */
  function ReadsOf(polls: seq<Poll>, pipe: nat): seq<Read> {
    if polls == [] then [] else ReadsOf(polls[..|polls| - 1], pipe) + Reported(polls[|polls| - 1], pipe)
  }

  /** The pipe has come to its end, or broken. */
  predicate Ends(made: seq<Read>) {
    exists r | r in made :: r.Eof? || r.Broken?
  }

  /** All bytes the reads carry, up to the end of the pipe. */
  function BytesOf(made: seq<Read>): string {
    if made == [] || made[0].Eof? || made[0].Broken? then []
    else (if made[0].Data? then made[0].bytes else []) + BytesOf(made[1..])
  }

  lemma {:induction false} EndsFront(made: seq<Read>)
    requires made != []
    ensures Ends(made) <==> made[0].Eof? || made[0].Broken? || Ends(made[1..])
  {
    assert made == [made[0]] + made[1..];
  }

  lemma {:induction false} BytesAppend(a: seq<Read>, b: seq<Read>)
    ensures Ends(a + b) <==> Ends(a) || Ends(b)
    ensures BytesOf(a + b) == if Ends(a) then BytesOf(a) else BytesOf(a) + BytesOf(b)
  {
    if a == [] {
      assert a + b == b;
    } else {
      EndsFront(a);
      EndsFront(a + b);
      assert (a + b)[1..] == a[1..] + b;
      BytesAppend(a[1..], b);
    }
  }

  lemma Regrouped<T>(a: seq<T>, b: seq<T>, c: seq<T>)
    ensures a + b + c == a + (b + c)
  {
  }

  /** Draining a pipe appends what its reads carry. */
  lemma {:induction false} DrainedMeans(f: Flow, incoming: seq<Read>)
    requires f.open
    ensures var made := BeforeBlock(incoming);
            Drained(f, incoming) == Flow(!Ends(made), f.delivered + BytesOf(made))
    decreases |incoming|
  {
    var made := BeforeBlock(incoming);
    if made != [] {
      EndsFront(made);
      assert made[1..] == BeforeBlock(incoming[1..]);
      match incoming[0]
      case Data(bytes) =>
        DrainedMeans(f.(delivered := f.delivered + bytes), incoming[1..]);
        Regrouped(f.delivered, bytes, BytesOf(made[1..]));
      case Interrupted =>
        DrainedMeans(f, incoming[1..]);
        assert [] + BytesOf(made[1..]) == BytesOf(made[1..]);
      case _ =>
    }
    assert f.delivered + [] == f.delivered;
  }

  /** After any run a pipe has delivered exactly the bytes its own reads carry, and is open until
      its end has been read. */
  lemma {:induction false} FlowIsStream(polls: seq<Poll>, pipe: nat)
    ensures FlowAfter(polls, pipe, true) == Flow(!Ends(ReadsOf(polls, pipe)), BytesOf(ReadsOf(polls, pipe)))
    ensures FlowAfter(polls, pipe, false) == Flow(false, "")
  {
    if polls != [] {
      var front, last := polls[..|polls| - 1], polls[|polls| - 1];
      FlowIsStream(front, pipe);
      var before := ReadsOf(front, pipe);
      if last.Ready? && pipe in last.incoming {
        var incoming := last.incoming[pipe];
        BytesAppend(before, BeforeBlock(incoming));
        hide BytesOf, Ends, Drained, BeforeBlock;
        if !Ends(before) {
          DrainedMeans(FlowAfter(front, pipe, true), incoming);
        }
      } else {
        assert before + [] == before;
      }
    }
  }

  /** Runs of any lengths and interleavings leave a pipe in the same state as soon as it carries the
      same bytes, however these are cut into reads and polls, and has come to its end in both or in
      neither. */
  lemma {:induction false} StreamDecides(a: seq<Poll>, b: seq<Poll>, p: nat, q: nat, started: bool)
    requires BytesOf(ReadsOf(a, p)) == BytesOf(ReadsOf(b, q)) && (Ends(ReadsOf(a, p)) <==> Ends(ReadsOf(b, q)))
    ensures FlowAfter(a, p, started) == FlowAfter(b, q, started)
  {
    FlowIsStream(a, p);
    FlowIsStream(b, q);
  }

  lemma {:induction false} ReadsNext(polls: seq<Poll>, poll: Poll, pipe: nat)
    ensures ReadsOf(polls + [poll], pipe) == ReadsOf(polls, pipe) + Reported(poll, pipe)
  {
    assert (polls + [poll])[..|polls|] == polls;
  }

  lemma {:induction false} ReadsAppendNext(a: seq<Poll>, b: seq<Poll>, poll: Poll, pipe: nat)
    requires ReadsOf(a + b, pipe) == ReadsOf(a, pipe) + ReadsOf(b, pipe)
    ensures ReadsOf(a + (b + [poll]), pipe) == ReadsOf(a, pipe) + ReadsOf(b + [poll], pipe)
  {
    hide ReadsOf, Reported;
    assert a + (b + [poll]) == (a + b) + [poll];
    ReadsNext(a + b, poll, pipe);
    ReadsNext(b, poll, pipe);
    Regrouped(ReadsOf(a, pipe), ReadsOf(b, pipe), Reported(poll, pipe));
  }

  lemma {:induction false} ReadsAppend(a: seq<Poll>, b: seq<Poll>, pipe: nat)
    ensures ReadsOf(a + b, pipe) == ReadsOf(a, pipe) + ReadsOf(b, pipe)
  {
    if b == [] {
      assert ReadsOf(b, pipe) == [];
      hide ReadsOf;
      assert a + b == a;
    } else {
      hide ReadsOf;
      var front, last := b[..|b| - 1], b[|b| - 1];
      ReadsAppend(a, front, pipe);
      ReadsAppendNext(a, front, last, pipe);
      OneMore(b, |b| - 1);
      assert b[..|b|] == b;
    }
  }

  /** Polls that other children cause, any number of them anywhere, change nothing for a pipe. */
  lemma {:induction false} OthersIrrelevant(a: seq<Poll>, others: seq<Poll>, b: seq<Poll>, pipe: nat, started: bool)
    requires forall poll | poll in others :: poll.Ready? ==> pipe !in poll.incoming
    ensures FlowAfter(a + others + b, pipe, started) == FlowAfter(a + b, pipe, started)
  {
    NoReads(others, pipe);
    ReadsAppend(a + others, b, pipe);
    ReadsAppend(a, others, pipe);
    ReadsAppend(a, b, pipe);
    hide BytesOf, Ends, FlowAfter, ReadsOf;
    assert ReadsOf(a, pipe) + [] == ReadsOf(a, pipe);
    StreamDecides(a + others + b, a + b, pipe, pipe, started);
  }

  lemma {:induction false} NoReads(polls: seq<Poll>, pipe: nat)
    requires forall poll | poll in polls :: poll.Ready? ==> pipe !in poll.incoming
    ensures ReadsOf(polls, pipe) == []
  {
    if polls != [] {
      assert polls[|polls| - 1] in polls;
      NoReads(polls[..|polls| - 1], pipe);
    }
  }

  /** What two reads carry may as well come in one, in a later poll or with interruptions between:
      only the bytes and the end count. */
  lemma {:induction false} ChunkingIrrelevant(before: seq<Read>, x: string, gap: seq<Read>, y: string, after: seq<Read>)
    requires forall r | r in gap :: r.Interrupted?
    ensures BytesOf(before + [Data(x)] + gap + [Data(y)] + after) == BytesOf(before + [Data(x + y)] + after)
    ensures Ends(before + [Data(x)] + gap + [Data(y)] + after) <==> Ends(before + [Data(x + y)] + after)
  {
    AcrossGap(x, gap, y);
    OneRead(x + y);
    hide BytesOf, Ends;
    var cut := [Data(x)] + gap + [Data(y)];
    SameMiddle(before, cut, [Data(x + y)], after);
    assert before + cut + after == before + [Data(x)] + gap + [Data(y)] + after;
  }

  lemma {:induction false} SameMiddle(before: seq<Read>, a: seq<Read>, b: seq<Read>, after: seq<Read>)
    requires BytesOf(a) == BytesOf(b) && !Ends(a) && !Ends(b)
    ensures BytesOf(before + a + after) == BytesOf(before + b + after)
    ensures Ends(before + a + after) <==> Ends(before + b + after)
  {
    hide BytesOf, Ends;
    BytesAppend(before + a, after);
    BytesAppend(before + b, after);
    BytesAppend(before, a);
    BytesAppend(before, b);
  }

  lemma {:induction false} AcrossGap(x: string, gap: seq<Read>, y: string)
    requires forall r | r in gap :: r.Interrupted?
    ensures BytesOf([Data(x)] + gap + [Data(y)]) == x + y && !Ends([Data(x)] + gap + [Data(y)])
  {
    OnlyInterrupted(gap);
    OneRead(x);
    OneRead(y);
    hide BytesOf, Ends;
    BytesAppend([Data(x)] + gap, [Data(y)]);
    BytesAppend([Data(x)], gap);
    assert x + [] == x;
  }

  lemma {:induction false} OnlyInterrupted(made: seq<Read>)
    requires forall r | r in made :: r.Interrupted?
    ensures BytesOf(made) == [] && !Ends(made)
  {
    if made != [] {
      EndsFront(made);
      OnlyInterrupted(made[1..]);
      assert made[0] in made;
      assert [] + BytesOf(made[1..]) == BytesOf(made[1..]);
    }
  }

  lemma {:induction false} OneRead(x: string)
    ensures BytesOf([Data(x)]) == x && !Ends([Data(x)])
  {
    var made := [Data(x)];
    assert made[1..] == [];
    assert BytesOf([]) == [];
    assert BytesOf(made) == x + [];
  }

  // ---- What a buffer holds of a stream --------------------------------------------------------------

  /** A result buffer after a run: the prefix of the stream that fits before the terminator, and
      whether there was more. */
  predicate Captures(buffer: string, len: nat, truncated: bool, stream: string) {
    && |buffer| > 0 && len == Min(|stream|, |buffer| - 1)
    && buffer[..len] == stream[..len] && buffer[len] == '\0' && (truncated <==> |stream| > |buffer| - 1)
  }

  /** The stream a child has written to a pipe, as far as it was read. */
  function StreamOf(polls: seq<Poll>, pipe: nat, started: bool): string {
    if started then BytesOf(ReadsOf(polls, pipe)) else []
  }

  /** Two runs of any lengths, interleavings and chunkings in which a pipe carries the same bytes leave
      the same text, length and truncation flag in buffers of the same size. */
  lemma {:induction false} RunsAgree(a: seq<Poll>, p: nat, b: seq<Poll>, q: nat, started: bool,
                                     buffer: string, len: nat, truncated: bool,
                                     buffer': string, len': nat, truncated': bool)
    requires BytesOf(ReadsOf(a, p)) == BytesOf(ReadsOf(b, q)) && |buffer| == |buffer'|
    requires Captures(buffer, len, truncated, StreamOf(a, p, started))
    requires Captures(buffer', len', truncated', StreamOf(b, q, started))
    ensures len == len' < |buffer| && buffer[..len + 1] == buffer'[..len + 1] && truncated == truncated'
  {
    hide BytesOf, ReadsOf;
    assert len == len' && buffer[..len] == buffer'[..len];
    hide Captures, StreamOf;
    assert buffer[..len + 1] == buffer[..len] + [buffer[len]];
    assert buffer'[..len + 1] == buffer'[..len] + [buffer'[len]];
  }

  // ---- The loop ---------------------------------------------------------------------------------------

  /** Child i's deadline has passed after one of these polls while one of its pipes was open.
      Pipes 2i and 2i + 1 are its stdout and stderr. */
  predicate TimedOut(polls: seq<Poll>, i: nat, started: bool, deadline: nat) {
    polls != [] &&
    var last := polls[|polls| - 1];
    || TimedOut(polls[..|polls| - 1], i, started, deadline)
    || (deadline > 0 && last.Ready? && last.now >= deadline
        && (FlowAfter(polls, 2 * i, started).open || FlowAfter(polls, 2 * i + 1, started).open))
  }

  /** Pipe p of a started child had not come to its end after the first k polls. */
  predicate StillOpen(polls: seq<Poll>, k: nat, pipe: nat)
    requires k <= |polls|
  {
    !Ends(ReadsOf(polls[..k], pipe))
  }

  /** Poll k ended past child i's deadline, and one of its pipes had not come to its end by then. */
  predicate Overdue(polls: seq<Poll>, k: nat, i: nat, deadline: nat)
    requires k < |polls|
  {
    && deadline > 0 && polls[k].Ready? && polls[k].now >= deadline
    && (StillOpen(polls, k + 1, 2 * i) || StillOpen(polls, k + 1, 2 * i + 1))
  }

  lemma {:induction false} OverdueInFront(polls: seq<Poll>, n: nat, k: nat, i: nat, deadline: nat)
    requires k < n <= |polls|
    ensures Overdue(polls[..n], k, i, deadline) <==> Overdue(polls, k, i, deadline)
  {
    assert polls[..n][..k + 1] == polls[..k + 1];
  }

  lemma {:induction false} TimedOutNext(polls: seq<Poll>, i: nat, deadline: nat)
    requires polls != []
    ensures var n := |polls| - 1;
            && (TimedOut(polls, i, true, deadline)
                <==> TimedOut(polls[..n], i, true, deadline) || Overdue(polls, n, i, deadline))
            && (TimedOut(polls, i, false, deadline) <==> TimedOut(polls[..n], i, false, deadline))
  {
    FlowIsStream(polls, 2 * i);
    FlowIsStream(polls, 2 * i + 1);
    hide ReadsOf, Ends, FlowAfter, BytesOf;
    assert polls[..|polls|] == polls;
  }

  /** A child has timed out exactly when some poll ended past its deadline and one of its pipes had
      not come to its end by then. */
  lemma {:induction false} TimedOutMeans(polls: seq<Poll>, i: nat, deadline: nat)
    ensures TimedOut(polls, i, true, deadline) <==> exists k: nat :: k < |polls| && Overdue(polls, k, i, deadline)
    ensures !TimedOut(polls, i, false, deadline)
  {
    if polls != [] {
      var n := |polls| - 1;
      TimedOutMeans(polls[..n], i, deadline);
      TimedOutNext(polls, i, deadline);
      hide TimedOut, Overdue;
      forall k: nat | k < n
        ensures Overdue(polls[..n], k, i, deadline) <==> Overdue(polls, k, i, deadline)
      {
        OverdueInFront(polls, n, k, i, deadline);
      }
    }
  }

  /** Once both pipes of a child have come to their end it can no longer time out, however long it runs. */
  lemma {:induction false} ClosedPipesNeverTimeOut(polls: seq<Poll>, more: seq<Poll>, i: nat, deadline: nat)
    requires Ends(ReadsOf(polls, 2 * i)) && Ends(ReadsOf(polls, 2 * i + 1))
    ensures TimedOut(polls + more, i, true, deadline) <==> TimedOut(polls, i, true, deadline)
  {
    var all := polls + more;
    TimedOutMeans(polls, i, deadline);
    TimedOutMeans(all, i, deadline);
    hide TimedOut, ReadsOf, Ends;
    assert all[..|polls|] == polls;
    forall k: nat | k < |polls|
      ensures Overdue(all, k, i, deadline) <==> Overdue(polls, k, i, deadline)
    {
      OverdueInFront(all, |polls|, k, i, deadline);
    }
    forall k: nat | |polls| <= k < |all|
      ensures !Overdue(all, k, i, deadline)
    {
      assert all[..k + 1] == polls + more[..k + 1 - |polls|];
      StaysEnded(polls, more[..k + 1 - |polls|], 2 * i);
      StaysEnded(polls, more[..k + 1 - |polls|], 2 * i + 1);
    }
    hide Overdue;
  }

  lemma {:induction false} StaysEnded(polls: seq<Poll>, more: seq<Poll>, pipe: nat)
    requires Ends(ReadsOf(polls, pipe))
    ensures Ends(ReadsOf(polls + more, pipe))
  {
    hide ReadsOf, Ends;
    ReadsAppend(polls, more, pipe);
    BytesAppend(ReadsOf(polls, pipe), ReadsOf(more, pipe));
  }

  function CountTrue(flags: seq<bool>): nat {
    if flags == [] then 0 else CountTrue(flags[..|flags| - 1]) + if flags[|flags| - 1] then 1 else 0
  }

  lemma {:induction false} CountCleared(flags: seq<bool>, p: nat)
    requires p < |flags| && flags[p]
    ensures CountTrue(flags) == CountTrue(flags[p := false]) + 1
    decreases |flags|
  {
    var n := |flags| - 1;
    if p < n {
      CountCleared(flags[..n], p);
      assert flags[p := false][..n] == flags[..n][p := false];
    } else {
      assert flags[p := false][..n] == flags[..n];
    }
  }

  lemma {:induction false} NoneOpen(flags: seq<bool>)
    requires CountTrue(flags) == 0
    ensures forall p :: 0 <= p < |flags| ==> !flags[p]
  {
    if flags != [] {
      NoneOpen(flags[..|flags| - 1]);
    }
  }

  ghost function States(streams: seq<Stream>): (states: seq<Flow>)
    reads streams
    ensures |states| == |streams|
    ensures forall j :: 0 <= j < |streams| ==> states[j] == streams[j].State()
  {
    if streams == [] then [] else States(streams[..|streams| - 1]) + [streams[|streams| - 1].State()]
  }

  function Opens(states: seq<Flow>): (opens: seq<bool>)
    ensures |opens| == |states| && forall j :: 0 <= j < |states| ==> opens[j] == states[j].open
  {
    seq(|states|, j requires 0 <= j < |states| => states[j].open)
  }

  ghost function Buffers(streams: seq<Stream>): (bufs: set<array<char>>)
    ensures forall j :: 0 <= j < |streams| ==> streams[j].buf in bufs
  {
    set s | s in streams :: s.buf
  }

  ghost predicate Separate(streams: seq<Stream>) {
    forall j, k :: 0 <= j < k < |streams| ==> streams[j] != streams[k] && streams[j].buf != streams[k].buf
  }

  ghost predicate AllValid(streams: seq<Stream>)
    reads streams, Buffers(streams)
  {
    forall j :: 0 <= j < |streams| ==> streams[j].Valid()
  }

  /** The states that the pipes' own reads determine. */
  predicate Follows(states: seq<Flow>, polls: seq<Poll>, started: seq<bool>) {
    |states| == 2 * |started| && forall j :: 0 <= j < |states| ==> states[j] == FlowAfter(polls, j, started[j / 2])
  }

  /** In the middle of a round: the pipes before p have seen one poll more. */
  predicate FollowsTo(states: seq<Flow>, polls: seq<Poll>, poll: Poll, started: seq<bool>, p: nat) {
    && |states| == 2 * |started| && p <= |states|
    && (forall j :: 0 <= j < p ==> states[j] == AfterPoll(FlowAfter(polls, j, started[j / 2]), poll, j))
    && (forall j :: p <= j < |states| ==> states[j] == FlowAfter(polls, j, started[j / 2]))
  }

  lemma {:induction false} RoundDone(states: seq<Flow>, polls: seq<Poll>, poll: Poll, started: seq<bool>)
    requires FollowsTo(states, polls, poll, started, |states|)
    ensures Follows(states, polls + [poll], started)
  {
    assert (polls + [poll])[..|polls|] == polls;
  }

  /** Draining pipe p leaves every other stream alone. */
  method DrainOne(streams: seq<Stream>, p: nat, incoming: seq<Read>, openFds: nat) returns (stillOpen: nat)
    requires Separate(streams) && AllValid(streams) && p < |streams| && streams[p].open && openFds > 0
    modifies streams, Buffers(streams)
    ensures AllValid(streams)
    ensures streams[p].State() == Drained(old(streams[p].State()), incoming)
    ensures forall j :: 0 <= j < |streams| && j != p ==> streams[j].State() == old(streams[j].State())
    ensures stillOpen == openFds - (if streams[p].open then 0 else 1)
  {
    var s := streams[p];
    stillOpen := s.Drain(incoming, openFds);
    forall j | 0 <= j < |streams|
      ensures streams[j].Valid()
      ensures j != p ==> streams[j].State() == old(streams[j].State())
    {
      assert j != p ==> streams[j] != s && streams[j].buf != s.buf;
    }
  }

  /** One pipe changed from `before` to `after`: the number of open ones follows. */
  lemma {:induction false} OneDrained(before: seq<Flow>, after: seq<Flow>, p: nat, openFds: nat)
    requires |after| == |before| && p < |before| && before[p].open
    requires forall j :: 0 <= j < |before| && j != p ==> after[j] == before[j]
    requires openFds == CountTrue(Opens(before))
    ensures openFds > 0 && CountTrue(Opens(after)) == openFds - (if after[p].open then 0 else 1)
  {
    CountCleared(Opens(before), p);
    assert Opens(after) == if after[p].open then Opens(before) else Opens(before)[p := false];
  }

  /** Drain pipe p if the poll reports it. */
  method DrainStep(streams: seq<Stream>, p: nat, poll: Poll, openFds: nat, ghost polls: seq<Poll>,
                   ghost started: seq<bool>)
    returns (stillOpen: nat)
    requires Separate(streams) && AllValid(streams) && poll.Ready? && p < |streams|
    requires FollowsTo(States(streams), polls, poll, started, p) && openFds == CountTrue(Opens(States(streams)))
    modifies streams, Buffers(streams)
    ensures AllValid(streams) && FollowsTo(States(streams), polls, poll, started, p + 1)
    ensures stillOpen == CountTrue(Opens(States(streams)))
  {
    hide States, Opens, CountTrue, FlowAfter, Drained, AllValid, Separate;
    stillOpen := openFds;
    ghost var before := States(streams);
    if streams[p].open && p in poll.incoming {
      CountTrueOpen(before, p);
      stillOpen := DrainOne(streams, p, poll.incoming[p], stillOpen);
      OneDrained(before, States(streams), p, openFds);
    }
  }

  /** Drain every pipe the poll reports, in the order of the children. */
  method DrainReady(streams: seq<Stream>, poll: Poll, openFds: nat, ghost polls: seq<Poll>, ghost started: seq<bool>)
    returns (stillOpen: nat)
    requires Separate(streams) && AllValid(streams) && poll.Ready?
    requires Follows(States(streams), polls, started) && openFds == CountTrue(Opens(States(streams)))
    modifies streams, Buffers(streams)
    ensures AllValid(streams)
    ensures Follows(States(streams), polls + [poll], started) && stillOpen == CountTrue(Opens(States(streams)))
  {
    hide States, Opens, CountTrue, FlowAfter, AllValid, Separate;
    stillOpen := openFds;
    for p := 0 to |streams|
      invariant AllValid(streams)
      invariant FollowsTo(States(streams), polls, poll, started, p)
      invariant stillOpen == CountTrue(Opens(States(streams)))
    {
      stillOpen := DrainStep(streams, p, poll, stillOpen, polls, started);
    }
    RoundDone(States(streams), polls, poll, started);
  }

  lemma {:induction false} CountTrueOpen(states: seq<Flow>, p: nat)
    requires p < |states| && states[p].open
    ensures CountTrue(Opens(states)) > 0
  {
    CountCleared(Opens(states), p);
  }

  /** Kill every child that is past its deadline, still has an open pipe, and was not killed yet. */
  method CheckDeadlines(streams: seq<Stream>, deadlines: seq<nat>, killed: array<bool>, now: nat)
    requires |streams| == 2 * |deadlines| && killed.Length == |deadlines|
    modifies killed
    ensures forall i :: 0 <= i < killed.Length ==>
      killed[i] == (old(killed[i])
                    || (deadlines[i] > 0 && now >= deadlines[i] && (streams[2 * i].open || streams[2 * i + 1].open)))
  {
    for i := 0 to killed.Length
      invariant forall k :: i <= k < killed.Length ==> killed[k] == old(killed[k])
      invariant forall k :: 0 <= k < i ==>
        killed[k] == (old(killed[k])
                      || (deadlines[k] > 0 && now >= deadlines[k] && (streams[2 * k].open || streams[2 * k + 1].open)))
    {
      var active := streams[2 * i].open || streams[2 * i + 1].open;
      if active && deadlines[i] > 0 && !killed[i] && now >= deadlines[i] {
        killed[i] := true;
      }
    }
  }

  /** Which children have timed out after these polls. */
  predicate KilledAfter(killed: seq<bool>, polls: seq<Poll>, started: seq<bool>, deadlines: seq<nat>) {
    && |killed| == |started| == |deadlines|
    && forall i :: 0 <= i < |killed| ==> killed[i] == TimedOut(polls, i, started[i], deadlines[i])
  }

  lemma {:induction false} DeadlinesChecked(before: seq<bool>, killed: seq<bool>, states: seq<Flow>, polls: seq<Poll>,
                                            poll: Poll, started: seq<bool>, deadlines: seq<nat>)
    requires KilledAfter(before, polls, started, deadlines) && |killed| == |before| && poll.Ready?
    requires Follows(states, polls + [poll], started)
    requires forall i :: 0 <= i < |killed| ==>
      killed[i] == (before[i] || (deadlines[i] > 0 && poll.now >= deadlines[i]
                                  && (states[2 * i].open || states[2 * i + 1].open)))
    ensures KilledAfter(killed, polls + [poll], started, deadlines)
  {
    assert (polls + [poll])[..|polls|] == polls;
    forall i | 0 <= i < |killed|
      ensures killed[i] == TimedOut(polls + [poll], i, started[i], deadlines[i])
    {
      assert states[2 * i] == FlowAfter(polls + [poll], 2 * i, started[i]);
      assert states[2 * i + 1] == FlowAfter(polls + [poll], 2 * i + 1, started[i]);
    }
  }

  lemma {:induction false} InterruptionChangesNothing(states: seq<Flow>, killed: seq<bool>, polls: seq<Poll>,
                                                      started: seq<bool>, deadlines: seq<nat>)
    requires Follows(states, polls, started) && KilledAfter(killed, polls, started, deadlines)
    ensures Follows(states, polls + [Interruption], started)
    ensures KilledAfter(killed, polls + [Interruption], started, deadlines)
  {
    assert (polls + [Interruption])[..|polls|] == polls;
  }

  /** Two open pipes for every child that was started. */
  method CountStarted(started: seq<bool>, ghost states: seq<Flow>) returns (openFds: nat)
    requires |states| == 2 * |started| && forall j :: 0 <= j < |states| ==> states[j].open == started[j / 2]
    ensures openFds == CountTrue(Opens(states))
  {
    openFds := 0;
    for i := 0 to |started|
      invariant openFds == CountTrue(Opens(states[..2 * i]))
    {
      CountPair(states, i, started[i]);
      if started[i] {
        openFds := openFds + 2;
      }
    }
    assert states[..|states|] == states;
  }

  /** One turn of the loop, on a poll that did not fail. */
  method Round(streams: seq<Stream>, started: seq<bool>, deadlines: seq<nat>, killed: array<bool>, poll: Poll,
               openFds: nat, ghost polls: seq<Poll>)
    returns (stillOpen: nat)
    requires |streams| == 2 * |started| && !poll.Failure?
    requires Separate(streams) && AllValid(streams) && openFds == CountTrue(Opens(States(streams)))
    requires Follows(States(streams), polls, started) && KilledAfter(killed[..], polls, started, deadlines)
    modifies streams, Buffers(streams), killed
    ensures AllValid(streams) && stillOpen == CountTrue(Opens(States(streams)))
    ensures Follows(States(streams), polls + [poll], started)
    ensures KilledAfter(killed[..], polls + [poll], started, deadlines)
  {
    hide States, Opens, CountTrue, FlowAfter, AllValid, Separate, TimedOut;
    if poll.Interruption? {
      InterruptionChangesNothing(States(streams), killed[..], polls, started, deadlines);
      return openFds;
    }
    ghost var before := killed[..];
    stillOpen := DrainReady(streams, poll, openFds, polls, started);
    assert killed[..] == before;
    CheckDeadlines(streams, deadlines, killed, poll.now);
    DeadlinesChecked(before, killed[..], States(streams), polls, poll, started, deadlines);
  }

  /** The main loop over given polls: it runs until no pipe is open or a poll fails. Afterwards every
      buffer and every timeout flag is what the polls used so far determine, pipe by pipe. */
  method RunBatch(streams: seq<Stream>, started: seq<bool>, deadlines: seq<nat>, polls: seq<Poll>)
    returns (killed: array<bool>, openFds: nat, used: nat)
    requires |streams| == 2 * |started| && |deadlines| == |started| <= MAX_BATCH
    requires Separate(streams) && AllValid(streams)
    requires forall j :: 0 <= j < |streams| ==> streams[j].State() == Flow(started[j / 2], "")
    modifies streams, Buffers(streams)
    ensures fresh(killed) && used <= |polls| && AllValid(streams)
    ensures Follows(States(streams), polls[..used], started)
    ensures KilledAfter(killed[..], polls[..used], started, deadlines)
    ensures forall j :: 0 <= j < |streams| ==>
      && streams[j].Holds(StreamOf(polls[..used], j, started[j / 2]))
      && streams[j].open == (started[j / 2] && !Ends(ReadsOf(polls[..used], j)))
    ensures openFds == CountTrue(Opens(States(streams)))
    ensures used < |polls| ==> polls[used] == Failure || forall j :: 0 <= j < |streams| ==> !streams[j].open
    ensures Needed(polls[..used], started)
  {
    hide States, Opens, CountTrue, AllValid, Separate;
    openFds := CountStarted(started, States(streams));
    killed := new bool[|started|](_ => false);
    used := 0;
    assert polls[..used] == [];
    assert Needed([], started);
    while openFds > 0 && used < |polls|
      invariant used <= |polls| && AllValid(streams)
      invariant Follows(States(streams), polls[..used], started)
      invariant KilledAfter(killed[..], polls[..used], started, deadlines)
      invariant openFds == CountTrue(Opens(States(streams)))
      invariant Needed(polls[..used], started)
      decreases |polls| - used
    {
      SomeOpen(States(streams), polls[..used], started);
      hide FlowAfter, TimedOut, Follows, KilledAfter, Unfinished, Needed;
      if polls[used].Failure? {
        break;
      }
      openFds := Round(streams, started, deadlines, killed, polls[used], openFds, polls[..used]);
      OneMore(polls, used);
      NeededNext(polls[..used], polls[used], started);
      used := used + 1;
    }
    if openFds == 0 {
      NoneOpen(Opens(States(streams)));
    }
    StreamsHold(streams, polls[..used], started);
  }

  /** Some pipe of a started child has not come to its end after these polls. */
  ghost predicate Unfinished(polls: seq<Poll>, started: seq<bool>) {
    exists j :: 0 <= j < 2 * |started| && started[j / 2] && !Ends(ReadsOf(polls, j))
  }

  /** No poll failed, and none was made when every pipe had come to its end. */
  ghost predicate Needed(polls: seq<Poll>, started: seq<bool>) {
    forall k: nat :: k < |polls| ==> polls[k] != Failure && Unfinished(polls[..k], started)
  }

  lemma {:induction false} NeededNext(polls: seq<Poll>, poll: Poll, started: seq<bool>)
    requires Needed(polls, started) && poll != Failure && Unfinished(polls, started)
    ensures Needed(polls + [poll], started)
  {
    hide Unfinished;
    var next := polls + [poll];
    forall k: nat | k < |next|
      ensures next[k] != Failure && Unfinished(next[..k], started)
    {
      assert next[..k] == polls[..k];
      assert polls[..|polls|] == polls;
    }
  }

  lemma {:induction false} SomeOpen(states: seq<Flow>, polls: seq<Poll>, started: seq<bool>)
    requires Follows(states, polls, started) && CountTrue(Opens(states)) > 0
    ensures Unfinished(polls, started)
  {
    var j := OneOpen(Opens(states));
    FlowIsStream(polls, j);
    hide FlowAfter, Ends, ReadsOf, BytesOf, CountTrue;
  }

  lemma {:induction false} OneOpen(flags: seq<bool>) returns (p: nat)
    requires CountTrue(flags) > 0
    ensures p < |flags| && flags[p]
  {
    p := |flags| - 1;
    if !flags[p] {
      p := OneOpen(flags[..p]);
    }
  }

  /** What the reads of a run carry is what the buffers hold. */
  lemma {:induction false} StreamsHold(streams: seq<Stream>, polls: seq<Poll>, started: seq<bool>)
    requires AllValid(streams) && Follows(States(streams), polls, started)
    ensures forall j :: 0 <= j < |streams| ==>
      && streams[j].Holds(StreamOf(polls, j, started[j / 2]))
      && streams[j].open == (started[j / 2] && !Ends(ReadsOf(polls, j)))
  {
    forall j | 0 <= j < |streams|
      ensures streams[j].Holds(StreamOf(polls, j, started[j / 2]))
      ensures streams[j].open == (started[j / 2] && !Ends(ReadsOf(polls, j)))
    {
      FlowIsStream(polls, j);
      hide ReadsOf, Ends, FlowAfter, States, BytesOf;
      assert streams[j].State() == States(streams)[j] == FlowAfter(polls, j, started[j / 2]);
      streams[j].ValidHolds();
    }
  }

  lemma OneMore(polls: seq<Poll>, used: nat)
    requires used < |polls|
    ensures polls[..used + 1] == polls[..used] + [polls[used]]
  {
  }

  lemma {:induction false} CountPair(states: seq<Flow>, i: nat, started: bool)
    requires 2 * i + 2 <= |states| && states[2 * i].open == states[2 * i + 1].open == started
    ensures CountTrue(Opens(states[..2 * (i + 1)])) == CountTrue(Opens(states[..2 * i])) + (if started then 2 else 0)
  {
    var more, flags := Opens(states[..2 * (i + 1)]), Opens(states[..2 * i]);
    assert more[..2 * i + 1][..2 * i] == flags;
  }

  // ---- The poll timeout ---------------------------------------------------------------------------

  const NS_PER_MS: nat := 1_000_000
  const INT_MAX: nat := 0x7FFF_FFFF

  /** Child i is alive and has a deadline. */
  predicate Waits(deadlines: seq<nat>, active: seq<bool>, i: nat)
    requires |active| == |deadlines|
  {
    i < |deadlines| && active[i] && deadlines[i] > 0
  }

  /** Sleep at least until the soonest deadline, rounded up to a millisecond; forever without one. */
  method PollTimeout(deadlines: seq<nat>, active: seq<bool>, now: nat) returns (ms: int, ghost soonestChild: nat)
    requires |active| == |deadlines|
    ensures ms == -1 <==> forall i: nat :: !Waits(deadlines, active, i)
    ensures ms != -1 ==> Waits(deadlines, active, soonestChild)
    ensures forall i: nat :: Waits(deadlines, active, i) ==>
      soonestChild < |deadlines| && deadlines[soonestChild] <= deadlines[i]
    ensures ms == 0 ==> deadlines[soonestChild] <= now
    ensures ms > 0 ==> now + (ms - 1) * 1_000_000 < deadlines[soonestChild] && ms <= 2147483647
    ensures 0 < ms < 2147483647 ==> deadlines[soonestChild] <= now + ms * 1_000_000
    ensures ms >= -1
  {
    var have, soonest := false, 0;
    soonestChild := 0;
    for i := 0 to |deadlines|
      invariant have ==> Waits(deadlines, active, soonestChild) && soonest == deadlines[soonestChild]
      invariant forall k: nat :: k < i && Waits(deadlines, active, k) ==> have && soonest <= deadlines[k]
    {
      if deadlines[i] == 0 || !active[i] {
        continue;
      }
      if !have || deadlines[i] < soonest {
        soonest, have, soonestChild := deadlines[i], true, i;
      }
    }
    if !have {
      return -1, 0;
    }
    if now >= soonest {
      return 0, soonestChild;
    }
    var remaining := (soonest - now + 999_999) / NS_PER_MS;
    return Min(remaining, INT_MAX), soonestChild;
  }

  // ---- Splitting a command line in place -------------------------------------------------------------

  predicate IsBlank(c: char) {
    c == ' ' || c == '\t'
  }

  function BlankRun(text: string): (n: nat)
    ensures n <= |text| && (n < |text| ==> !IsBlank(text[n]))
  {
    if text == [] || !IsBlank(text[0]) then 0 else 1 + BlankRun(text[1..])
  }

  function WordRun(text: string): (n: nat)
    ensures n <= |text| && (n < |text| ==> IsBlank(text[n]))
    ensures text != [] && !IsBlank(text[0]) ==> n > 0
  {
    if text == [] || IsBlank(text[0]) then 0 else 1 + WordRun(text[1..])
  }

  /** What follows the blanks at the start. */
  function SkipBlank(text: string): (rest: string)
    ensures |rest| <= |text| && (rest != [] ==> !IsBlank(rest[0]))
  {
    text[BlankRun(text)..]
  }

  /** What follows the word at the start. */
  function Behind(text: string): (rest: string)
    requires text != [] && !IsBlank(text[0])
    ensures |rest| < |text|
  {
    text[WordRun(text)..]
  }

  /** The maximal runs without blanks. */
  function Words(text: string): seq<string>
    decreases |text|
  {
    var rest := SkipBlank(text);
    if rest == [] then [] else [rest[..WordRun(rest)]] + Words(Behind(rest))
  }

  lemma {:induction false} RunsFrom(text: string, i: nat)
    requires i < |text|
    ensures IsBlank(text[i]) ==> BlankRun(text[i..]) == 1 + BlankRun(text[i + 1..])
    ensures !IsBlank(text[i]) ==> BlankRun(text[i..]) == 0 && WordRun(text[i..]) == 1 + WordRun(text[i + 1..])
    ensures IsBlank(text[i]) ==> WordRun(text[i..]) == 0
  {
    assert text[i..][1..] == text[i + 1..];
  }

  lemma {:induction false} WordsSkip(text: string, i: nat)
    requires i < |text| && IsBlank(text[i])
    ensures Words(text[i..]) == Words(text[i + 1..])
  {
    RunsFrom(text, i);
    assert text[i..][BlankRun(text[i..])..] == text[i + 1..][BlankRun(text[i + 1..])..];
  }

  lemma {:induction false} FirstWord(text: string)
    requires text != [] && !IsBlank(text[0])
    ensures Words(text) == [text[..WordRun(text)]] + Words(Behind(text))
  {
    assert BlankRun(text) == 0 && SkipBlank(text) == text;
  }

  lemma Slices(text: string, i: nat, n: nat)
    requires i + n <= |text|
    ensures text[i..][..n] == text[i..i + n] && text[i..][n..] == text[i + n..]
  {
  }

  lemma {:induction false} WordsTake(text: string, i: nat)
    requires i < |text| && !IsBlank(text[i])
    ensures var w := WordRun(text[i..]);
            0 < w && Words(text[i..]) == [text[i..i + w]] + Words(text[i + w..])
  {
    hide Words, WordRun;
    FirstWord(text[i..]);
    Slices(text, i, WordRun(text[i..]));
  }

  lemma NoMoreWords(text: string, p: nat)
    requires p <= |text|
    ensures p == |text| ==> Words(text[p..]) == []
  {
  }

  /** A word's characters stand at `start`, terminated. */
  predicate Standing(s: seq<char>, start: nat, word: string) {
    && start + |word| < |s| && s[start + |word|] == '\0'
    && forall k :: 0 <= k < |word| ==> s[start + k] == word[k]
  }

  /** From p on the line is still the original text. */
  ghost predicate Untouched(s: array<char>, p: nat, text: string)
    reads s
  {
    p <= |text| < s.Length && s[|text|] == '\0' && forall k :: p <= k < |text| ==> s[k] == text[k] != '\0'
  }

  method SkipBlanks(s: array<char>, p: nat, ghost text: string) returns (q: nat)
    requires Untouched(s, p, text)
    ensures p <= q <= |text| && Words(text[q..]) == Words(text[p..])
    ensures q < |text| ==> !IsBlank(s[q])
  {
    hide Words;
    q := p;
    while s[q] == ' ' || s[q] == '\t'
      invariant p <= q <= |text| && Words(text[q..]) == Words(text[p..])
      decreases |text| - q
    {
      WordsSkip(text, q);
      q := q + 1;
    }
  }

  method SkipWord(s: array<char>, p: nat, ghost text: string) returns (q: nat)
    requires Untouched(s, p, text) && p < |text| && !IsBlank(s[p])
    ensures p < q <= |text| && q == p + WordRun(text[p..]) && (q < |text| ==> IsBlank(s[q]))
  {
    hide WordRun;
    q := p;
    while s[q] != '\0' && s[q] != ' ' && s[q] != '\t'
      invariant p <= q <= |text| && WordRun(text[p..]) == q - p + WordRun(text[q..])
      invariant q == p ==> !IsBlank(s[q]) && q < |text|
      decreases |text| - q
    {
      RunsFrom(text, q);
      q := q + 1;
    }
    if q < |text| {
      RunsFrom(text, q);
    } else {
      assert text[q..] == [];
    }
  }

  /** Take the word at p: terminate it and step behind it. */
  method TakeWord(s: array<char>, p: nat, ghost text: string) returns (next: nat, ghost word: string)
    requires Untouched(s, p, text) && p < |text| && !IsBlank(s[p])
    modifies s
    ensures p + |word| <= next && (p + |word| == next ==> next == |text|) && Untouched(s, next, text)
    ensures Words(text[p..]) == [word] + Words(text[next..]) && Standing(s[..], p, word)
    ensures forall k :: 0 <= k < p ==> s[k] == old(s[k])
  {
    hide Words, WordRun;
    WordsTake(text, p);
    next := SkipWord(s, p, text);
    word := text[p..next];
    if s[next] != '\0' {
      s[next] := '\0';
      WordsSkip(text, next);
      next := next + 1;
    }
  }

  /** Terminate the words of a NUL-terminated line in place and store where they start, as many
      as there is room for. */
  method SplitWs(s: array<char>, argv: array<nat>, ghost text: string) returns (n: nat)
    requires Untouched(s, 0, text)
    modifies s, argv
    ensures n == Min(|Words(text)|, argv.Length)
    ensures forall j :: 0 <= j < n ==> Standing(s[..], argv[j], Words(text)[j])
  {
    hide Words, BlankRun, WordRun, Standing;
    ghost var found: seq<string> := [];
    n := 0;
    var p := 0;
    assert text[0..] == text;
    while s[p] != '\0' && n < argv.Length
      invariant Untouched(s, p, text) && n == |found| <= argv.Length
      invariant Words(text) == found + Words(text[p..])
      invariant forall j :: 0 <= j < n ==> argv[j] + |found[j]| < p || argv[j] + |found[j]| == p == |text|
      invariant forall j :: 0 <= j < n ==> Standing(s[..], argv[j], found[j])
      decreases |text| - p
    {
      p := SkipBlanks(s, p, text);
      if s[p] == '\0' {
        break;
      }
      argv[n] := p;
      ghost var before, starts, word := s[..], argv[..n], "";
      p, word := TakeWord(s, p, text);
      StillStanding(before, s[..], starts, found, argv[n]);
      found := found + [word];
      n := n + 1;
    }
    NoMoreWords(text, p);
  }

  lemma {:induction false} StillStanding(before: seq<char>, after: seq<char>, starts: seq<nat>, found: seq<string>, p: nat)
    requires |starts| == |found| && |before| == |after| && p <= |before|
    requires forall k :: 0 <= k < p ==> after[k] == before[k]
    requires forall j :: 0 <= j < |found| ==> starts[j] + |found[j]| < p && Standing(before, starts[j], found[j])
    ensures forall j :: 0 <= j < |found| ==> Standing(after, starts[j], found[j])
  {
  }
}
