/** The channel table and the contact watchdog of src/device/device.c. The clock and the
    answers of the channel programs are given by the environment. */
module Device {
  import opened Statuses

  const MAX_CHANNELS: nat := 32

  datatype Channel = Channel(name: string, program: string, min: int, max: int, writable: bool, safe: int,
                             network: bool, lastContact: nat, contactPending: bool)
  {
    predicate InRange(v: int) {
      min <= v <= max
    }

    /** What add_channel demands of a channel by itself. */
    predicate WellFormed() {
      name != [] && program != [] && min <= max && (writable ==> InRange(safe))
    }
  }

  /** What running a channel's program gives: no exit 0, output that is no number, or a number. */
  datatype Reply = Failed | Garbage | Number(value: int)

  datatype Verdict = Disabled | Alive | Expired

  // ---- The table -----------------------------------------------------------------------------

  predicate Unique(channels: seq<Channel>) {
    forall i, j :: 0 <= i < j < |channels| ==> channels[i].name != channels[j].name
  }

  predicate TableOk(channels: seq<Channel>) {
    && |channels| <= MAX_CHANNELS && Unique(channels)
    && forall i :: 0 <= i < |channels| ==> channels[i].WellFormed()
  }

  function IndexOf(channels: seq<Channel>, name: string): (i: nat)
    ensures i <= |channels| && (i < |channels| ==> channels[i].name == name)
    ensures forall k :: 0 <= k < i ==> channels[k].name != name
  {
    if channels == [] || channels[0].name == name then 0 else 1 + IndexOf(channels[1..], name)
  }

  function AddStatus(channels: seq<Channel>, c: Channel): Status {
    if !c.WellFormed() || IndexOf(channels, c.name) < |channels| then InvalidArg
    else if |channels| >= MAX_CHANNELS then Limit
    else Ok
  }

  // ---- The history of a device -----------------------------------------------------------------

  /** Contact(i, write): a write to channel i, or a read of it, succeeded. */
  datatype Event = Add(channel: Channel) | Arm(timeout: nat, now: nat) | Contact(i: nat, write: bool) | Check(now: nat)

  function Count(trace: seq<Event>): nat {
    if trace == [] then 0 else Count(trace[..|trace| - 1]) + if trace[|trace| - 1].Add? then 1 else 0
  }

  function Timeout(trace: seq<Event>): nat {
    if trace == [] then 0
    else match trace[|trace| - 1]
      case Arm(timeout, _) => timeout
      case _ => Timeout(trace[..|trace| - 1])
  }

  /** Channel i answered since the last arming or check. */
  predicate Pending(trace: seq<Event>, i: nat) {
    trace != [] &&
    match trace[|trace| - 1]
    case Contact(j, _) => i == j || Pending(trace[..|trace| - 1], i)
    case Add(_) => Count(trace) != i + 1 && Pending(trace[..|trace| - 1], i)
    case _ => false
  }

  predicate AnyPending(trace: seq<Event>) {
    trace != [] &&
    match trace[|trace| - 1]
    case Contact(_, _) => true
    case Add(_) => AnyPending(trace[..|trace| - 1])
    case _ => false
  }

  /** The time of the last check that found a contact, or of the last arming. */
  function DeviceStamp(trace: seq<Event>): nat {
    if trace == [] then 0
    else
      var before := trace[..|trace| - 1];
      match trace[|trace| - 1]
      case Arm(_, now) => now
      case Check(now) => if AnyPending(before) then now else DeviceStamp(before)
      case _ => DeviceStamp(before)
  }

  /** The same for one channel; a channel starts with the device's stamp. */
  function ChannelStamp(trace: seq<Event>, i: nat): nat {
    if trace == [] then 0
    else
      var before := trace[..|trace| - 1];
      match trace[|trace| - 1]
      case Add(_) => if Count(before) == i then DeviceStamp(before) else ChannelStamp(before, i)
      case Arm(_, now) => now
      case Check(now) => if Pending(before, i) then now else ChannelStamp(before, i)
      case Contact(_, _) => ChannelStamp(before, i)
  }

  /** A write to channel i succeeded since the last arming or check. */
  predicate WritePending(trace: seq<Event>, i: nat) {
    trace != [] &&
    match trace[|trace| - 1]
    case Contact(j, write) => (i == j && write) || WritePending(trace[..|trace| - 1], i)
    case Add(_) => Count(trace) != i + 1 && WritePending(trace[..|trace| - 1], i)
    case _ => false
  }

  /** The stamp that a channel would have if only writes and armings fed it. */
  function WriteStamp(trace: seq<Event>, i: nat): nat {
    if trace == [] then 0
    else
      var before := trace[..|trace| - 1];
      match trace[|trace| - 1]
      case Add(_) => if Count(before) == i then DeviceStamp(before) else WriteStamp(before, i)
      case Arm(_, now) => now
      case Check(now) => if WritePending(before, i) then now else WriteStamp(before, i)
      case Contact(_, _) => WriteStamp(before, i)
  }

  predicate Overdue(now: nat, stamp: nat, timeout: nat) {
    now >= stamp && now - stamp > timeout
  }

  /** The verdict of a check, from the stamps after folding contacts in. */
  ghost predicate IsVerdict(v: Verdict, channels: seq<Channel>, timeout: nat, deviceStamp: nat, now: nat) {
    if timeout == 0 then v == Disabled
    else if now < deviceStamp then v == Alive
    else v == if Overdue(now, deviceStamp, timeout) || SomeOverdue(channels, timeout, now) then Expired else Alive
  }

  predicate SomeOverdue(channels: seq<Channel>, timeout: nat, now: nat) {
    exists i :: 0 <= i < |channels| && channels[i].writable && Overdue(now, channels[i].lastContact, timeout)
  }

  // ---- The device --------------------------------------------------------------------------------

  /** A value handed to a channel's program. */
  datatype Command = Command(channel: string, value: int)

  /** The channel named there may be driven, and to this value. */
  ghost predicate MayDrive(channels: seq<Channel>, c: Command) {
    exists i :: 0 <= i < |channels| && channels[i].name == c.channel
                && channels[i].writable && channels[i].min <= c.value <= channels[i].max
  }

  ghost predicate SentInRange(channels: seq<Channel>, sent: seq<Command>) {
    forall c | c in sent :: MayDrive(channels, c)
  }

  /** The bookkeeping in the channels is what the history says. */
  predicate Stamped(channels: seq<Channel>, trace: seq<Event>) {
    && |channels| == Count(trace)
    && forall i :: 0 <= i < |channels| ==>
         channels[i].lastContact == ChannelStamp(trace, i) && channels[i].contactPending == Pending(trace, i)
  }

  function WriteStatus(channels: seq<Channel>, name: string, value: int, reply: Reply): Status {
    var i := IndexOf(channels, name);
    if i == |channels| then NotFound
    else if !channels[i].writable then PolicyDenied
    else if !channels[i].InRange(value) then Limit
    else if reply.Failed? || (reply.Number? && reply.value != value) then Io
    else Ok
  }

  function ReadStatus(c: Channel, reply: Reply): Status {
    match reply
    case Failed => Io
    case Garbage => Format
    case Number(v) => if c.InRange(v) then Ok else Limit
  }

  /** What the header says of a read: output that is no number is an I/O error. */
  function DocumentedReadStatus(c: Channel, reply: Reply): Status {
    if reply.Number? then if c.InRange(reply.value) then Ok else Limit else Io
  }

  /** The code keeps to it exactly when the output is a number or the program failed. */
  lemma ReadStatusIff(c: Channel, reply: Reply)
    ensures ReadStatus(c, reply) == DocumentedReadStatus(c, reply) <==> !reply.Garbage?
  {
  }

  // ---- Each status in words --------------------------------------------------------------------------

  predicate Absent(channels: seq<Channel>, name: string) {
    forall i :: 0 <= i < |channels| ==> channels[i].name != name
  }

  ghost predicate ReadOnly(channels: seq<Channel>, name: string) {
    exists i :: 0 <= i < |channels| && channels[i].name == name && !channels[i].writable
  }

  ghost predicate OutOfRange(channels: seq<Channel>, name: string, value: int) {
    exists i :: 0 <= i < |channels| && channels[i].name == name && (value < channels[i].min || channels[i].max < value)
  }

  /** The program failed or acknowledged another number. */
  predicate Refuses(reply: Reply, value: int) {
    reply == Failed || (reply.Number? && reply.value != value)
  }

  /** What a write may answer: there is no such channel, it is read-only, the value is out of its range, or
      its program ran and did not confirm the value. */
  ghost predicate WriteAnswers(channels: seq<Channel>, name: string, value: int, reply: Reply, status: Status) {
    && (status == NotFound <==> Absent(channels, name))
    && (status == PolicyDenied <==> ReadOnly(channels, name))
    && (status == Limit <==> !ReadOnly(channels, name) && OutOfRange(channels, name, value))
    && (status == Io <==> MayDrive(channels, Command(name, value)) && Refuses(reply, value))
    && (status == Ok <==> MayDrive(channels, Command(name, value)) && !Refuses(reply, value))
  }

  /** What a read may answer. */
  ghost predicate ReadAnswers(channels: seq<Channel>, name: string, reply: Reply, status: Status) {
    && (status == NotFound <==> Absent(channels, name))
    && (status == Io <==> !Absent(channels, name) && reply == Failed)
    && (status == Format <==> !Absent(channels, name) && reply == Garbage)
    && (status == Limit <==> reply.Number? && OutOfRange(channels, name, reply.value))
    && (status == Ok <==> !Absent(channels, name) && reply.Number? && !OutOfRange(channels, name, reply.value))
  }

  /** Contact is recorded for the channel of this name and for no other. */
  predicate ContactOnly(after: seq<Channel>, before: seq<Channel>, name: string) {
    && |after| == |before|
    && forall i :: 0 <= i < |before| ==>
         after[i] == before[i].(contactPending := before[i].contactPending || before[i].name == name)
  }

  /** A channel may be added: it has a name and a program, its range is not empty and holds the safe value
      of an actuator, and no other has its name. */
  predicate MayAdd(channels: seq<Channel>, c: Channel) {
    && c.name != "" && c.program != "" && c.min <= c.max && (c.writable ==> c.min <= c.safe <= c.max)
    && Absent(channels, c.name)
  }

  lemma {:induction false} OnlyNamed(channels: seq<Channel>, name: string)
    requires Unique(channels)
    ensures var i := IndexOf(channels, name);
            forall k :: 0 <= k < |channels| ==> (channels[k].name == name <==> k == i)
  {
  }

  /** The program gives a number in the channel's range. */
  predicate Answers(c: Channel, reply: Reply) {
    reply.Number? && c.min <= reply.value <= c.max
  }

  lemma AnswersMeans(c: Channel, same: Channel, reply: Reply)
    requires SameTable([same], [c])
    ensures ReadStatus(same, reply) == Ok <==> Answers(c, reply)
  {
    assert [same][0].min == [c][0].min && [same][0].max == [c][0].max;
  }

  lemma {:induction false} WriteStatusMeans(channels: seq<Channel>, name: string, value: int, reply: Reply)
    requires Unique(channels)
    ensures WriteAnswers(channels, name, value, reply, WriteStatus(channels, name, value, reply))
  {
    OnlyNamed(channels, name);
    hide IndexOf, Unique;
  }

  lemma {:induction false} AddedOk(channels: seq<Channel>, c: Channel, added: Channel)
    requires TableOk(channels) && AddStatus(channels, c) == Ok && SameTable([added], [c])
    ensures TableOk(channels + [added])
  {
    assert [added][0].name == [c][0].name && [added][0].WellFormed() == [c][0].WellFormed();
  }

  lemma {:induction false} AddedStamped(channels: seq<Channel>, c: Channel, added: Channel, trace: seq<Event>)
    requires Stamped(channels, trace) && !added.contactPending && added.lastContact == DeviceStamp(trace)
    ensures Stamped(channels + [added], trace + [Add(c)])
    ensures Timeout(trace + [Add(c)]) == Timeout(trace) && DeviceStamp(trace + [Add(c)]) == DeviceStamp(trace)
    ensures AnyPending(trace + [Add(c)]) == AnyPending(trace)
  {
    assert (trace + [Add(c)])[..|trace|] == trace;
  }

  lemma {:induction false} ReadStatusMeans(channels: seq<Channel>, name: string, reply: Reply)
    requires Unique(channels)
    ensures var i := IndexOf(channels, name);
            ReadAnswers(channels, name, reply, if i == |channels| then NotFound else ReadStatus(channels[i], reply))
  {
    OnlyNamed(channels, name);
    hide IndexOf, Unique;
  }

  /** What adding a channel may answer. */
  lemma {:induction false} AddStatusMeans(channels: seq<Channel>, c: Channel)
    requires |channels| <= 32
    ensures AddStatus(channels, c) == if !MayAdd(channels, c) then InvalidArg else if |channels| == 32 then Limit else Ok
  {
    hide IndexOf;
  }

  class Device {
    var watchdogTimeout: nat
    var lastContact: nat
    var contactPending: bool
    var watchdogTripped: bool
    var channels: seq<Channel>
    ghost var trace: seq<Event>
    ghost var sent: seq<Command>

    ghost predicate Clocks()
      reads this
    {
      && watchdogTimeout == Timeout(trace) && lastContact == DeviceStamp(trace) && contactPending == AnyPending(trace)
      && Stamped(channels, trace)
    }

    ghost predicate Valid()
      reads this
    {
      TableOk(channels) && SentInRange(channels, sent) && Clocks()
    }

    constructor ()
      ensures Valid() && channels == [] && trace == [] && sent == []
    {
      watchdogTimeout, lastContact, contactPending, watchdogTripped, channels := 0, 0, false, false, [];
      trace, sent := [], [];
    }

    method AddChannel(c: Channel) returns (status: Status)
      requires Valid()
      modifies this
      ensures Valid() && sent == old(sent) && status == AddStatus(old(channels), c)
      ensures status == if !MayAdd(old(channels), c) then InvalidArg else if |old(channels)| == 32 then Limit else Ok
      ensures if status == Ok then
                trace == old(trace) + [Add(c)]
                && channels == old(channels) + [c.(lastContact := old(lastContact), contactPending := false)]
              else channels == old(channels) && trace == old(trace)
    {
      AddStatusMeans(channels, c);
      if c.name == [] || c.program == [] || c.min > c.max {
        return InvalidArg;
      }
      if c.writable && (c.safe < c.min || c.safe > c.max) {
        return InvalidArg;
      }
      if IndexOf(channels, c.name) < |channels| {
        return InvalidArg;
      }
      if |channels| >= MAX_CHANNELS {
        return Limit;
      }
      var added := c.(lastContact := lastContact, contactPending := false);
      hide Timeout, DeviceStamp, AnyPending, Stamped, SentInRange, TableOk, MayAdd, AddStatus;
      SentStays(channels, channels + [added], sent);
      AddedOk(channels, c, added);
      AddedStamped(channels, c, added, trace);
      channels := channels + [added];
      trace := trace + [Add(c)];
      return Ok;
    }

    method ArmWatchdog(timeout: nat, now: nat)
      requires Valid()
      modifies this
      ensures Valid() && sent == old(sent) && trace == old(trace) + [Arm(timeout, now)]
      ensures SameTable(channels, old(channels)) && !watchdogTripped
      ensures watchdogTimeout == timeout && lastContact == now && !contactPending
      ensures forall i :: 0 <= i < |channels| ==> channels[i].lastContact == now && !channels[i].contactPending
    {
      ghost var before := channels;
      watchdogTimeout, lastContact, contactPending, watchdogTripped := timeout, now, false, false;
      for i := 0 to |channels|
        invariant SameTable(channels, before) && channels[i..] == before[i..]
        invariant forall k :: 0 <= k < i ==> channels[k] == before[k].(lastContact := now, contactPending := false)
        invariant watchdogTimeout == timeout && lastContact == now && !contactPending && !watchdogTripped
        invariant trace == old(trace) && sent == old(sent)
      {
        channels := channels[i := channels[i].(lastContact := now, contactPending := false)];
      }
      SameTableOk(before, channels, sent);
      StampsAfter(before, channels, trace, Arm(timeout, now));
      trace := trace + [Arm(timeout, now)];
    }

    /** Fold in the contacts since the last call and judge every deadline. */
    method WatchdogCheck(now: nat) returns (v: Verdict)
      requires Valid()
      modifies this
      ensures Valid() && sent == old(sent) && trace == old(trace) + [Check(now)]
      ensures SameTable(channels, old(channels)) && watchdogTimeout == old(watchdogTimeout) && !contactPending
      ensures lastContact == if old(contactPending) then now else old(lastContact)
      ensures forall i :: 0 <= i < |channels| ==>
        && !channels[i].contactPending
        && channels[i].lastContact == if old(channels)[i].contactPending then now else old(channels)[i].lastContact
      ensures IsVerdict(v, channels, watchdogTimeout, lastContact, now)
      ensures v == Disabled <==> watchdogTimeout == 0
      ensures watchdogTimeout > 0 && now < lastContact ==> v == Alive
    {
      FoldContacts(now);
      if watchdogTimeout == 0 {
        return Disabled;
      }
      if now < lastContact {
        return Alive;
      }
      if now - lastContact > watchdogTimeout {
        return Expired;
      }
      for i := 0 to |channels|
        invariant forall k :: 0 <= k < i && channels[k].writable ==>
          !Overdue(now, channels[k].lastContact, watchdogTimeout)
      {
        var ch := channels[i];
        if ch.writable && now >= ch.lastContact && now - ch.lastContact > watchdogTimeout {
          assert Overdue(now, channels[i].lastContact, watchdogTimeout);
          return Expired;
        }
      }
      return Alive;
    }

    method FoldContacts(now: nat)
      requires Valid()
      modifies this
      ensures Valid() && sent == old(sent) && trace == old(trace) + [Check(now)]
      ensures SameTable(channels, old(channels)) && watchdogTimeout == old(watchdogTimeout) && !contactPending
      ensures lastContact == if old(contactPending) then now else old(lastContact)
      ensures forall i :: 0 <= i < |channels| ==>
        && !channels[i].contactPending
        && channels[i].lastContact == if old(channels)[i].contactPending then now else old(channels)[i].lastContact
    {
      hide DeviceStamp, AnyPending, Timeout, Stamped;
      ghost var before := channels;
      if contactPending {
        contactPending := false;
        lastContact := now;
      }
      for i := 0 to |channels|
        invariant SameTable(channels, before) && channels[i..] == before[i..]
        invariant forall k :: 0 <= k < i ==>
          !channels[k].contactPending
          && channels[k].lastContact == if before[k].contactPending then now else before[k].lastContact
        invariant watchdogTimeout == old(watchdogTimeout) && trace == old(trace) && sent == old(sent)
        invariant !contactPending && lastContact == if old(contactPending) then now else old(lastContact)
      {
        assert channels[i] == channels[i..][0] == before[i];
        if channels[i].contactPending {
          channels := channels[i := channels[i].(contactPending := false, lastContact := now)];
        }
      }
      SameTableOk(before, channels, sent);
      StampsAfter(before, channels, trace, Check(now));
      trace := trace + [Check(now)];
    }

    /** A transaction on channel i succeeded; the device does not care which. */
    method Feed(i: nat, ghost write: bool)
      requires Valid() && i < |channels|
      modifies this`contactPending, this`channels, this`trace
      ensures Valid() && trace == old(trace) + [Contact(i, write)]
      ensures channels == old(channels)[i := old(channels[i]).(contactPending := true)] && contactPending
    {
      hide DeviceStamp, AnyPending, Timeout, Stamped;
      ghost var before := channels;
      contactPending := true;
      channels := channels[i := channels[i].(contactPending := true)];
      SameTableOk(before, channels, sent);
      ContactStamped(before, channels, trace, i, write);
      trace := trace + [Contact(i, write)];
    }

    method Read(name: string, reply: Reply) returns (status: Status, value: int)
      requires Valid()
      modifies this
      ensures Valid() && sent == old(sent)
      ensures var i := IndexOf(old(channels), name);
              && status == (if i == |old(channels)| then NotFound else ReadStatus(old(channels[i]), reply))
              && trace == old(trace) + (if status == Ok then [Contact(i, false)] else [])
              && SameTable(channels, old(channels))
              && (status == Ok ==> reply == Number(value) && channels[i].InRange(value))
      ensures ReadAnswers(old(channels), name, reply, status)
      ensures status != Ok ==> channels == old(channels) && contactPending == old(contactPending)
      ensures status == Ok ==> ContactOnly(channels, old(channels), name) && contactPending
    {
      value := 0;
      var i := IndexOf(channels, name);
      ReadStatusMeans(channels, name, reply);
      OnlyNamed(channels, name);
      hide ReadAnswers, Clocks;
      if i == |channels| {
        return NotFound, 0;
      }
      if reply.Failed? {
        return Io, 0;
      }
      if reply.Garbage? {
        return Format, 0;
      }
      if reply.value < channels[i].min || reply.value > channels[i].max {
        return Limit, 0;
      }
      Feed(i, false);
      return Ok, reply.value;
    }

    /** `reply` is what the program would answer; a refused write never runs it. */
    method Write(name: string, value: int, reply: Reply) returns (status: Status)
      requires Valid()
      modifies this
      ensures Valid() && SameTable(channels, old(channels))
      ensures status == WriteStatus(old(channels), name, value, reply)
      ensures WriteAnswers(old(channels), name, value, reply, status)
      ensures status == PolicyDenied <==>
        exists i :: 0 <= i < |old(channels)| && old(channels)[i].name == name && !old(channels)[i].writable
      ensures status != Ok && status != Io ==> sent == old(sent)
      ensures status != Ok ==>
        channels == old(channels) && trace == old(trace) && lastContact == old(lastContact)
        && contactPending == old(contactPending)
      ensures status == Ok ==> ContactOnly(channels, old(channels), name) && contactPending
      ensures sent == old(sent) + if status == Ok || status == Io then [Command(name, value)] else []
      ensures trace == old(trace) + if status == Ok then [Contact(IndexOf(old(channels), name), true)] else []
    {
      ghost var table := channels;
      var i := IndexOf(channels, name);
      WriteStatusMeans(channels, name, value, reply);
      OnlyNamed(channels, name);
      hide WriteAnswers, Absent, OutOfRange, Clocks;
      if i == |channels| {
        return NotFound;
      }
      if !channels[i].writable {
        return PolicyDenied;
      }
      if value < channels[i].min || value > channels[i].max {
        return Limit;
      }
      assert MayDrive(channels, Command(name, value));
      sent := sent + [Command(name, value)];
      if reply.Failed? {
        return Io;
      }
      if reply.Number? && reply.value != value {
        return Io;
      }
      Feed(i, true);
      return Ok;
    }

    /** Drive every writable channel to its safe value, in table order, whatever fails. */
    method SafeState(replies: seq<Reply>) returns (status: Status)
      requires Valid() && |replies| == |channels|
      modifies this
      ensures Valid() && SameTable(channels, old(channels))
      ensures sent == old(sent) + SafeCommands(old(channels))
      ensures status == FirstFailure(SafeStatuses(old(channels), replies))
      ensures forall i :: 0 <= i < |channels| && old(channels)[i].writable ==>
        exists k :: |old(sent)| <= k < |sent| && sent[k] == Command(old(channels)[i].name, old(channels)[i].safe)
    {
      hide SafeCommands, SafeStatuses, FirstFailure, WriteStatus, Clocks, TableOk, SentInRange;
      ghost var table, before := channels, sent;
      status := Ok;
      NothingSafe(table, replies);
      for i := 0 to |channels|
        invariant Valid() && SameTable(channels, table)
        invariant sent == before + SafeCommands(table[..i])
        invariant status == FirstFailure(SafeStatuses(table[..i], replies[..i]))
      {
        SafeNext(table, replies, i, before);
        if channels[i].writable {
          SafeWriteStatus(channels, i, replies[i]);
          var written := Write(channels[i].name, channels[i].safe, replies[i]);
          if written != Ok && status == Ok {
            status := written;
          }
        }
      }
      assert table[..|table|] == table && replies[..|replies|] == replies;
      SafeCommandsAre(table);
      forall i | 0 <= i < |table| && table[i].writable
        ensures exists k :: |before| <= k < |sent| && sent[k] == Command(table[i].name, table[i].safe)
      {
        assert sent[|before| + |WritableBefore(table, i)|] == Command(table[i].name, table[i].safe);
      }
    }

    /** One reading per channel, in table order. */
    method Sample(replies: seq<Reply>) returns (status: Status, readings: seq<Reading>)
      requires Valid() && |replies| == |channels|
      modifies this
      ensures Valid() && SameTable(channels, old(channels)) && sent == old(sent)
      ensures readings == Readings(old(channels), replies)
      ensures status == FirstFailure(ReadStatuses(old(channels), replies))
      ensures trace == old(trace) + SampleContacts(old(channels), replies)
      ensures forall i :: 0 <= i < |channels| ==>
        && channels[i].contactPending == (old(channels)[i].contactPending || Answers(old(channels)[i], replies[i]))
        && channels[i].lastContact == old(channels)[i].lastContact
    {
      hide Readings, ReadStatuses, FirstFailure, ReadStatus, SampleContacts, Clocks, TableOk, SentInRange, Answers;
      ghost var table, past := channels, trace;
      status, readings := Ok, [];
      NothingSampled(table, replies);
      for i := 0 to |channels|
        invariant Valid() && SameTable(channels, table) && sent == old(sent)
        invariant readings == Readings(table[..i], replies[..i])
        invariant status == FirstFailure(ReadStatuses(table[..i], replies[..i]))
        invariant trace == past + SampleContacts(table[..i], replies[..i])
        invariant forall k :: 0 <= k < |table| ==>
          && channels[k].contactPending == (table[k].contactPending || (k < i && Answers(table[k], replies[k])))
          && channels[k].lastContact == table[k].lastContact
      {
        SampleNext(table, channels[i], replies, i, past);
        AnswersMeans(table[i], channels[i], replies[i]);
        var read := ReadStatus(channels[i], replies[i]);
        readings := readings + [ReadingOf(channels[i], replies[i])];
        if read == Ok {
          Feed(i, false);
        } else if status == Ok {
          status := read;
        }
      }
      assert table[..|table|] == table && replies[..|replies|] == replies;
    }

    /** Add the channels of a parsed table until one is refused; a form that is no channel is None. */
    method Load(forms: seq<Option<Channel>>) returns (status: Status, bad: nat)
      requires Valid()
      modifies this
      ensures Valid() && bad <= |forms| && sent == old(sent)
      ensures |channels| == |old(channels)| + bad && SameTable(channels[..|old(channels)|], old(channels))
      ensures forall k :: 0 <= k < bad ==>
        forms[k].Some? && SameTable([channels[|old(channels)| + k]], [forms[k].value])
      ensures if bad < |forms| then
                status == (if forms[bad].None? then Schema else AddStatus(channels, forms[bad].value)) != Ok
              else status == Ok
    {
      ghost var base := |channels|;
      for index := 0 to |forms|
        invariant Valid() && sent == old(sent) && |channels| == base + index
        invariant channels[..base] == old(channels)
        invariant forall k :: 0 <= k < index ==> forms[k].Some? && SameTable([channels[base + k]], [forms[k].value])
      {
        var added := Status.Schema;
        if forms[index].Some? {
          added := AddChannel(forms[index].value);
        }
        if added != Ok {
          return added, index;
        }
      }
      return Ok, |forms|;
    }
  }

  datatype Reading = Reading(name: string, value: int, known: bool)

  function ReadingOf(c: Channel, reply: Reply): Reading {
    if ReadStatus(c, reply) == Ok then Reading(c.name, reply.value, true) else Reading(c.name, 0, false)
  }

  /** The first status in the list that is not Ok. */
  function FirstFailure(statuses: seq<Status>): Status {
    if statuses == [] then Ok
    else
      var before := FirstFailure(statuses[..|statuses| - 1]);
      if before == Ok then statuses[|statuses| - 1] else before
  }

  /** Each writable channel's safe value, once, in table order. */
  function SafeCommands(channels: seq<Channel>): seq<Command> {
    if channels == [] then []
    else
      var c := channels[|channels| - 1];
      SafeCommands(channels[..|channels| - 1]) + if c.writable then [Command(c.name, c.safe)] else []
  }

  /** What a safe write gives by its program's answer alone; a read-only channel is skipped. */
  function SafeStatus(c: Channel, reply: Reply): Status {
    if c.writable && (reply.Failed? || (reply.Number? && reply.value != c.safe)) then Io else Ok
  }

  function SafeStatuses(channels: seq<Channel>, replies: seq<Reply>): seq<Status>
    requires |channels| == |replies|
  {
    seq(|channels|, i requires 0 <= i < |channels| => SafeStatus(channels[i], replies[i]))
  }

  function ReadStatuses(channels: seq<Channel>, replies: seq<Reply>): seq<Status>
    requires |channels| == |replies|
  {
    seq(|channels|, i requires 0 <= i < |channels| => ReadStatus(channels[i], replies[i]))
  }

  function Readings(channels: seq<Channel>, replies: seq<Reply>): seq<Reading>
    requires |channels| == |replies|
  {
    seq(|channels|, i requires 0 <= i < |channels| => ReadingOf(channels[i], replies[i]))
  }

  /** The channels that answered with a number in range are the ones that count as contact. */
  function SampleContacts(channels: seq<Channel>, replies: seq<Reply>): seq<Event>
    requires |channels| == |replies|
  {
    if channels == [] then []
    else
      var n := |channels| - 1;
      SampleContacts(channels[..n], replies[..n])
      + if ReadStatus(channels[n], replies[n]) == Ok then [Contact(n, false)] else []
  }

  /** A reading is the answer of its channel's program, and unknown without one. */
  lemma {:induction false} ReadingsAre(channels: seq<Channel>, replies: seq<Reply>, i: nat)
    requires |channels| == |replies| && i < |channels|
    ensures |Readings(channels, replies)| == |channels|
    ensures Readings(channels, replies)[i]
         == if Answers(channels[i], replies[i]) then Reading(channels[i].name, replies[i].value, true)
            else Reading(channels[i].name, 0, false)
    ensures ReadStatuses(channels, replies)[i]
         == if Answers(channels[i], replies[i]) then Ok
            else if replies[i] == Failed then Io
            else if replies[i] == Garbage then Format
            else Limit
  {
  }

  lemma {:induction false} FirstFailureNext(statuses: seq<Status>, next: Status)
    ensures FirstFailure(statuses + [next])
         == if FirstFailure(statuses) == Ok then next else FirstFailure(statuses)
  {
    assert (statuses + [next])[..|statuses|] == statuses;
  }

  lemma NothingSafe(channels: seq<Channel>, replies: seq<Reply>)
    requires |channels| == |replies|
    ensures SafeCommands(channels[..0]) == [] && FirstFailure(SafeStatuses(channels[..0], replies[..0])) == Ok
  {
  }

  lemma NothingSampled(channels: seq<Channel>, replies: seq<Reply>)
    requires |channels| == |replies|
    ensures Readings(channels[..0], replies[..0]) == [] && SampleContacts(channels[..0], replies[..0]) == []
    ensures FirstFailure(ReadStatuses(channels[..0], replies[..0])) == Ok
  {
  }

  lemma {:induction false} SafeNext(channels: seq<Channel>, replies: seq<Reply>, i: nat, before: seq<Command>)
    requires |channels| == |replies| && i < |channels|
    ensures var c := channels[i];
            before + SafeCommands(channels[..i + 1])
            == before + SafeCommands(channels[..i]) + if c.writable then [Command(c.name, c.safe)] else []
    ensures var status := FirstFailure(SafeStatuses(channels[..i], replies[..i]));
            FirstFailure(SafeStatuses(channels[..i + 1], replies[..i + 1]))
            == if status == Ok then SafeStatus(channels[i], replies[i]) else status
  {
    assert channels[..i + 1][..i] == channels[..i];
    FirstFailureNext(SafeStatuses(channels[..i], replies[..i]), SafeStatus(channels[i], replies[i]));
    assert SafeStatuses(channels[..i + 1], replies[..i + 1])
        == SafeStatuses(channels[..i], replies[..i]) + [SafeStatus(channels[i], replies[i])];
  }

  /** `c` is channel i with its bookkeeping as it stands in the middle of the sampling. */
  lemma {:induction false} SampleNext(channels: seq<Channel>, c: Channel, replies: seq<Reply>, i: nat, past: seq<Event>)
    requires |channels| == |replies| && i < |channels| && SameTable([c], [channels[i]])
    ensures Readings(channels[..i + 1], replies[..i + 1])
         == Readings(channels[..i], replies[..i]) + [ReadingOf(c, replies[i])]
    ensures past + SampleContacts(channels[..i + 1], replies[..i + 1])
         == past + SampleContacts(channels[..i], replies[..i])
            + if ReadStatus(c, replies[i]) == Ok then [Contact(i, false)] else []
    ensures var status := FirstFailure(ReadStatuses(channels[..i], replies[..i]));
            FirstFailure(ReadStatuses(channels[..i + 1], replies[..i + 1]))
            == if status == Ok then ReadStatus(c, replies[i]) else status
  {
    assert SameTable([c], [channels[i]]);
    assert [c][0].min == [channels[i]][0].min && [c][0].max == [channels[i]][0].max;
    assert [c][0].name == [channels[i]][0].name;
    assert channels[..i + 1][..i] == channels[..i] && replies[..i + 1][..i] == replies[..i];
    FirstFailureNext(ReadStatuses(channels[..i], replies[..i]), ReadStatus(c, replies[i]));
    assert ReadStatuses(channels[..i + 1], replies[..i + 1])
        == ReadStatuses(channels[..i], replies[..i]) + [ReadStatus(c, replies[i])];
  }

  /** A safe write is never refused: the name finds its own channel and the value is in range. */
  lemma {:induction false} SafeWriteStatus(channels: seq<Channel>, i: nat, reply: Reply)
    requires TableOk(channels) && i < |channels| && channels[i].writable
    ensures var c := channels[i];
            WriteStatus(channels, c.name, c.safe, reply) == SafeStatus(c, reply)
  {
    var j := IndexOf(channels, channels[i].name);
    assert j == i;
  }

  /** The writable channels in front of channel n. */
  function WritableBefore(channels: seq<Channel>, n: nat): set<nat>
    requires n <= |channels|
  {
    set k: nat | k < n && channels[k].writable
  }

  lemma {:induction false} WritableOneMore(channels: seq<Channel>, n: nat)
    requires n < |channels|
    ensures WritableBefore(channels, n + 1) == WritableBefore(channels, n) + if channels[n].writable then {n} else {}
    ensures |WritableBefore(channels, n + 1)| == |WritableBefore(channels, n)| + if channels[n].writable then 1 else 0
  {
  }

  /** Channel i's safe value stands behind those of the writable channels in front of it. */
  predicate SafeAt(channels: seq<Channel>, commands: seq<Command>, i: nat)
    requires i < |channels|
  {
    && |WritableBefore(channels, i)| < |commands|
    && commands[|WritableBefore(channels, i)|] == Command(channels[i].name, channels[i].safe)
  }

  lemma {:induction false} SafeAtMore(front: seq<Channel>, channels: seq<Channel>, a: seq<Command>, b: seq<Command>, i: nat)
    requires front <= channels && a <= b && i < |front| && SafeAt(front, a, i)
    ensures SafeAt(channels, b, i)
  {
    assert WritableBefore(front, i) == WritableBefore(channels, i);
  }

  lemma {:induction false} SafeCommandsLast(channels: seq<Channel>)
    requires channels != []
    ensures var n := |channels| - 1;
            SafeCommands(channels)
            == SafeCommands(channels[..n]) + if channels[n].writable then [Command(channels[n].name, channels[n].safe)] else []
    ensures SafeCommands(channels[..|channels| - 1]) <= SafeCommands(channels)
  {
  }

  /** The commands are the safe values of the writable channels and nothing else: as many as there are such
      channels, and each at its place. */
  lemma {:induction false} SafeCommandsAre(channels: seq<Channel>)
    ensures |SafeCommands(channels)| == |WritableBefore(channels, |channels|)|
    ensures forall i :: 0 <= i < |channels| && channels[i].writable ==> SafeAt(channels, SafeCommands(channels), i)
  {
    if channels != [] {
      var n := |channels| - 1;
      var front := channels[..n];
      SafeCommandsAre(front);
      WritableOneMore(channels, n);
      SafeCommandsLast(channels);
      assert WritableBefore(front, n) == WritableBefore(channels, n);
      hide WritableBefore, SafeCommands;
      forall i | 0 <= i < n && channels[i].writable
        ensures SafeAt(channels, SafeCommands(channels), i)
      {
        assert front[i] == channels[i];
        SafeAtMore(front, channels, SafeCommands(front), SafeCommands(channels), i);
      }
    }
  }

  /** Safe state is reached exactly when no program of a writable channel fails or acknowledges another number;
      otherwise it is an I/O error. */
  lemma {:induction false} SafeStateOk(channels: seq<Channel>, replies: seq<Reply>)
    requires |channels| == |replies|
    ensures FirstFailure(SafeStatuses(channels, replies))
         == if forall i :: 0 <= i < |channels| && channels[i].writable ==> !Refuses(replies[i], channels[i].safe) then Ok
            else Io
  {
    var statuses := SafeStatuses(channels, replies);
    if forall i :: 0 <= i < |channels| && channels[i].writable ==> !Refuses(replies[i], channels[i].safe) {
      AllOk(statuses);
    } else {
      var i :| 0 <= i < |channels| && channels[i].writable && Refuses(replies[i], channels[i].safe);
      assert statuses[i] == Io;
      SomeIo(statuses, i);
    }
  }

  lemma {:induction false} SomeIo(statuses: seq<Status>, i: nat)
    requires i < |statuses| && statuses[i] == Io && forall k :: 0 <= k < |statuses| ==> statuses[k] == Ok || statuses[k] == Io
    ensures FirstFailure(statuses) == Io
  {
    var n := |statuses| - 1;
    if i < n {
      SomeIo(statuses[..n], i);
    } else if exists k :: 0 <= k < n && statuses[k] == Io {
      var k :| 0 <= k < n && statuses[k] == Io;
      SomeIo(statuses[..n], k);
    } else {
      AllOk(statuses[..n]);
    }
  }

  lemma {:induction false} ContactStamped(before: seq<Channel>, after: seq<Channel>, trace: seq<Event>, i: nat,
                                          write: bool)
    requires Stamped(before, trace) && i < |before| && after == before[i := before[i].(contactPending := true)]
    ensures Stamped(after, trace + [Contact(i, write)]) && AnyPending(trace + [Contact(i, write)])
    ensures Timeout(trace + [Contact(i, write)]) == Timeout(trace)
    ensures DeviceStamp(trace + [Contact(i, write)]) == DeviceStamp(trace)
  {
    assert (trace + [Contact(i, write)])[..|trace|] == trace;
  }

  /** Everything but the contact bookkeeping is the same. */
  predicate SameTable(a: seq<Channel>, b: seq<Channel>) {
    && |a| == |b|
    && forall i :: 0 <= i < |a| ==>
         a[i] == b[i].(lastContact := a[i].lastContact, contactPending := a[i].contactPending)
  }

  lemma {:induction false} SameTableOk(a: seq<Channel>, b: seq<Channel>, sent: seq<Command>)
    requires SameTable(b, a) && TableOk(a) && SentInRange(a, sent)
    ensures TableOk(b) && SentInRange(b, sent)
  {
    forall c | c in sent
      ensures MayDrive(b, c)
    {
      var i :| 0 <= i < |a| && a[i].name == c.channel && a[i].writable && a[i].min <= c.value <= a[i].max;
      assert b[i].name == c.channel && b[i].writable && b[i].min <= c.value <= b[i].max;
    }
  }

  lemma {:induction false} SentStays(a: seq<Channel>, b: seq<Channel>, sent: seq<Command>)
    requires a <= b && SentInRange(a, sent)
    ensures SentInRange(b, sent)
  {
    forall c | c in sent
      ensures MayDrive(b, c)
    {
      var i :| 0 <= i < |a| && a[i].name == c.channel && a[i].writable && a[i].min <= c.value <= a[i].max;
      assert b[i] == a[i];
    }
  }

  /** Bookkeeping after an arming or a check. */
  lemma {:induction false} StampsAfter(before: seq<Channel>, after: seq<Channel>, trace: seq<Event>, e: Event)
    requires Stamped(before, trace) && |after| == |before| && (e.Arm? || e.Check?)
    requires forall i :: 0 <= i < |after| ==>
      !after[i].contactPending
      && after[i].lastContact == if e.Arm? || before[i].contactPending then e.now else before[i].lastContact
    ensures Stamped(after, trace + [e])
    ensures Timeout(trace + [e]) == if e.Arm? then e.timeout else Timeout(trace)
    ensures DeviceStamp(trace + [e]) == if e.Arm? || AnyPending(trace) then e.now else DeviceStamp(trace)
    ensures !AnyPending(trace + [e])
  {
    assert (trace + [e])[..|trace|] == trace;
  }

  /** The first failure is the first status that is not Ok. */
  lemma {:induction false} FirstFailureIsFirst(statuses: seq<Status>, k: nat)
    requires k < |statuses| && statuses[k] != Ok && forall i :: 0 <= i < k ==> statuses[i] == Ok
    ensures FirstFailure(statuses) == statuses[k]
    decreases |statuses|
  {
    var n := |statuses| - 1;
    if k < n {
      FirstFailureIsFirst(statuses[..n], k);
    } else {
      AllOk(statuses[..n]);
    }
  }

  lemma {:induction false} AllOk(statuses: seq<Status>)
    requires forall i :: 0 <= i < |statuses| ==> statuses[i] == Ok
    ensures FirstFailure(statuses) == Ok
  {
    if statuses != [] {
      AllOk(statuses[..|statuses| - 1]);
    }
  }

  // ---- What the watchdog promises over whole runs ------------------------------------------------

  /** The latest time seen. */
  function Clock(trace: seq<Event>): nat {
    if trace == [] then 0
    else match trace[|trace| - 1]
      case Arm(_, now) => now
      case Check(now) => now
      case _ => Clock(trace[..|trace| - 1])
  }

  /** Time never runs backwards. */
  predicate Monotone(trace: seq<Event>) {
    trace == [] ||
    (Monotone(trace[..|trace| - 1])
     && var e := trace[|trace| - 1];
     (e.Arm? || e.Check? ==> e.now >= Clock(trace[..|trace| - 1])))
  }

  /** A channel's stamp never passes the device's, and the device's never passes the clock. */
  lemma {:induction false} StampsBounded(trace: seq<Event>, i: nat)
    requires Monotone(trace)
    ensures ChannelStamp(trace, i) <= DeviceStamp(trace) <= Clock(trace)
    ensures Pending(trace, i) ==> AnyPending(trace)
  {
    if trace != [] {
      StampsBounded(trace[..|trace| - 1], i);
    }
  }

  /** The device's stamp, or a writable channel's, is older than the timeout. */
  ghost predicate Silent(trace: seq<Event>, writable: seq<bool>, now: nat) {
    || now - DeviceStamp(trace) > Timeout(trace)
    || exists i :: 0 <= i < |writable| && writable[i] && now - ChannelStamp(trace, i) > Timeout(trace)
  }

  function Writable(channels: seq<Channel>): seq<bool> {
    seq(|channels|, i requires 0 <= i < |channels| => channels[i].writable)
  }

  /** With a clock that does not run backwards, an armed watchdog reports Expired exactly when the
      device or some writable channel has been silent for longer than the timeout. */
  lemma {:induction false} ExpiredIffSilent(channels: seq<Channel>, trace: seq<Event>, now: nat, v: Verdict)
    requires trace != [] && trace[|trace| - 1] == Check(now) && Monotone(trace) && Stamped(channels, trace)
    requires IsVerdict(v, channels, Timeout(trace), DeviceStamp(trace), now)
    ensures Timeout(trace) == 0 <==> v == Disabled
    ensures Timeout(trace) > 0 ==> (v == Expired <==> Silent(trace, Writable(channels), now))
  {
    StampsBounded(trace, 0);
    assert Clock(trace) == now;
    forall i | 0 <= i < |channels|
      ensures Overdue(now, channels[i].lastContact, Timeout(trace)) <==> now - ChannelStamp(trace, i) > Timeout(trace)
    {
      StampsBounded(trace, i);
    }
  }

  /** Only additions and checks: nothing succeeded and nothing was armed. */
  predicate Quiet(events: seq<Event>) {
    forall e | e in events :: e.Add? || e.Check?
  }

  lemma {:induction false} QuietKeepsStamps(trace: seq<Event>, quiet: seq<Event>, i: nat)
    requires Quiet(quiet) && !AnyPending(trace) && Monotone(trace) && i < Count(trace)
    ensures !AnyPending(trace + quiet) && Count(trace + quiet) >= Count(trace)
    ensures !Pending(trace + quiet, i)
    ensures Timeout(trace + quiet) == Timeout(trace) && DeviceStamp(trace + quiet) == DeviceStamp(trace)
    ensures ChannelStamp(trace + quiet, i) == ChannelStamp(trace, i)
    decreases |quiet|
  {
    if quiet == [] {
      assert trace + quiet == trace;
      StampsBounded(trace, i);
    } else {
      var n := |quiet| - 1;
      assert (trace + quiet)[..|trace + quiet| - 1] == trace + quiet[..n];
      QuietKeepsStamps(trace, quiet[..n], i);
    }
  }

  lemma {:induction false} QuietKeepsDeviceStamp(trace: seq<Event>, quiet: seq<Event>)
    requires Quiet(quiet) && !AnyPending(trace)
    ensures !AnyPending(trace + quiet)
    ensures Timeout(trace + quiet) == Timeout(trace) && DeviceStamp(trace + quiet) == DeviceStamp(trace)
    decreases |quiet|
  {
    if quiet == [] {
      assert trace + quiet == trace;
    } else {
      var n := |quiet| - 1;
      assert (trace + quiet)[..|trace + quiet| - 1] == trace + quiet[..n];
      QuietKeepsDeviceStamp(trace, quiet[..n]);
    }
  }

  /** Expired stays Expired at every later check until a transaction succeeds (or the watchdog is
      armed anew), also when channels are added meanwhile. */
  lemma {:induction false} ExpiredIsSticky(trace: seq<Event>, quiet: seq<Event>, writable: seq<bool>, more: seq<bool>,
                                           now: nat, later: nat)
    requires trace != [] && trace[|trace| - 1] == Check(now) && Monotone(trace)
    requires |writable| == Count(trace) && writable <= more && now <= later && Quiet(quiet)
    requires Silent(trace, writable, now)
    ensures Silent(trace + quiet, more, later)
  {
    QuietKeepsDeviceStamp(trace, quiet);
    if now - DeviceStamp(trace) <= Timeout(trace) {
      var i :| 0 <= i < |writable| && writable[i] && now - ChannelStamp(trace, i) > Timeout(trace);
      QuietKeepsStamps(trace, quiet, i);
      assert more[i] && later - ChannelStamp(trace + quiet, i) > Timeout(trace + quiet);
    }
  }

  /** The events without the contacts on channel i. */
  function WithoutContacts(events: seq<Event>, i: nat): seq<Event> {
    if events == [] then []
    else
      var n := |events| - 1;
      WithoutContacts(events[..n], i) + if events[n].Contact? && events[n].i == i then [] else [events[n]]
  }

  /** One event more. */
  lemma {:induction false} StampNext(trace: seq<Event>, e: Event, j: nat)
    ensures var t := trace + [e];
            && Count(t) == (if e.Add? then Count(trace) + 1 else Count(trace))
            && Pending(t, j) == ((e.Contact? && (e.i == j || Pending(trace, j)))
                                 || (e.Add? && Count(trace) != j && Pending(trace, j)))
            && ChannelStamp(t, j) == (if e.Add? && Count(trace) == j then DeviceStamp(trace)
                                      else if e.Arm? || (e.Check? && Pending(trace, j)) then e.now
                                      else ChannelStamp(trace, j))
  {
    assert (trace + [e])[..|trace|] == trace;
    hide DeviceStamp;
  }

  /** Contacts on one channel never move another channel's stamp. */
  lemma {:induction false} ContactsDoNotLeak(trace: seq<Event>, events: seq<Event>, i: nat, j: nat)
    requires i != j && j < Count(trace)
    ensures var without := trace + WithoutContacts(events, i);
            && ChannelStamp(without, j) == ChannelStamp(trace + events, j)
            && Pending(without, j) == Pending(trace + events, j)
            && Count(without) == Count(trace + events) >= Count(trace)
    decreases |events|
  {
    if events != [] {
      var n := |events| - 1;
      var before, rest := WithoutContacts(events[..n], i), trace + events[..n];
      ContactsDoNotLeak(trace, events[..n], i, j);
      assert trace + events == rest + [events[n]];
      StampNext(rest, events[n], j);
      StampNext(trace + before, events[n], j);
      assert trace + (before + [events[n]]) == trace + before + [events[n]];
      assert before + [] == before;
      hide Pending, ChannelStamp, Count, DeviceStamp;
    } else {
      assert trace + events == trace == trace + WithoutContacts(events, i);
    }
  }

  /** Adding a channel makes the next check expire only where it would have anyway, or if a writable
      channel is added after contact that was not folded in yet and the device's stamp, which the
      new channel takes over, is overdue by then. */
  lemma {:induction false} FirstCheckAfterAdd(trace: seq<Event>, c: Channel, writable: seq<bool>, now: nat)
    requires |writable| == Count(trace)
    ensures Silent(trace + [Add(c)] + [Check(now)], writable + [c.writable], now)
       <==> || Silent(trace + [Check(now)], writable, now)
            || (c.writable && AnyPending(trace) && now - DeviceStamp(trace) > Timeout(trace))
  {
    var added, n := trace + [Add(c)], |writable|;
    var t, u := added + [Check(now)], trace + [Check(now)];
    assert added[..|trace|] == trace && t[..|added|] == added && u[..|trace|] == trace;
    assert Timeout(added) == Timeout(trace) && AnyPending(added) == AnyPending(trace);
    assert DeviceStamp(added) == DeviceStamp(trace);
    assert Timeout(t) == Timeout(added) && Timeout(u) == Timeout(trace) && DeviceStamp(t) == DeviceStamp(u);
    forall i: nat | i < n
      ensures ChannelStamp(t, i) == ChannelStamp(u, i) && (writable + [c.writable])[i] == writable[i]
    {
      assert Pending(added, i) == Pending(trace, i) && ChannelStamp(added, i) == ChannelStamp(trace, i);
    }
    assert !Pending(added, n) && ChannelStamp(added, n) == DeviceStamp(trace);
    assert ChannelStamp(t, n) == DeviceStamp(trace) && (writable + [c.writable])[n] == c.writable;
    hide ChannelStamp, Pending, Timeout;
  }

  // ---- Contact by writes alone ---------------------------------------------------------------------

  /** What would feed channel i if reads did not: its addition, an arming, a check that folds a write in. */
  predicate Resets(trace: seq<Event>, k: nat, i: nat)
    requires k < |trace|
  {
    match trace[k]
    case Arm(_, _) => true
    case Add(_) => Count(trace[..k]) == i
    case Check(_) => WritePending(trace[..k], i)
    case Contact(_, _) => false
  }

  /** Check k folded in reads of channel i and no write to it, later than the channel's last write or
      arming was folded in, and nothing of that kind came afterwards. */
  predicate ReadFolded(trace: seq<Event>, k: nat, i: nat)
    requires k < |trace|
  {
    && trace[k].Check? && Pending(trace[..k], i) && !WritePending(trace[..k], i)
    && trace[k].now > WriteStamp(trace, i)
    && forall m :: k < m < |trace| ==> !Resets(trace, m, i)
  }

  lemma {:induction false} WriteIsContact(trace: seq<Event>, i: nat)
    ensures WritePending(trace, i) ==> Pending(trace, i)
  {
    if trace != [] {
      WriteIsContact(trace[..|trace| - 1], i);
    }
  }

  /** The last event either resets the stamp that counts writes alone, or leaves it and all earlier folds. */
  lemma {:induction false} FoldsStay(trace: seq<Event>, i: nat, k: nat)
    requires trace != [] && k < |trace| - 1
    ensures var n := |trace| - 1;
            ReadFolded(trace, k, i) <==> !Resets(trace, n, i) && ReadFolded(trace[..n], k, i)
  {
    var n := |trace| - 1;
    var front := trace[..n];
    assert front[..k] == trace[..k];
    forall m: nat | k < m < n
      ensures Resets(trace, m, i) <==> Resets(front, m, i)
    {
      assert front[..m] == trace[..m];
    }
    if !Resets(trace, n, i) {
      assert WriteStamp(trace, i) == WriteStamp(front, i);
    }
  }

  /** A channel's stamp is never earlier than that of its writes; where it is later it is the time of
      the last check that folded in reads alone. */
  lemma {:induction false} StampIsWriteOrRead(trace: seq<Event>, i: nat)
    requires Monotone(trace)
    ensures WriteStamp(trace, i) <= ChannelStamp(trace, i)
    ensures forall k: nat :: k < |trace| && ReadFolded(trace, k, i) ==> trace[k].now <= ChannelStamp(trace, i)
    ensures ChannelStamp(trace, i) > WriteStamp(trace, i) ==>
      exists k: nat :: k < |trace| && ReadFolded(trace, k, i) && trace[k].now == ChannelStamp(trace, i)
  {
    if trace != [] {
      var n := |trace| - 1;
      var front := trace[..n];
      StampIsWriteOrRead(front, i);
      StampsBounded(front, i);
      WriteIsContact(front, i);
      forall k: nat | k < n
        ensures ReadFolded(trace, k, i) <==> !Resets(trace, n, i) && ReadFolded(front, k, i)
      {
        FoldsStay(trace, i, k);
      }
      if ChannelStamp(trace, i) > WriteStamp(trace, i) {
        if trace[n].Check? && Pending(front, i) {
          assert ReadFolded(trace, n, i);
        } else {
          var k: nat :| k < n && ReadFolded(front, k, i) && front[k].now == ChannelStamp(front, i);
          assert ReadFolded(trace, k, i) && trace[k].now == ChannelStamp(trace, i);
        }
      }
    }
  }

  /** A channel's stamp is that of its writes and armings exactly when no check since then has folded
      in a read. */
  lemma {:induction false} FedByWritesIff(trace: seq<Event>, i: nat)
    requires Monotone(trace)
    ensures ChannelStamp(trace, i) == WriteStamp(trace, i) <==> forall k: nat :: k < |trace| ==> !ReadFolded(trace, k, i)
  {
    StampIsWriteOrRead(trace, i);
  }

  /** The writes to channel i are overdue. */
  predicate WritesOverdue(trace: seq<Event>, i: nat, now: nat) {
    now - WriteStamp(trace, i) > Timeout(trace)
  }

  /** The documented rule: the device is silent, or the writes to some writable channel are. */
  ghost predicate SilentByWrites(trace: seq<Event>, writable: seq<bool>, now: nat) {
    || now - DeviceStamp(trace) > Timeout(trace)
    || exists i :: 0 <= i < |writable| && writable[i] && WritesOverdue(trace, i, now)
  }

  /** Within the timeout a read of channel i has been folded in. */
  ghost predicate KeptByReads(trace: seq<Event>, i: nat, now: nat) {
    exists k: nat :: k < |trace| && ReadFolded(trace, k, i) && now - trace[k].now <= Timeout(trace)
  }

  /** The device is in contact, the writes to some writable channel are overdue, and every such
      channel is kept alive by reads. */
  ghost predicate HiddenByReads(trace: seq<Event>, writable: seq<bool>, now: nat) {
    && now - DeviceStamp(trace) <= Timeout(trace)
    && (exists i :: 0 <= i < |writable| && writable[i] && WritesOverdue(trace, i, now))
    && forall i :: 0 <= i < |writable| && writable[i] && WritesOverdue(trace, i, now) ==> KeptByReads(trace, i, now)
  }

  lemma {:induction false} OverdueIff(trace: seq<Event>, i: nat, now: nat)
    requires Monotone(trace)
    ensures now - ChannelStamp(trace, i) > Timeout(trace) <==> WritesOverdue(trace, i, now) && !KeptByReads(trace, i, now)
  {
    StampIsWriteOrRead(trace, i);
  }

  /** Expired is never reported against the documented rule, and the rule is kept except exactly where
      reads hide that writes no longer land. */
  lemma {:induction false} DocumentedVerdictIff(channels: seq<Channel>, trace: seq<Event>, now: nat, v: Verdict)
    requires trace != [] && trace[|trace| - 1] == Check(now) && Monotone(trace) && Stamped(channels, trace)
    requires IsVerdict(v, channels, Timeout(trace), DeviceStamp(trace), now) && Timeout(trace) > 0
    ensures v == Expired ==> SilentByWrites(trace, Writable(channels), now)
    ensures (v == Expired <==> SilentByWrites(trace, Writable(channels), now))
       <==> !HiddenByReads(trace, Writable(channels), now)
  {
    ExpiredIffSilent(channels, trace, now, v);
    hide Stamped, IsVerdict, ChannelStamp, DeviceStamp, WriteStamp, Timeout, Monotone, KeptByReads, WritesOverdue;
    var writable := Writable(channels);
    forall i: nat
      ensures now - ChannelStamp(trace, i) > Timeout(trace) <==> WritesOverdue(trace, i, now) && !KeptByReads(trace, i, now)
    {
      OverdueIff(trace, i, now);
    }
  }

  /** An actuator armed at 0 with a timeout of 10, read every 9 units and never written to. */
  function OnlyRead(c: Channel, n: nat): seq<Event> {
    if n == 0 then [Add(c)] + [Arm(10, 0)] else OnlyRead(c, n - 1) + [Contact(0, false)] + [Check(9 * n)]
  }

  /** Channel 0 was read and the read folded in at `now`; nothing was written to it since 0. */
  predicate ReadUpTo(t: seq<Event>, now: nat) {
    && Count(t) == 1 && Timeout(t) == 10 && Monotone(t) && Clock(t) == now
    && ChannelStamp(t, 0) == DeviceStamp(t) == now && WriteStamp(t, 0) == 0
    && !Pending(t, 0) && !WritePending(t, 0)
  }

  lemma {:induction false} AfterRead(t: seq<Event>, was: nat, now: nat)
    requires ReadUpTo(t, was) && was <= now
    ensures ReadUpTo(t + [Contact(0, false)] + [Check(now)], now)
  {
    var contact := t + [Contact(0, false)];
    var check := contact + [Check(now)];
    assert contact[..|t|] == t && check[..|contact|] == contact;
    assert Count(contact) == 1 && Timeout(contact) == 10 && Monotone(contact) && Clock(contact) == was;
    assert Pending(contact, 0) && AnyPending(contact) && !WritePending(contact, 0) && WriteStamp(contact, 0) == 0;
  }

  lemma {:induction false} OnlyReadStamps(c: Channel, n: nat)
    ensures ReadUpTo(OnlyRead(c, n), 9 * n)
  {
    if n == 0 {
      var added := [Add(c)];
      var armed := added + [Arm(10, 0)];
      assert added[..0] == [] && armed[..1] == added;
      assert Count([]) == 0 && Monotone([]) && Clock([]) == 0;
      assert Count(added) == 1 && Monotone(added) && Clock(added) == 0;
    } else {
      OnlyReadStamps(c, n - 1);
      AfterRead(OnlyRead(c, n - 1), 9 * (n - 1), 9 * n);
    }
  }

  /** However long this goes on, the watchdog reports Alive, while nothing was written since 0. */
  lemma {:induction false} ReadsHideSilentActuator(c: Channel, n: nat, v: Verdict)
    requires n >= 2 && c.WellFormed() && c.writable
    requires IsVerdict(v, [c.(lastContact := 9 * n, contactPending := false)], 10, 9 * n, 9 * n)
    ensures Stamped([c.(lastContact := 9 * n, contactPending := false)], OnlyRead(c, n))
    ensures v == Alive && SilentByWrites(OnlyRead(c, n), [true], 9 * n)
  {
    OnlyReadStamps(c, n);
    assert [true][0] && WritesOverdue(OnlyRead(c, n), 0, 9 * n);
  }
}
