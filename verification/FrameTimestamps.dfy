/**
 Frame timestamps: the robot's sender, which numbers every n-th frame
 (robot-agent/internal/video/timestamp_sender.go), and the console's buffer, which infers losses from
 gaps in the numbers (apps/console/src/hooks/useFrameTimestamps.ts).
 */
module FrameTimestamps {
  import opened Wrappers
  import opened Collections

  const TWO_TO_THE_64 := 0x1_0000_0000_0000_0000
  const TWO_TO_THE_53 := 0x20_0000_0000_0000

  datatype FrameTimestampMessage = FrameTimestampMessage(timestamp: int, frameId: nat, sequenceNumber: nat)

  // ------------------------------------------------------------- the sender

  lemma {:induction false} NextQuotient(frames: nat, interval: nat)
    requires interval > 0
    ensures (frames + 1) / interval == frames / interval + (if (frames + 1) % interval == 0 then 1 else 0)
  {
    var q, r := frames / interval, frames % interval;
    assert frames == q * interval + r;
    if r == interval - 1 {
      assert frames + 1 == (q + 1) * interval;
      QuotientIs(frames + 1, q + 1, 0, interval);
    } else {
      QuotientIs(frames + 1, q, r + 1, interval);
    }
  }

  lemma {:induction false} QuotientIs(n: nat, q: nat, r: nat, interval: nat)
    requires r < interval && n == q * interval + r
    ensures n / interval == q && n % interval == r
  {
    var d := n / interval - q;
    assert d * interval + n % interval == r;
  }

  /** The frame that the message with this number is about. */
  function FrameOf(sequenceNumber: nat, interval: nat): nat {
    sequenceNumber * interval
  }

  class TimestampSender {
    const sendInterval: nat
    var frameCounter: nat
    var seqNumber: nat
    ghost var frames: nat  // all frames so far

    /** Until the 64-bit counters wrap around, they count all frames and every `sendInterval`-th. */
    ghost predicate Valid()
      reads this
    {
      && sendInterval > 0 && frameCounter < TWO_TO_THE_64 && seqNumber < TWO_TO_THE_64
      && (frames < TWO_TO_THE_64 ==> frameCounter == frames && seqNumber == frames / sendInterval && seqNumber <= frames)
    }

    constructor (sendInterval: int)
      ensures Valid() && frames == 0 && this.sendInterval == if sendInterval <= 0 then 10 else sendInterval
    {
      this.sendInterval := if sendInterval <= 0 then 10 else sendInterval;
      frameCounter, seqNumber, frames := 0, 0, 0;
    }

    /** The message for this frame, if one is due. Its number is used up whether or not sending succeeds. */
    method SendFrameTimestamp(frameTime: int) returns (msg: Option<FrameTimestampMessage>)
      requires Valid()
      modifies this
      ensures Valid() && frames == old(frames) + 1
      ensures frames < 0x1_0000_0000_0000_0000 ==>
                msg == if frames % sendInterval == 0 then Some(FrameTimestampMessage(frameTime, frames, frames / sendInterval)) else None
    {
      NextQuotient(frames, sendInterval);
      frames := frames + 1;
      frameCounter := (frameCounter + 1) % TWO_TO_THE_64;
      if frameCounter % sendInterval != 0 {
        return None;
      }
      seqNumber := (seqNumber + 1) % TWO_TO_THE_64;
      return Some(FrameTimestampMessage(frameTime, frameCounter, seqNumber));
    }
  }

  // ------------------------------------------------------------- the console's buffer

  /** What `JSON.parse` and the type guard make of a message. */
  datatype Incoming =
    | Unparsable(error: string)
    | OtherType
    | InvalidStructure
    | Timestamp(msg: FrameTimestampMessage)

  datatype TimestampBuffer = TimestampBuffer(
    timestamps: seq<int>, lastSequence: int, droppedMessages: int, parseErrors: nat, lastError: Option<string>)

  function Truncated(s: string, n: nat): string {
    if |s| <= n then s else s[..n]
  }

  /** The numbers skipped from each element of a list to the next. */
  ghost function Gaps(numbers: seq<int>): nat {
    if |numbers| <= 1 then 0
    else
      var last := |numbers| - 1;
      Gaps(numbers[..last]) + if numbers[last] > numbers[last - 1] + 1 then numbers[last] - numbers[last - 1] - 1 else 0
  }

  lemma {:induction false} GapsNext(numbers: seq<int>, next: int)
    requires numbers != []
    ensures var last := numbers[|numbers| - 1];
            Gaps(numbers + [next]) == Gaps(numbers) + if next > last + 1 then next - last - 1 else 0
  {
    assert (numbers + [next])[..|numbers|] == numbers;
  }

  ghost predicate Increasing(numbers: seq<int>) {
    forall i, j :: 0 <= i < j < |numbers| ==> numbers[i] < numbers[j]
  }

  /** The numbers between the first and the last of a list that are not in it. */
  ghost function Missing(numbers: seq<int>): set<int>
    requires numbers != []
  {
    set q | numbers[0] < q < numbers[|numbers| - 1] && q !in numbers
  }

  ghost function Between(low: int, high: int): set<int> {
    set q | low < q < high && Inside(low, q, high)
  }

  ghost predicate Inside(low: int, q: int, high: int) {
    low < q < high
  }

  lemma {:induction false} BetweenCounts(low: int, high: int)
    ensures |Between(low, high)| == if high > low + 1 then high - low - 1 else 0
    decreases high - low
  {
    if high > low + 1 {
      BetweenCounts(low, high - 1);
      assert Between(low, high) == Between(low, high - 1) + {high - 1};
    } else {
      assert Between(low, high) == {};
    }
  }

  lemma {:induction false} MissingNext(numbers: seq<int>, next: int)
    requires numbers != [] && Increasing(numbers + [next])
    ensures var last := numbers[|numbers| - 1];
            Missing(numbers + [next]) == Missing(numbers) + Between(last, next) && Missing(numbers) !! Between(last, next)
  {
    var longer := numbers + [next];
    var last := numbers[|numbers| - 1];
    forall i | 0 <= i < |numbers| ensures numbers[i] <= last < next {
      assert longer[i] == numbers[i] && longer[|numbers| - 1] == last && longer[|numbers|] == next;
    }
  }

  /** If messages arrive in order, the gaps count exactly the missing numbers. */
  lemma {:induction false} GapsAreMissing(numbers: seq<int>)
    requires numbers != [] && Increasing(numbers)
    ensures Gaps(numbers) == |Missing(numbers)|
    decreases |numbers|
  {
    var n := |numbers| - 1;
    if n == 0 {
      assert Missing(numbers) == {};
    } else {
      var front := numbers[..n];
      assert numbers == front + [numbers[n]];
      GapsAreMissing(front);
      MissingNext(front, numbers[n]);
      BetweenCounts(front[n - 1], numbers[n]);
    }
  }

  // ------------------------------------------------------------- any order of arrival

  /** How far the numbers fall, in all, from each element to the next. */
  ghost function Falls(numbers: seq<int>): nat {
    if |numbers| <= 1 then 0
    else
      var last := |numbers| - 1;
      Falls(numbers[..last]) + if numbers[last] < numbers[last - 1] then numbers[last - 1] - numbers[last] else 0
  }

  /** How often they fall. */
  ghost function Descents(numbers: seq<int>): nat {
    if |numbers| <= 1 then 0
    else
      var last := |numbers| - 1;
      Descents(numbers[..last]) + if numbers[last] < numbers[last - 1] then 1 else 0
  }

  /** The least and the greatest number received. */
  ghost function Lowest(numbers: seq<int>): int
    requires numbers != []
  {
    var last := |numbers| - 1;
    if last == 0 then numbers[0] else if numbers[last] < Lowest(numbers[..last]) then numbers[last] else Lowest(numbers[..last])
  }

  ghost function Highest(numbers: seq<int>): int
    requires numbers != []
  {
    var last := |numbers| - 1;
    if last == 0 then numbers[0] else if numbers[last] > Highest(numbers[..last]) then numbers[last] else Highest(numbers[..last])
  }

  /** Every step is a rise, which leaves a gap, or a fall. */
  lemma {:induction false} GapsBalance(numbers: seq<int>)
    requires numbers != [] && Distinct(numbers)
    ensures Gaps(numbers) == numbers[|numbers| - 1] - numbers[0] + Falls(numbers) - (|numbers| - 1) + Descents(numbers)
    decreases |numbers|
  {
    var last := |numbers| - 1;
    if last > 0 {
      GapsBalance(numbers[..last]);
    }
  }

  /** To get around to its lowest and its highest number a list must fall at least this far. */
  lemma {:induction false} FallsReach(numbers: seq<int>)
    requires numbers != []
    ensures var first, now, low, high := numbers[0], numbers[|numbers| - 1], Lowest(numbers), Highest(numbers);
            && low <= first <= high && low <= now <= high
            && (Falls(numbers) >= (first - low) + (high - now) || Falls(numbers) >= high - low)
    decreases |numbers|
  {
    var last := |numbers| - 1;
    if last > 0 {
      FallsReach(numbers[..last]);
    }
  }

  lemma {:induction false} WithinExtremes(numbers: seq<int>, i: nat)
    requires i < |numbers|
    ensures Lowest(numbers) <= numbers[i] <= Highest(numbers)
    decreases |numbers|
  {
    var last := |numbers| - 1;
    if i < last {
      WithinExtremes(numbers[..last], i);
    }
  }

  ghost function Values(numbers: seq<int>): set<int> {
    set q | q in numbers
  }

  lemma {:induction false} ValuesCount(numbers: seq<int>)
    requires Distinct(numbers)
    ensures |Values(numbers)| == |numbers|
    decreases |numbers|
  {
    if numbers != [] {
      var last := |numbers| - 1;
      ValuesCount(numbers[..last]);
      assert numbers == numbers[..last] + [numbers[last]];
      assert Values(numbers) == Values(numbers[..last]) + {numbers[last]};
    }
  }

  /** Few numbers can be missing: most of what is between the first and the last has been received. */
  lemma {:induction false} MissingAtMost(numbers: seq<int>)
    requires |numbers| > 1 && Distinct(numbers) && numbers[0] < numbers[|numbers| - 1]
    ensures var first, last := numbers[0], numbers[|numbers| - 1];
            |Missing(numbers)| <= last - first + 1 - |numbers| + (first - Lowest(numbers)) + (Highest(numbers) - last)
  {
    var range := Between(Lowest(numbers) - 1, Highest(numbers) + 1);
    var all := Missing(numbers) + Values(numbers);
    FallsReach(numbers);
    forall q | q in all ensures q in range {
      ValueWithin(numbers, q);
    }
    SubsetCounts(all, range);
    ValuesCount(numbers);
    assert Missing(numbers) !! Values(numbers);
    BetweenCounts(Lowest(numbers) - 1, Highest(numbers) + 1);
  }

  lemma {:induction false} ValueWithin(numbers: seq<int>, q: int)
    requires numbers != []
    ensures q in numbers ==> Lowest(numbers) <= q <= Highest(numbers)
    ensures q in Missing(numbers) ==> Lowest(numbers) <= q <= Highest(numbers)
  {
    FallsReach(numbers);
    if q in numbers {
      var i :| 0 <= i < |numbers| && numbers[i] == q;
      WithinExtremes(numbers, i);
    }
  }

  lemma {:induction false} NoDescentIsIncreasing(numbers: seq<int>)
    requires Distinct(numbers) && Descents(numbers) == 0
    ensures Increasing(numbers)
    decreases |numbers|
  {
    if |numbers| > 1 {
      var last := |numbers| - 1;
      NoDescentIsIncreasing(numbers[..last]);
      forall i, j | 0 <= i < j < |numbers| ensures numbers[i] < numbers[j] {
        assert numbers[..last][i] == numbers[i];
        assert i < last - 1 ==> numbers[..last][i] < numbers[..last][last - 1];
        assert j < last ==> numbers[..last][i] < numbers[..last][j];
      }
    }
  }

  /**
   Exactly when the gaps count the missing numbers, for messages that each arrive once and the last
   not before the first: when they arrive in order. Otherwise the gaps count too many.
   */
  lemma {:induction false} GapsAreMissingIff(numbers: seq<int>)
    requires numbers != [] && Distinct(numbers) && numbers[0] <= numbers[|numbers| - 1]
    ensures Gaps(numbers) == |Missing(numbers)| <==> Increasing(numbers)
    ensures Gaps(numbers) >= |Missing(numbers)| + Descents(numbers)
  {
    if |numbers| > 1 {
      GapsBalance(numbers);
      FallsReach(numbers);
      MissingAtMost(numbers);
    } else {
      assert Missing(numbers) == {};
    }
    if Increasing(numbers) {
      GapsAreMissing(numbers);
    } else if Descents(numbers) == 0 {
      NoDescentIsIncreasing(numbers);
    }
  }

  /** If the last message overtook the first, nothing is between them, and the gaps count nothing exactly if no rise skips a number. */
  lemma {:induction false} NothingBetween(numbers: seq<int>)
    requires numbers != [] && numbers[|numbers| - 1] < numbers[0]
    ensures Missing(numbers) == {}
    ensures Gaps(numbers) == 0 <==> forall i :: 0 < i < |numbers| ==> numbers[i] <= numbers[i - 1] + 1
  {
    assert Missing(numbers) == {};
    NoGapIff(numbers);
  }

  lemma {:induction false} NoGapIff(numbers: seq<int>)
    ensures Gaps(numbers) == 0 <==> forall i :: 0 < i < |numbers| ==> numbers[i] <= numbers[i - 1] + 1
    decreases |numbers|
  {
    if |numbers| > 1 {
      var last := |numbers| - 1;
      NoGapIff(numbers[..last]);
      assert forall i :: 0 <= i < last ==> numbers[..last][i] == numbers[i];
    }
  }

  /** The shortest disorder: nothing is missing, and two drops are counted. */
  lemma {:induction false} ReorderingIsMiscounted()
    ensures Missing([1, 3, 2, 4]) == {} && Gaps([1, 3, 2, 4]) == 2
  {
    assert [1, 3, 2, 4] == [1] + [3] + [2] + [4];
    GapsNext([1], 3);
    GapsNext([1] + [3], 2);
    GapsNext([1] + [3] + [2], 4);
  }

  class TimestampReceiver {
    var buffer: TimestampBuffer
    var receivedFirst: bool
    ghost var received: seq<int>  // all timestamps received
    ghost var channel: seq<int>   // the numbers received on the present channel
    ghost var earlier: nat        // the drops counted on earlier channels

    ghost predicate Valid()
      reads this
    {
      && buffer.timestamps == LastN(received, 100)
      && (receivedFirst <==> channel != [])
      && (channel != [] ==> buffer.lastSequence == channel[|channel| - 1])
      && buffer.droppedMessages == earlier + Gaps(channel)
    }

    constructor ()
      ensures Valid() && received == [] && channel == [] && buffer.droppedMessages == 0
    {
      buffer := TimestampBuffer([], 0, 0, 0, None);
      receivedFirst := false;
      received, channel, earlier := [], [], 0;
    }

    method HandleMessage(m: Incoming)
      requires Valid()
      modifies this
      ensures Valid() && earlier == old(earlier)
      ensures received == if m.Timestamp? then old(received) + [m.msg.timestamp] else old(received)
      ensures channel == if m.Timestamp? then old(channel) + [m.msg.sequenceNumber] else old(channel)
      ensures buffer.parseErrors == old(buffer.parseErrors) + if m.Unparsable? || m.InvalidStructure? then 1 else 0
      ensures buffer.lastError == match m
                                  case Unparsable(error) => Some(if |error| <= 100 then error else error[..100])
                                  case OtherType => old(buffer.lastError)
                                  case InvalidStructure => Some("Invalid message structure")
                                  case Timestamp(_) => None
    {
      match m
      case Unparsable(error) =>
        buffer := buffer.(parseErrors := buffer.parseErrors + 1, lastError := Some(Truncated(error, 100)));
      case OtherType =>
      case InvalidStructure =>
        buffer := buffer.(parseErrors := buffer.parseErrors + 1, lastError := Some("Invalid message structure"));
      case Timestamp(msg) =>
        Receive(msg);
    }

    method Receive(msg: FrameTimestampMessage)
      requires Valid()
      modifies this
      ensures Valid() && earlier == old(earlier)
      ensures received == old(received) + [msg.timestamp] && channel == old(channel) + [msg.sequenceNumber]
      ensures buffer.parseErrors == old(buffer.parseErrors) && buffer.lastError == None
    {
      var dropped := 0;
      if receivedFirst && msg.sequenceNumber > buffer.lastSequence + 1 {
        dropped := msg.sequenceNumber - buffer.lastSequence - 1;
      }
      assert Gaps(channel + [msg.sequenceNumber]) == Gaps(channel) + dropped by {
        if channel != [] {
          GapsNext(channel, msg.sequenceNumber);
        }
      }
      var timestamps := LastN(buffer.timestamps, 99) + [msg.timestamp];
      assert timestamps == LastN(received + [msg.timestamp], 100) by {
        LastNNext(received, msg.timestamp, 100);
      }
      receivedFirst := true;
      buffer := TimestampBuffer(timestamps, msg.sequenceNumber,
                                buffer.droppedMessages + dropped, buffer.parseErrors, None);
      received, channel := received + [msg.timestamp], channel + [msg.sequenceNumber];
    }

    /** The channel is replaced: what was counted stays, and the next number starts afresh. */
    method ChangeChannel()
      requires Valid()
      modifies this`receivedFirst, this`channel, this`earlier
      ensures Valid() && channel == [] && earlier == buffer.droppedMessages
    {
      receivedFirst := false;
      earlier := buffer.droppedMessages;
      channel := [];
    }
  }

  // ------------------------------------------------------------- both ends

  /** A frame, and whether its message, if it gets one, arrives. */
  datatype Frame = Frame(time: int, arrives: bool)

  /** The message with this number arrives; `before` frames came before the listed ones. */
  ghost predicate Arrives(frames: seq<Frame>, before: nat, interval: nat, sequenceNumber: int) {
    sequenceNumber >= 0 &&
    var i := FrameOf(sequenceNumber, interval) - before - 1;
    0 <= i < |frames| && frames[i].arrives
  }

  /** The numbers of the messages that arrived, among those sent so far. */
  ghost predicate AllArrived(numbers: seq<int>, frames: seq<Frame>, before: nat, interval: nat, first: nat, sent: nat) {
    && Increasing(numbers)
    && (forall q :: q in numbers <==> first < q <= sent && Arrives(frames, before, interval, q))
  }

  /** The messages lost between the first and the last that arrived. */
  ghost function Lost(numbers: seq<int>, frames: seq<Frame>, before: nat, interval: nat): set<int>
    requires numbers != []
  {
    set q | numbers[0] < q < numbers[|numbers| - 1] && !Arrives(frames, before, interval, q)
  }

  lemma {:induction false} LostAreMissing(numbers: seq<int>, frames: seq<Frame>, before: nat, interval: nat, first: nat, sent: nat)
    requires numbers != [] && AllArrived(numbers, frames, before, interval, first, sent)
    ensures Gaps(numbers) == |Lost(numbers, frames, before, interval)|
  {
    GapsAreMissing(numbers);
    assert numbers[0] in numbers && numbers[|numbers| - 1] in numbers;
    assert Missing(numbers) == Lost(numbers, frames, before, interval);
  }

  lemma {:induction false} NextArrived(numbers: seq<int>, frames: seq<Frame>, before: nat, interval: nat, first: nat, sent: nat, k: nat)
    requires AllArrived(numbers, frames, before, interval, first, sent) && first <= sent
    requires k < |frames| && FrameOf(sent + 1, interval) == before + k + 1
    ensures AllArrived(if frames[k].arrives then numbers + [sent + 1] else numbers, frames, before, interval, first, sent + 1)
  {
    assert Arrives(frames, before, interval, sent + 1) <==> frames[k].arrives;
    forall i | 0 <= i < |numbers| ensures numbers[i] <= sent {
      assert numbers[i] in numbers;
    }
  }

  /** One frame, from the sender to the console if its message is due and arrives. */
  method Transmit(sender: TimestampSender, receiver: TimestampReceiver, frame: Frame)
    requires sender.Valid() && receiver.Valid() && sender.frames + 1 < TWO_TO_THE_64
    modifies sender, receiver
    ensures sender.Valid() && receiver.Valid() && sender.frames == old(sender.frames) + 1
    ensures receiver.earlier == old(receiver.earlier)
    ensures if sender.frames % sender.sendInterval == 0
            then
              && sender.seqNumber == old(sender.seqNumber) + 1
              && FrameOf(sender.seqNumber, sender.sendInterval) == sender.frames
              && receiver.channel == if frame.arrives then old(receiver.channel) + [sender.seqNumber] else old(receiver.channel)
            else sender.seqNumber == old(sender.seqNumber) && receiver.channel == old(receiver.channel)
  {
    NextQuotient(sender.frames, sender.sendInterval);
    var msg := sender.SendFrameTimestamp(frame.time);
    if msg.Some? && frame.arrives {
      receiver.HandleMessage(Timestamp(msg.value));
    }
  }

  /**
   Frames go through the sender and, over a channel that keeps order but may lose messages, to the
   console: the drops it counts are exactly the messages lost between the first and the last it received.
   Sequence numbers beyond 2^53 would not be exact in the console's floating-point numbers.
   */
  method Stream(sender: TimestampSender, receiver: TimestampReceiver, frames: seq<Frame>)
    requires sender.Valid() && receiver.Valid() && receiver.channel == []
    requires sender.frames + |frames| <= TWO_TO_THE_53
    modifies sender, receiver
    ensures sender.Valid() && receiver.Valid() && sender.frames == old(sender.frames) + |frames|
    ensures AllArrived(receiver.channel, frames, old(sender.frames), sender.sendInterval, old(sender.seqNumber), sender.seqNumber)
    ensures receiver.buffer.droppedMessages - old(receiver.buffer.droppedMessages)
            == if receiver.channel == [] then 0
               else |Lost(receiver.channel, frames, old(sender.frames), sender.sendInterval)|
  {
    ghost var before, first, interval := sender.frames, sender.seqNumber, sender.sendInterval;
    for k := 0 to |frames|
      invariant sender.Valid() && receiver.Valid() && sender.frames == before + k && first <= sender.seqNumber
      invariant receiver.earlier == old(receiver.earlier)
      invariant AllArrived(receiver.channel, frames, before, interval, first, sender.seqNumber)
    {
      ghost var sent, numbers := sender.seqNumber, receiver.channel;
      Transmit(sender, receiver, frames[k]);
      if sender.seqNumber == sent + 1 {
        NextArrived(numbers, frames, before, interval, first, sent, k);
      }
    }
    if receiver.channel != [] {
      LostAreMissing(receiver.channel, frames, before, interval, first, sender.seqNumber);
    }
  }
}
