/**
 * The flush policy of one room's buffer, on values. A room's state is its buffer, the number of
 * `addConversation` calls whose completion has not come back yet, and the blocks handed to storage.
 * `Post` is an inbound message for the room and `Complete` the completion of the oldest pending insert.
 *
 * The policy as written in server.js resets the buffer only when an insert completes; a message that
 * arrives in between makes the whole, still un-reset buffer go to storage again. The corrected policy
 * resets the buffer when the block is handed over, so every message lands in exactly one block.
 */
module Archive {
  import opened Types

  /** `messageBlockSize`: a buffer this long is handed to storage. */
  const MessageBlockSize: nat := 10

  datatype RoomLog = RoomLog(buffer: seq<Message>, inflight: nat, stored: seq<seq<Message>>)

  datatype Event = Post(message: Message) | Complete

  const Fresh: RoomLog := RoomLog([], 0, [])

  /** An inbound message as server.js handles it: append, and submit the buffer once it is long enough. */
  function PostAsWritten(log: RoomLog, m: Message): (r: RoomLog)
    ensures r.buffer == log.buffer + [m]
    ensures |r.buffer| >= MessageBlockSize ==> r.stored == log.stored + [r.buffer] && r.inflight == log.inflight + 1
    ensures |r.buffer| < MessageBlockSize ==> r.stored == log.stored && r.inflight == log.inflight
  {
    var buffer := log.buffer + [m];
    if |buffer| >= MessageBlockSize then RoomLog(buffer, log.inflight + 1, log.stored + [buffer])
    else log.(buffer := buffer)
  }

  /** An insert completing as server.js handles it: the buffer is emptied, whatever arrived meanwhile. */
  function CompleteAsWritten(log: RoomLog): (r: RoomLog)
    ensures r.stored == log.stored
    ensures log.inflight == 0 ==> r == log
    ensures log.inflight > 0 ==> r.buffer == [] && r.inflight == log.inflight - 1
  {
    if log.inflight == 0 then log else RoomLog([], log.inflight - 1, log.stored)
  }

  function StepAsWritten(log: RoomLog, e: Event): RoomLog {
    match e
    case Post(m) => PostAsWritten(log, m)
    case Complete => CompleteAsWritten(log)
  }

  function RunAsWritten(log: RoomLog, events: seq<Event>): RoomLog {
    if events == [] then log
    else StepAsWritten(RunAsWritten(log, events[..|events| - 1]), events[|events| - 1])
  }

  /** The corrected policy: the buffer is emptied at the moment its block is handed to storage. */
  function PostCorrected(log: RoomLog, m: Message): (r: RoomLog)
    ensures |log.buffer| + 1 < MessageBlockSize ==> r == log.(buffer := log.buffer + [m])
    ensures |log.buffer| + 1 >= MessageBlockSize ==>
              r == RoomLog([], log.inflight + 1, log.stored + [log.buffer + [m]])
  {
    var buffer := log.buffer + [m];
    if |buffer| >= MessageBlockSize then RoomLog([], log.inflight + 1, log.stored + [buffer])
    else log.(buffer := buffer)
  }

  /** Under the corrected policy a completion only settles the pending count. */
  function CompleteCorrected(log: RoomLog): RoomLog {
    if log.inflight == 0 then log else log.(inflight := log.inflight - 1)
  }

  function StepCorrected(log: RoomLog, e: Event): RoomLog {
    match e
    case Post(m) => PostCorrected(log, m)
    case Complete => CompleteCorrected(log)
  }

  function RunCorrected(log: RoomLog, events: seq<Event>): RoomLog {
    if events == [] then log
    else StepCorrected(RunCorrected(log, events[..|events| - 1]), events[|events| - 1])
  }

  /** The messages posted by a run of events, in order. */
  function Posted(events: seq<Event>): seq<Message> {
    if events == [] then []
    else Posted(events[..|events| - 1]) + (if events[|events| - 1].Post? then [events[|events| - 1].message] else [])
  }

  /** All blocks' messages, block after block. */
  function Flatten(blocks: seq<seq<Message>>): seq<Message> {
    if blocks == [] then [] else Flatten(blocks[..|blocks| - 1]) + blocks[|blocks| - 1]
  }

  function Posts(ms: seq<Message>): (events: seq<Event>)
    ensures |events| == |ms|
    ensures forall i | 0 <= i < |ms| :: events[i] == Post(ms[i])
  {
    seq(|ms|, i requires 0 <= i < |ms| => Post(ms[i]))
  }

  /** Every block the corrected policy stores holds exactly `MessageBlockSize` messages. */
  predicate FullBlocks(blocks: seq<seq<Message>>) {
    forall i | 0 <= i < |blocks| :: |blocks[i]| == MessageBlockSize
  }

  lemma {:induction false} FlattenSnoc(blocks: seq<seq<Message>>, block: seq<Message>)
    ensures Flatten(blocks + [block]) == Flatten(blocks) + block
  {
    assert (blocks + [block])[..|blocks|] == blocks;
  }

  /** The stored blocks followed by the buffer are `posted`, every block is full and the buffer is short. */
  ghost predicate Keeps(log: RoomLog, posted: seq<Message>) {
    && Flatten(log.stored) + log.buffer == posted
    && FullBlocks(log.stored)
    && |log.buffer| < MessageBlockSize
  }

  /** A post under the corrected policy appends its message after everything kept so far. */
  lemma PostCorrectedKeeps(log: RoomLog, posted: seq<Message>, m: Message)
    requires Keeps(log, posted)
    ensures Keeps(PostCorrected(log, m), posted + [m])
  {
    if |log.buffer| + 1 >= MessageBlockSize {
      var next := RoomLog([], log.inflight + 1, log.stored + [log.buffer + [m]]);
      assert PostCorrected(log, m) == next;
      FlattenSnoc(log.stored, log.buffer + [m]);
      assert FullBlocks(next.stored);
      assert Flatten(next.stored) + next.buffer == Flatten(log.stored) + log.buffer + [m];
    } else {
      assert Flatten(log.stored) + (log.buffer + [m]) == posted + [m];
    }
  }

  /** One event under the corrected policy keeps the messages posted so far, each exactly once. */
  lemma StepCorrectedKeeps(log: RoomLog, posted: seq<Message>, e: Event)
    requires Keeps(log, posted)
    ensures Keeps(StepCorrected(log, e), posted + (if e.Post? then [e.message] else []))
  {
    match e
    case Complete =>
      assert posted + [] == posted;
    case Post(m) =>
      PostCorrectedKeeps(log, posted, m);
  }

  /**
   * Under the corrected policy no message is lost or stored twice: the stored blocks followed by the
   * buffer are exactly the posted messages in order, every block is full, and the buffer stays shorter
   * than a block.
   */
  lemma {:induction false} CorrectedKeepsEachMessageOnce(events: seq<Event>)
    ensures var log := RunCorrected(Fresh, events);
            && Flatten(log.stored) + log.buffer == Posted(events)
            && FullBlocks(log.stored)
            && |log.buffer| < MessageBlockSize
  {
    if events != [] {
      var init := events[..|events| - 1];
      var e := events[|events| - 1];
      CorrectedKeepsEachMessageOnce(init);
      StepCorrectedKeeps(RunCorrected(Fresh, init), Posted(init), e);
    }
  }

  lemma {:induction false} AsWrittenShortRun(ms: seq<Message>, n: nat)
    requires n < MessageBlockSize && n <= |ms|
    ensures RunAsWritten(Fresh, Posts(ms[..n])) == RoomLog(ms[..n], 0, [])
  {
    if n > 0 {
      AsWrittenShortRun(ms, n - 1);
      assert Posts(ms[..n])[..n - 1] == Posts(ms[..n - 1]);
      assert ms[..n - 1] + [ms[n - 1]] == ms[..n];
    }
  }

  /** The blocks server.js stores for `n` messages with no completion in between: every prefix from the 10th on. */
  function Reflushed(ms: seq<Message>, n: nat): (blocks: seq<seq<Message>>)
    requires MessageBlockSize <= n <= |ms|
  {
    seq(n - MessageBlockSize + 1, i requires 0 <= i < n - MessageBlockSize + 1 => ms[..MessageBlockSize + i])
  }

  /**
   * As written, while the first insert is pending every further message sends the whole buffer to
   * storage again: after `n` messages the stored blocks are the prefixes of length 10, 11, ..., n.
   */
  lemma {:induction false} AsWrittenReflushes(ms: seq<Message>, n: nat)
    requires MessageBlockSize <= n <= |ms|
    ensures RunAsWritten(Fresh, Posts(ms[..n])) ==
              RoomLog(ms[..n], n - MessageBlockSize + 1, Reflushed(ms, n))
  {
    assert Posts(ms[..n])[..n - 1] == Posts(ms[..n - 1]);
    assert ms[..n - 1] + [ms[n - 1]] == ms[..n];
    if n == MessageBlockSize {
      AsWrittenShortRun(ms, n - 1);
    } else {
      AsWrittenReflushes(ms, n - 1);
      assert Reflushed(ms, n) == Reflushed(ms, n - 1) + [ms[..n]];
    }
  }

  /**
   * As written, a message can also be lost: eleven messages, a completion, a twelfth message and a
   * second completion leave the buffer empty while no stored block holds the twelfth message.
   */
  lemma AsWrittenLoses(ms: seq<Message>)
    requires |ms| == 12 && ms[11] !in ms[..11]
    ensures var log := RunAsWritten(Fresh, Posts(ms[..11]) + [Complete, Post(ms[11]), Complete]);
            && log.buffer == []
            && forall b | b in log.stored :: ms[11] !in b
  {
    var events := Posts(ms[..11]) + [Complete, Post(ms[11]), Complete];
    AsWrittenReflushes(ms, 11);
    var r := Reflushed(ms, 11);
    assert events[..11] == Posts(ms[..11]);
    assert events[..12][..11] == events[..11];
    assert events[..13][..12] == events[..12];
    assert events[..13][..13 - 1] == events[..12];
    assert events[..14 - 1] == events[..13];
    assert RunAsWritten(Fresh, events[..11]) == RoomLog(ms[..11], 2, r);
    assert RunAsWritten(Fresh, events[..12]) == RoomLog([], 1, r);
    assert RunAsWritten(Fresh, events[..13]) == RoomLog([ms[11]], 1, r);
    var log := RunAsWritten(Fresh, events);
    assert log == RoomLog([], 0, r);
    forall b | b in log.stored ensures ms[11] !in b {
      var i :| 0 <= i < |log.stored| && log.stored[i] == b;
      assert b == ms[..MessageBlockSize + i];
      assert ms[..MessageBlockSize + i] <= ms[..11];
    }
  }
}
