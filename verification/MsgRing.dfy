/**
  The message queue between client and game: a ring of slots in emulated RAM, each with a descriptor byte that says
  whether it is in use. One end sends, the other polls, each with an index of its own; both run the same code, the end
  inside the game as the mirror image of the client's. The two ends interleave at every single memory access.
*/
module MsgRing {

  type Byte = b: int | 0 <= b < 256

  const MSG_BYTES := 16  // a 16-bit type and 14 bytes of data

  type Message = m: seq<Byte> | |m| == MSG_BYTES witness seq(MSG_BYTES, _ => 0)

  datatype SendPc =
    | SendIdle
    | SendLoadIndex(msg: Message)
    | SendLoadSlot(msg: Message, index: nat)
    | SendStore(msg: Message, index: nat, bytes: nat)   // the first `bytes` bytes are written
    | SendPublish(msg: Message, index: nat)
    | SendLoadSize(index: nat)
    | SendStoreIndex(index: nat)

  datatype PollPc =
    | PollIdle
    | PollLoadIndex
    | PollLoadSlot(index: nat)
    | PollLoad(index: nat, read: seq<Byte>)             // the bytes read so far
    | PollRelease(index: nat, msg: Message)
    | PollLoadSize(index: nat)
    | PollStoreIndex(index: nat)

  /** `sent` and `received` record the messages published and taken so far. */
  datatype State = State(
    size: nat, inUse: seq<bool>, slots: seq<Message>,
    sendIndex: nat, send: SendPc, sent: seq<Message>,
    pollIndex: nat, poll: PollPc, received: seq<Message>)

  ghost predicate Init(s: State) {
    && 1 <= s.size <= 255 && |s.inUse| == s.size && |s.slots| == s.size
    && (forall i :: 0 <= i < s.size ==> !s.inUse[i])
    && s.sendIndex == 0 && s.send == SendIdle && s.sent == []
    && s.pollIndex == 0 && s.poll == PollIdle && s.received == []
  }

  /** inc_loop on an 8-bit index: behind 255 comes 0. */
  function IncLoop(index: nat, size: nat): nat {
    var next := if index >= 255 then 0 else index + 1;
    if next == size then 0 else next
  }

  ghost predicate SendStep(s: State, t: State) {
    match s.send
    case SendIdle => t.send.SendLoadIndex? && t == s.(send := t.send)
    case SendLoadIndex(msg) => t == s.(send := SendLoadSlot(msg, s.sendIndex))
    case SendLoadSlot(msg, i) =>
      i < |s.inUse| && t == s.(send := if s.inUse[i] then SendIdle else SendStore(msg, i, 0))
    case SendStore(msg, i, k) =>
      if k < MSG_BYTES then
        i < |s.slots| && t == s.(slots := s.slots[i := s.slots[i][k := msg[k]]], send := SendStore(msg, i, k + 1))
      else
        t == s.(send := SendPublish(msg, i))
    case SendPublish(msg, i) =>
      i < |s.inUse| && t == s.(inUse := s.inUse[i := true], sent := s.sent + [msg], send := SendLoadSize(i))
    case SendLoadSize(i) => t == s.(send := SendStoreIndex(IncLoop(i, s.size)))
    case SendStoreIndex(i) => t == s.(sendIndex := i, send := SendIdle)
  }

  ghost predicate PollStep(s: State, t: State) {
    match s.poll
    case PollIdle => t == s.(poll := PollLoadIndex)
    case PollLoadIndex => t == s.(poll := PollLoadSlot(s.pollIndex))
    case PollLoadSlot(i) => i < |s.inUse| && t == s.(poll := if s.inUse[i] then PollLoad(i, []) else PollIdle)
    case PollLoad(i, read) =>
      if |read| < MSG_BYTES then
        i < |s.slots| && t == s.(poll := PollLoad(i, read + [s.slots[i][|read|]]))
      else
        |read| == MSG_BYTES && t == s.(poll := PollRelease(i, read))
    case PollRelease(i, msg) =>
      i < |s.inUse| && t == s.(inUse := s.inUse[i := false], received := s.received + [msg], poll := PollLoadSize(i))
    case PollLoadSize(i) => t == s.(poll := PollStoreIndex(IncLoop(i, s.size)))
    case PollStoreIndex(i) => t == s.(pollIndex := i, poll := PollIdle)
  }

  ghost predicate StepAt(run: seq<State>, i: nat)
    requires 0 < i < |run|
  {
    SendStep(run[i - 1], run[i]) || PollStep(run[i - 1], run[i])
  }

  ghost predicate IsRun(run: seq<State>) {
    && run != [] && Init(run[0])
    && forall i {:trigger StepAt(run, i)} :: 0 < i < |run| ==> StepAt(run, i)
  }

  /// Positions: the slot of the k-th message

  function Slot(k: nat, size: nat): (i: nat)
    requires 1 <= size <= 255
    ensures i < size
  {
    if k == 0 then 0 else IncLoop(Slot(k - 1, size), size)
  }

  lemma {:induction false} SlotsGoRound(a: nat, b: nat, size: nat)
    requires 1 <= size <= 255 && a <= b < a + size
    ensures
      var ahead := Slot(a, size) + (b - a);
      Slot(b, size) == if ahead < size then ahead else ahead - size
  {
    if a < b {
      SlotsGoRound(a, b - 1, size);
    }
  }

  /** Fewer than `size` messages apart, two messages have different slots. */
  lemma SlotsDiffer(a: nat, b: nat, size: nat)
    requires 1 <= size <= 255 && a < b < a + size
    ensures Slot(a, size) != Slot(b, size)
  {
    SlotsGoRound(a, b, size);
  }

  /** Any `size` messages in a row use every slot. */
  lemma {:induction false} EverySlotIsUsed(a: nat, i: nat, size: nat) returns (k: nat)
    requires 1 <= size <= 255 && i < size
    ensures a <= k < a + size && Slot(k, size) == i
  {
    var first := Slot(a, size);
    k := if first <= i then a + (i - first) else a + (i + size - first);
    SlotsGoRound(a, k, size);
  }

  /// The invariant

  /** The slots of messages sent and not yet received hold them; the other slots are free. */
  ghost predicate SlotsInv(s: State) {
    && 1 <= s.size <= 255 && |s.inUse| == s.size && |s.slots| == s.size
    && |s.received| <= |s.sent| <= |s.received| + s.size
    && s.received == s.sent[..|s.received|]
    && (forall k {:trigger Slot(k, s.size)} :: |s.received| <= k < |s.sent| ==>
          s.inUse[Slot(k, s.size)] && s.slots[Slot(k, s.size)] == s.sent[k])
    && (forall k {:trigger Slot(k, s.size)} :: |s.sent| <= k < |s.received| + s.size ==> !s.inUse[Slot(k, s.size)])
  }

  ghost predicate SendInv(s: State)
    requires SlotsInv(s)
  {
    var next := Slot(|s.sent|, s.size);
    match s.send
    case SendIdle => s.sendIndex == next
    case SendLoadIndex(_) => s.sendIndex == next
    case SendLoadSlot(_, i) => s.sendIndex == next == i
    case SendStore(msg, i, k) =>
      s.sendIndex == next == i && !s.inUse[i] && k <= MSG_BYTES && s.slots[i][..k] == msg[..k]
    case SendPublish(msg, i) => s.sendIndex == next == i && !s.inUse[i] && s.slots[i] == msg
    case SendLoadSize(i) => |s.sent| > 0 && i == Slot(|s.sent| - 1, s.size)
    case SendStoreIndex(i) => i == next
  }

  ghost predicate PollInv(s: State)
    requires SlotsInv(s)
  {
    var next := Slot(|s.received|, s.size);
    match s.poll
    case PollIdle => s.pollIndex == next
    case PollLoadIndex => s.pollIndex == next
    case PollLoadSlot(i) => s.pollIndex == next == i
    case PollLoad(i, read) => s.pollIndex == next == i && s.inUse[i] && read <= s.slots[i]
    case PollRelease(i, msg) => s.pollIndex == next == i && s.inUse[i] && msg == s.slots[i]
    case PollLoadSize(i) => |s.received| > 0 && i == Slot(|s.received| - 1, s.size)
    case PollStoreIndex(i) => i == next
  }

  ghost predicate Inv(s: State) {
    SlotsInv(s) && SendInv(s) && PollInv(s)
  }

  /** The slot of the next message is in use exactly when the ring is full. */
  lemma NextIsUsedWhenFull(s: State)
    requires SlotsInv(s)
    ensures s.inUse[Slot(|s.sent|, s.size)] <==> |s.sent| == |s.received| + s.size
  {
    if |s.sent| == |s.received| + s.size {
      var k := EverySlotIsUsed(|s.received|, Slot(|s.sent|, s.size), s.size);
    }
  }

  /** The slot of the next message to receive is in use exactly when the ring is not empty. */
  lemma NextIsFreeWhenEmpty(s: State)
    requires SlotsInv(s)
    ensures s.inUse[Slot(|s.received|, s.size)] <==> |s.received| < |s.sent|
  {
  }

  lemma StoreKeepsInv(s: State, t: State)
    requires Inv(s) && s.send.SendStore? && SendStep(s, t)
    ensures Inv(t)
  {
    NextIsUsedWhenFull(s);
    var i, k := s.send.index, s.send.bytes;
    if k < MSG_BYTES {
      forall j | |s.received| <= j < |s.sent| ensures t.slots[Slot(j, s.size)] == s.slots[Slot(j, s.size)] {
        SlotsDiffer(j, |s.sent|, s.size);
      }
      assert t.slots[i][..k + 1] == t.slots[i][..k] + [t.slots[i][k]];
      assert s.send.msg[..k + 1] == s.send.msg[..k] + [s.send.msg[k]];
    } else {
      assert s.slots[i] == s.slots[i][..k] && s.send.msg == s.send.msg[..k];
    }
  }

  lemma PublishKeepsInv(s: State, t: State)
    requires Inv(s) && s.send.SendPublish? && SendStep(s, t)
    ensures Inv(t)
  {
    PublishKeepsSlots(s, t);
    PublishKeepsEnds(s, t);
  }

  lemma PublishKeepsEnds(s: State, t: State)
    requires Inv(s) && SlotsInv(t) && s.send.SendPublish? && SendStep(s, t)
    ensures SendInv(t) && PollInv(t)
  {
  }

  lemma PublishKeepsSlots(s: State, t: State)
    requires SlotsInv(s) && SendInv(s) && s.send.SendPublish? && SendStep(s, t)
    ensures SlotsInv(t)
  {
    NextIsUsedWhenFull(s);
    forall k | |t.sent| <= k < |t.received| + t.size ensures !t.inUse[Slot(k, t.size)] {
      SlotsDiffer(|s.sent|, k, s.size);
    }
  }

  lemma SendStepKeepsInv(s: State, t: State)
    requires Inv(s) && SendStep(s, t)
    ensures Inv(t)
  {
    if s.send.SendStore? {
      StoreKeepsInv(s, t);
    } else if s.send.SendPublish? {
      PublishKeepsInv(s, t);
    } else {
      OnlySendMoves(s, t);
      QuietSendMovesOn(s, t);
    }
  }

  lemma OnlySendMoves(s: State, t: State)
    requires SlotsInv(s) && PollInv(s) && t == s.(send := t.send, sendIndex := t.sendIndex)
    ensures SlotsInv(t) && PollInv(t)
  {
  }

  lemma QuietSendMovesOn(s: State, t: State)
    requires SlotsInv(s) && SlotsInv(t) && SendInv(s) && SendStep(s, t)
    requires !s.send.SendStore? && !s.send.SendPublish?
    ensures SendInv(t)
  {
  }

  lemma ReleaseKeepsInv(s: State, t: State)
    requires Inv(s) && s.poll.PollRelease? && PollStep(s, t)
    ensures Inv(t)
  {
    ReleaseKeepsSlots(s, t);
    ReleaseKeepsEnds(s, t);
  }

  lemma ReleaseKeepsEnds(s: State, t: State)
    requires Inv(s) && SlotsInv(t) && s.poll.PollRelease? && PollStep(s, t)
    ensures SendInv(t) && PollInv(t)
  {
  }

  lemma ReleaseKeepsSlots(s: State, t: State)
    requires SlotsInv(s) && PollInv(s) && s.poll.PollRelease? && PollStep(s, t)
    ensures SlotsInv(t)
  {
    NextIsFreeWhenEmpty(s);
    forall k | |t.received| <= k < |t.sent| ensures t.inUse[Slot(k, t.size)] {
      SlotsDiffer(|s.received|, k, s.size);
    }
    forall k | |t.sent| <= k < |t.received| + t.size ensures !t.inUse[Slot(k, t.size)] {
      if k == |s.received| + s.size {
        FullTurn(|s.received|, s.size);
      }
    }
    assert t.received == s.sent[..|t.received|];
  }

  lemma FullTurn(a: nat, size: nat)
    requires 1 <= size <= 255
    ensures Slot(a + size, size) == Slot(a, size)
  {
    SlotsGoRound(a, a + size - 1, size);
  }

  lemma PollStepKeepsInv(s: State, t: State)
    requires Inv(s) && PollStep(s, t)
    ensures Inv(t)
  {
    if s.poll.PollRelease? {
      ReleaseKeepsInv(s, t);
    } else if s.poll.PollLoad? {
      LoadKeepsInv(s, t);
    } else {
      QuietPollKeepsInv(s, t);
    }
  }

  lemma OnlyPollMoves(s: State, t: State)
    requires SlotsInv(s) && SendInv(s) && t == s.(poll := t.poll, pollIndex := t.pollIndex)
    ensures SlotsInv(t) && SendInv(t)
  {
  }

  lemma LoadKeepsInv(s: State, t: State)
    requires Inv(s) && s.poll.PollLoad? && PollStep(s, t)
    ensures Inv(t)
  {
    OnlyPollMoves(s, t);
    LoadReadsOn(s, t);
  }

  lemma LoadReadsOn(s: State, t: State)
    requires SlotsInv(s) && SlotsInv(t) && PollInv(s) && s.poll.PollLoad? && PollStep(s, t)
    ensures PollInv(t)
  {
  }

  /** A step that neither reads nor frees a slot. */
  lemma QuietPollKeepsInv(s: State, t: State)
    requires Inv(s) && !s.poll.PollRelease? && !s.poll.PollLoad? && PollStep(s, t)
    ensures Inv(t)
  {
    OnlyPollMoves(s, t);
    QuietPollMovesOn(s, t);
  }

  lemma QuietPollMovesOn(s: State, t: State)
    requires SlotsInv(s) && SlotsInv(t) && PollInv(s) && PollStep(s, t)
    requires !s.poll.PollRelease? && !s.poll.PollLoad?
    ensures PollInv(t)
  {
  }

  lemma {:induction false} RunKeepsInv(run: seq<State>, i: nat)
    requires IsRun(run) && i < |run|
    ensures Inv(run[i])
  {
    if i > 0 {
      RunKeepsInv(run, i - 1);
      assert StepAt(run, i);
      if SendStep(run[i - 1], run[i]) {
        SendStepKeepsInv(run[i - 1], run[i]);
      } else {
        PollStepKeepsInv(run[i - 1], run[i]);
      }
    }
  }

  /// The theorems

  /** The messages in the ring, oldest first. */
  ghost function InFlight(s: State): seq<Message>
    requires 1 <= s.size <= 255 && |s.slots| == s.size && |s.received| <= |s.sent|
  {
    seq(|s.sent| - |s.received|, k requires 0 <= k < |s.sent| - |s.received| =>
      s.slots[Slot(|s.received| + k, s.size)])
  }

  /**
    At every moment of every run the messages received, followed by those in the ring, are exactly the messages sent:
    none is lost, doubled, reordered or torn, and never more than `size` are in the ring.
  */
  lemma NothingLost(run: seq<State>, i: nat)
    requires IsRun(run) && i < |run|
    ensures var s := run[i];
      && 1 <= s.size <= 255 && |s.slots| == s.size && 0 <= |s.sent| - |s.received| <= s.size
      && s.sent == s.received + InFlight(s)
  {
    RunKeepsInv(run, i);
    var s := run[i];
    assert forall k :: 0 <= k < |s.sent| - |s.received| ==> InFlight(s)[k] == s.sent[|s.received| + k];
  }

  /** The slots in use are the cyclic stretch from the oldest message in the ring up to the newest. */
  lemma UsedSlotsAreASegment(run: seq<State>, i: nat, slot: nat)
    requires IsRun(run) && i < |run| && slot < run[i].size
    ensures var s := run[i];
      && 1 <= s.size <= 255 && |s.inUse| == s.size
      && var ahead := if Slot(|s.received|, s.size) <= slot then slot - Slot(|s.received|, s.size)
                      else slot + s.size - Slot(|s.received|, s.size);
      s.inUse[slot] <==> ahead < |s.sent| - |s.received|
  {
    RunKeepsInv(run, i);
    var s := run[i];
    var first := Slot(|s.received|, s.size);
    var k := |s.received| + if first <= slot then slot - first else slot + s.size - first;
    SlotsGoRound(|s.received|, k, s.size);
  }

  /** Between calls each end's index is the slot its next message will use. */
  lemma IndexesFollowTheMessages(run: seq<State>, i: nat)
    requires IsRun(run) && i < |run|
    ensures 1 <= run[i].size <= 255
    ensures run[i].send.SendIdle? ==> run[i].sendIndex == Slot(|run[i].sent|, run[i].size)
    ensures run[i].poll.PollIdle? ==> run[i].pollIndex == Slot(|run[i].received|, run[i].size)
  {
    RunKeepsInv(run, i);
  }

  /** send gives up only on a full ring, and poll only on an empty one. */
  lemma RefusalIsJustified(run: seq<State>, i: nat)
    requires IsRun(run) && 0 < i < |run|
    ensures run[i - 1].send.SendLoadSlot? && SendStep(run[i - 1], run[i]) ==>
              (run[i].send.SendIdle? <==> |run[i - 1].sent| == |run[i - 1].received| + run[i - 1].size)
    ensures run[i - 1].poll.PollLoadSlot? && PollStep(run[i - 1], run[i]) ==>
              (run[i].poll.PollIdle? <==> |run[i - 1].sent| == |run[i - 1].received|)
  {
    RunKeepsInv(run, i - 1);
    NextIsUsedWhenFull(run[i - 1]);
    NextIsFreeWhenEmpty(run[i - 1]);
  }

  /// Every call gets through

  ghost predicate Reaches(run: seq<State>, s: State) {
    IsRun(run) && run[|run| - 1] == s
  }

  lemma Onward(run: seq<State>, s: State, t: State) returns (longer: seq<State>)
    requires Reaches(run, s) && (SendStep(s, t) || PollStep(s, t))
    ensures Reaches(longer, t) && run <= longer
  {
    longer := run + [t];
    forall i | 0 < i < |longer| ensures StepAt(longer, i) {
      assert i < |run| ==> StepAt(run, i);
    }
  }

  /** All that is left to write is written. */
  lemma {:induction false} StoreGoesThrough(run: seq<State>, s: State) returns (longer: seq<State>, t: State)
    requires Reaches(run, s) && s.send.SendStore? && s.send.bytes <= MSG_BYTES && s.send.index < |s.slots|
    ensures Reaches(longer, t) && run <= longer
    ensures t == s.(slots := t.slots, send := SendPublish(s.send.msg, s.send.index))
    decreases MSG_BYTES - s.send.bytes
  {
    var msg, i, k := s.send.msg, s.send.index, s.send.bytes;
    if k < MSG_BYTES {
      t := s.(slots := s.slots[i := s.slots[i][k := msg[k]]], send := SendStore(msg, i, k + 1));
      longer := Onward(run, s, t);
      longer, t := StoreGoesThrough(longer, t);
    } else {
      t := s.(send := SendPublish(msg, i));
      longer := Onward(run, s, t);
    }
  }

  /** send, undisturbed, sends its message unless the ring is full. */
  lemma SendGoesThrough(run: seq<State>, s: State, msg: Message) returns (longer: seq<State>, t: State)
    requires Reaches(run, s) && s.send.SendIdle?
    ensures Reaches(longer, t) && run <= longer && t.send.SendIdle?
    ensures t.sent == if |s.sent| == |s.received| + s.size then s.sent else s.sent + [msg]
    ensures t.received == s.received && t.poll == s.poll && t.size == s.size
  {
    RunKeepsInv(run, |run| - 1);
    NextIsUsedWhenFull(s);
    var s1 := s.(send := SendLoadIndex(msg));
    var s2 := s1.(send := SendLoadSlot(msg, s.sendIndex));
    longer := Onward(run, s, s1);
    longer := Onward(longer, s1, s2);
    if s.inUse[s.sendIndex] {
      t := s2.(send := SendIdle);
      longer := Onward(longer, s2, t);
    } else {
      t := s2.(send := SendStore(msg, s.sendIndex, 0));
      longer := Onward(longer, s2, t);
      longer, t := StoreGoesThrough(longer, t);
      longer, t := PublishGoesThrough(longer, t);
    }
  }

  lemma PublishGoesThrough(run: seq<State>, s: State) returns (longer: seq<State>, t: State)
    requires Reaches(run, s) && s.send.SendPublish? && s.send.index < |s.inUse|
    ensures Reaches(longer, t) && run <= longer
    ensures t == s.(inUse := t.inUse, sendIndex := t.sendIndex, send := SendIdle, sent := s.sent + [s.send.msg])
  {
    var msg, i := s.send.msg, s.send.index;
    var s1 := s.(inUse := s.inUse[i := true], sent := s.sent + [msg], send := SendLoadSize(i));
    var s2 := s1.(send := SendStoreIndex(IncLoop(i, s.size)));
    t := s2.(sendIndex := IncLoop(i, s.size), send := SendIdle);
    longer := Onward(run, s, s1);
    longer := Onward(longer, s1, s2);
    longer := Onward(longer, s2, t);
  }

  lemma {:induction false} LoadGoesThrough(run: seq<State>, s: State) returns (longer: seq<State>, t: State)
    requires Reaches(run, s) && s.poll.PollLoad? && |s.poll.read| <= MSG_BYTES && s.poll.index < |s.slots|
    ensures Reaches(longer, t) && run <= longer
    ensures t.poll.PollRelease? && t == s.(poll := PollRelease(s.poll.index, t.poll.msg))
    decreases MSG_BYTES - |s.poll.read|
  {
    var i, read := s.poll.index, s.poll.read;
    if |read| < MSG_BYTES {
      t := s.(poll := PollLoad(i, read + [s.slots[i][|read|]]));
      longer := Onward(run, s, t);
      longer, t := LoadGoesThrough(longer, t);
    } else {
      t := s.(poll := PollRelease(i, read));
      longer := Onward(run, s, t);
    }
  }

  lemma ReleaseGoesThrough(run: seq<State>, s: State) returns (longer: seq<State>, t: State)
    requires Reaches(run, s) && s.poll.PollRelease? && s.poll.index < |s.inUse|
    ensures Reaches(longer, t) && run <= longer
    ensures t == s.(inUse := t.inUse, pollIndex := t.pollIndex, poll := PollIdle,
                    received := s.received + [s.poll.msg])
  {
    var i, msg := s.poll.index, s.poll.msg;
    var s1 := s.(inUse := s.inUse[i := false], received := s.received + [msg], poll := PollLoadSize(i));
    var s2 := s1.(poll := PollStoreIndex(IncLoop(i, s.size)));
    t := s2.(pollIndex := IncLoop(i, s.size), poll := PollIdle);
    longer := Onward(run, s, s1);
    longer := Onward(longer, s1, s2);
    longer := Onward(longer, s2, t);
  }

  lemma ReceivedWasSent(run: seq<State>, s: State)
    requires Reaches(run, s) && s.received != []
    ensures |s.received| <= |s.sent| && s.received[|s.received| - 1] == s.sent[|s.received| - 1]
  {
    RunKeepsInv(run, |run| - 1);
  }

  /** poll, undisturbed, receives the oldest message unless the ring is empty. */
  lemma PollGoesThrough(run: seq<State>, s: State) returns (longer: seq<State>, t: State)
    requires Reaches(run, s) && s.poll.PollIdle?
    ensures Reaches(longer, t) && run <= longer && t.poll.PollIdle?
    ensures t.received == if |s.received| < |s.sent| then s.received + [s.sent[|s.received|]] else s.received
    ensures t.sent == s.sent && t.send == s.send && t.size == s.size
  {
    RunKeepsInv(run, |run| - 1);
    NextIsFreeWhenEmpty(s);
    var s1 := s.(poll := PollLoadIndex);
    var s2 := s1.(poll := PollLoadSlot(s.pollIndex));
    longer := Onward(run, s, s1);
    longer := Onward(longer, s1, s2);
    if !s.inUse[s.pollIndex] {
      t := s2.(poll := PollIdle);
      longer := Onward(longer, s2, t);
    } else {
      t := s2.(poll := PollLoad(s.pollIndex, []));
      longer := Onward(longer, s2, t);
      longer, t := LoadGoesThrough(longer, t);
      longer, t := ReleaseGoesThrough(longer, t);
      ReceivedWasSent(longer, t);
    }
  }
}
