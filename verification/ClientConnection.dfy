/**
  The client's side of a connection: its peer and host handles, its time-outs, and the callbacks it makes.

  Assumptions: the network library reports a connection only while the peer is connecting, and the end of one only while
  there is a peer, after which it reports nothing more for it; callbacks are set and do not call back into the client.
*/
module ClientConnection {

  /** The peer handle with the library's state of the peer; `Ending`: gone on the other side, but not reported yet. */
  datatype Peer = NoPeer | Connecting | Connected | Disconnecting | Ending

  datatype ConnectResult = Success | NoHost | UnknownHostname | NoPeerCreated | TimedOut

  datatype Note = ConnectCallback(result: ConnectResult) | DisconnectCallback

  /** `notes`: the callbacks since the last call of connect. `peers` and `disconnects` count over all attempts. */
  datatype State = State(peer: Peer, host: bool,
                         connectStart: int, connectTimeout: int, disconnectStart: int, disconnectTimeout: int,
                         peers: nat, disconnects: nat, notes: seq<Note>)

  const FRESH := State(NoPeer, false, 0, 0, 0, 0, 0, 0, [])

  datatype NetEvent = NetConnect | NetDisconnect | NetReceive

  /// What each call does

  function AfterConnect(s: State, outcome: ConnectResult, timeout: int, now: int): State {
    var begun := s.(connectTimeout := timeout, notes := []);
    match outcome
    case NoHost => begun.(host := false, notes := [ConnectCallback(NoHost)])
    case UnknownHostname => begun.(host := true, notes := [ConnectCallback(UnknownHostname)])
    case NoPeerCreated => begun.(host := true, notes := [ConnectCallback(NoPeerCreated)])
    case _ => begun.(host := true, connectStart := now, peer := Connecting, peers := s.peers + 1)
  }

  function Ended(s: State, notes: seq<Note>): State {
    s.(peer := NoPeer, host := false, disconnects := s.disconnects + 1, notes := s.notes + notes)
  }

  function AfterDisconnect(s: State, timeout: int, now: int): State {
    match s.peer
    case Connecting => Ended(s, [ConnectCallback(TimedOut), DisconnectCallback])
    case Connected => s.(disconnectTimeout := timeout, peer := Disconnecting, disconnectStart := now)
    case _ => s
  }

  function AfterTimeouts(s: State, now: int): State {
    var t := if s.peer.Connecting? && now - s.connectStart > s.connectTimeout then AfterDisconnect(s, 0, now) else s;
    if t.peer.Disconnecting? && now - t.disconnectStart > t.disconnectTimeout then Ended(t, [DisconnectCallback]) else t
  }

  function AfterEvents(s: State, events: seq<NetEvent>): State
    decreases |events|
  {
    if events == [] then s
    else
      match events[0]
      case NetConnect =>
        AfterEvents(s.(peer := Connected, notes := s.notes + [ConnectCallback(Success)]), events[1..])
      case NetDisconnect => Ended(s, [DisconnectCallback])
      case NetReceive => AfterEvents(s, events[1..])
  }

  /** Without host no events are fetched. */
  function AfterTick(s: State, events: seq<NetEvent>, now: int): State {
    var t := AfterTimeouts(s, now);
    if t.host then AfterEvents(t, events) else t
  }

  /** What the library may report next: each event fits the peer's state when it is fetched. */
  predicate Plausible(peer: Peer, events: seq<NetEvent>)
    decreases |events|
  {
    events == [] ||
    match events[0]
    case NetConnect => peer.Connecting? && Plausible(Connected, events[1..])
    case NetDisconnect => !peer.NoPeer?
    case NetReceive => !peer.NoPeer? && Plausible(peer, events[1..])
  }

  class Client {
    var peer: Peer
    var host: bool
    var connectStart: int
    var connectTimeout: int
    var disconnectStart: int
    var disconnectTimeout: int
    var peers: nat
    var disconnects: nat
    var notes: seq<Note>

    function Now(): State
      reads this
    {
      State(peer, host, connectStart, connectTimeout, disconnectStart, disconnectTimeout, peers, disconnects, notes)
    }

    constructor ()
      ensures Now() == FRESH
    {
      peer, host := NoPeer, false;
      connectStart, connectTimeout, disconnectStart, disconnectTimeout := 0, 0, 0, 0;
      peers, disconnects, notes := 0, 0, [];
    }

    /** `hostOk`, `nameOk` and `peerOk`: whether the library's calls succeed. */
    method Connect(hostOk: bool, nameOk: bool, peerOk: bool, timeout: int, now: int) returns (outcome: ConnectResult)
      requires peer.NoPeer?
      modifies this
      ensures Now() == AfterConnect(old(Now()), outcome, timeout, now)
      ensures outcome == if !hostOk then NoHost
                         else if !nameOk then UnknownHostname
                         else if !peerOk then NoPeerCreated
                         else Success
    {
      notes := [];
      connectTimeout := timeout;
      host := hostOk;
      if !host {
        notes := notes + [ConnectCallback(NoHost)];
        return NoHost;
      }
      if !nameOk {
        notes := notes + [ConnectCallback(UnknownHostname)];
        return UnknownHostname;
      }
      if !peerOk {
        notes := notes + [ConnectCallback(NoPeerCreated)];
        return NoPeerCreated;
      }
      connectStart := now;
      peer, peers := Connecting, peers + 1;
      return Success;
    }

    method Disconnect(timeout: int, now: int)
      modifies this
      ensures Now() == AfterDisconnect(old(Now()), timeout, now)
    {
      if peer.Connecting? {
        peer, host := NoPeer, false;
        notes := notes + [ConnectCallback(TimedOut)];
        notes, disconnects := notes + [DisconnectCallback], disconnects + 1;
        assert notes == old(notes) + [ConnectCallback(TimedOut), DisconnectCallback];
        return;
      }
      if !peer.Connected? {
        return;
      }
      disconnectTimeout := timeout;
      peer := Disconnecting;
      disconnectStart := now;
    }

    method Tick(events: seq<NetEvent>, now: int)
      modifies this
      ensures Now() == AfterTick(old(Now()), events, now)
    {
      if peer.Connecting? && now - connectStart > connectTimeout {
        Disconnect(0, now);
      }
      if peer.Disconnecting? && now - disconnectStart > disconnectTimeout {
        peer, host := NoPeer, false;
        notes, disconnects := notes + [DisconnectCallback], disconnects + 1;
      }
      if host {
        Serve(events);
      }
    }

    /** The event loop; the end of the connection ends it. */
    method Serve(events: seq<NetEvent>)
      modifies this
      ensures Now() == AfterEvents(old(Now()), events)
    {
      for i := 0 to |events|
        invariant AfterEvents(Now(), events[i..]) == AfterEvents(old(Now()), events)
      {
        match events[i]
        case NetConnect =>
          notes := notes + [ConnectCallback(Success)];
          peer := Connected;
        case NetDisconnect =>
          notes, disconnects := notes + [DisconnectCallback], disconnects + 1;
          peer, host := NoPeer, false;
          return;
        case NetReceive =>
      }
    }
  }

  /// How an attempt goes on

  /** Connecting or disconnecting takes longer than was allowed. */
  predicate Overdue(s: State, now: int) {
    || (s.peer.Connecting? && now - s.connectStart > s.connectTimeout)
    || (s.peer.Disconnecting? && now - s.disconnectStart > s.disconnectTimeout)
  }

  /** The next tick ends what is overdue, whatever the library would report; and without an event nothing else. */
  lemma TickEndsOverdue(s: State, events: seq<NetEvent>, now: int)
    ensures Overdue(s, now) ==>
              AfterTick(s, events, now) ==
              Ended(s, if s.peer.Connecting? then [ConnectCallback(TimedOut), DisconnectCallback]
                       else [DisconnectCallback])
    ensures !Overdue(s, now) ==> AfterTick(s, [], now) == s
  {
  }

  /** An attempt that fails at once is reported by connect itself, and leaves no peer. */
  lemma FailureIsReported(s: State, outcome: ConnectResult, timeout: int, now: int)
    requires Inv(s) && s.peer.NoPeer? && !outcome.Success? && !outcome.TimedOut?
    ensures var t := AfterConnect(s, outcome, timeout, now);
      t.peer.NoPeer? && t.notes == [ConnectCallback(outcome)] && t.peers == t.disconnects
  {
  }

  /** Another one is answered by a tick: in time with success, and later with a time-out. */
  lemma AttemptIsAnswered(s: State, timeout: int, start: int, events: seq<NetEvent>, now: int)
    requires Inv(s) && s.peer.NoPeer?
    ensures var t := AfterTick(AfterConnect(s, Success, timeout, start), [NetConnect] + events, now);
      if now - start <= timeout then t.notes != [] && t.notes[0] == ConnectCallback(Success)
      else t.peer.NoPeer? && !t.host && t.notes == [ConnectCallback(TimedOut), DisconnectCallback]
  {
    var begun := AfterConnect(s, Success, timeout, start);
    TickEndsOverdue(begun, [NetConnect] + events, now);
    if now - start <= timeout {
      assert ([NetConnect] + events)[1..] == events;
      var made := begun.(peer := Connected, notes := begun.notes + [ConnectCallback(Success)]);
      NotesGrow(made, events);
      assert made.notes[0] == ConnectCallback(Success);
    }
  }

  lemma {:induction false} NotesGrow(s: State, events: seq<NetEvent>)
    ensures s.notes <= AfterEvents(s, events).notes
    decreases |events|
  {
    if events != [] {
      match events[0]
      case NetConnect =>
        NotesGrow(s.(peer := Connected, notes := s.notes + [ConnectCallback(Success)]), events[1..]);
      case NetDisconnect =>
      case NetReceive => NotesGrow(s, events[1..]);
    }
  }

  /** A connection that is given up is over when its time is up, reported or not. */
  lemma DisconnectEnds(s: State, timeout: int, start: int, events: seq<NetEvent>, now: int)
    requires Inv(s) && s.peer.Connected? && (events == [NetDisconnect] || now - start > timeout)
    ensures var t := AfterTick(AfterDisconnect(s, timeout, start), events, now);
      && t.peer.NoPeer? && !t.host && t.disconnects == t.peers
      && t.notes == s.notes + [DisconnectCallback]
  {
    TickEndsOverdue(AfterDisconnect(s, timeout, start), events, now);
  }

  /// Every run

  datatype Event =
    | Connect(outcome: ConnectResult, timeout: int, now: int)
    | Disconnect(timeout: int, now: int)
    | Tick(events: seq<NetEvent>, now: int)
    | PeerGone                              // the library notices, and will report

  ghost predicate Step(s: State, e: Event, t: State) {
    match e
    case Connect(outcome, timeout, now) =>
      s.peer.NoPeer? && !outcome.TimedOut? && t == AfterConnect(s, outcome, timeout, now)
    case Disconnect(timeout, now) => t == AfterDisconnect(s, timeout, now)
    case Tick(events, now) => Plausible(AfterTimeouts(s, now).peer, events) && t == AfterTick(s, events, now)
    case PeerGone => !s.peer.NoPeer? && t == s.(peer := Ending)
  }

  function Live(s: State): nat {
    if s.peer.NoPeer? then 0 else 1
  }

  /** The callbacks of an attempt: one for connecting can only be the first, one for the end only the last. */
  predicate WellOrdered(notes: seq<Note>) {
    && (forall i :: 0 <= i < |notes| && notes[i].ConnectCallback? ==> i == 0)
    && (forall i :: 0 <= i < |notes| && notes[i].DisconnectCallback? ==> i == |notes| - 1)
  }

  /** The callbacks so far fit the peer's state: no end of a connection was reported while there is a peer. */
  predicate Inv(s: State) {
    && (!s.peer.NoPeer? ==> s.host)
    && s.disconnects + Live(s) == s.peers
    && WellOrdered(s.notes)
    && (s.peer.Connecting? ==> s.notes == [])
    && (!s.peer.NoPeer? ==> s.notes == [] || s.notes == [ConnectCallback(Success)])
  }

  lemma EndedKeepsInv(s: State, notes: seq<Note>)
    requires Inv(s) && !s.peer.NoPeer?
    requires || notes == [DisconnectCallback]
             || (s.notes == [] && notes == [ConnectCallback(TimedOut), DisconnectCallback])
    ensures Inv(Ended(s, notes))
  {
  }

  lemma {:induction false} EventsKeepInv(s: State, events: seq<NetEvent>)
    requires Inv(s) && Plausible(s.peer, events)
    ensures Inv(AfterEvents(s, events))
    decreases |events|
  {
    if events != [] {
      match events[0]
      case NetConnect =>
        var t := s.(peer := Connected, notes := s.notes + [ConnectCallback(Success)]);
        assert t.notes == [ConnectCallback(Success)];
        EventsKeepInv(t, events[1..]);
      case NetDisconnect => EndedKeepsInv(s, [DisconnectCallback]);
      case NetReceive => EventsKeepInv(s, events[1..]);
    }
  }

  lemma DisconnectKeepsInv(s: State, timeout: int, now: int)
    requires Inv(s)
    ensures Inv(AfterDisconnect(s, timeout, now))
  {
    if s.peer.Connecting? {
      EndedKeepsInv(s, [ConnectCallback(TimedOut), DisconnectCallback]);
    }
  }

  lemma TimeoutsKeepInv(s: State, now: int)
    requires Inv(s)
    ensures Inv(AfterTimeouts(s, now))
  {
    var t := if s.peer.Connecting? && now - s.connectStart > s.connectTimeout then AfterDisconnect(s, 0, now) else s;
    DisconnectKeepsInv(s, 0, now);
    if t.peer.Disconnecting? {
      EndedKeepsInv(t, [DisconnectCallback]);
    }
  }

  lemma StepKeepsInv(s: State, e: Event, t: State)
    requires Inv(s) && Step(s, e, t)
    ensures Inv(t)
  {
    match e
    case Connect(_, _, _) =>
    case Disconnect(timeout, now) => DisconnectKeepsInv(s, timeout, now);
    case Tick(events, now) =>
      TimeoutsKeepInv(s, now);
      if AfterTimeouts(s, now).host {
        EventsKeepInv(AfterTimeouts(s, now), events);
      }
    case PeerGone =>
  }

  ghost predicate StepAt(run: seq<State>, events: seq<Event>, i: nat)
    requires 0 < i < |run| == |events| + 1
  {
    Step(run[i - 1], events[i - 1], run[i])
  }

  ghost predicate IsRun(run: seq<State>, events: seq<Event>) {
    && |run| == |events| + 1 && run[0] == FRESH
    && forall i {:trigger StepAt(run, events, i)} :: 0 < i < |run| ==> StepAt(run, events, i)
  }

  /**
    After any calls and events: there is one end reported for every peer created but the live one; a live peer has a
    live host; and within an attempt connecting is reported at most once, and never after the end.
  */
  lemma {:induction false} CallbacksMatchPeers(run: seq<State>, events: seq<Event>, i: nat)
    requires IsRun(run, events) && i < |run|
    ensures Inv(run[i])
    ensures run[i].disconnects == run[i].peers - Live(run[i])
    ensures run[i].peer.NoPeer? || run[i].host
    ensures WellOrdered(run[i].notes)
  {
    if i > 0 {
      CallbacksMatchPeers(run, events, i - 1);
      assert StepAt(run, events, i);
      StepKeepsInv(run[i - 1], events[i - 1], run[i]);
    }
  }
}
