/** The client's message handlers, in the order its constructor registers them, and what each makes of a message. */
module ClientHandlers {
  import opened Roster

  /** Only the first chat client is ever given the callback. */
  datatype Handler = ChatHandler(hasCallback: bool) | LocalPlayerHandler | RosterHandler

  const NET_HANDLERS := [ChatHandler(true), LocalPlayerHandler, RosterHandler, ChatHandler(false)]

  /** What the chat callback was called with; or the warning that an id was not found. */
  datatype Shown = Line(sender: Name, text: string) | UnknownId

  datatype View = View(players: map<nat, Name>, localId: nat, shown: seq<Shown>)

  /** What a chat client with a callback shows, given the roster at the time it is asked. */
  function ChatShows(roster: map<nat, Name>, msg: SMsg): seq<Shown> {
    match msg
    case Chat(sender, text) =>
      if sender == 0 then [Line("", text)]
      else if sender in roster then [Line(roster[sender], text)]
      else [UnknownId]
    case Connected(_, name) => [Line("", name + " joined")]
    case Disconnected(id) => if id in roster then [Line("", roster[id] + " left")] else [UnknownId]
    case _ => []
  }

  function HandledBy(h: Handler, c: View, msg: SMsg): View {
    match h
    case ChatHandler(hasCallback) => if hasCallback then c.(shown := c.shown + ChatShows(c.players, msg)) else c
    case LocalPlayerHandler => if msg.Handshaked? then c.(localId := msg.id) else c
    case RosterHandler => c.(players := Apply(c.players, msg))
  }

  /** One handler after the other. */
  function Handled(handlers: seq<Handler>, c: View, msg: SMsg): View
    decreases |handlers|
  {
    if handlers == [] then c else Handled(handlers[1..], HandledBy(handlers[0], c, msg), msg)
  }

  class Client {
    const handlers: seq<Handler>
    const remote: RemotePlayers
    var localId: nat
    var shown: seq<Shown>

    function Now(): View
      reads this, remote
    {
      View(remote.players, localId, shown)
    }

    constructor ()
      ensures Now() == View(map[], 0, []) && handlers == NET_HANDLERS && fresh(remote)
    {
      handlers := NET_HANDLERS;
      remote := new RemotePlayers();
      localId, shown := 0, [];
    }

    /** Every handler sees every message, in the order of registration. */
    method OnNetMessage(msg: SMsg)
      modifies this, remote
      ensures Now() == Handled(handlers, old(Now()), msg)
    {
      for i := 0 to |handlers|
        invariant Handled(handlers[i..], Now(), msg) == Handled(handlers, old(Now()), msg)
      {
        assert handlers[i..][1..] == handlers[i + 1..];
        HandleMessage(handlers[i], msg);
      }
    }

    method HandleMessage(h: Handler, msg: SMsg)
      modifies this, remote
      ensures Now() == HandledBy(h, old(Now()), msg)
    {
      match h
      case ChatHandler(hasCallback) =>
        if hasCallback {
          shown := shown + ChatShows(remote.players, msg);
        }
      case LocalPlayerHandler =>
        if msg.Handshaked? {
          localId := msg.id;
        }
      case RosterHandler =>
        match msg
        case PlayerList(entries) => remote.OnPlayerList(entries);
        case Connected(id, name) => remote.OnClientConnected(id, name);
        case Disconnected(id) => remote.OnClientDisconnected(id);
        case _ =>
    }
  }

  /** The chat callback is made with the roster as it was before the message; the second chat client stays silent. */
  lemma CallbackSeesOldRoster(c: View, msg: SMsg)
    ensures
      Handled(NET_HANDLERS, c, msg) ==
      View(Apply(c.players, msg), if msg.Handshaked? then msg.id else c.localId, c.shown + ChatShows(c.players, msg))
  {
    var c1 := HandledBy(ChatHandler(true), c, msg);
    var c2 := HandledBy(LocalPlayerHandler, c1, msg);
    var c3 := HandledBy(RosterHandler, c2, msg);
    HandledOne(NET_HANDLERS, ChatHandler(true), [LocalPlayerHandler, RosterHandler, ChatHandler(false)], c, msg);
    HandledOne(NET_HANDLERS[1..], LocalPlayerHandler, [RosterHandler, ChatHandler(false)], c1, msg);
    HandledOne(NET_HANDLERS[2..], RosterHandler, [ChatHandler(false)], c2, msg);
    HandledOne(NET_HANDLERS[3..], ChatHandler(false), [], c3, msg);
  }

  lemma HandledOne(handlers: seq<Handler>, h: Handler, rest: seq<Handler>, c: View, msg: SMsg)
    requires handlers == [h] + rest
    ensures Handled(handlers, c, msg) == Handled(rest, HandledBy(h, c, msg), msg)
  {
    assert handlers[1..] == rest;
  }

  /** No id is missed exactly when the message names only players of the old roster. */
  lemma KnownIsShown(roster: map<nat, Name>, msg: SMsg)
    ensures Known(roster, msg) <==> UnknownId !in ChatShows(roster, msg)
  {
  }

  /** The order matters: a chat client with a callback behind the roster's handler never finds a leaver. */
  lemma LeaverIsGoneBehindRoster(before: seq<Handler>, c: View, id: nat)
    requires RosterHandler in before
    ensures
      var seen := Handled(before, c, Disconnected(id));
      HandledBy(ChatHandler(true), seen, Disconnected(id)).shown == seen.shown + [UnknownId]
  {
    ErasedBehindRoster(before, c, id);
  }

  lemma {:induction false} ErasedBehindRoster(handlers: seq<Handler>, c: View, id: nat)
    requires RosterHandler in handlers || id !in c.players
    ensures id !in Handled(handlers, c, Disconnected(id)).players
    decreases |handlers|
  {
    if handlers != [] {
      assert handlers == [handlers[0]] + handlers[1..];
      ErasedBehindRoster(handlers[1..], HandledBy(handlers[0], c, Disconnected(id)), id);
    }
  }
}
