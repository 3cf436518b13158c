/** The server object: its handlers change the players, the ids and the messages under way in place. */
module GameServer {
  import opened IdManager
  import opened Roster
  import S = Session

  class Server {
    var links: map<nat, S.Link>
    var players: map<nat, S.Player>
    const peerIds: Manager
    const playerIds: Manager

    function Now(): S.State
      reads this, peerIds, playerIds
    {
      S.State(links, players, peerIds.State(), playerIds.State())
    }

    ghost predicate Valid()
      reads this
    {
      peerIds != playerIds && peerIds.max == S.MAX_PEER_ID && playerIds.max == S.MAX_PLAYER_ID
    }

    constructor ()
      ensures Valid() && fresh(peerIds) && fresh(playerIds) && S.Init(Now()) && S.Inv(Now())
    {
      S.InitInv();
      peerIds := new Manager(S.MAX_PEER_ID);
      playerIds := new Manager(S.MAX_PLAYER_ID);
      links, players := map[], map[];
    }

    /** Accepting a peer throws, and leaves it without player, when no peer id is left. */
    method OnConnect(c: nat)
      requires Valid() && c !in links
      modifies this, peerIds
      ensures Valid() && Now() == S.Accept(old(Now()), c)
      ensures |old(links)| < S.ALLOCATED_PEERS ==> S.Step(old(Now()), S.Accepted(c), Now())
      ensures |old(links)| < S.ALLOCATED_PEERS && S.Inv(old(Now())) ==> S.Inv(Now())
    {
      if |links| < S.ALLOCATED_PEERS && S.Inv(Now()) {
        S.AcceptKeepsInv(Now(), c);
      }
      var id := peerIds.AcquireId();
      if id.Some? {
        links := links[c := S.Link(id.value, true, [], [], map[], false)];
        players := players[id.value := S.Player(0, "")];
      }
    }

    method OnHandshake(c: nat, name: Name, version: string) returns (entries: seq<(nat, Name)>)
      requires Valid() && c in links && links[c].data in players
      modifies this, playerIds
      ensures Valid() && Now() == S.OnHandshake(old(Now()), c, name, version, entries)
      ensures old(playerIds.State()) != playerIds.State() ==> S.Lists(entries, players)
    {
      var k := links[c].data;
      entries := [];
      if players[k].id != 0 || version == "" || name == "" {
        links := S.Close(links, c);
        return;
      }
      players := players[k := S.Player(0, name)];
      var id := playerIds.AcquireId();
      if id.None? {
        return;
      }
      players := players[k := S.Player(id.value, name)];
      entries := Greet(c, id.value, name);
    }

    /** Tells the new player its id and all players, and all clients the new player. */
    method Greet(c: nat, id: nat, name: Name) returns (entries: seq<(nat, Name)>)
      modifies this`links
      ensures links == S.Greeted(old(links), c, id, name, entries) && S.Lists(entries, players)
    {
      links := S.SendTo(links, c, Handshaked(id));
      entries := S.FillPlayerList(players);
      links := S.SendTo(links, c, PlayerList(entries));
      links := S.Broadcast(links, Connected(id, name));
    }

    method OnChat(c: nat, text: string)
      requires Valid() && c in links && links[c].data in players
      modifies this
      ensures Valid() && Now() == S.OnChat(old(Now()), c, text)
    {
      if players[links[c].data].id == 0 {
        return;
      }
      links := S.Broadcast(links, Chat(players[links[c].data].id, text));
    }

    /** Every handler sees the message; the lookup of the player throws before any of them runs. */
    method OnNetMessage(c: nat, msg: CMsg) returns (entries: seq<(nat, Name)>)
      requires Valid() && c in links
      modifies this, playerIds
      ensures Valid() && Now() == S.OnMessage(old(Now()), c, msg, entries)
      ensures old(playerIds.State()) != playerIds.State() ==> S.Lists(entries, players)
      ensures S.Inv(old(Now())) ==> S.Inv(Now())
    {
      ghost var before := Now();
      entries := Dispatch(c, msg);
      if S.Inv(before) {
        S.MessageKeepsInv(before, c, msg, entries);
      }
    }

    method Dispatch(c: nat, msg: CMsg) returns (entries: seq<(nat, Name)>)
      requires Valid() && c in links
      modifies this, playerIds
      ensures Valid() && Now() == S.OnMessage(old(Now()), c, msg, entries)
      ensures old(playerIds.State()) != playerIds.State() ==> S.Lists(entries, players)
    {
      entries := [];
      if links[c].data !in players {
        return;
      }
      match msg
      case Handshake(name, version) => entries := OnHandshake(c, name, version);
      case Say(text) => OnChat(c, text);
    }

    /** The oldest message of a client is taken and handled: one step of the protocol. */
    method OnReceive(c: nat) returns (entries: seq<(nat, Name)>)
      requires Valid() && c in links && links[c].up != []
      modifies this, playerIds
      ensures Valid() && S.Step(old(Now()), S.Received(c, entries), Now())
      ensures S.Inv(old(Now())) ==> S.Inv(Now())
    {
      ghost var before := Now();
      var msg := links[c].up[0];
      links := links[c := links[c].(up := links[c].up[1..])];
      entries := OnNetMessage(c, msg);
      if S.Inv(before) {
        S.ReceivedKeepsInv(before, c, entries, Now());
      }
    }

    /** The others are told of the end of a player that had shaken hands; then player and ids are given up. */
    method OnDisconnect(c: nat)
      requires Valid() && c in links
      requires links[c].data != 0 ==> links[c].data in players && peerIds.newId > 0
      requires links[c].data != 0 && players[links[c].data].id != 0 ==> playerIds.newId > 0
      modifies this, peerIds, playerIds
      ensures Valid() && Now() == S.OnDisconnect(old(Now()), c) && S.Step(old(Now()), S.Gone(c), Now())
      ensures S.Inv(old(Now())) ==> S.Inv(Now())
    {
      if S.Inv(Now()) {
        S.StepKeepsInv(Now(), S.Gone(c), S.OnDisconnect(Now(), c));
      }
      var k := links[c].data;
      links := links - {c};
      if k == 0 {
        return;
      }
      var id := players[k].id;
      if id != 0 {
        links := S.Broadcast(links, Disconnected(id));
      }
      players := players - {k};
      if id != 0 {
        playerIds.ReturnId(id);
      }
      peerIds.ReturnId(k);
    }
  }
}
