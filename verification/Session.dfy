/**
  The server and its clients: connections, handshakes, chat, disconnects, and the roster each client keeps.

  Assumptions about the network library: messages to and from one peer are delivered reliably and in order; messages
  are sent only to peers that are connected and not being disconnected; at most `ALLOCATED_PEERS` peers exist at once.
  Each connection is made by a fresh client.
*/
module Session {
  import opened ClientHandlers
  import opened IdManager
  import opened Roster

  const ALLOCATED_PEERS := 32
  const MAX_PLAYER_ID := 0xffff                 // 16-bit player ids
  const MAX_PEER_ID := 0xffff_ffff_ffff_ffff    // pointer-sized peer ids

  /** A player the server accepted; its id is 0 until the handshake. */
  datatype Player = Player(id: nat, name: Name)

  /**
    One network connection: the peer id the server stored with it (0 for a refused peer), whether the server still
    counts the peer as connected, the messages under way, and the client's own roster.
  */
  datatype Link = Link(data: nat, open: bool, up: seq<CMsg>, down: seq<SMsg>, roster: map<nat, Name>, listed: bool)

  datatype State = State(links: map<nat, Link>, players: map<nat, Player>, peerIds: Ids, playerIds: Ids)

  ghost predicate Init(s: State) {
    s == State(map[], map[], NO_IDS, NO_IDS)
  }

  /// The server's actions

  function SendTo(links: map<nat, Link>, c: nat, msg: SMsg): map<nat, Link> {
    if c in links && links[c].open then links[c := links[c].(down := links[c].down + [msg])] else links
  }

  function Broadcast(links: map<nat, Link>, msg: SMsg): map<nat, Link> {
    map c | c in links :: if links[c].open then links[c].(down := links[c].down + [msg]) else links[c]
  }

  function Close(links: map<nat, Link>, c: nat): map<nat, Link> {
    if c in links then links[c := links[c].(open := false)] else links
  }

  /** A new peer is accepted: it gets a peer id and a player. */
  function Accept(s: State, c: nat): State {
    match Acquire(s.peerIds, MAX_PEER_ID)
    case None => s
    case Some((peer, ids)) =>
      s.(links := s.links[c := Link(peer, true, [], [], map[], false)],
         players := s.players[peer := Player(0, "")], peerIds := ids)
  }

  function Refuse(s: State, c: nat): State {
    s.(links := s.links[c := Link(0, false, [], [], map[], false)])
  }

  ghost predicate IsPlayer(entry: (nat, Name), players: map<nat, Player>) {
    exists k :: k in players && players[k].id == entry.0 && players[k].name == entry.1
  }

  ghost predicate HasPlayer(entries: seq<(nat, Name)>, p: Player) {
    exists i :: 0 <= i < |entries| && entries[i].0 == p.id && entries[i].1 == p.name
  }

  /** The list names every player, in whatever order the hash map has them; those without handshake as id 0. */
  ghost predicate Lists(entries: seq<(nat, Name)>, players: map<nat, Player>) {
    && (forall i :: 0 <= i < |entries| ==> IsPlayer(entries[i], players))
    && (forall k :: k in players ==> HasPlayer(entries, players[k]))
  }

  method FillPlayerList(players: map<nat, Player>) returns (entries: seq<(nat, Name)>)
    ensures Lists(entries, players) && |entries| == |players|
  {
    entries := [];
    var rest := players.Keys;
    while rest != {}
      invariant rest <= players.Keys && |entries| + |rest| == |players|
      invariant forall i :: 0 <= i < |entries| ==> IsPlayer(entries[i], players)
      invariant forall k :: k in players && k !in rest ==> HasPlayer(entries, players[k])
    {
      var k :| k in rest;
      HasPlayerAfter(entries, players, rest, k);
      entries := entries + [(players[k].id, players[k].name)];
      rest := rest - {k};
    }
  }

  lemma HasPlayerAfter(entries: seq<(nat, Name)>, players: map<nat, Player>, rest: set<nat>, k: nat)
    requires k in players
    requires forall l :: l in players && l !in rest ==> HasPlayer(entries, players[l])
    ensures forall l :: l in players && l !in rest - {k} ==>
              HasPlayer(entries + [(players[k].id, players[k].name)], players[l])
  {
    var more := entries + [(players[k].id, players[k].name)];
    assert more[|entries|] == (players[k].id, players[k].name);
    forall l | l in players && l !in rest ensures HasPlayer(more, players[l]) {
      var i :| 0 <= i < |entries| && entries[i].0 == players[l].id && entries[i].1 == players[l].name;
      assert more[i] == entries[i];
    }
  }

  /** A handshake. With no player id left the exception is caught after the name has been stored. */
  function OnHandshake(s: State, c: nat, name: Name, version: string, entries: seq<(nat, Name)>): State
    requires c in s.links && s.links[c].data in s.players
  {
    var k := s.links[c].data;
    if s.players[k].id != 0 || version == "" || name == "" then
      s.(links := Close(s.links, c))
    else
      match Acquire(s.playerIds, MAX_PLAYER_ID)
      case None => s.(players := s.players[k := Player(0, name)])
      case Some((id, ids)) =>
        var greeted := SendTo(SendTo(s.links, c, Handshaked(id)), c, PlayerList(entries));
        s.(links := Broadcast(greeted, Connected(id, name)),
           players := s.players[k := Player(id, name)], playerIds := ids)
  }

  function OnChat(s: State, c: nat, text: string): State
    requires c in s.links && s.links[c].data in s.players
  {
    var id := s.players[s.links[c].data].id;
    if id == 0 then s else s.(links := Broadcast(s.links, Chat(id, text)))
  }

  /** A message whose peer has no player is dropped: the lookup throws before any handler runs. */
  function OnMessage(s: State, c: nat, msg: CMsg, entries: seq<(nat, Name)>): State
    requires c in s.links
  {
    if s.links[c].data !in s.players then s
    else
      match msg
      case Handshake(name, version) => OnHandshake(s, c, name, version, entries)
      case Say(text) => OnChat(s, c, text)
  }

  /** The peer is gone: the others are told, then the player is destroyed and its ids come back. */
  function OnDisconnect(s: State, c: nat): State
    requires c in s.links
    requires s.links[c].data != 0 ==> s.links[c].data in s.players && s.peerIds.top > 0
    requires s.links[c].data != 0 && s.players[s.links[c].data].id != 0 ==> s.playerIds.top > 0
  {
    var k, others := s.links[c].data, s.links - {c};
    if k == 0 then s.(links := others)
    else
      var id := s.players[k].id;
      State(if id == 0 then others else Broadcast(others, Disconnected(id)),
            s.players - {k},
            Return(s.peerIds, k),
            if id == 0 then s.playerIds else Return(s.playerIds, id))
  }

  /// The events

  datatype Event =
    | Accepted(c: nat)
    | Refused(c: nat)
    | Submitted(c: nat, msg: CMsg)                    // the client sends
    | Received(c: nat, entries: seq<(nat, Name)>)     // the server handles the client's oldest message
    | Delivered(c: nat)                               // the client handles the server's oldest message
    | Kicked(c: nat)                                  // the server asks the peer to go
    | Gone(c: nat)                                    // the server learns that the peer is gone

  /** What the client's handlers make of its oldest message. */
  function Seen(l: Link): View
    requires l.down != []
  {
    Handled(NET_HANDLERS, View(l.roster, 0, []), l.down[0])
  }

  ghost predicate Step(s: State, e: Event, t: State) {
    match e
    case Accepted(c) => c !in s.links && |s.links| < ALLOCATED_PEERS && t == Accept(s, c)
    case Refused(c) => c !in s.links && |s.links| < ALLOCATED_PEERS && t == Refuse(s, c)
    case Submitted(c, msg) =>
      c in s.links && t == s.(links := s.links[c := s.links[c].(up := s.links[c].up + [msg])])
    case Received(c, entries) =>
      && c in s.links && s.links[c].up != []
      && var taken := s.(links := s.links[c := s.links[c].(up := s.links[c].up[1..])]);
         var after := OnMessage(taken, c, s.links[c].up[0], entries);
         (after.playerIds != s.playerIds ==> Lists(entries, after.players)) && t == after
    case Delivered(c) =>
      && c in s.links && s.links[c].down != []
      && var l := s.links[c];
         t == s.(links := s.links[c := l.(down := l.down[1..], roster := Seen(l).players,
                                           listed := l.listed || l.down[0].PlayerList?)])
    case Kicked(c) => t == s.(links := Close(s.links, c))
    case Gone(c) =>
      && c in s.links
      && (s.links[c].data != 0 ==> s.links[c].data in s.players && s.peerIds.top > 0)
      && (s.links[c].data != 0 && s.players[s.links[c].data].id != 0 ==> s.playerIds.top > 0)
      && t == OnDisconnect(s, c)
  }

  /// The invariant

  ghost function DataMap(links: map<nat, Link>): map<nat, nat> {
    map c | c in links :: links[c].data
  }

  ghost function IdMap(players: map<nat, Player>): map<nat, nat> {
    map k | k in players :: players[k].id
  }

  /** No id but 0 occurs twice. */
  ghost predicate UniqueIds(players: map<nat, Player>) {
    forall j, k :: j in players && k in players && j != k && players[j].id != 0 ==> players[j].id != players[k].id
  }

  /** No two accepted peers share their data. */
  ghost predicate UniqueData(links: map<nat, Link>) {
    forall c, d :: c in links && d in links && c != d && links[c].data != 0 ==> links[c].data != links[d].data
  }

  /** Every entry is a player that has shaken hands, under its name. */
  ghost predicate Sound(m: map<nat, Name>, players: map<nat, Player>) {
    forall id :: id in m ==> id != 0 && IsPlayer((id, m[id]), players)
  }

  /** Every player that has shaken hands has an entry. */
  ghost predicate Complete(m: map<nat, Name>, players: map<nat, Player>) {
    forall k :: k in players && players[k].id != 0 ==> players[k].id in m
  }

  /** Keys of the players, live peer ids and the data of the accepted peers are the same; each belongs to one peer. */
  ghost predicate PeersInv(s: State) {
    && |s.links| <= ALLOCATED_PEERS
    && UniqueData(s.links) && Owned(DataMap(s.links)) == s.players.Keys
    && Accounts(s.peerIds, s.players.Keys) && s.peerIds.top <= ALLOCATED_PEERS
  }

  ghost predicate IdsInv(s: State) {
    && UniqueIds(s.players)
    && Accounts(s.playerIds, Owned(IdMap(s.players))) && s.playerIds.top <= ALLOCATED_PEERS
  }

  /** What a client's roster will be once every message under way has arrived. */
  function Settled(l: Link): map<nat, Name> {
    Real(ApplyAll(l.roster, l.down))
  }

  /**
    The lookups of the messages under way succeed. While the peer is connected its settled roster holds only players
    that have shaken hands, and all of them once it has shaken hands itself; before that it has no player list.
  */
  ghost predicate LinkInv(l: Link, players: map<nat, Player>) {
    && LookupsOk(l.roster, l.listed, l.down)
    && (l.open ==>
          && l.data in players && Sound(Settled(l), players)
          && (if players[l.data].id != 0 then Complete(Settled(l), players) else !Listed(l.listed, l.down)))
  }

  ghost predicate LinksInv(links: map<nat, Link>, players: map<nat, Player>) {
    forall c :: c in links ==> LinkInv(links[c], players)
  }

  ghost predicate Inv(s: State) {
    PeersInv(s) && IdsInv(s) && LinksInv(s.links, s.players)
  }

  /// Counting

  lemma {:induction false} OwnedSize(m: map<nat, nat>)
    ensures |Owned(m)| <= |m|
    ensures (exists k :: k in m && m[k] == 0) ==> |Owned(m)| < |m|
    decreases |m|
  {
    if m != map[] {
      var k :| k in m;
      OwnedSize(m - {k});
      var rest := Owned(m - {k});
      forall x | x in Owned(m) ensures x in rest + {m[k]} {
        var j :| j in m && m[j] != 0 && m[j] == x;
        assert j != k ==> (m - {k})[j] == x;
      }
      if m[k] == 0 {
        assert Owned(m) == rest;
      } else {
        assert Owned(m) <= rest + {m[k]};
        SubsetSize(Owned(m), rest + {m[k]});
        if z :| z in m && m[z] == 0 {
          assert (m - {k})[z] == 0;
        }
      }
    }
  }

  lemma {:induction false} SubsetSize(a: set<nat>, b: set<nat>)
    requires a <= b
    ensures |a| <= |b|
  {
    if a != {} {
      var x :| x in a;
      SubsetSize(a - {x}, b - {x});
    }
  }

  /// What each message does to a client

  function Append(l: Link, msg: SMsg): Link {
    l.(down := l.down + [msg])
  }

  lemma AppendSettles(l: Link, msg: SMsg)
    ensures ApplyAll(l.roster, Append(l, msg).down) == Apply(ApplyAll(l.roster, l.down), msg)
    ensures Listed(l.listed, Append(l, msg).down) <==> Listed(l.listed, l.down) || msg.PlayerList?
  {
    ApplyAllAppend(l.roster, l.down, msg);
    ListedAppend(l.listed, l.down, msg);
  }

  /** Somebody else's handshake is announced. */
  lemma JoinKeepsLink(l: Link, players: map<nat, Player>, k: nat, id: nat, name: Name)
    requires LinkInv(l, players) && l.data != k && k in players && players[k].id == 0
    requires id != 0 && forall j :: j in players ==> players[j].id != id
    ensures LinkInv(if l.open then Append(l, Connected(id, name)) else l, players[k := Player(id, name)])
  {
    if l.open {
      var after := players[k := Player(id, name)];
      var t := Append(l, Connected(id, name));
      AppendSettles(l, Connected(id, name));
      LookupsAppend(l.roster, l.listed, l.down, Connected(id, name));
      assert after[k] == Player(id, name);
      forall x | x in Settled(t) ensures IsPlayer((x, Settled(t)[x]), after) {
        if x in Settled(l) {
          var j :| j in players && players[j].id == x && players[j].name == Settled(l)[x];
          assert after[j] == players[j];
        }
      }
    }
  }

  /** A player's end is announced to the others. */
  lemma LeaveKeepsLink(l: Link, players: map<nat, Player>, k: nat)
    requires LinkInv(l, players) && l.data != k && k in players && UniqueIds(players)
    ensures players[k].id != 0 ==>
              LinkInv(if l.open then Append(l, Disconnected(players[k].id)) else l, players - {k})
    ensures players[k].id == 0 ==> LinkInv(l, players - {k})
  {
    var id := players[k].id;
    if l.open {
      SoundWithout(Settled(l), players, k);
      if id != 0 {
        AppendSettles(l, Disconnected(id));
        LookupsAppend(l.roster, l.listed, l.down, Disconnected(id));
        assert Settled(Append(l, Disconnected(id))) == Settled(l) - {id};
      }
    }
  }

  lemma SoundWithout(m: map<nat, Name>, players: map<nat, Player>, k: nat)
    requires Sound(m, players) && k in players
    ensures Sound(m - {players[k].id}, players - {k})
    ensures players[k].id == 0 ==> Sound(m, players - {k})
  {
    var after := players - {k};
    forall x | x in m && x != players[k].id ensures IsPlayer((x, m[x]), after) {
      assert IsPlayer((x, m[x]), players);
      var j :| j in players && players[j].id == x && players[j].name == m[x];
      assert after[j] == players[j];
    }
  }

  lemma {:induction false} InsertAllSound(roster: map<nat, Name>, entries: seq<(nat, Name)>, players: map<nat, Player>)
    requires Sound(Real(roster), players)
    requires forall i :: 0 <= i < |entries| ==> IsPlayer(entries[i], players)
    ensures Sound(Real(InsertAll(roster, entries)), players)
    decreases |entries|
  {
    if entries != [] {
      var next := Insert(roster, entries[0].0, entries[0].1);
      forall x | x in Real(next) ensures IsPlayer((x, next[x]), players) {
        if x in Real(roster) {
          assert Real(roster)[x] == next[x];
        } else {
          assert IsPlayer(entries[0], players);
        }
      }
      assert forall x :: x in Real(next) ==> Real(next)[x] == next[x];
      InsertAllSound(next, entries[1..], players);
    }
  }

  /** One's own handshake: the answer, the list of all players, and the announcement. */
  lemma GreetingKeepsLink(l: Link, players: map<nat, Player>, id: nat, name: Name, entries: seq<(nat, Name)>)
    requires LinkInv(l, players) && l.open && players[l.data].id == 0
    requires id != 0 && forall j :: j in players ==> players[j].id != id
    requires Lists(entries, players[l.data := Player(id, name)])
    ensures LinkInv(Append(Append(Append(l, Handshaked(id)), PlayerList(entries)), Connected(id, name)),
                    players[l.data := Player(id, name)])
  {
    var after := players[l.data := Player(id, name)];
    var l1 := Append(l, Handshaked(id));
    var l2 := Append(l1, PlayerList(entries));
    AppendSettles(l, Handshaked(id));
    LookupsAppend(l.roster, l.listed, l.down, Handshaked(id));
    AppendSettles(l1, PlayerList(entries));
    LookupsAppend(l1.roster, l1.listed, l1.down, PlayerList(entries));
    AppendSettles(l2, Connected(id, name));
    LookupsAppend(l2.roster, l2.listed, l2.down, Connected(id, name));
    GreetingIsComplete(l, players, id, name, entries);
  }

  lemma GreetingIsComplete(l: Link, players: map<nat, Player>, id: nat, name: Name, entries: seq<(nat, Name)>)
    requires l.data in players && players[l.data].id == 0 && id != 0
    requires Sound(Settled(l), players)
    requires Lists(entries, players[l.data := Player(id, name)])
    ensures
      var after := players[l.data := Player(id, name)];
      var listed := InsertAll(ApplyAll(l.roster, l.down), entries);
      Sound(Real(listed), after) && Complete(Real(listed), after) && id in listed
  {
    var after := players[l.data := Player(id, name)];
    var roster := ApplyAll(l.roster, l.down);
    forall x | x in Real(roster) ensures IsPlayer((x, roster[x]), after) {
      var j :| j in players && players[j].id == x && players[j].name == Real(roster)[x];
      assert after[j] == players[j];
    }
    assert forall x :: x in Real(roster) ==> Real(roster)[x] == roster[x];
    InsertAllSound(roster, entries, after);
    InsertAllKeys(roster, entries);
    assert after[l.data] == Player(id, name);
    forall k | k in after ensures after[k].id in InsertAll(roster, entries) {
      assert HasPlayer(entries, after[k]);
    }
  }

  lemma ChatKeepsLink(l: Link, players: map<nat, Player>, k: nat, text: string)
    requires LinkInv(l, players) && l.open && k in players && players[k].id != 0
    ensures LinkInv(Append(l, Chat(players[k].id, text)), players)
  {
    AppendSettles(l, Chat(players[k].id, text));
    LookupsAppend(l.roster, l.listed, l.down, Chat(players[k].id, text));
  }

  /// The steps keep the invariant

  lemma PeersFit(s: State)
    requires PeersInv(s)
    ensures |s.players| <= |s.links|
    ensures forall c :: c in s.links && s.links[c].data != 0 ==> s.links[c].data in s.players
    ensures 0 !in s.players
  {
    var data := DataMap(s.links);
    OwnedSize(data);
    assert data.Keys == s.links.Keys && |data| == |s.links|;
    assert |s.players.Keys| == |s.players|;
    assert forall c :: c in s.links && s.links[c].data != 0 ==> data[c] in Owned(data);
  }

  lemma DataMapUpdate(links: map<nat, Link>, c: nat, l: Link)
    ensures DataMap(links[c := l]) == DataMap(links)[c := l.data]
  {
  }

  lemma IdMapUpdate(players: map<nat, Player>, k: nat, p: Player)
    ensures IdMap(players[k := p]) == IdMap(players)[k := p.id]
  {
  }

  lemma PeerIdIsFresh(s: State)
    requires PeersInv(s) && |s.links| < ALLOCATED_PEERS
    ensures Acquire(s.peerIds, MAX_PEER_ID).Some?
    ensures var (peer, ids) := Acquire(s.peerIds, MAX_PEER_ID).value;
      && peer != 0 && peer !in s.players
      && Accounts(ids, s.players.Keys + {peer}) && ids.top <= ALLOCATED_PEERS
  {
    PeersFit(s);
    AcquireSucceeds(s.peerIds, s.players.Keys, MAX_PEER_ID);
  }

  lemma AddLinkKeepsUnique(links: map<nat, Link>, c: nat, l: Link)
    requires UniqueData(links) && c !in links
    requires forall d :: d in links && links[d].data != 0 ==> links[d].data != l.data
    ensures UniqueData(links[c := l]) && |links[c := l]| == |links| + 1
  {
    var after := links[c := l];
    assert after.Keys == links.Keys + {c} && |after.Keys| == |after| && |links.Keys| == |links|;
  }

  lemma AddLinkOwns(links: map<nat, Link>, c: nat, l: Link)
    requires c !in links
    ensures Owned(DataMap(links[c := l])) == Owned(DataMap(links)) + if l.data == 0 then {} else {l.data}
  {
    DataMapUpdate(links, c, l);
    OwnedAfterCreate(DataMap(links), c, l.data);
  }

  /** A peer at `c` with a fresh key and player, or with neither. */
  function WithPeer(s: State, c: nat, peer: nat, ids: Ids): State {
    s.(links := s.links[c := Link(peer, peer != 0, [], [], map[], false)],
       players := if peer == 0 then s.players else s.players[peer := Player(0, "")], peerIds := ids)
  }

  lemma WithPeerKeepsData(s: State, c: nat, peer: nat, ids: Ids)
    requires PeersInv(s) && c !in s.links && peer !in s.players
    ensures var t := WithPeer(s, c, peer, ids);
      && |t.links| == |s.links| + 1 && UniqueData(t.links)
      && Owned(DataMap(t.links)) == s.players.Keys + if peer == 0 then {} else {peer}
  {
    PeersFit(s);
    var l := Link(peer, peer != 0, [], [], map[], false);
    AddLinkKeepsUnique(s.links, c, l);
    AddLinkOwns(s.links, c, l);
  }

  lemma WithPeerKeepsPeers(s: State, c: nat, peer: nat, ids: Ids)
    requires PeersInv(s) && c !in s.links && |s.links| < ALLOCATED_PEERS && peer !in s.players
    requires Accounts(ids, s.players.Keys + if peer == 0 then {} else {peer}) && ids.top <= ALLOCATED_PEERS
    ensures PeersInv(WithPeer(s, c, peer, ids))
  {
    WithPeerKeepsData(s, c, peer, ids);
    WithPeerKeys(s, c, peer, ids);
  }

  lemma WithPeerKeys(s: State, c: nat, peer: nat, ids: Ids)
    ensures WithPeer(s, c, peer, ids).players.Keys == s.players.Keys + if peer == 0 then {} else {peer}
  {
  }

  lemma NewPlayerKeepsIds(s: State, t: State, peer: nat, name: Name)
    requires IdsInv(s) && (peer in s.players ==> s.players[peer].id == 0)
    requires t.players == s.players[peer := Player(0, name)] && t.playerIds == s.playerIds
    ensures IdsInv(t)
  {
    IdMapUpdate(s.players, peer, Player(0, name));
    if peer in s.players {
      OwnedAfterFill(IdMap(s.players), peer, 0);
    } else {
      OwnedAfterCreate(IdMap(s.players), peer, 0);
    }
  }

  lemma AcceptKeepsInv(s: State, c: nat)
    requires Inv(s) && c !in s.links && |s.links| < ALLOCATED_PEERS
    ensures Acquire(s.peerIds, MAX_PEER_ID).Some? && Inv(Accept(s, c))
  {
    PeerIdIsFresh(s);
    var (peer, ids) := Acquire(s.peerIds, MAX_PEER_ID).value;
    WithPeerKeepsPeers(s, c, peer, ids);
    WithPeerKeepsRest(s, c, peer, ids);
  }

  lemma WithPeerKeepsRest(s: State, c: nat, peer: nat, ids: Ids)
    requires IdsInv(s) && LinksInv(s.links, s.players) && peer !in s.players && peer != 0
    ensures IdsInv(WithPeer(s, c, peer, ids))
    ensures LinksInv(WithPeer(s, c, peer, ids).links, WithPeer(s, c, peer, ids).players)
  {
    NewPlayerKeepsIds(s, WithPeer(s, c, peer, ids), peer, "");
    forall d | d in s.links ensures LinkInv(s.links[d], s.players[peer := Player(0, "")]) {
      NewPlayerKeepsLink(s.links[d], s.players, peer, "");
    }
  }

  lemma RefuseKeepsInv(s: State, c: nat)
    requires Inv(s) && c !in s.links && |s.links| < ALLOCATED_PEERS
    ensures Inv(Refuse(s, c))
  {
    PeersFit(s);
    assert s.players.Keys + {} == s.players.Keys;
    WithPeerKeepsPeers(s, c, 0, s.peerIds);
    assert Refuse(s, c) == WithPeer(s, c, 0, s.peerIds);
  }

  /** Peers keep their data, players their keys. */
  ghost predicate SamePeers(s: State, t: State) {
    && t.links.Keys == s.links.Keys && (forall c :: c in s.links ==> t.links[c].data == s.links[c].data)
    && t.players.Keys == s.players.Keys && t.peerIds == s.peerIds
  }

  lemma SamePeersKeepsPeersInv(s: State, t: State)
    requires PeersInv(s) && SamePeers(s, t)
    ensures PeersInv(t)
  {
    assert DataMap(t.links) == DataMap(s.links);
    assert |t.links.Keys| == |s.links.Keys|;
  }

  /** Player ids never run out: 32 peers cannot use up 65535 of them. */
  lemma PlayerIdIsFresh(s: State, k: nat)
    requires PeersInv(s) && IdsInv(s) && k in s.players && s.players[k].id == 0
    ensures Acquire(s.playerIds, MAX_PLAYER_ID).Some?
    ensures
      var (id, ids) := Acquire(s.playerIds, MAX_PLAYER_ID).value;
      && id != 0 && (forall j :: j in s.players ==> s.players[j].id != id)
      && Accounts(ids, Owned(IdMap(s.players)) + {id}) && ids.top <= ALLOCATED_PEERS
  {
    var m := IdMap(s.players);
    PeersFit(s);
    OwnedSize(m);
    assert m.Keys == s.players.Keys && |m| == |s.players|;
    assert m[k] == 0;
    AcquireSucceeds(s.playerIds, Owned(m), MAX_PLAYER_ID);
    assert forall j :: j in s.players && s.players[j].id != 0 ==> m[j] in Owned(m);
  }

  lemma HandshakeKeepsIds(s: State, t: State, k: nat, name: Name, id: nat, ids: Ids)
    requires PeersInv(s) && IdsInv(s) && k in s.players && s.players[k].id == 0
    requires Acquire(s.playerIds, MAX_PLAYER_ID) == Some((id, ids))
    requires t.players == s.players[k := Player(id, name)] && t.playerIds == ids
    ensures IdsInv(t)
  {
    PlayerIdIsFresh(s, k);
    IdMapUpdate(s.players, k, Player(id, name));
    OwnedAfterFill(IdMap(s.players), k, id);
  }

  lemma NewPlayerKeepsLink(l: Link, players: map<nat, Player>, peer: nat, name: Name)
    requires LinkInv(l, players) && (peer in players ==> players[peer].id == 0)
    ensures LinkInv(l, players[peer := Player(0, name)])
  {
    var after := players[peer := Player(0, name)];
    if l.open {
      forall x | x in Settled(l) ensures IsPlayer((x, Settled(l)[x]), after) {
        var j :| j in players && players[j].id == x && players[j].name == Settled(l)[x];
        assert after[j] == players[j];
      }
    }
  }

  /** The links after a successful handshake of the peer at `c`. */
  function Greeted(links: map<nat, Link>, c: nat, id: nat, name: Name, entries: seq<(nat, Name)>): map<nat, Link> {
    Broadcast(SendTo(SendTo(links, c, Handshaked(id)), c, PlayerList(entries)), Connected(id, name))
  }

  lemma GreetedLink(links: map<nat, Link>, c: nat, id: nat, name: Name, entries: seq<(nat, Name)>, d: nat)
    requires c in links && d in links
    ensures Greeted(links, c, id, name, entries).Keys == links.Keys
    ensures
      Greeted(links, c, id, name, entries)[d] ==
      if !links[d].open then links[d]
      else if d == c then Append(Append(Append(links[d], Handshaked(id)), PlayerList(entries)), Connected(id, name))
      else Append(links[d], Connected(id, name))
  {
  }

  lemma GreetedKeepsLinks(s: State, c: nat, id: nat, name: Name, entries: seq<(nat, Name)>, d: nat)
    requires c in s.links && d in s.links && s.links[c].data in s.players && s.links[c].data != 0
    requires UniqueData(s.links) && UniqueIds(s.players) && LinkInv(s.links[d], s.players)
    requires s.players[s.links[c].data].id == 0
    requires id != 0 && forall j :: j in s.players ==> s.players[j].id != id
    requires Lists(entries, s.players[s.links[c].data := Player(id, name)])
    ensures LinkInv(Greeted(s.links, c, id, name, entries)[d], s.players[s.links[c].data := Player(id, name)])
  {
    GreetedLink(s.links, c, id, name, entries, d);
    if d != c {
      JoinKeepsLink(s.links[d], s.players, s.links[c].data, id, name);
    } else if s.links[c].open {
      GreetingKeepsLink(s.links[c], s.players, id, name, entries);
    }
  }

  lemma HandshakeIs(s: State, c: nat, name: Name, version: string, entries: seq<(nat, Name)>)
    requires c in s.links && s.links[c].data in s.players && Acquire(s.playerIds, MAX_PLAYER_ID).Some?
    ensures
      var k, t := s.links[c].data, OnHandshake(s, c, name, version, entries);
      var (id, ids) := Acquire(s.playerIds, MAX_PLAYER_ID).value;
      if s.players[k].id == 0 && version != "" && name != "" then
        t == State(Greeted(s.links, c, id, name, entries), s.players[k := Player(id, name)], s.peerIds, ids)
      else t == s.(links := Close(s.links, c))
  {
  }

  lemma HandshakeKeepsInv(s: State, c: nat, name: Name, version: string, entries: seq<(nat, Name)>)
    requires Inv(s) && c in s.links && s.links[c].data in s.players
    requires var t := OnHandshake(s, c, name, version, entries);
      t.playerIds != s.playerIds ==> Lists(entries, t.players)
    ensures Inv(OnHandshake(s, c, name, version, entries))
  {
    var k := s.links[c].data;
    if s.players[k].id != 0 || version == "" || name == "" {
      CloseKeepsInv(s, c);
    } else {
      PlayerIdIsFresh(s, k);
      HandshakeIs(s, c, name, version, entries);
      var (id, ids) := Acquire(s.playerIds, MAX_PLAYER_ID).value;
      GreetingKeepsInv(s, OnHandshake(s, c, name, version, entries), c, id, ids, name, entries);
    }
  }

  lemma GreetingKeepsInv(s: State, t: State, c: nat, id: nat, ids: Ids, name: Name, entries: seq<(nat, Name)>)
    requires Inv(s) && c in s.links && s.links[c].data in s.players && s.players[s.links[c].data].id == 0
    requires Acquire(s.playerIds, MAX_PLAYER_ID) == Some((id, ids))
    requires t == State(Greeted(s.links, c, id, name, entries), s.players[s.links[c].data := Player(id, name)],
                        s.peerIds, ids)
    requires Lists(entries, t.players)
    ensures Inv(t)
  {
    HandshakeKeepsIds(s, t, s.links[c].data, name, id, ids);
    GreetedKeepsPeers(s.links, c, id, name, entries);
    SamePeersKeepsPeersInv(s, t);
    GreetedKeepsAllLinks(s, c, id, ids, name, entries);
  }

  lemma GreetedKeepsAllLinks(s: State, c: nat, id: nat, ids: Ids, name: Name, entries: seq<(nat, Name)>)
    requires Inv(s) && c in s.links && s.links[c].data in s.players && s.players[s.links[c].data].id == 0
    requires Acquire(s.playerIds, MAX_PLAYER_ID) == Some((id, ids))
    requires Lists(entries, s.players[s.links[c].data := Player(id, name)])
    ensures LinksInv(Greeted(s.links, c, id, name, entries), s.players[s.links[c].data := Player(id, name)])
  {
    PeersFit(s);
    PlayerIdIsFresh(s, s.links[c].data);
    NewIdKeepsAllLinks(s, c, id, name, entries);
  }

  lemma NewIdKeepsAllLinks(s: State, c: nat, id: nat, name: Name, entries: seq<(nat, Name)>)
    requires LinksInv(s.links, s.players) && UniqueData(s.links) && UniqueIds(s.players)
    requires c in s.links && s.links[c].data in s.players && s.links[c].data != 0
    requires s.players[s.links[c].data].id == 0
    requires id != 0 && forall j :: j in s.players ==> s.players[j].id != id
    requires Lists(entries, s.players[s.links[c].data := Player(id, name)])
    ensures LinksInv(Greeted(s.links, c, id, name, entries), s.players[s.links[c].data := Player(id, name)])
  {
    GreetedKeepsPeers(s.links, c, id, name, entries);
    forall d | d in s.links
      ensures LinkInv(Greeted(s.links, c, id, name, entries)[d], s.players[s.links[c].data := Player(id, name)])
    {
      GreetedKeepsLinks(s, c, id, name, entries, d);
    }
  }

  lemma GreetedKeepsPeers(links: map<nat, Link>, c: nat, id: nat, name: Name, entries: seq<(nat, Name)>)
    requires c in links
    ensures Greeted(links, c, id, name, entries).Keys == links.Keys
    ensures forall d :: d in links ==> Greeted(links, c, id, name, entries)[d].data == links[d].data
  {
    forall d | d in links ensures Greeted(links, c, id, name, entries)[d].data == links[d].data {
      GreetedLink(links, c, id, name, entries, d);
    }
  }

  /** A step that only touches messages, rosters and connections, and keeps every link in order. */
  lemma LinkwiseKeepsInv(s: State, t: State)
    requires Inv(s) && SamePeers(s, t) && t.players == s.players && t.playerIds == s.playerIds
    requires LinksInv(t.links, s.players)
    ensures Inv(t)
  {
    SamePeersKeepsPeersInv(s, t);
  }

  lemma CloseKeepsInv(s: State, c: nat)
    requires Inv(s)
    ensures Inv(s.(links := Close(s.links, c)))
  {
    LinkwiseKeepsInv(s, s.(links := Close(s.links, c)));
  }

  /** What a client sends, and how much of it the server has read, matters to no link's invariant. */
  lemma UpKeepsInv(s: State, c: nat, up: seq<CMsg>)
    requires Inv(s) && c in s.links
    ensures Inv(s.(links := s.links[c := s.links[c].(up := up)]))
  {
    var t := s.(links := s.links[c := s.links[c].(up := up)]);
    assert Settled(t.links[c]) == Settled(s.links[c]);
    LinkwiseKeepsInv(s, t);
  }

  lemma ChatKeepsInv(s: State, c: nat, text: string)
    requires Inv(s) && c in s.links && s.links[c].data in s.players
    ensures Inv(OnChat(s, c, text))
  {
    var t, k := OnChat(s, c, text), s.links[c].data;
    if s.players[k].id != 0 {
      forall d | d in s.links ensures LinkInv(t.links[d], s.players) {
        if s.links[d].open {
          ChatKeepsLink(s.links[d], s.players, k, text);
        }
      }
      LinkwiseKeepsInv(s, t);
    }
  }

  lemma DeliveredKeepsInv(s: State, c: nat, t: State)
    requires Inv(s) && Step(s, Delivered(c), t)
    ensures Inv(t)
    ensures s.links[c].listed ==> Known(s.links[c].roster, s.links[c].down[0])
  {
    HandlingKeepsLink(s.links[c], t.links[c], s.players);
    LinkwiseKeepsInv(s, t);
  }

  lemma HandlingKeepsLink(l: Link, t: Link, players: map<nat, Player>)
    requires LinkInv(l, players) && l.down != []
    requires t == l.(down := l.down[1..], roster := Seen(l).players, listed := l.listed || l.down[0].PlayerList?)
    ensures LinkInv(t, players)
    ensures l.listed ==> Known(l.roster, l.down[0])
  {
    CallbackSeesOldRoster(View(l.roster, 0, []), l.down[0]);
    ListedPop(l.listed, l.down);
    assert Settled(t) == Settled(l);
  }

  /// The end of a connection

  lemma GoneIsAllowed(s: State, c: nat)
    requires Inv(s) && c in s.links
    ensures s.links[c].data != 0 ==> s.links[c].data in s.players && s.peerIds.top > 0
    ensures s.links[c].data != 0 && s.players[s.links[c].data].id != 0 ==> s.playerIds.top > 0
  {
    PeersFit(s);
    var k := s.links[c].data;
    if k != 0 && s.players[k].id != 0 {
      assert IdMap(s.players)[k] in Owned(IdMap(s.players));
    }
  }

  /** The links after the peer at `c` is gone. */
  function Left(links: map<nat, Link>, c: nat, id: nat): map<nat, Link> {
    if id == 0 then links - {c} else Broadcast(links - {c}, Disconnected(id))
  }

  lemma LeftOwns(links: map<nat, Link>, c: nat, id: nat)
    requires c in links && UniqueData(links)
    ensures Owned(DataMap(Left(links, c, id))) == Owned(DataMap(links)) - {links[c].data}
  {
    assert DataMap(Left(links, c, id)) == DataMap(links) - {c};
    OwnedAfterDestroy(DataMap(links), c);
  }

  lemma LeftFits(links: map<nat, Link>, c: nat, id: nat)
    requires c in links && UniqueData(links)
    ensures UniqueData(Left(links, c, id)) && |Left(links, c, id)| <= |links|
  {
    var after := Left(links, c, id);
    assert after.Keys == links.Keys - {c} && |after.Keys| == |after| && |links.Keys| == |links|;
  }

  lemma GoneIs(s: State, c: nat, t: State)
    requires Step(s, Gone(c), t)
    ensures
      var k := s.links[c].data;
      if k == 0 then t == s.(links := Left(s.links, c, 0))
      else
        var id := s.players[k].id;
        t == State(Left(s.links, c, id), s.players - {k}, Return(s.peerIds, k),
                   if id == 0 then s.playerIds else Return(s.playerIds, id))
  {
  }

  lemma GoneKeepsPeers(s: State, c: nat, t: State)
    requires PeersInv(s) && Step(s, Gone(c), t)
    ensures PeersInv(t)
  {
    var k := s.links[c].data;
    var id := if k == 0 then 0 else s.players[k].id;
    PeersFit(s);
    GoneIs(s, c, t);
    LeftOwns(s.links, c, id);
    LeftFits(s.links, c, id);
    KeysLeave(s.players, k);
    if k != 0 {
      ReturnFrees(s.peerIds, s.players.Keys, k);
    }
  }

  lemma KeysLeave(players: map<nat, Player>, k: nat)
    ensures (players - {k}).Keys == players.Keys - {k}
    ensures k !in players ==> players.Keys - {k} == players.Keys
  {
  }

  lemma GoneKeepsIds(s: State, c: nat, t: State)
    requires IdsInv(s) && Step(s, Gone(c), t)
    ensures IdsInv(t)
  {
    var k := s.links[c].data;
    GoneIs(s, c, t);
    if k != 0 {
      LeavingFreesId(s.players, k, s.playerIds);
    }
  }

  lemma LeavingFreesId(players: map<nat, Player>, k: nat, ids: Ids)
    requires UniqueIds(players) && Accounts(ids, Owned(IdMap(players))) && k in players
    requires players[k].id != 0 ==> ids.top > 0
    ensures
      var id := players[k].id;
      var after := if id == 0 then ids else Return(ids, id);
      UniqueIds(players - {k}) && Accounts(after, Owned(IdMap(players - {k}))) && after.top <= ids.top
  {
    var m: map<nat, nat>, id := IdMap(players), players[k].id;
    assert IdMap(players - {k}) == m - {k};
    OwnedAfterDestroy(m, k);
    if id != 0 {
      assert m[k] in Owned(m);
      ReturnFrees(ids, Owned(m), id);
    } else {
      assert Owned(m) - {0} == Owned(m);
    }
  }

  lemma GoneKeepsLinks(s: State, c: nat, t: State)
    requires Inv(s) && Step(s, Gone(c), t)
    ensures LinksInv(t.links, t.players)
  {
    var k := s.links[c].data;
    if k != 0 {
      forall d | d in t.links ensures LinkInv(t.links[d], t.players) {
        LeaveKeepsLink(s.links[d], s.players, k);
      }
    }
  }

  /// Every run

  lemma InitInv()
    ensures Inv(State(map[], map[], NO_IDS, NO_IDS))
  {
  }

  lemma ReceivedKeepsInv(s: State, c: nat, entries: seq<(nat, Name)>, t: State)
    requires Inv(s) && Step(s, Received(c, entries), t)
    ensures Inv(t)
  {
    var taken := s.(links := s.links[c := s.links[c].(up := s.links[c].up[1..])]);
    UpKeepsInv(s, c, s.links[c].up[1..]);
    MessageKeepsInv(taken, c, s.links[c].up[0], entries);
  }

  lemma MessageKeepsInv(s: State, c: nat, msg: CMsg, entries: seq<(nat, Name)>)
    requires Inv(s) && c in s.links
    requires var t := OnMessage(s, c, msg, entries); t.playerIds != s.playerIds ==> Lists(entries, t.players)
    ensures Inv(OnMessage(s, c, msg, entries))
  {
    if s.links[c].data in s.players {
      match msg
      case Handshake(name, version) => HandshakeKeepsInv(s, c, name, version, entries);
      case Say(text) => ChatKeepsInv(s, c, text);
    }
  }

  lemma StepKeepsInv(s: State, e: Event, t: State)
    requires Inv(s) && Step(s, e, t)
    ensures Inv(t)
  {
    match e
    case Accepted(c) => AcceptKeepsInv(s, c);
    case Refused(c) => RefuseKeepsInv(s, c);
    case Submitted(c, msg) => UpKeepsInv(s, c, s.links[c].up + [msg]);
    case Received(c, entries) => ReceivedKeepsInv(s, c, entries, t);
    case Delivered(c) => DeliveredKeepsInv(s, c, t);
    case Kicked(c) => CloseKeepsInv(s, c);
    case Gone(c) =>
      GoneKeepsPeers(s, c, t);
      GoneKeepsIds(s, c, t);
      GoneKeepsLinks(s, c, t);
  }

  ghost predicate StepAt(run: seq<State>, events: seq<Event>, i: nat)
    requires 0 < i < |run| == |events| + 1
  {
    Step(run[i - 1], events[i - 1], run[i])
  }

  ghost predicate IsRun(run: seq<State>, events: seq<Event>) {
    && |run| == |events| + 1 && Init(run[0])
    && forall i {:trigger StepAt(run, events, i)} :: 0 < i < |run| ==> StepAt(run, events, i)
  }

  lemma {:induction false} RunKeepsInv(run: seq<State>, events: seq<Event>, i: nat)
    requires IsRun(run, events) && i < |run|
    ensures Inv(run[i])
  {
    if i == 0 {
      InitInv();
    } else {
      RunKeepsInv(run, events, i - 1);
      assert StepAt(run, events, i);
      StepKeepsInv(run[i - 1], events[i - 1], run[i]);
    }
  }

  /// What every run guarantees

  /** The server's own roster: the players that have shaken hands, by id. */
  ghost function Roll(players: map<nat, Player>): map<nat, Name>
    requires UniqueIds(players)
  {
    map k | k in players && players[k].id != 0 :: players[k].id := players[k].name
  }

  lemma RollIs(players: map<nat, Player>, m: map<nat, Name>)
    requires UniqueIds(players) && Sound(m, players)
    ensures m.Items <= Roll(players).Items
    ensures Complete(m, players) ==> m == Roll(players)
  {
    var roll := Roll(players);
    forall id | id in m ensures id in roll && m[id] == roll[id] {
      var k :| k in players && players[k].id == id && players[k].name == m[id];
      assert players[k].id in roll;
    }
  }

  /**
    In every reachable state, once the messages under way have arrived, the roster of a connected client is the
    server's roll when the client has shaken hands, and a part of it when it has not.
  */
  lemma RostersAgree(run: seq<State>, events: seq<Event>, i: nat, c: nat)
    requires IsRun(run, events) && i < |run| && c in run[i].links && run[i].links[c].open
    ensures UniqueIds(run[i].players) && run[i].links[c].data in run[i].players
    ensures Settled(run[i].links[c]).Items <= Roll(run[i].players).Items
    ensures run[i].players[run[i].links[c].data].id != 0 ==> Settled(run[i].links[c]) == Roll(run[i].players)
  {
    RunKeepsInv(run, events, i);
    RollIs(run[i].players, Settled(run[i].links[c]));
  }

  /**
    Whatever a client that has its player list is about to handle, the lookups made for it succeed: the handler with the
    callback, which comes before the one that erases, misses no id.
  */
  lemma LookupsSucceed(run: seq<State>, events: seq<Event>, i: nat, c: nat)
    requires IsRun(run, events) && i < |run| && c in run[i].links && run[i].links[c].down != []
    requires run[i].links[c].listed
    ensures Known(run[i].links[c].roster, run[i].links[c].down[0])
    ensures UnknownId !in Seen(run[i].links[c]).shown
  {
    RunKeepsInv(run, events, i);
    var l := run[i].links[c];
    CallbackSeesOldRoster(View(l.roster, 0, []), l.down[0]);
    KnownIsShown(l.roster, l.down[0]);
  }

  /** The keys of the players are the live peer ids; each is the data of exactly one peer, and 0 is none of them. */
  lemma PlayersArePeers(run: seq<State>, events: seq<Event>, i: nat)
    requires IsRun(run, events) && i < |run|
    ensures Accounts(run[i].peerIds, run[i].players.Keys) && 0 !in run[i].players
    ensures forall k :: k in run[i].players ==> exists c :: c in run[i].links && run[i].links[c].data == k
    ensures UniqueData(run[i].links)
  {
    RunKeepsInv(run, events, i);
    PeersFit(run[i]);
    forall k | k in run[i].players ensures exists c :: c in run[i].links && run[i].links[c].data == k {
      assert k in Owned(DataMap(run[i].links));
    }
  }

  /** Messages from a refused peer reach no handler. */
  lemma RefusedIsIgnored(run: seq<State>, events: seq<Event>, i: nat)
    requires IsRun(run, events) && 0 < i < |run| && events[i - 1].Received?
    requires StepAt(run, events, i) && run[i - 1].links[events[i - 1].c].data == 0
    ensures run[i] == run[i - 1].(links := run[i].links)
    ensures forall c :: c in run[i].links ==> c in run[i - 1].links && run[i].links[c].down == run[i - 1].links[c].down
  {
    RunKeepsInv(run, events, i - 1);
    PeersFit(run[i - 1]);
  }

  /** Ids never run out: every accepted peer gets a peer id, every valid handshake a player id. */
  lemma IdsNeverRunOut(run: seq<State>, events: seq<Event>, i: nat)
    requires IsRun(run, events) && i < |run|
    ensures |run[i].links| < ALLOCATED_PEERS ==> Acquire(run[i].peerIds, MAX_PEER_ID).Some?
    ensures forall k :: k in run[i].players && run[i].players[k].id == 0 ==>
              Acquire(run[i].playerIds, MAX_PLAYER_ID).Some?
  {
    RunKeepsInv(run, events, i);
    if |run[i].links| < ALLOCATED_PEERS {
      PeerIdIsFresh(run[i]);
    }
    if k :| k in run[i].players && run[i].players[k].id == 0 {
      PlayerIdIsFresh(run[i], k);
    }
  }

  lemma StepFixesPlayer(s: State, e: Event, t: State, k: nat)
    requires Inv(s) && Step(s, e, t)
    requires k in s.players && s.players[k].id != 0 && k in t.players
    ensures t.players[k] == s.players[k]
  {
    match e
    case Accepted(_) => PeerIdIsFresh(s);
    case Received(c, entries) =>
      var taken := s.(links := s.links[c := s.links[c].(up := s.links[c].up[1..])]);
      MessageFixesPlayer(taken, c, s.links[c].up[0], entries, k);
    case Gone(c) => GoneFixesPlayer(s, c, t, k);
    case _ =>
  }

  lemma MessageFixesPlayer(s: State, c: nat, msg: CMsg, entries: seq<(nat, Name)>, k: nat)
    requires c in s.links && k in s.players && s.players[k].id != 0
    ensures var t := OnMessage(s, c, msg, entries); k in t.players && t.players[k] == s.players[k]
  {
  }

  lemma GoneFixesPlayer(s: State, c: nat, t: State, k: nat)
    requires Step(s, Gone(c), t) && k in s.players && k in t.players
    ensures t.players[k] == s.players[k]
  {
  }

  /** From its handshake on, a player keeps its id and its name as long as it is there. */
  lemma {:induction false} PlayerIsFixed(run: seq<State>, events: seq<Event>, i: nat, j: nat, k: nat)
    requires IsRun(run, events) && i <= j < |run|
    requires forall n :: i <= n <= j ==> k in run[n].players
    requires run[i].players[k].id != 0
    ensures run[j].players[k] == run[i].players[k]
  {
    if i < j {
      assert k in run[j - 1].players && k in run[j].players;
      PlayerIsFixed(run, events, i, j - 1, k);
      LastStepFixesPlayer(run, events, j, k);
    }
  }

  lemma LastStepFixesPlayer(run: seq<State>, events: seq<Event>, j: nat, k: nat)
    requires IsRun(run, events) && 0 < j < |run| && k in run[j - 1].players && k in run[j].players
    requires run[j - 1].players[k].id != 0
    ensures run[j].players[k] == run[j - 1].players[k]
  {
    RunKeepsInv(run, events, j - 1);
    assert StepAt(run, events, j);
    StepFixesPlayer(run[j - 1], events[j - 1], run[j], k);
  }
}
