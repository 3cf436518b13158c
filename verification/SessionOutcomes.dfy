/** What the messages of a client and the end of a connection bring about, for the server and for every client. */
module SessionOutcomes {
  import opened ClientHandlers
  import opened IdManager
  import opened Roster
  import opened Session

  /** A connected client has further messages on their way to it, another one nothing. */
  function Told(l: Link, msgs: seq<SMsg>): Link {
    if l.open then l.(down := l.down + msgs) else l
  }

  /** The links once the oldest message of the client at `c` has been taken. */
  function Taken(links: map<nat, Link>, c: nat): map<nat, Link>
    requires c in links && links[c].up != []
  {
    links[c := links[c].(up := links[c].up[1..])]
  }

  /** The server is about to handle this message of the client at `c`, which has the given player id so far. */
  ghost predicate Handles(s: State, c: nat, entries: seq<(nat, Name)>, t: State, msg: CMsg, id: nat) {
    && Inv(s) && Step(s, Received(c, entries), t) && s.links[c].up[0] == msg
    && s.links[c].data in s.players && s.players[s.links[c].data].id == id
  }

  lemma AppendThrice(l: Link, a: SMsg, b: SMsg, c: SMsg)
    requires l.open
    ensures Append(Append(Append(l, a), b), c) == Told(l, [a, b, c])
  {
    assert l.down + [a] + [b] + [c] == l.down + [a, b, c];
  }

  function Greeting(c: nat, d: nat, id: nat, name: Name, entries: seq<(nat, Name)>): seq<SMsg> {
    if d == c then [Handshaked(id), PlayerList(entries), Connected(id, name)] else [Connected(id, name)]
  }

  lemma GreetingTells(links: map<nat, Link>, c: nat, id: nat, name: Name, entries: seq<(nat, Name)>)
    requires c in links
    ensures
      var greeted := Greeted(links, c, id, name, entries);
      && greeted.Keys == links.Keys
      && forall d :: d in links ==> greeted[d] == Told(links[d], Greeting(c, d, id, name, entries))
  {
    GreetedKeepsPeers(links, c, id, name, entries);
    forall d | d in links
      ensures Greeted(links, c, id, name, entries)[d] == Told(links[d], Greeting(c, d, id, name, entries))
    {
      GreetedLink(links, c, id, name, entries, d);
      if d == c && links[c].open {
        AppendThrice(links[c], Handshaked(id), PlayerList(entries), Connected(id, name));
      }
    }
  }

  /**
    A first handshake with a name and a version makes a player with an id that nobody has. The client is told the id, a
    list of all players and its own arrival, every other client its arrival alone.
  */
  lemma HandshakeMakesPlayer(s: State, c: nat, entries: seq<(nat, Name)>, t: State, name: Name, version: string)
    returns (id: nat)
    requires Handles(s, c, entries, t, Handshake(name, version), 0) && name != "" && version != ""
    ensures id != 0 && (forall j :: j in s.players ==> s.players[j].id != id)
    ensures t.players == s.players[s.links[c].data := Player(id, name)] && Lists(entries, t.players)
    ensures t.links.Keys == s.links.Keys
    ensures forall d :: d in s.links ==>
              t.links[d] == Told(Taken(s.links, c)[d], Greeting(c, d, id, name, entries))
  {
    var taken := s.(links := Taken(s.links, c));
    PlayerIdIsFresh(s, s.links[c].data);
    HandshakeIs(taken, c, name, version, entries);
    id := Acquire(s.playerIds, MAX_PLAYER_ID).value.0;
    AcquireChanges(s.playerIds);
    GreetingTells(taken.links, c, id, name, entries);
  }

  lemma AcquireChanges(ids: Ids)
    requires Acquire(ids, MAX_PLAYER_ID).Some?
    ensures Acquire(ids, MAX_PLAYER_ID).value.1 != ids
  {
  }

  /** A second handshake, or one without name or version, closes the connection and changes nothing else. */
  lemma BadHandshakeCloses(s: State, c: nat, entries: seq<(nat, Name)>, t: State, name: Name, version: string, id: nat)
    requires Handles(s, c, entries, t, Handshake(name, version), id) && (id != 0 || name == "" || version == "")
    ensures t == s.(links := t.links) && t.links.Keys == s.links.Keys
    ensures !t.links[c].open && t.links[c] == Taken(s.links, c)[c].(open := false)
    ensures forall d :: d in s.links && d != c ==> t.links[d] == s.links[d]
  {
  }

  lemma SettledName(l: Link, players: map<nat, Player>, k: nat)
    requires LinkInv(l, players) && l.open && players[l.data].id != 0 && UniqueIds(players)
    requires k in players && players[k].id != 0
    ensures players[k].id in ApplyAll(l.roster, l.down)
    ensures ApplyAll(l.roster, l.down)[players[k].id] == players[k].name
  {
    var id, settled := players[k].id, Settled(l);
    assert id in settled;
    var j :| j in players && players[j].id == id && players[j].name == settled[id];
  }

  /** A chat message of a player goes to every connected client. */
  lemma ChatGoesOut(s: State, c: nat, entries: seq<(nat, Name)>, t: State, text: string, id: nat)
    requires Handles(s, c, entries, t, Say(text), id) && id != 0
    ensures t == s.(links := t.links) && t.links.Keys == s.links.Keys
    ensures forall d :: d in s.links ==> t.links[d] == Told(Taken(s.links, c)[d], [Chat(id, text)])
  {
  }

  /** A client that has shaken hands shows it with the sender's name, once it has handled what was on its way before. */
  lemma ChatIsShown(s: State, c: nat, d: nat, text: string)
    requires Inv(s) && c in s.links && s.links[c].data in s.players && d in s.links && s.links[d].open
    requires s.players[s.links[c].data].id != 0
    ensures s.links[d].data in s.players
    ensures s.players[s.links[d].data].id != 0 ==>
              ChatShows(ApplyAll(s.links[d].roster, s.links[d].down), Chat(s.players[s.links[c].data].id, text)) ==
              [Line(s.players[s.links[c].data].name, text)]
  {
    assert LinkInv(s.links[d], s.players);
    if s.players[s.links[d].data].id != 0 {
      SettledName(s.links[d], s.players, s.links[c].data);
    }
  }

  /** Before its handshake nobody hears a client. */
  lemma EarlyChatIsDropped(s: State, c: nat, entries: seq<(nat, Name)>, t: State, text: string)
    requires Handles(s, c, entries, t, Say(text), 0)
    ensures t == s.(links := Taken(s.links, c))
  {
  }

  lemma LeavingTells(links: map<nat, Link>, c: nat, id: nat)
    ensures
      var left := Left(links, c, id);
      && left.Keys == links.Keys - {c}
      && forall d :: d in left ==> left[d] == if id == 0 then links[d] else Told(links[d], [Disconnected(id)])
  {
  }

  /** The end of a connection ends its player; the others are told of it if the player had shaken hands. */
  lemma LeaverIsAnnounced(s: State, c: nat, t: State)
    requires Inv(s) && Step(s, Gone(c), t) && s.links[c].data in s.players
    ensures t.links.Keys == s.links.Keys - {c} && t.players == s.players - {s.links[c].data}
    ensures
      var id := s.players[s.links[c].data].id;
      forall d :: d in t.links ==> t.links[d] == if id == 0 then s.links[d] else Told(s.links[d], [Disconnected(id)])
  {
    PeersFit(s);
    GoneIs(s, c, t);
    LeavingTells(s.links, c, s.players[s.links[c].data].id);
  }
}
