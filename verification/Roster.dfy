/** The messages, what a client's roster makes of them, and the lookups its chat makes in that roster. */
module Roster {

  type Name = string

  /** Messages from the server. */
  datatype SMsg =
    | Handshaked(id: nat)
    | PlayerList(entries: seq<(nat, Name)>)
    | Connected(id: nat, name: Name)
    | Disconnected(id: nat)
    | Chat(sender: nat, text: string)

  /** Messages from a client. */
  datatype CMsg =
    | Handshake(name: Name, version: string)
    | Say(text: string)

  /** insert() of the standard map: an existing entry is not overwritten. */
  function Insert(roster: map<nat, Name>, id: nat, name: Name): map<nat, Name> {
    if id in roster then roster else roster[id := name]
  }

  function InsertAll(roster: map<nat, Name>, entries: seq<(nat, Name)>): map<nat, Name>
    decreases |entries|
  {
    if entries == [] then roster else InsertAll(Insert(roster, entries[0].0, entries[0].1), entries[1..])
  }

  function Apply(roster: map<nat, Name>, msg: SMsg): map<nat, Name> {
    match msg
    case PlayerList(entries) => InsertAll(roster, entries)
    case Connected(id, name) => Insert(roster, id, name)
    case Disconnected(id) => roster - {id}
    case _ => roster
  }

  function ApplyAll(roster: map<nat, Name>, msgs: seq<SMsg>): map<nat, Name>
    decreases |msgs|
  {
    if msgs == [] then roster else ApplyAll(Apply(roster, msgs[0]), msgs[1..])
  }

  /** The chat finds the player it is about to name, before the roster itself is updated. */
  predicate Known(roster: map<nat, Name>, msg: SMsg) {
    match msg
    case Chat(sender, _) => sender == 0 || sender in roster
    case Disconnected(id) => id in roster
    case _ => true
  }

  /** Once the player list has come, every lookup for the messages still to come succeeds. */
  predicate LookupsOk(roster: map<nat, Name>, listed: bool, msgs: seq<SMsg>)
    decreases |msgs|
  {
    msgs == [] ||
    (&& (listed ==> Known(roster, msgs[0]))
     && LookupsOk(Apply(roster, msgs[0]), listed || msgs[0].PlayerList?, msgs[1..]))
  }

  predicate Listed(listed: bool, msgs: seq<SMsg>) {
    listed || exists i :: 0 <= i < |msgs| && msgs[i].PlayerList?
  }

  /** The player list manager of the client. */
  class RemotePlayers {
    var players: map<nat, Name>

    constructor ()
      ensures players == map[]
    {
      players := map[];
    }

    method OnClientConnected(id: nat, name: Name)
      modifies this
      ensures players == Apply(old(players), Connected(id, name))
    {
      if id !in players {
        players := players[id := name];
      }
    }

    method OnClientDisconnected(id: nat)
      modifies this
      ensures players == Apply(old(players), Disconnected(id))
    {
      players := players - {id};
    }

    method OnPlayerList(entries: seq<(nat, Name)>)
      modifies this
      ensures players == Apply(old(players), PlayerList(entries))
    {
      for i := 0 to |entries|
        invariant InsertAll(players, entries[i..]) == InsertAll(old(players), entries)
      {
        if entries[i].0 !in players {
          players := players[entries[i].0 := entries[i].1];
        }
      }
    }
  }

  /// Appending to the messages still to come

  lemma {:induction false} ApplyAllAppend(roster: map<nat, Name>, msgs: seq<SMsg>, msg: SMsg)
    ensures ApplyAll(roster, msgs + [msg]) == Apply(ApplyAll(roster, msgs), msg)
    decreases |msgs|
  {
    if msgs == [] {
      assert [msg][1..] == [];
    } else {
      assert (msgs + [msg])[1..] == msgs[1..] + [msg];
      ApplyAllAppend(Apply(roster, msgs[0]), msgs[1..], msg);
    }
  }

  lemma {:induction false} LookupsAppend(roster: map<nat, Name>, listed: bool, msgs: seq<SMsg>, msg: SMsg)
    requires LookupsOk(roster, listed, msgs)
    requires Listed(listed, msgs) ==> Known(ApplyAll(roster, msgs), msg)
    ensures LookupsOk(roster, listed, msgs + [msg])
    decreases |msgs|
  {
    if msgs == [] {
      assert [msg][1..] == [];
    } else {
      assert (msgs + [msg])[1..] == msgs[1..] + [msg];
      assert msgs == [msgs[0]] + msgs[1..];
      assert Listed(listed || msgs[0].PlayerList?, msgs[1..]) ==> Listed(listed, msgs);
      LookupsAppend(Apply(roster, msgs[0]), listed || msgs[0].PlayerList?, msgs[1..], msg);
    }
  }

  lemma ListedAppend(listed: bool, msgs: seq<SMsg>, msg: SMsg)
    ensures Listed(listed, msgs + [msg]) <==> Listed(listed, msgs) || msg.PlayerList?
  {
    assert (msgs + [msg])[|msgs|] == msg;
    if Listed(listed, msgs) && !listed {
      var i :| 0 <= i < |msgs| && msgs[i].PlayerList?;
      assert (msgs + [msg])[i] == msgs[i];
    }
  }

  lemma ListedPop(listed: bool, msgs: seq<SMsg>)
    requires msgs != []
    ensures Listed(listed || msgs[0].PlayerList?, msgs[1..]) <==> Listed(listed, msgs)
  {
    assert msgs == [msgs[0]] + msgs[1..];
    if Listed(listed, msgs) && !listed && !msgs[0].PlayerList? {
      var i :| 0 <= i < |msgs| && msgs[i].PlayerList?;
      assert msgs[1..][i - 1] == msgs[i];
    }
  }

  /// The entries for real players

  /** Entry 0 stands for players that have not shaken hands yet. */
  function Real(roster: map<nat, Name>): map<nat, Name> {
    roster - {0}
  }

  lemma {:induction false} InsertAllKeys(roster: map<nat, Name>, entries: seq<(nat, Name)>)
    ensures roster.Keys <= InsertAll(roster, entries).Keys
    ensures forall i :: 0 <= i < |entries| ==> entries[i].0 in InsertAll(roster, entries)
    decreases |entries|
  {
    if entries != [] {
      InsertAllKeys(Insert(roster, entries[0].0, entries[0].1), entries[1..]);
      forall i | 0 <= i < |entries| ensures entries[i].0 in InsertAll(roster, entries) {
        if i > 0 {
          assert entries[1..][i - 1] == entries[i];
        }
      }
    }
  }
}
