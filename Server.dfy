/** The state of the draft server: the drafted ids, the list of connected
    Server-Sent Events clients, and the operations that change them (a
    client connects, a client's connection closes, an event is broadcast,
    a draft request is handled). */
module Server {
  import opened Common
  import opened DraftStore
  import opened EventStream
  import DraftEvent

  /** One open `/sse` response stream. */
  class Connection {
    constructor () {}
  }

  /** What each connection has been sent after one broadcast of `msg` to
      `targets`, written as `broadcastEvent` performs it: the targets are
      handled back to front, and a target whose write does not fail gains
      `msg` at the end of its record. */
  ghost function AfterBroadcast(sent: map<Connection, seq<string>>, targets: seq<Connection>,
                                failing: set<Connection>, msg: string): map<Connection, seq<string>>
    decreases |targets|
  {
    if targets == [] then sent
    else
      var later := AfterBroadcast(sent, targets[1..], failing, msg);
      if targets[0] in failing || targets[0] !in later then later
      else later[targets[0] := later[targets[0]] + [msg]]
  }

  /** A broadcast neither adds nor drops a connection's record. */
  lemma {:induction false} AfterBroadcastKeys(sent: map<Connection, seq<string>>, targets: seq<Connection>,
                                              failing: set<Connection>, msg: string)
    ensures AfterBroadcast(sent, targets, failing, msg).Keys == sent.Keys
    decreases |targets|
  {
    if targets != [] {
      AfterBroadcastKeys(sent, targets[1..], failing, msg);
    }
  }

  /** One step of the back-to-front walk: the broadcast to the targets from
      `i` on is the broadcast to those after `i`, then `start[i]` handled. */
  lemma AfterBroadcastFrom(sent: map<Connection, seq<string>>, start: seq<Connection>, i: nat,
                           failing: set<Connection>, msg: string)
    requires i < |start| && forall c :: c in start ==> c in sent
    ensures AfterBroadcast(sent, start[i + 1..], failing, msg).Keys == sent.Keys
    ensures AfterBroadcast(sent, start[i..], failing, msg)
         == var later := AfterBroadcast(sent, start[i + 1..], failing, msg);
            if start[i] in failing then later else later[start[i] := later[start[i]] + [msg]]
  {
    AfterBroadcastKeys(sent, start[i + 1..], failing, msg);
    assert start[i..][0] == start[i] && start[i..][1..] == start[i + 1..];
  }

  /** Per connection, a broadcast to distinct targets appends `msg` exactly
      once to each target whose write does not fail, and changes no other
      record; no connection is added or dropped. */
  lemma {:induction false} AfterBroadcastAt(sent: map<Connection, seq<string>>, targets: seq<Connection>,
                                            failing: set<Connection>, msg: string, c: Connection)
    requires Distinct(targets)
    ensures AfterBroadcast(sent, targets, failing, msg).Keys == sent.Keys
    ensures c in sent ==> AfterBroadcast(sent, targets, failing, msg)[c]
                          == if c in targets && c !in failing then sent[c] + [msg] else sent[c]
    decreases |targets|
  {
    AfterBroadcastKeys(sent, targets, failing, msg);
    if targets != [] {
      var t := targets[1..];
      assert Distinct(t) by {
        forall a, b | 0 <= a < b < |t| ensures t[a] != t[b] {
          assert t[a] == targets[a + 1] && t[b] == targets[b + 1];
        }
      }
      DistinctTail(targets, 0);
      AfterBroadcastKeys(sent, t, failing, msg);
      AfterBroadcastAt(sent, t, failing, msg, c);
      assert c in targets <==> c == targets[0] || c in t;
    }
  }

  class DraftServer {
    /** The player list, read once at start-up. */
    const players: seq<Player>
    /** The drafted ids, in the order they were added (a JavaScript `Set`
        iterates in insertion order). */
    var drafted: seq<int>
    /** The connected clients, oldest first. */
    var clients: seq<Connection>
    /** Every broadcast message written to each connection so far, in order. */
    ghost var delivered: map<Connection, seq<string>>

    ghost predicate Valid()
      reads this
    {
      && Distinct(drafted)
      && (forall id :: id in drafted ==> IsPlayerId(players, id))
      && Distinct(clients)
      && (forall c :: c in clients ==> c in delivered)
    }

    /** Start-up: nothing drafted, no client connected. */
    constructor (players: seq<Player>)
      ensures Valid()
      ensures this.players == players && drafted == [] && clients == [] && delivered == map[]
    {
      this.players := players;
      drafted := [];
      clients := [];
      delivered := map[];
    }

    /** A client opens `/sse`: its new connection joins the end of the list. */
    method Subscribe() returns (c: Connection)
      requires Valid()
      modifies this`clients, this`delivered
      ensures Valid() && fresh(c)
      ensures clients == old(clients) + [c]
      ensures delivered == old(delivered)[c := []]
    {
      c := new Connection();
      DistinctAppend(clients, c);
      clients := clients + [c];
      delivered := delivered[c := []];
    }

    /** A client's connection closes: it leaves the list if it is still
        there, and nothing happens otherwise. */
    method Close(c: Connection)
      requires Valid()
      modifies this`clients
      ensures Valid()
      ensures clients == Without(old(clients), {c})
    {
      var idx := IndexOf(clients, c);
      if idx != -1 {
        SpliceIsWithout(clients, idx);
        clients := clients[..idx] + clients[idx + 1..];
      } else {
        WithoutAbsent(clients, {c});
      }
      WithoutDistinct(old(clients), {c});
    }

    /** `broadcastEvent`: walks the client list from the back, writes the
        message to each client once, and splices out each client whose
        write fails (`failing`). `attempted` is the order of the writes. */
    method Broadcast(event: string, data: string, failing: set<Connection>) returns (ghost attempted: seq<Connection>)
      requires Valid()
      modifies this`clients, this`delivered
      ensures Valid()
      ensures attempted == Reverse(old(clients))
      ensures clients == Without(old(clients), failing)
      ensures delivered == AfterBroadcast(old(delivered), old(clients), failing, Format(event, data))
      ensures delivered.Keys == old(delivered).Keys
      ensures forall c :: c in delivered ==>
        delivered[c] == if c in old(clients) && c !in failing then old(delivered)[c] + [Format(event, data)] else old(delivered)[c]
    {
      var message := Format(event, data);
      ghost var start, sent := clients, delivered;
      assert Distinct(start) && forall c :: c in start ==> c in sent;
      attempted := [];
      var i := |clients| - 1;
      while i >= 0
        invariant -1 <= i < |start|
        invariant clients == start[..i + 1] + Without(start[i + 1..], failing)
        invariant attempted == Reverse(start[i + 1..])
        invariant delivered == AfterBroadcast(sent, start[i + 1..], failing, message)
        decreases i + 1
      {
        var client := clients[i];
        ClientsStep(start, i, clients, failing);
        ReverseFrom(start, i);
        AfterBroadcastFrom(sent, start, i, failing, message);
        attempted := attempted + [client];
        if client in failing {
          clients := clients[..i] + clients[i + 1..];
        } else {
          delivered := delivered[client := delivered[client] + [message]];
        }
        i := i - 1;
      }
      assert start[0..] == start;
      WithoutDistinct(start, failing);
      AfterBroadcastKeys(sent, start, failing, message);
      forall c | c in delivered
        ensures delivered[c] == if c in start && c !in failing then sent[c] + [message] else sent[c]
      {
        AfterBroadcastAt(sent, start, failing, message, c);
      }
    }

    /** The draft handler: declines an unknown id, then an already drafted
        id, and otherwise adds the id and broadcasts its `draft` event. A
        failing write does not change the outcome. */
    method Draft(id: int, failing: set<Connection>) returns (r: Outcome)
      requires Valid()
      modifies this`drafted, this`clients, this`delivered
      ensures Valid()
      ensures r == Decide(players, old(drafted), id)
      ensures drafted == if r == Ok then old(drafted) + [id] else old(drafted)
      ensures r != Ok ==> clients == old(clients) && delivered == old(delivered)
      ensures r == Ok ==> clients == Without(old(clients), failing)
      ensures r == Ok ==> delivered == AfterBroadcast(old(delivered), old(clients), failing, DraftEvent.Message(id))
    {
      var player := Find(players, id);
      if player.None? {
        return InvalidPlayer;
      }
      if id in drafted {
        return AlreadyDrafted;
      }
      DistinctAppend(drafted, id);
      drafted := drafted + [id];
      ghost var attempted := Broadcast(DraftEvent.DRAFT, DraftEvent.Payload(id), failing);
      r := Ok;
    }
  }

  /** The client list during the `broadcastEvent` loop, before and after the
      client at position `i` is handled: the part still to do is untouched,
      the part done is the original less the failing clients. */
  lemma ClientsStep(start: seq<Connection>, i: nat, clients: seq<Connection>, failing: set<Connection>)
    requires i < |start| && clients == start[..i + 1] + Without(start[i + 1..], failing)
    ensures clients[i] == start[i]
    ensures start[i] in failing ==> clients[..i] + clients[i + 1..] == start[..i] + Without(start[i..], failing)
    ensures start[i] !in failing ==> clients == start[..i] + Without(start[i..], failing)
  {
    assert start[..i + 1] == start[..i] + [start[i]];
    WithoutFrom(start, i, failing);
    if start[i] in failing {
      assert clients[..i] == start[..i];
      assert clients[i + 1..] == Without(start[i + 1..], failing);
    }
  }

  /** Two players; draft player 1, then again; list, score. */
  method ScenarioDraftTwice() {
    var p1 := Player(1, 10, "One", "QB", "Team A");
    var p2 := Player(2, 20, "Two", "RB", "Team B");
    var ps := [p1, p2];
    var server := new DraftServer(ps);
    assert ps[0].id == 1;
    var r := server.Draft(1, {});
    assert r == Ok;
    r := server.Draft(1, {});
    assert r == AlreadyDrafted;
    r := server.Draft(3, {});
    assert r == InvalidPlayer;
    assert server.drafted == [1];
    ReadsAfterDraftingOne(p1, p2);
  }

  /** With players 1 and 2 and only id 1 drafted: player 2 is available,
      player 1 is on the roster, and the total is player 1's rating. */
  lemma ReadsAfterDraftingOne(p1: Player, p2: Player)
    requires p1.id == 1 && p2.id == 2
    ensures Available([p1, p2], [1]) == [p2]
    ensures Roster([p1, p2], [1]) == [p1]
    ensures Standings([p1, p2], [1]) == p1.rating
  {
    var ps := [p1, p2];
    assert ps[1..] == [p2] && ps[1..][1..] == [];
    assert 2 !in [1] && 1 in [1];
    assert Available(ps[1..][1..], [1]) == [] && Roster(ps[1..][1..], [1]) == [];
    assert Available(ps[1..], [1]) == [p2] && Roster(ps[1..], [1]) == [];
    assert [1][..0] == [];
    assert ps[0].id == 1;
  }

  /** Two observers; one successful draft reaches both, once, and each reads
      it as the `draft` event of player 2. */
  method ScenarioFanOut() {
    var p1 := Player(1, 10, "One", "QB", "Team A");
    var p2 := Player(2, 20, "Two", "RB", "Team B");
    var ps := [p1, p2];
    var server := new DraftServer(ps);
    var a := server.Subscribe();
    var b := server.Subscribe();
    assert ps[1].id == 2;
    var r := server.Draft(2, {});
    assert r == Ok;
    var m := DraftEvent.Message(2);
    AfterBroadcastAt(map[a := [], b := []], [a, b], {}, m, a);
    AfterBroadcastAt(map[a := [], b := []], [a, b], {}, m, b);
    assert server.delivered[a] == [m] && server.delivered[b] == [m];
    WithoutNothing([a, b]);
    assert server.clients == [a, b];
    DraftEvent.SingleDraftStream(2);
    assert Parse(Join(server.delivered[a])) == [Event(DraftEvent.DRAFT, DraftEvent.Payload(2))];
  }

  /** An observer whose write fails is dropped while the draft still
      succeeds, and one that connects afterwards has received nothing. */
  method ScenarioBrokenObserver() {
    var p1 := Player(1, 10, "One", "QB", "Team A");
    var server := new DraftServer([p1]);
    var a := server.Subscribe();
    var b := server.Subscribe();
    assert [p1][0].id == 1;
    var r := server.Draft(1, {b});
    assert r == Ok;
    SpliceIsWithout([a, b], 1);
    assert [a, b][..1] + [a, b][2..] == [a];
    assert server.clients == [a];
    var c := server.Subscribe();
    assert server.delivered[c] == [];
    assert server.clients == [a, c];
  }

  /** Closing a connection twice is harmless and leaves the other one. */
  method ScenarioCloseTwice() {
    var server := new DraftServer([]);
    var a := server.Subscribe();
    var c := server.Subscribe();
    server.Close(a);
    SpliceIsWithout([a, c], 0);
    assert [a, c][..0] + [a, c][1..] == [c];
    assert server.clients == [c];
    server.Close(a);
    WithoutAbsent([c], {a});
    assert server.clients == [c];
  }
}
