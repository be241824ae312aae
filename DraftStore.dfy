/** The draft store of server.js: the read-only player list, the
    check-then-add decision of a draft request, the "available" and "roster"
    projections, the standings total, and the outcome of a whole session of
    draft requests. The mutable part (the drafted set itself) lives in the
    `Server.DraftServer` class; everything here is a pure function of the
    player list and the drafted ids. */
module DraftStore {
  import opened Common

  /** One entry of players.json. Only `id` and `rating` are read by the server;
      the other fields are passed through to the JSON responses untouched. */
  datatype Player = Player(id: int, rating: nat, name: string, position: string, team: string)

  /** Some player carries this id. */
  ghost predicate IsPlayerId(ps: seq<Player>, id: int) {
    exists k :: 0 <= k < |ps| && ps[k].id == id
  }

  /** No two players share an id (the reference data is expected to satisfy
      this; the server itself never checks it). */
  predicate UniqueIds(ps: seq<Player>) {
    forall i, j :: 0 <= i < j < |ps| ==> ps[i].id != ps[j].id
  }

  /** `players.find((p) => p.id === id)`. */
  function Find(ps: seq<Player>, id: int): (r: Option<Player>)
    ensures r.None? <==> !IsPlayerId(ps, id)
    ensures r.Some? ==> r.value in ps && r.value.id == id
  {
    if ps == [] then None
    else if ps[0].id == id then Some(ps[0])
    else
      var r := Find(ps[1..], id);
      assert IsPlayerId(ps, id) ==> IsPlayerId(ps[1..], id) by {
        if IsPlayerId(ps, id) {
          var k :| 0 <= k < |ps| && ps[k].id == id;
          assert k > 0 && ps[1..][k - 1].id == id;
        }
      }
      assert IsPlayerId(ps[1..], id) ==> IsPlayerId(ps, id) by {
        if IsPlayerId(ps[1..], id) {
          var k :| 0 <= k < |ps[1..]| && ps[1..][k].id == id;
          assert ps[k + 1].id == id;
        }
      }
      r
  }

  /** `find` returns the FIRST player carrying the id. */
  lemma {:induction false} FindFirst(ps: seq<Player>, id: int, k: nat)
    requires k < |ps| && ps[k].id == id
    requires forall j :: 0 <= j < k ==> ps[j].id != id
    ensures Find(ps, id) == Some(ps[k])
  {
    if k > 0 {
      FindFirst(ps[1..], id, k - 1);
    }
  }

  /** With unique ids, `find` returns the one player carrying the id. */
  lemma FindUnique(ps: seq<Player>, k: nat)
    requires UniqueIds(ps) && k < |ps|
    ensures Find(ps, ps[k].id) == Some(ps[k])
  {
    FindFirst(ps, ps[k].id, k);
  }

  /** How a draft request ends. */
  datatype Outcome = Ok | InvalidPlayer | AlreadyDrafted

  /** The draft handler's decision: the unknown-id check comes first, the
      already-drafted check second; only a request passing both succeeds. */
  function Decide(ps: seq<Player>, drafted: seq<int>, id: int): (o: Outcome)
    ensures o == InvalidPlayer <==> !IsPlayerId(ps, id)
    ensures o == AlreadyDrafted <==> IsPlayerId(ps, id) && id in drafted
    ensures o == Ok <==> IsPlayerId(ps, id) && id !in drafted
  {
    if Find(ps, id).None? then InvalidPlayer
    else if id in drafted then AlreadyDrafted
    else Ok
  }

  /** The HTTP status and JSON body the handler answers with. */
  function Respond(o: Outcome): (res: (int, string))
    ensures res.0 == 200 <==> o == Ok
    ensures res.0 != 200 ==> res.0 == 400
    ensures o == Ok <==> res.1 == "{\"ok\":true}"
    ensures o == InvalidPlayer <==> res.1 == "{\"error\":\"Invalid player ID\"}"
    ensures o == AlreadyDrafted <==> res.1 == "{\"error\":\"Player already drafted\"}"
  {
    match o
    case Ok => (200, "{\"ok\":true}")
    case InvalidPlayer => (400, "{\"error\":\"Invalid player ID\"}")
    case AlreadyDrafted => (400, "{\"error\":\"Player already drafted\"}")
  }

  /** `players.filter((p) => !drafted.has(p.id))`. */
  function Available(ps: seq<Player>, drafted: seq<int>): (r: seq<Player>)
    ensures forall p :: p in r ==> p in ps && p.id !in drafted
    ensures forall p :: p in ps && p.id !in drafted ==> p in r
  {
    if ps == [] then []
    else if ps[0].id in drafted then Available(ps[1..], drafted)
    else [ps[0]] + Available(ps[1..], drafted)
  }

  /** `players.filter((p) => drafted.has(p.id))`. */
  function Roster(ps: seq<Player>, drafted: seq<int>): (r: seq<Player>)
    ensures forall p :: p in r ==> p in ps && p.id in drafted
    ensures forall p :: p in ps && p.id in drafted ==> p in r
  {
    if ps == [] then []
    else if ps[0].id in drafted then [ps[0]] + Roster(ps[1..], drafted)
    else Roster(ps[1..], drafted)
  }

  /** Together the two projections hold every player exactly as often as the
      player list does, and each keeps the player list's order. */
  lemma {:induction false} ProjectionsPartition(ps: seq<Player>, drafted: seq<int>)
    ensures multiset(Available(ps, drafted)) + multiset(Roster(ps, drafted)) == multiset(ps)
    ensures IsSubsequence(Available(ps, drafted), ps)
    ensures IsSubsequence(Roster(ps, drafted), ps)
  {
    if ps != [] {
      ProjectionsPartition(ps[1..], drafted);
      assert ps == [ps[0]] + ps[1..];
      var a, r := Available(ps, drafted), Roster(ps, drafted);
      if ps[0].id in drafted {
        assert r[0] == ps[0] && r[1..] == Roster(ps[1..], drafted);
      } else {
        assert a[0] == ps[0] && a[1..] == Available(ps[1..], drafted);
      }
    }
  }

  /** The rating `find` yields for an id: 0 when no player carries it. */
  function RatingOf(ps: seq<Player>, id: int): nat {
    match Find(ps, id)
    case None => 0
    case Some(p) => p.rating
  }

  /** The standings total: `Array.from(drafted).reduce(...)`, a left fold over
      the drafted ids in insertion order. */
  function Standings(ps: seq<Player>, drafted: seq<int>): nat
    decreases |drafted|
  {
    if drafted == [] then 0
    else Standings(ps, drafted[..|drafted| - 1]) + RatingOf(ps, drafted[|drafted| - 1])
  }

  /** The sum of the ratings of a list of players. */
  function RatingSum(roster: seq<Player>): nat {
    if roster == [] then 0 else roster[0].rating + RatingSum(roster[1..])
  }

  /** Nothing drafted: the standings total is 0. */
  lemma StandingsEmpty(ps: seq<Player>)
    ensures Standings(ps, []) == 0
  {
  }

  /** Drafting an id no player carries leaves the roster as it was. */
  lemma {:induction false} RosterIgnoresUnknown(ps: seq<Player>, drafted: seq<int>, x: int)
    requires !IsPlayerId(ps, x)
    ensures Roster(ps, drafted + [x]) == Roster(ps, drafted)
  {
    if ps != [] {
      assert ps[0].id != x;
      RosterIgnoresUnknown(ps[1..], drafted, x);
    }
  }

  /** Adding one new id to the drafted ids adds that player's rating to the
      roster's rating sum. */
  lemma {:induction false} RosterSumAdd(ps: seq<Player>, drafted: seq<int>, x: int)
    requires UniqueIds(ps) && x !in drafted
    ensures RatingSum(Roster(ps, drafted + [x])) == RatingSum(Roster(ps, drafted)) + RatingOf(ps, x)
  {
    if ps != [] {
      var t := ps[1..];
      assert UniqueIds(t) by {
        forall i, j | 0 <= i < j < |t| ensures t[i].id != t[j].id {
          assert t[i] == ps[i + 1] && t[j] == ps[j + 1];
        }
      }
      if ps[0].id == x {
        RosterIgnoresUnknown(t, drafted, x);
      } else {
        RosterSumAdd(t, drafted, x);
      }
    }
  }

  /** With unique player ids, the standings total is the sum of the ratings
      of the roster: every drafted id contributes its player's rating once. */
  lemma {:induction false} StandingsIsRosterRating(ps: seq<Player>, drafted: seq<int>)
    requires UniqueIds(ps) && Distinct(drafted)
    ensures Standings(ps, drafted) == RatingSum(Roster(ps, drafted))
    decreases |drafted|
  {
    if drafted == [] {
      RosterNone(ps);
    } else {
      var n := |drafted| - 1;
      var prefix := drafted[..n];
      assert drafted == prefix + [drafted[n]];
      assert Distinct(prefix) by {
        forall i, j | 0 <= i < j < |prefix| ensures prefix[i] != prefix[j] {
          assert prefix[i] == drafted[i] && prefix[j] == drafted[j];
        }
      }
      assert drafted[n] !in prefix by {
        forall j | 0 <= j < |prefix| ensures prefix[j] != drafted[n] {
          assert prefix[j] == drafted[j];
        }
      }
      StandingsIsRosterRating(ps, prefix);
      RosterSumAdd(ps, prefix, drafted[n]);
    }
  }

  /** Nothing drafted: the roster is empty. */
  lemma {:induction false} RosterNone(ps: seq<Player>)
    ensures Roster(ps, []) == []
  {
    if ps != [] {
      RosterNone(ps[1..]);
    }
  }

  /** The state after a sequence of draft requests: the outcome of each
      request, in order, and the drafted ids in insertion order. */
  datatype Session = Session(outcomes: seq<Outcome>, drafted: seq<int>)

  /** Runs the draft handler on each id of `ids` in turn, from an empty
      drafted set. One request is handled to completion before the next one
      starts, as in the single-threaded server. */
  function Run(ps: seq<Player>, ids: seq<int>): (s: Session)
    ensures |s.outcomes| == |ids|
    decreases |ids|
  {
    if ids == [] then Session([], [])
    else
      var prev := Run(ps, ids[..|ids| - 1]);
      var id := ids[|ids| - 1];
      var o := Decide(ps, prev.drafted, id);
      Session(prev.outcomes + [o], if o == Ok then prev.drafted + [id] else prev.drafted)
  }

  /** After a session, the drafted ids are exactly the known ids that were
      requested, each recorded once. */
  lemma {:induction false} RunDrafted(ps: seq<Player>, ids: seq<int>)
    ensures Distinct(Run(ps, ids).drafted)
    ensures forall x :: x in Run(ps, ids).drafted ==> x in ids && IsPlayerId(ps, x)
    ensures forall x :: x in ids && IsPlayerId(ps, x) ==> x in Run(ps, ids).drafted
    decreases |ids|
  {
    if ids != [] {
      var n := |ids| - 1;
      var prefix := ids[..n];
      assert ids == prefix + [ids[n]];
      RunDrafted(ps, prefix);
      var d := Run(ps, prefix).drafted;
      if Decide(ps, d, ids[n]) == Ok {
        DistinctAppend(d, ids[n]);
      }
    }
  }

  /** Earlier outcomes are not changed by later requests. */
  lemma {:induction false} RunPrefix(ps: seq<Player>, ids: seq<int>, m: nat)
    requires m <= |ids|
    ensures Run(ps, ids[..m]).outcomes == Run(ps, ids).outcomes[..m]
    decreases |ids|
  {
    if m < |ids| {
      var n := |ids| - 1;
      assert ids[..n][..m] == ids[..m];
      RunPrefix(ps, ids[..n], m);
    } else {
      assert ids[..m] == ids;
    }
  }

  /** The outcome of each request of a session: a request succeeds exactly
      when its id is a known player's and was not requested before; it is
      declined as unknown exactly when no player carries the id, and as
      already drafted exactly when a known id was requested before. */
  lemma {:induction false} RunOutcome(ps: seq<Player>, ids: seq<int>, k: nat)
    requires k < |ids|
    ensures Run(ps, ids).outcomes[k] == Ok <==> IsPlayerId(ps, ids[k]) && ids[k] !in ids[..k]
    ensures Run(ps, ids).outcomes[k] == InvalidPlayer <==> !IsPlayerId(ps, ids[k])
    ensures Run(ps, ids).outcomes[k] == AlreadyDrafted <==> IsPlayerId(ps, ids[k]) && ids[k] in ids[..k]
  {
    RunPrefix(ps, ids, k + 1);
    var p := ids[..k + 1];
    assert p[..k] == ids[..k] && p[k] == ids[k];
    RunDrafted(ps, ids[..k]);
  }

  /** At most one draft per id succeeds, and a known id succeeds on its
      first request. */
  lemma AtMostOnce(ps: seq<Player>, ids: seq<int>, i: nat, j: nat)
    requires i < j < |ids| && ids[i] == ids[j]
    ensures !(Run(ps, ids).outcomes[i] == Ok && Run(ps, ids).outcomes[j] == Ok)
    ensures Run(ps, ids).outcomes[j] != Ok
    ensures IsPlayerId(ps, ids[i]) && ids[i] !in ids[..i] ==> Run(ps, ids).outcomes[i] == Ok
  {
    assert ids[..j][i] == ids[j];
    RunOutcome(ps, ids, j);
    RunOutcome(ps, ids, i);
  }
}
