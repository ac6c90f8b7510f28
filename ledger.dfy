/** The RS-run points ledger: logging a run splits its points among its
    players, removing a run takes the points back, and the leaderboard ranks
    every player by balance. The three fields are the discorduser, rsrun and
    discorduser_rsrun tables. */
module RunLedger {
  import opened Tables
  import opened Shares
  import opened Ranking

  /** What logging a run reports back. */
  datatype LogResult =
    | Logged(runId: int, level: int, isDrs: bool, points: int, players: seq<PlayerId>)
    | DuplicatePlayer
    | NonPositivePoints

  /** What removing a run reports back. */
  datatype RemoveResult =
    | Removed(runId: int, pointsRemoved: real, players: set<PlayerId>)
    | RunNotFound(runId: int)

  /** The guild the leaderboard resolves names in: absent, or the names
      (nickname, else user name) of the members it knows. */
  datatype GuildLookup = NoGuild | Guild(members: map<PlayerId, string>)

  /** What the leaderboard command produces before formatting. */
  datatype BoardResult = GuildNotFound | Board(rows: seq<Row>)

  /** `next` is one more than the largest stored run id, or 1 when no run
      is stored. */
  predicate IsNextRunId(ids: set<int>, next: int)
  {
    && (forall id | id in ids :: id < next)
    && (if ids == {} then next == 1 else next - 1 in ids)
  }

  /** The next run id is determined by the stored ids alone. */
  lemma NextRunIdIsUnique(ids: set<int>, a: int, b: int)
    requires IsNextRunId(ids, a) && IsNextRunId(ids, b)
    ensures a == b
  {
    if ids != {} {
      assert a - 1 in ids && b - 1 in ids;
    }
  }

  /** Removing a run whose id is below the highest stored id never lets
      that id come back: the next id stays above it. */
  lemma FreedIdBelowTopIsNotReused(ids: set<int>, freed: int, top: int, next: int)
    requires freed in ids && top in ids && freed < top
    requires IsNextRunId(ids - {freed}, next)
    ensures next > top > freed
  {
    assert top in ids - {freed};
  }

  /** Removing the run with the highest id makes that id the next one
      again whenever the id just below it is stored or no other run is
      left: ids 1 and 2 stored, run 2 removed, the next run gets id 2. */
  lemma RemovedTopIdIsReused(ids: set<int>, top: int)
    requires top in ids && forall id | id in ids :: id <= top
    requires top - 1 in ids || (ids == {top} && top == 1)
    ensures IsNextRunId(ids - {top}, top)
  {
    if top - 1 in ids {
      assert top - 1 in ids - {top};
    } else {
      assert ids - {top} == {};
    }
  }

  /** The largest stored run id, or 0 when none is stored. */
  method MaxRunId(ids: set<nat>) returns (m: nat)
    ensures ids == {} ==> m == 0
    ensures ids != {} ==> m in ids && forall id | id in ids :: id <= m
  {
    m := 0;
    var found := false;
    var rest := ids;
    while |rest| > 0
      invariant rest <= ids
      invariant found <==> rest != ids
      invariant !found ==> m == 0
      invariant found ==> m in ids && m !in rest && forall id | id in ids && id !in rest :: id <= m
      decreases rest
    {
      var id :| id in rest;
      if !found || id > m {
        m := id;
      }
      found := true;
      rest := rest - {id};
    }
  }

  /** The duplicate check: every player id goes into a set, and a flag is
      raised when one is already there. */
  method HasDuplicatePlayers(ps: seq<PlayerId>) returns (hasDuplicates: bool)
    ensures hasDuplicates <==> !Distinct(ps)
  {
    var unique: set<PlayerId> := {};
    hasDuplicates := false;
    var i := 0;
    while i < |ps|
      invariant 0 <= i <= |ps|
      invariant unique == Elems(ps[..i])
      invariant hasDuplicates <==> !Distinct(ps[..i])
    {
      if ps[i] in unique {
        hasDuplicates := true;
      }
      unique := unique + {ps[i]};
      assert ps[..i + 1] == ps[..i] + [ps[i]];
      i := i + 1;
    }
    assert ps[..i] == ps;
  }

  /** Logging a run with distinct players moves the total of all balances
      by the run's points, give or take 0.05 per player. */
  lemma LogKeepsTotalUpToRounding(balances: map<PlayerId, real>, ps: seq<PlayerId>, points: int)
    requires Distinct(ps) && |ps| > 0 && points > 0
    ensures var after := Adjusted(Registered(balances, ps), Elems(ps), Share(points, |ps|));
      -0.05 * |ps| as real <= Total(after) - Total(balances) - points as real <= 0.05 * |ps| as real
  {
    var share := Share(points, |ps|);
    var registered := Registered(balances, ps);
    assert Total(registered) == Total(balances) by {
      RegisteredKeepsTotal(balances, ps);
    }
    assert Total(Adjusted(registered, Elems(ps), share)) == Total(registered) + Times(|ps|, share) by {
      AdjustedTotal(registered, Elems(ps), share);
      DistinctCardinality(ps);
    }
    CreditedWithinHalfTenth(points, |ps|);
  }

  /** Removing a run takes exactly its points out of the total of all
      balances. */
  lemma RemoveTakesExactPoints(balances: map<PlayerId, real>, ps: set<PlayerId>, points: int)
    requires ps <= balances.Keys && |ps| > 0
    ensures Total(Adjusted(balances, ps, -RemovalAmount(points, |ps|))) == Total(balances) - points as real
  {
    var amount := RemovalAmount(points, |ps|);
    AdjustedTotal(balances, ps, -amount);
    DebitedAddsUpToPoints(points, |ps|);
  }

  /** Logging a run and then removing it again leaves every one of its
      players with the drift between the rounded share and the exact
      quotient, and every other player untouched. */
  lemma LogThenRemoveLeavesDrift(balances: map<PlayerId, real>, ps: seq<PlayerId>, points: int)
    requires Distinct(ps) && |ps| > 0 && points > 0
    ensures |Elems(ps)| == |ps|
    ensures var registered := Registered(balances, ps);
      var after := Adjusted(Adjusted(registered, Elems(ps), Share(points, |ps|)),
                            Elems(ps), -RemovalAmount(points, |Elems(ps)|));
      && after.Keys == balances.Keys + Elems(ps)
      && (forall p | p in ps :: after[p] == registered[p] + Drift(points, |ps|))
      && (forall p | p in balances && p !in ps :: after[p] == balances[p])
  {
    DistinctCardinality(ps);
  }

  /** The ledger's invariant over the three tables: every association links
      a stored player to a stored run, and every stored run has a positive
      id, a level from 2 to 12, positive points and one to four players.
      Only which players are stored matters, not their balances. */
  ghost predicate Consistent(playerIds: set<PlayerId>, runs: map<int, Run>, assoc: set<Participation>)
  {
    && (forall pr | pr in assoc :: pr.0 in playerIds && pr.1 in runs)
    && (forall id | id in runs ::
          && id >= 1
          && 2 <= runs[id].level <= 12
          && runs[id].points > 0
          && 1 <= |Participants(assoc, id)| <= 4)
  }

  /** Logging a valid run with distinct players under the next run id keeps
      the tables consistent. */
  lemma LogKeepsConsistent(playerIds: set<PlayerId>, runs: map<int, Run>, assoc: set<Participation>,
                           ps: seq<PlayerId>, runId: int, run: Run)
    requires Consistent(playerIds, runs, assoc)
    requires Distinct(ps) && 1 <= |ps| <= 4
    requires IsNextRunId(runs.Keys, runId)
    requires 2 <= run.level <= 12 && run.points > 0
    ensures Consistent(playerIds + Elems(ps), runs[runId := run], assoc + Links(Elems(ps), runId))
  {
    var playerIds' := playerIds + Elems(ps);
    var runs' := runs[runId := run];
    var assoc' := assoc + Links(Elems(ps), runId);
    assert runId !in runs && runId >= 1;
    assert |Participants(assoc', runId)| == |ps| by {
      assert Participants(assoc', runId) == Elems(ps) by {
        forall p | p in Participants(assoc', runId) ensures p in Elems(ps) {
          assert (p, runId) !in assoc;
        }
      }
      DistinctCardinality(ps);
    }
    forall pr | pr in assoc'
      ensures pr.0 in playerIds' && pr.1 in runs'
    {
    }
    forall id | id in runs'
      ensures id >= 1 && 2 <= runs'[id].level <= 12 && runs'[id].points > 0
      ensures 1 <= |Participants(assoc', id)| <= 4
    {
      if id != runId {
        assert Participants(assoc', id) == Participants(assoc, id);
      }
    }
  }

  /** Removing a stored run, its associations and its points keeps the
      tables consistent. */
  lemma RemoveKeepsConsistent(playerIds: set<PlayerId>, runs: map<int, Run>, assoc: set<Participation>,
                              runId: int)
    requires Consistent(playerIds, runs, assoc)
    requires runId in runs
    ensures Consistent(playerIds, runs - {runId}, Unlinked(assoc, runId))
  {
    var assoc' := Unlinked(assoc, runId);
    forall id | id in runs - {runId}
      ensures Participants(assoc', id) == Participants(assoc, id)
    {
    }
  }

  /** The leaderboard loop: the i-th statistics row becomes line i + 1,
      showing the player's name cut to the column width. */
  method NumberRows(stats: seq<Stat>, members: map<PlayerId, string>) returns (rows: seq<Row>)
    ensures |rows| == |stats|
    ensures forall i :: 0 <= i < |rows| ==>
      rows[i] == RowOf(i + 1, stats[i], members)
  {
    rows := [];
    var place := 1;
    while place <= |stats|
      invariant 1 <= place <= |stats| + 1 && |rows| == place - 1
      invariant forall i :: 0 <= i < |rows| ==>
        rows[i] == RowOf(i + 1, stats[i], members)
    {
      rows := rows + [RowOf(place, stats[place - 1], members)];
      place := place + 1;
    }
  }

  class Ledger {
    var players: map<PlayerId, real>
    var runs: map<int, Run>
    var assoc: set<Participation>

    ghost predicate Valid()
      reads this
    {
      Consistent(players.Keys, runs, assoc)
    }

    constructor ()
      ensures Valid()
      ensures players == map[] && runs == map[] && assoc == {}
    {
      players := map[];
      runs := map[];
      assoc := {};
    }

    /** The statistics row of a stored player: their balance and the number
        of their association rows, which is the number of distinct runs
        they took part in (0 when they have none). */
    function StatOf(p: PlayerId): (s: Stat)
      reads this
      requires p in players
      ensures s.player == p && s.points == players[p]
      ensures s.runCount == |RunsOf(assoc, p)|
    {
      RowCountIsRunCount(assoc, p);
      Stat(p, players[p], |AssociationsOf(assoc, p)|)
    }

    /** Inserts every listed player missing from the player table with 0 points. */
    method RegisterPlayers(ps: seq<PlayerId>)
      modifies this
      ensures players == Registered(old(players), ps)
      ensures runs == old(runs) && assoc == old(assoc)
    {
      var i := 0;
      while i < |ps|
        invariant 0 <= i <= |ps|
        invariant players == Registered(old(players), ps[..i])
        invariant runs == old(runs) && assoc == old(assoc)
      {
        assert ps[..i + 1] == ps[..i] + [ps[i]];
        if ps[i] !in players {
          players := players[ps[i] := 0.0];
        }
        i := i + 1;
      }
      assert ps[..i] == ps;
    }

    /** Adds `share` to the balance of each listed (stored, distinct) player. */
    method CreditPlayers(ps: seq<PlayerId>, share: real)
      requires Distinct(ps) && Elems(ps) <= players.Keys
      modifies this
      ensures players == Adjusted(old(players), Elems(ps), share)
      ensures runs == old(runs) && assoc == old(assoc)
    {
      var i := 0;
      while i < |ps|
        invariant 0 <= i <= |ps|
        invariant players == Adjusted(old(players), Elems(ps[..i]), share)
        invariant runs == old(runs) && assoc == old(assoc)
      {
        assert ps[..i + 1] == ps[..i] + [ps[i]];
        assert ps[i] !in ps[..i];
        players := players[ps[i] := players[ps[i]] + share];
        i := i + 1;
      }
      assert ps[..i] == ps;
    }

    /** Inserts one association of run `runId` per listed player. */
    method LinkPlayers(ps: seq<PlayerId>, runId: int)
      modifies this
      ensures assoc == old(assoc) + Links(Elems(ps), runId)
      ensures players == old(players) && runs == old(runs)
    {
      var i := 0;
      while i < |ps|
        invariant 0 <= i <= |ps|
        invariant assoc == old(assoc) + Links(Elems(ps[..i]), runId)
        invariant players == old(players) && runs == old(runs)
      {
        assert ps[..i + 1] == ps[..i] + [ps[i]];
        assoc := assoc + {(ps[i], runId)};
        i := i + 1;
      }
      assert ps[..i] == ps;
    }

    /** Subtracts `amount` from the balance of each given (stored) player. */
    method DebitPlayers(ps: set<PlayerId>, amount: real)
      requires ps <= players.Keys
      modifies this
      ensures players == Adjusted(old(players), ps, -amount)
      ensures runs == old(runs) && assoc == old(assoc)
    {
      var rest := ps;
      while rest != {}
        invariant rest <= ps
        invariant players == Adjusted(old(players), ps - rest, -amount)
        invariant runs == old(runs) && assoc == old(assoc)
        decreases rest
      {
        var p :| p in rest;
        players := players[p := players[p] - amount];
        rest := rest - {p};
      }
      assert ps - rest == ps;
    }

    /** /log-rs-run: rejects a player list with a repeated player, then a
        run worth no points; otherwise registers new players at 0, credits
        each player the rounded share, stores the run under the next id and
        links every player to it. */
    method LogRun(level: int, isDrs: bool, points: int, ps: seq<PlayerId>) returns (res: LogResult)
      requires Valid()
      requires 2 <= level <= 12 && 1 <= |ps| <= 4
      modifies this
      ensures Valid()
      ensures res.DuplicatePlayer? <==> !Distinct(ps)
      ensures res.NonPositivePoints? <==> Distinct(ps) && points <= 0
      ensures !res.Logged? ==> players == old(players) && runs == old(runs) && assoc == old(assoc)
      ensures res.Logged? ==>
        && res == Logged(res.runId, level, isDrs, points, ps)
        && IsNextRunId(old(runs).Keys, res.runId)
        && players == Adjusted(Registered(old(players), ps), Elems(ps), Share(points, |ps|))
        && runs == old(runs)[res.runId := Run(level, isDrs, points)]
        && assoc == old(assoc) + Links(Elems(ps), res.runId)
    {
      var hasDuplicates := HasDuplicatePlayers(ps);
      if hasDuplicates {
        return DuplicatePlayer;
      }
      if points <= 0 {
        return NonPositivePoints;
      }
      RegisterPlayers(ps);
      var pointsPerPlayer := Share(points, |ps|);
      CreditPlayers(ps, pointsPerPlayer);
      var maxRunId := MaxRunId(runs.Keys);
      var runId := maxRunId + 1;
      runs := runs[runId := Run(level, isDrs, points)];
      LinkPlayers(ps, runId);
      res := Logged(runId, level, isDrs, points, ps);
      LogKeepsConsistent(old(players).Keys, old(runs), old(assoc), ps, runId, Run(level, isDrs, points));
    }

    /** /remove-rs-run: a run that is not stored is reported and nothing
        changes; otherwise every player of the run loses points / players,
        unrounded, and the run's associations and the run are deleted. */
    method RemoveRun(runId: int) returns (res: RemoveResult)
      requires Valid()
      modifies this
      ensures Valid()
      ensures res.RunNotFound? <==> runId !in old(runs)
      ensures res.RunNotFound? ==>
        res == RunNotFound(runId) && players == old(players) && runs == old(runs) && assoc == old(assoc)
      ensures res.Removed? ==>
        var ps := Participants(old(assoc), runId);
        && |ps| > 0
        && res == Removed(runId, RemovalAmount(old(runs)[runId].points, |ps|), ps)
        && players == Adjusted(old(players), ps, -res.pointsRemoved)
        && assoc == Unlinked(old(assoc), runId)
        && runs == old(runs) - {runId}
    {
      if runId !in runs {
        return RunNotFound(runId);
      }
      var pointsForRun := runs[runId].points;
      var connectedUsers := Participants(assoc, runId);
      var pointsToRemove := RemovalAmount(pointsForRun, |connectedUsers|);
      DebitPlayers(connectedUsers, pointsToRemove);
      assoc := Unlinked(assoc, runId);
      runs := runs - {runId};
      res := Removed(runId, pointsToRemove, connectedUsers);
      RemoveKeepsConsistent(old(players).Keys, old(runs), old(assoc), runId);
    }

    /** /remove-rs-run-history: deletes the associations, then the runs,
        then the players. */
    method ClearHistory()
      requires Valid()
      modifies this
      ensures Valid()
      ensures players == map[] && runs == map[] && assoc == {}
    {
      assoc := {};
      runs := map[];
      players := map[];
    }

    /** The statistics query: one row per stored player with balance and
        number of runs, ordered by points from highest to lowest; players
        with equal points come in the store's own order. */
    method PlayerStats() returns (stats: seq<Stat>)
      ensures SortedByPoints(stats) && DistinctPlayers(stats)
      ensures |stats| == |players|
      ensures forall s | s in stats :: s.player in players && s == StatOf(s.player)
      ensures forall p | p in players :: StatOf(p) in stats
    {
      stats := [];
      var done: set<PlayerId> := {};
      var rest := players.Keys;
      while rest != {}
        invariant rest <= players.Keys && done == players.Keys - rest
        invariant |stats| == |done|
        invariant SortedByPoints(stats) && DistinctPlayers(stats)
        invariant forall s | s in stats :: s.player in done && s == StatOf(s.player)
        invariant forall p | p in done :: StatOf(p) in stats
        decreases rest
      {
        var p :| p in rest;
        InsertKeepsRanking(stats, StatOf(p));
        stats := Inserted(stats, StatOf(p));
        done := done + {p};
        rest := rest - {p};
      }
    }

    /** /show-leaderboard: the statistics rows in order, numbered 1, 2, 3, ...
        (tied players still get consecutive places), each with the player's
        shown name cut to the column width. */
    method Leaderboard(guild: GuildLookup) returns (res: BoardResult)
      ensures res.GuildNotFound? <==> guild.NoGuild?
      ensures res.Board? ==> |res.rows| == |players|
      ensures res.Board? ==> forall i, j :: 0 <= i < j < |res.rows| ==>
        res.rows[i].points >= res.rows[j].points && res.rows[i].player != res.rows[j].player
      ensures res.Board? ==> forall p | p in players :: exists i :: 0 <= i < |res.rows| && res.rows[i].player == p
      ensures res.Board? ==> forall i :: 0 <= i < |res.rows| ==>
        && res.rows[i].place == i + 1
        && res.rows[i].player in players
        && res.rows[i].points == players[res.rows[i].player]
        && res.rows[i].runCount == |RunsOf(assoc, res.rows[i].player)|
        && res.rows[i].name == Truncated(DisplayName(guild.members, res.rows[i].player))
    {
      if guild.NoGuild? {
        return GuildNotFound;
      }
      var stats := PlayerStats();
      var rows := NumberRows(stats, guild.members);
      res := Board(rows);
      forall i | 0 <= i < |rows|
        ensures rows[i].place == i + 1 && rows[i].player == stats[i].player
        ensures rows[i].points == stats[i].points && rows[i].runCount == stats[i].runCount
        ensures rows[i].name == Truncated(DisplayName(guild.members, rows[i].player))
        ensures rows[i].player in players && rows[i].points == players[rows[i].player]
        ensures rows[i].runCount == |RunsOf(assoc, rows[i].player)|
      {
        assert rows[i] == RowOf(i + 1, stats[i], guild.members);
        assert stats[i] in stats;
      }
      forall p | p in players
        ensures exists i :: 0 <= i < |rows| && rows[i].player == p
      {
        var i :| 0 <= i < |stats| && stats[i] == StatOf(p);
        assert rows[i].player == p;
      }
    }
  }
}
