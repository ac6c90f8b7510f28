/** The three relations the ledger keeps (the discorduser, rsrun and
    discorduser_rsrun tables) and the functions that specify how the ledger
    operations change them. */
module Tables {
  import opened Shares

  /** A Discord user id; the source keeps it as a 64-bit unsigned value. */
  type PlayerId = nat

  /** One row of the run table: RS level, whether it was a DRS run, and the
      points the run was worth. */
  datatype Run = Run(level: int, isDrs: bool, points: int)

  /** One row of the association table: a player took part in a run. */
  type Participation = (PlayerId, int)

  /** No player occurs twice in the list. */
  predicate Distinct(ps: seq<PlayerId>)
  {
    forall i, j :: 0 <= i < j < |ps| ==> ps[i] != ps[j]
  }

  /** The players of a list, as a set. */
  function Elems(ps: seq<PlayerId>): (s: set<PlayerId>)
    ensures forall p :: p in s <==> p in ps
  {
    set p | p in ps
  }

  /** Everyone associated with run `runId`. */
  function Participants(assoc: set<Participation>, runId: int): (ps: set<PlayerId>)
    ensures forall p :: p in ps <==> (p, runId) in assoc
  {
    set pr | pr in assoc && pr.1 == runId :: pr.0
  }

  /** The runs player `p` is associated with. */
  function RunsOf(assoc: set<Participation>, p: PlayerId): (rs: set<int>)
    ensures forall r :: r in rs <==> (p, r) in assoc
  {
    set pr | pr in assoc && pr.0 == p :: pr.1
  }

  /** The association rows of player `p`. */
  function AssociationsOf(assoc: set<Participation>, p: PlayerId): (rows: set<Participation>)
    ensures forall pr :: pr in rows <==> pr in assoc && pr.0 == p
  {
    set pr | pr in assoc && pr.0 == p
  }

  /** Counting a player's association rows counts the runs they took part
      in: each row names a different run. */
  lemma {:induction false} RowCountIsRunCount(assoc: set<Participation>, p: PlayerId)
    ensures |AssociationsOf(assoc, p)| == |RunsOf(assoc, p)|
    decreases assoc
  {
    var rows := AssociationsOf(assoc, p);
    if rows == {} {
      forall r | r in RunsOf(assoc, p)
        ensures (p, r) in rows
      {
      }
      assert RunsOf(assoc, p) == {};
    } else {
      var pr :| pr in rows;
      var rest := assoc - {pr};
      RowCountIsRunCount(rest, p);
      assert AssociationsOf(rest, p) == rows - {pr};
      assert RunsOf(rest, p) == RunsOf(assoc, p) - {pr.1};
    }
  }

  /** The associations of run `runId`, one per participant. */
  function Links(ps: set<PlayerId>, runId: int): (links: set<Participation>)
    ensures forall pr :: pr in links <==> pr.0 in ps && pr.1 == runId
  {
    set p | p in ps :: (p, runId)
  }

  /** The association table without any row for run `runId`. */
  function Unlinked(assoc: set<Participation>, runId: int): (rest: set<Participation>)
    ensures forall pr :: pr in rest <==> pr in assoc && pr.1 != runId
  {
    set pr | pr in assoc && pr.1 != runId
  }

  /** The balances after every listed player missing from the table has been
      inserted with 0 points. */
  function Registered(balances: map<PlayerId, real>, ps: seq<PlayerId>): (r: map<PlayerId, real>)
    ensures r.Keys == balances.Keys + Elems(ps)
    ensures forall p :: p in balances ==> r[p] == balances[p]
    ensures forall p :: p in ps && p !in balances ==> r[p] == 0.0
  {
    map p | p in balances.Keys + Elems(ps) :: if p in balances then balances[p] else 0.0
  }

  /** The balances after `delta` has been added to every player of `ps`
      (a debit is a negative delta). */
  function Adjusted(balances: map<PlayerId, real>, ps: set<PlayerId>, delta: real): (r: map<PlayerId, real>)
    ensures r.Keys == balances.Keys
    ensures forall p :: p in balances && p in ps ==> r[p] == balances[p] + delta
    ensures forall p :: p in balances && p !in ps ==> r[p] == balances[p]
  {
    map p | p in balances :: if p in ps then balances[p] + delta else balances[p]
  }

  /** A list without repetitions has as many elements as its set. */
  lemma {:induction false} DistinctCardinality(ps: seq<PlayerId>)
    requires Distinct(ps)
    ensures |Elems(ps)| == |ps|
  {
    if ps != [] {
      var rest := ps[1..];
      assert Distinct(rest);
      DistinctCardinality(rest);
      assert Elems(ps) == {ps[0]} + Elems(rest);
      assert ps[0] !in Elems(rest);
    }
  }

  /** The total of the balances of the players in `keys`. */
  ghost function SumOf(balances: map<PlayerId, real>, keys: set<PlayerId>): real
    requires keys <= balances.Keys
    decreases keys
  {
    if keys == {} then 0.0
    else
      var p :| p in keys;
      balances[p] + SumOf(balances, keys - {p})
  }

  /** The total of all balances. */
  ghost function Total(balances: map<PlayerId, real>): real
  {
    SumOf(balances, balances.Keys)
  }

  /** Any player may be taken out of a sum first. */
  lemma {:induction false} SumOfRemove(balances: map<PlayerId, real>, keys: set<PlayerId>, q: PlayerId)
    requires keys <= balances.Keys && q in keys
    ensures SumOf(balances, keys) == balances[q] + SumOf(balances, keys - {q})
    decreases keys
  {
    var p :| p in keys && SumOf(balances, keys) == balances[p] + SumOf(balances, keys - {p});
    if p != q {
      SumOfRemove(balances, keys - {p}, q);
      SumOfRemove(balances, keys - {q}, p);
      assert keys - {p} - {q} == keys - {q} - {p};
    }
  }

  /** Adding `delta` to each of the players in `ps` raises the sum over
      `keys` by delta for every one of them among `keys`. */
  lemma {:induction false} SumOfAdjusted(balances: map<PlayerId, real>, keys: set<PlayerId>, ps: set<PlayerId>, delta: real)
    requires keys <= balances.Keys
    ensures SumOf(Adjusted(balances, ps, delta), keys) == SumOf(balances, keys) + Times(|ps * keys|, delta)
    decreases keys
  {
    var after := Adjusted(balances, ps, delta);
    if keys != {} {
      var p :| p in keys;
      var rest := keys - {p};
      SumOfAdjusted(balances, rest, ps, delta);
      SumOfRemove(balances, keys, p);
      SumOfRemove(after, keys, p);
      if p in ps {
        assert ps * keys == ps * rest + {p};
        assert |ps * keys| == |ps * rest| + 1;
      } else {
        assert ps * keys == ps * rest;
      }
    } else {
      assert ps * keys == {};
    }
  }

  /** Extending a table with players at 0 points does not change its total. */
  lemma {:induction false} SumOfZeroExtension(small: map<PlayerId, real>, large: map<PlayerId, real>, keys: set<PlayerId>)
    requires keys <= large.Keys
    requires forall p :: p in keys && p in small ==> large[p] == small[p]
    requires forall p :: p in keys && p !in small ==> large[p] == 0.0
    ensures keys * small.Keys <= small.Keys
    ensures SumOf(large, keys) == SumOf(small, keys * small.Keys)
    decreases keys
  {
    if keys != {} {
      var p :| p in keys;
      SumOfRemove(large, keys, p);
      SumOfZeroExtension(small, large, keys - {p});
      if p in small {
        SumOfRemove(small, keys * small.Keys, p);
        assert (keys * small.Keys) - {p} == (keys - {p}) * small.Keys;
      } else {
        assert keys * small.Keys == (keys - {p}) * small.Keys;
      }
    }
  }

  /** Registering new players at 0 points keeps the total of all balances. */
  lemma RegisteredKeepsTotal(balances: map<PlayerId, real>, ps: seq<PlayerId>)
    ensures Total(Registered(balances, ps)) == Total(balances)
  {
    var r := Registered(balances, ps);
    SumOfZeroExtension(balances, r, r.Keys);
    assert r.Keys * balances.Keys == balances.Keys;
  }

  /** Adjusting the balances of `ps` by `delta` moves the total by exactly
      |ps| times delta. */
  lemma AdjustedTotal(balances: map<PlayerId, real>, ps: set<PlayerId>, delta: real)
    requires ps <= balances.Keys
    ensures Total(Adjusted(balances, ps, delta)) == Total(balances) + Times(|ps|, delta)
  {
    SumOfAdjusted(balances, balances.Keys, ps, delta);
    assert ps * balances.Keys == ps;
  }
}
