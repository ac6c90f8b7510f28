/** The pieces of the leaderboard that are pure computations: ordering the
    per-player statistics by points, and the name shown in the name column. */
module Ranking {
  import opened Tables

  /** One row of the statistics query: a player, their balance and the
      number of runs they are associated with. */
  datatype Stat = Stat(player: PlayerId, points: real, runCount: nat)

  /** One leaderboard line: place, shown name, points and number of runs. */
  datatype Row = Row(place: nat, player: PlayerId, name: string, points: real, runCount: nat)

  /** Width of the name column; longer names are cut. */
  const NameWidth: nat := 25

  /** Ordered by points, highest first. */
  predicate SortedByPoints(stats: seq<Stat>)
  {
    forall i, j :: 0 <= i < j < |stats| ==> stats[i].points >= stats[j].points
  }

  /** Where a row worth `points` goes in a list ordered by points: after
      every row worth at least as much, so that ties keep arrival order. */
  function InsertionPoint(stats: seq<Stat>, points: real): (k: nat)
    ensures k <= |stats|
    ensures forall i :: 0 <= i < k ==> stats[i].points >= points
    ensures SortedByPoints(stats) ==> forall i :: k <= i < |stats| ==> stats[i].points < points
  {
    if stats == [] || stats[0].points < points then 0
    else 1 + InsertionPoint(stats[1..], points)
  }

  /** No player has two rows. */
  predicate DistinctPlayers(stats: seq<Stat>)
  {
    forall i, j :: 0 <= i < j < |stats| ==> stats[i].player != stats[j].player
  }

  /** The list with `x` put in at position `k`. */
  function InsertAt(xs: seq<Stat>, k: nat, x: Stat): (r: seq<Stat>)
    requires k <= |xs|
    ensures |r| == |xs| + 1
    ensures multiset(r) == multiset(xs) + multiset{x}
    ensures forall y :: y in r <==> y in xs || y == x
  {
    var before, after := xs[..k], xs[k..];
    assert xs == before + after;
    assert multiset(before + [x] + after) == multiset(before) + multiset{x} + multiset(after);
    before + [x] + after
  }

  /** The list with `s` inserted at its place by points. */
  function Inserted(stats: seq<Stat>, s: Stat): (r: seq<Stat>)
    ensures |r| == |stats| + 1
    ensures multiset(r) == multiset(stats) + multiset{s}
    ensures forall x :: x in r <==> x in stats || x == s
  {
    InsertAt(stats, InsertionPoint(stats, s.points), s)
  }

  /** Inserting the row of a player not yet listed keeps the list ordered
      by points and free of repeated players. */
  lemma InsertKeepsRanking(stats: seq<Stat>, s: Stat)
    requires SortedByPoints(stats) && DistinctPlayers(stats)
    requires forall x | x in stats :: x.player != s.player
    ensures SortedByPoints(Inserted(stats, s)) && DistinctPlayers(Inserted(stats, s))
  {
    var k := InsertionPoint(stats, s.points);
    var r := Inserted(stats, s);
    InsertedAt(stats, s);
    forall i, j | 0 <= i < j < |r|
      ensures r[i].points >= r[j].points && r[i].player != r[j].player
    {
      if j <= k {
      } else if i < k {
        assert stats[i] in stats && stats[j - 1] in stats;
      } else if i == k {
        assert stats[j - 1] in stats;
      }
    }
  }

  /** Where each row of the inserted list comes from. */
  lemma InsertedAt(stats: seq<Stat>, s: Stat)
    ensures var k := InsertionPoint(stats, s.points);
      forall i | 0 <= i < |Inserted(stats, s)| ::
        Inserted(stats, s)[i] == if i < k then stats[i] else if i == k then s else stats[i - 1]
  {
    var k := InsertionPoint(stats, s.points);
    var r := Inserted(stats, s);
    assert r == InsertAt(stats, k, s) == stats[..k] + [s] + stats[k..];
  }

  /** The decimal digits of `n`, most significant first. */
  function Digits(n: nat): (s: string)
    ensures |s| >= 1
    ensures forall i :: 0 <= i < |s| ==> '0' <= s[i] <= '9'
    decreases n
  {
    if n < 10 then [(48 + n) as char] else Digits(n / 10) + [(48 + n % 10) as char]
  }

  /** The number a string of decimal digits stands for. */
  function DigitsValue(s: string): nat
  {
    if s == [] then 0
    else
      var d := s[|s| - 1] as int - 48;
      10 * DigitsValue(s[..|s| - 1]) + (if 0 <= d < 10 then d else 0)
  }

  /** Reading the digits back gives the number: distinct ids are shown as
      distinct mentions. */
  lemma {:induction false} DigitsRoundTrip(n: nat)
    ensures DigitsValue(Digits(n)) == n
    decreases n
  {
    if n >= 10 {
      DigitsRoundTrip(n / 10);
      var s := Digits(n);
      assert s[..|s| - 1] == Digits(n / 10);
    }
  }

  /** The mention text `<@id>` used for a player the guild does not know. */
  function Mention(p: PlayerId): string
  {
    "<@" + Digits(p) + ">"
  }

  /** A mention is `<@`, the digits of the id and `>`, and the id can be read
      back from it: distinct players get distinct mentions. */
  lemma MentionRoundTrip(p: PlayerId)
    ensures var s := Mention(p);
      |s| >= 4 && s[..2] == "<@" && s[|s| - 1] == '>' && DigitsValue(s[2..|s| - 1]) == p
  {
    var digits := Digits(p);
    DigitsRoundTrip(p);
    assert Mention(p)[2..|digits| + 2] == digits;
  }

  /** The guild member's nickname or user name when the guild knows the
      player, the mention otherwise. */
  function DisplayName(members: map<PlayerId, string>, p: PlayerId): (name: string)
    ensures p in members ==> name == members[p]
    ensures p !in members ==> name == Mention(p)
  {
    if p in members then members[p] else Mention(p)
  }

  /** Two players the guild does not know are never shown under the same
      name. */
  lemma UnknownPlayersGetDistinctNames(members: map<PlayerId, string>, p: PlayerId, q: PlayerId)
    requires p !in members && q !in members && p != q
    ensures DisplayName(members, p) != DisplayName(members, q)
  {
    MentionRoundTrip(p);
    MentionRoundTrip(q);
  }

  /** A name longer than the column keeps its first 22 characters and gets
      "..." appended, so it is exactly as wide as the column; shorter names
      are shown whole. */
  function Truncated(name: string): (shown: string)
    ensures |shown| <= NameWidth
    ensures |name| <= NameWidth ==> shown == name
    ensures |name| > NameWidth ==>
      |shown| == NameWidth && shown[..NameWidth - 3] == name[..NameWidth - 3] && shown[NameWidth - 3..] == "..."
  {
    if |name| > NameWidth then name[..NameWidth - 3] + "..." else name
  }

  /** The leaderboard line at `place` for one statistics row. */
  function RowOf(place: nat, s: Stat, members: map<PlayerId, string>): Row
  {
    Row(place, s.player, Truncated(DisplayName(members, s.player)), s.points, s.runCount)
  }
}
