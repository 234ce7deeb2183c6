/** The group table (`calculate_standings`): for every registered player the
    columns Z (played), G+ (goals for), G- (goals against) and Body (points),
    folded from the played matches between registered players and ranked by
    (points, goal difference, goals for), all descending. */
module Table {
  import opened Types

  /** The accumulated columns of the table. */
  datatype Column = Played | GoalsFor | GoalsAgainst | Points

  /** A table row: the player's name, team and accumulated columns. */
  datatype Row = Row(name: string, team: string, played: int, goalsFor: int, goalsAgainst: int, points: int)
  {
    function Get(c: Column): int {
      match c
      case Played => played
      case GoalsFor => goalsFor
      case GoalsAgainst => goalsAgainst
      case Points => points
    }

    /** The "+/-" column. */
    function GoalDiff(): int {
      goalsFor - goalsAgainst
    }
  }

  function RowNames(rows: seq<Row>): seq<string> {
    seq(|rows|, i requires 0 <= i < |rows| => rows[i].name)
  }

  /** What one side of a played match adds to column `c`: one game, its goals each
      way, and 3, 1 or 0 points for a win, draw or loss. */
  function Side(c: Column, scored: nat, conceded: nat): int {
    match c
    case Played => 1
    case GoalsFor => scored
    case GoalsAgainst => conceded
    case Points => if scored > conceded then 3 else if scored == conceded then 1 else 0
  }

  /** A match enters the table only when it is played and both names are registered. */
  predicate Counted(names: seq<string>, m: GroupMatch) {
    m.played && m.home in names && m.away in names
  }

  /** What match `m` adds to column `c` of the row of `name`. */
  function Contribution(c: Column, name: string, names: seq<string>, m: GroupMatch): int {
    if !Counted(names, m) then 0
    else
      (if name == m.home then Side(c, m.scoreHome.value, m.scoreAway.value) else 0)
      + (if name == m.away then Side(c, m.scoreAway.value, m.scoreHome.value) else 0)
  }

  /** Column `c` of the row of `name` after folding the matches in list order. */
  function Fold(c: Column, name: string, names: seq<string>, ms: seq<GroupMatch>): int
    decreases |ms|
  {
    if |ms| == 0 then 0 else Contribution(c, name, names, ms[0]) + Fold(c, name, names, ms[1..])
  }

  function RowOf(p: Player, names: seq<string>, ms: seq<GroupMatch>): Row {
    Row(p.name, p.team, Fold(Played, p.name, names, ms), Fold(GoalsFor, p.name, names, ms),
        Fold(GoalsAgainst, p.name, names, ms), Fold(Points, p.name, names, ms))
  }

  /** One row per registered player, in registration order. */
  function Tally(ps: seq<Player>, names: seq<string>, ms: seq<GroupMatch>): seq<Row> {
    seq(|ps|, i requires 0 <= i < |ps| => RowOf(ps[i], names, ms))
  }

  /** Sum of column `c` over a table. */
  function Total(rows: seq<Row>, c: Column): int
    decreases |rows|
  {
    if |rows| == 0 then 0 else rows[0].Get(c) + Total(rows[1..], c)
  }

  /** Sum of the goal-difference column. */
  function SumGoalDiff(rows: seq<Row>): int
    decreases |rows|
  {
    if |rows| == 0 then 0 else rows[0].GoalDiff() + SumGoalDiff(rows[1..])
  }

  /** `a` ranks level with or ahead of `b` on (points, goal difference, goals for). */
  predicate RanksAtLeast(a: Row, b: Row) {
    || a.points > b.points
    || (a.points == b.points
        && (|| a.GoalDiff() > b.GoalDiff()
            || (a.GoalDiff() == b.GoalDiff() && a.goalsFor >= b.goalsFor)))
  }

  /** Sorted non-increasingly by the ranking key. */
  predicate Ranked(rows: seq<Row>) {
    forall i, j :: 0 <= i < j < |rows| ==> RanksAtLeast(rows[i], rows[j])
  }

  /** Places `x` before the first row it ranks at least level with. */
  function Insert(x: Row, rows: seq<Row>): (r: seq<Row>)
    requires Ranked(rows)
    ensures Ranked(r)
    ensures multiset(r) == multiset(rows) + multiset{x}
    ensures multiset(RowNames(r)) == multiset(RowNames(rows)) + multiset{x.name}
    ensures forall c :: Total(r, c) == x.Get(c) + Total(rows, c)
    decreases |rows|
  {
    if |rows| == 0 || RanksAtLeast(x, rows[0]) then
      RankedCons(x, rows);
      ConsFacts(x, rows);
      [x] + rows
    else
      var tail := Insert(x, rows[1..]);
      assert rows == [rows[0]] + rows[1..];
      HeadAboveInsert(x, rows, tail);
      RankedCons(rows[0], tail);
      ConsFacts(rows[0], tail);
      ConsFacts(rows[0], rows[1..]);
      [rows[0]] + tail
  }

  /** The head of a ranked table ranks at least level with every row of its tail
      with a lower-ranking `x` inserted. */
  lemma HeadAboveInsert(x: Row, rows: seq<Row>, tail: seq<Row>)
    requires Ranked(rows) && |rows| > 0 && !RanksAtLeast(x, rows[0])
    requires multiset(tail) == multiset(rows[1..]) + multiset{x}
    ensures forall y | y in tail :: RanksAtLeast(rows[0], y)
  {
    forall y | y in tail ensures RanksAtLeast(rows[0], y) {
      assert y in multiset(tail);
      if y != x {
        assert y in rows[1..];
        var k :| 0 <= k < |rows[1..]| && rows[1..][k] == y;
        assert rows[k + 1] == y;
      }
    }
  }

  /** A row that ranks at least level with every row of a ranked table can head it. */
  lemma RankedCons(x: Row, rows: seq<Row>)
    requires Ranked(rows)
    requires |rows| == 0 || RanksAtLeast(x, rows[0]) || forall y | y in rows :: RanksAtLeast(x, y)
    ensures Ranked([x] + rows)
  {
    var r := [x] + rows;
    forall i, j | 0 <= i < j < |r| ensures RanksAtLeast(r[i], r[j]) {
      if i == 0 {
        assert r[j] == rows[j - 1] && r[j] in rows;
        if |rows| > 0 && RanksAtLeast(x, rows[0]) && j > 1 {
          assert RanksAtLeast(rows[0], rows[j - 1]);
        }
      } else {
        assert r[i] == rows[i - 1] && r[j] == rows[j - 1];
      }
    }
  }

  lemma ConsFacts(x: Row, rows: seq<Row>)
    ensures RowNames([x] + rows) == [x.name] + RowNames(rows)
    ensures forall c :: Total([x] + rows, c) == x.Get(c) + Total(rows, c)
  {
    assert ([x] + rows)[1..] == rows;
  }

  /** Insertion sort by the ranking key. Rows with equal keys keep their relative order;
      nothing in the model depends on that choice. */
  function Sort(rows: seq<Row>): (r: seq<Row>)
    ensures Ranked(r)
    ensures multiset(r) == multiset(rows)
    ensures multiset(RowNames(r)) == multiset(RowNames(rows))
    ensures forall c :: Total(r, c) == Total(rows, c)
    decreases |rows|
  {
    if |rows| == 0 then []
    else
      assert rows == [rows[0]] + rows[1..];
      assert RowNames(rows) == [rows[0].name] + RowNames(rows[1..]);
      Insert(rows[0], Sort(rows[1..]))
  }

  /** Sorting a ranked table leaves it as it is, so re-sorting the standings is
      idempotent. */
  lemma {:induction false} SortKeepsRanked(rows: seq<Row>)
    requires Ranked(rows)
    ensures Sort(rows) == rows
    decreases |rows|
  {
    if |rows| > 0 {
      RankedTail(rows);
      SortKeepsRanked(rows[1..]);
      InsertAtHead(rows[0], rows[1..]);
      assert rows == [rows[0]] + rows[1..];
    }
  }

  /** The tail of a ranked table is ranked, and the head ranks at least level with it. */
  lemma RankedTail(rows: seq<Row>)
    requires Ranked(rows) && |rows| > 0
    ensures Ranked(rows[1..])
    ensures |rows| == 1 || RanksAtLeast(rows[0], rows[1..][0])
  {
    var rest := rows[1..];
    forall i, j | 0 <= i < j < |rest| ensures RanksAtLeast(rest[i], rest[j]) {
      assert rest[i] == rows[i + 1] && rest[j] == rows[j + 1];
    }
  }

  /** A row ranking at least level with the head of a ranked table is inserted in front. */
  lemma InsertAtHead(x: Row, rows: seq<Row>)
    requires Ranked(rows) && (|rows| == 0 || RanksAtLeast(x, rows[0]))
    ensures Insert(x, rows) == [x] + rows
  {
  }

  /** `calculate_standings`: every registered player once, each row carrying that
      player's team and folded columns, sorted by the ranking key. */
  function Standings(ps: seq<Player>, ms: seq<GroupMatch>): (r: seq<Row>)
    ensures Ranked(r)
    ensures multiset(RowNames(r)) == multiset(Names(ps))
    ensures forall k :: 0 <= k < |r| ==> exists i :: 0 <= i < |ps| && r[k] == RowOf(ps[i], Names(ps), ms)
    ensures forall c :: Total(r, c) == Total(Tally(ps, Names(ps), ms), c)
  {
    var t := Tally(ps, Names(ps), ms);
    assert RowNames(t) == Names(ps);
    var r := Sort(t);
    forall k | 0 <= k < |r| ensures exists i :: 0 <= i < |ps| && r[k] == RowOf(ps[i], Names(ps), ms) {
      assert r[k] in multiset(t);
      var i :| 0 <= i < |t| && t[i] == r[k];
    }
    r
  }

  // ---------------------------------------------------------------------------
  // Match order does not matter

  /** Folding a concatenation adds the two folds. */
  lemma {:induction false} FoldConcat(c: Column, name: string, names: seq<string>, a: seq<GroupMatch>, b: seq<GroupMatch>)
    ensures Fold(c, name, names, a + b) == Fold(c, name, names, a) + Fold(c, name, names, b)
    decreases |a|
  {
    if |a| == 0 {
      assert a + b == b;
    } else {
      FoldConcat(c, name, names, a[1..], b);
      assert (a + b)[1..] == a[1..] + b;
      assert (a + b)[0] == a[0];
    }
  }

  /** Taking one match out of the list takes exactly its contribution off the fold. */
  lemma FoldRemove(c: Column, name: string, names: seq<string>, b: seq<GroupMatch>, k: nat)
    requires k < |b|
    ensures Fold(c, name, names, b) == Contribution(c, name, names, b[k]) + Fold(c, name, names, b[..k] + b[k + 1..])
  {
    var b1, b2 := b[..k], b[k + 1..];
    assert b == b1 + ([b[k]] + b2);
    FoldConcat(c, name, names, b1, b2);
    FoldConcat(c, name, names, b1, [b[k]] + b2);
    assert ([b[k]] + b2)[1..] == b2;
  }

  /** A column depends only on which matches were played, not on their order. */
  lemma {:induction false} FoldPermutation(c: Column, name: string, names: seq<string>, a: seq<GroupMatch>, b: seq<GroupMatch>)
    requires multiset(a) == multiset(b)
    ensures Fold(c, name, names, a) == Fold(c, name, names, b)
    decreases |a|
  {
    if |a| == 0 {
      assert |b| == |multiset(b)| == 0;
    } else {
      var x, a' := a[0], a[1..];
      assert x in multiset(b);
      var k :| 0 <= k < |b| && b[k] == x;
      var rest := b[..k] + b[k + 1..];
      MultisetRemove(a, b, k);
      FoldPermutation(c, name, names, a', rest);
      FoldRemove(c, name, names, b, k);
    }
  }

  /** The table does not depend on the order in which the matches are listed. */
  lemma StandingsIgnoreMatchOrder(ps: seq<Player>, a: seq<GroupMatch>, b: seq<GroupMatch>)
    requires multiset(a) == multiset(b)
    ensures Standings(ps, a) == Standings(ps, b)
  {
    forall i | 0 <= i < |ps| ensures RowOf(ps[i], Names(ps), a) == RowOf(ps[i], Names(ps), b) {
      FoldPermutation(Played, ps[i].name, Names(ps), a, b);
      FoldPermutation(GoalsFor, ps[i].name, Names(ps), a, b);
      FoldPermutation(GoalsAgainst, ps[i].name, Names(ps), a, b);
      FoldPermutation(Points, ps[i].name, Names(ps), a, b);
    }
    assert Tally(ps, Names(ps), a) == Tally(ps, Names(ps), b);
  }

  /** An unplayed match is invisible to the table: dropping it from the list leaves
      the standings as they were. */
  lemma UnplayedIgnored(ps: seq<Player>, ms: seq<GroupMatch>, k: nat)
    requires k < |ms| && !ms[k].played
    ensures Standings(ps, ms) == Standings(ps, ms[..k] + ms[k + 1..])
  {
    var rest := ms[..k] + ms[k + 1..];
    forall i | 0 <= i < |ps| ensures RowOf(ps[i], Names(ps), ms) == RowOf(ps[i], Names(ps), rest) {
      FoldRemove(Played, ps[i].name, Names(ps), ms, k);
      FoldRemove(GoalsFor, ps[i].name, Names(ps), ms, k);
      FoldRemove(GoalsAgainst, ps[i].name, Names(ps), ms, k);
      FoldRemove(Points, ps[i].name, Names(ps), ms, k);
    }
    assert Tally(ps, Names(ps), ms) == Tally(ps, Names(ps), rest);
  }

  /** One more match changes each row by that match's contribution alone: a played
      match between two different registered players adds one game to both, its
      goals to each side's for and against columns and the result's points to the
      right side; any other match leaves the table as it was. */
  lemma MatchEffect(ps: seq<Player>, ms: seq<GroupMatch>, m: GroupMatch, c: Column)
    ensures var before, after := Tally(ps, Names(ps), ms), Tally(ps, Names(ps), ms + [m]);
      && |after| == |before| == |ps|
      && (!Counted(Names(ps), m) ==> forall i :: 0 <= i < |ps| ==> after[i].Get(c) == before[i].Get(c))
      && (Counted(Names(ps), m) && m.home != m.away ==>
            forall i :: 0 <= i < |ps| ==>
              after[i].Get(c) == before[i].Get(c) +
                (if ps[i].name == m.home then Side(c, m.scoreHome.value, m.scoreAway.value)
                 else if ps[i].name == m.away then Side(c, m.scoreAway.value, m.scoreHome.value)
                 else 0))
  {
    forall i | 0 <= i < |ps|
      ensures Fold(c, ps[i].name, Names(ps), ms + [m]) == Fold(c, ps[i].name, Names(ps), ms) + Contribution(c, ps[i].name, Names(ps), m)
    {
      FoldConcat(c, ps[i].name, Names(ps), ms, [m]);
      assert [m][1..] == [];
    }
  }

  // ---------------------------------------------------------------------------
  // Column sums

  /** What one match adds to column `c` summed over the whole table. */
  function MatchShare(c: Column, names: seq<string>, m: GroupMatch): int {
    if !Counted(names, m) then 0
    else Side(c, m.scoreHome.value, m.scoreAway.value) + Side(c, m.scoreAway.value, m.scoreHome.value)
  }

  function MatchTotals(c: Column, names: seq<string>, ms: seq<GroupMatch>): int
    decreases |ms|
  {
    if |ms| == 0 then 0 else MatchShare(c, names, ms[0]) + MatchTotals(c, names, ms[1..])
  }

  /** Counted matches with a winner. */
  function Decisive(names: seq<string>, ms: seq<GroupMatch>): nat
    decreases |ms|
  {
    if |ms| == 0 then 0
    else (if Counted(names, ms[0]) && ms[0].scoreHome != ms[0].scoreAway then 1 else 0) + Decisive(names, ms[1..])
  }

  /** Counted matches that ended level. */
  function Draws(names: seq<string>, ms: seq<GroupMatch>): nat
    decreases |ms|
  {
    if |ms| == 0 then 0
    else (if Counted(names, ms[0]) && ms[0].scoreHome == ms[0].scoreAway then 1 else 0) + Draws(names, ms[1..])
  }

  /** Sum over players `ps` of what match `m` adds to their column `c`. */
  function ContributionSum(c: Column, ps: seq<Player>, names: seq<string>, m: GroupMatch): int
    decreases |ps|
  {
    if |ps| == 0 then 0 else Contribution(c, ps[0].name, names, m) + ContributionSum(c, ps[1..], names, m)
  }

  /** Prepending a match adds its contributions to the column sum. */
  lemma {:induction false} TotalStep(c: Column, ps: seq<Player>, names: seq<string>, m: GroupMatch, ms: seq<GroupMatch>)
    ensures Total(Tally(ps, names, [m] + ms), c) == ContributionSum(c, ps, names, m) + Total(Tally(ps, names, ms), c)
    decreases |ps|
  {
    assert ([m] + ms)[0] == m && ([m] + ms)[1..] == ms;
    if |ps| > 0 {
      TotalStep(c, ps[1..], names, m, ms);
      assert Tally(ps, names, [m] + ms)[1..] == Tally(ps[1..], names, [m] + ms);
      assert Tally(ps, names, ms)[1..] == Tally(ps[1..], names, ms);
    }
  }

  /** Among players with distinct names, match `m` reaches the home player's row
      once and the away player's row once. */
  lemma {:induction false} ContributionSumValue(c: Column, ps: seq<Player>, names: seq<string>, m: GroupMatch)
    requires Distinct(Names(ps))
    ensures ContributionSum(c, ps, names, m) ==
      if !Counted(names, m) then 0
      else
        (if m.home in Names(ps) then Side(c, m.scoreHome.value, m.scoreAway.value) else 0)
        + (if m.away in Names(ps) then Side(c, m.scoreAway.value, m.scoreHome.value) else 0)
    decreases |ps|
  {
    if |ps| > 0 {
      var rest := ps[1..];
      assert Names(ps) == [ps[0].name] + Names(rest);
      assert Distinct(Names(rest)) by {
        forall i, j | 0 <= i < j < |rest| ensures Names(rest)[i] != Names(rest)[j] {
          assert Names(ps)[i + 1] != Names(ps)[j + 1];
        }
      }
      assert ps[0].name !in Names(rest) by {
        forall k | 0 <= k < |rest| ensures Names(rest)[k] != ps[0].name {
          assert Names(ps)[k + 1] != Names(ps)[0];
        }
      }
      ContributionSumValue(c, rest, names, m);
    }
  }

  lemma {:induction false} EmptyTallyTotal(c: Column, ps: seq<Player>, names: seq<string>)
    ensures Total(Tally(ps, names, []), c) == 0
    decreases |ps|
  {
    if |ps| > 0 {
      EmptyTallyTotal(c, ps[1..], names);
      assert Tally(ps, names, [])[1..] == Tally(ps[1..], names, []);
    }
  }

  /** The table's column sums are the sums of the per-match shares. */
  lemma {:induction false} TallyTotal(c: Column, ps: seq<Player>, ms: seq<GroupMatch>)
    requires Distinct(Names(ps))
    ensures Total(Tally(ps, Names(ps), ms), c) == MatchTotals(c, Names(ps), ms)
    decreases |ms|
  {
    if |ms| == 0 {
      EmptyTallyTotal(c, ps, Names(ps));
    } else {
      assert ms == [ms[0]] + ms[1..];
      TallyTotal(c, ps, ms[1..]);
      TotalStep(c, ps, Names(ps), ms[0], ms[1..]);
      ContributionSumValue(c, ps, Names(ps), ms[0]);
    }
  }

  /** Every counted match hands its goals to both goal columns, two games to the
      played column, and 3 points for a decision or 2 for a draw. */
  lemma {:induction false} MatchTotalsBalance(names: seq<string>, ms: seq<GroupMatch>)
    ensures MatchTotals(GoalsFor, names, ms) == MatchTotals(GoalsAgainst, names, ms)
    ensures MatchTotals(Played, names, ms) == 2 * (Decisive(names, ms) + Draws(names, ms))
    ensures MatchTotals(Points, names, ms) == 3 * Decisive(names, ms) + 2 * Draws(names, ms)
    decreases |ms|
  {
    if |ms| > 0 {
      MatchTotalsBalance(names, ms[1..]);
    }
  }

  lemma {:induction false} SumGoalDiffTotal(rows: seq<Row>)
    ensures SumGoalDiff(rows) == Total(rows, GoalsFor) - Total(rows, GoalsAgainst)
    decreases |rows|
  {
    if |rows| > 0 {
      SumGoalDiffTotal(rows[1..]);
    }
  }

  /** With distinct registered names the table balances: the G+ and G- columns have
      equal sums, goal differences sum to zero, every counted match adds two games,
      and the points are 3 per decided match plus 2 per draw. */
  lemma StandingsBalance(ps: seq<Player>, ms: seq<GroupMatch>)
    requires Distinct(Names(ps))
    ensures var table, names := Standings(ps, ms), Names(ps);
      && Total(table, GoalsFor) == Total(table, GoalsAgainst)
      && SumGoalDiff(table) == 0
      && Total(table, Played) == 2 * (Decisive(names, ms) + Draws(names, ms))
      && Total(table, Points) == 3 * Decisive(names, ms) + 2 * Draws(names, ms)
  {
    TallyTotal(GoalsFor, ps, ms);
    TallyTotal(GoalsAgainst, ps, ms);
    TallyTotal(Played, ps, ms);
    TallyTotal(Points, ps, ms);
    MatchTotalsBalance(Names(ps), ms);
    SumGoalDiffTotal(Standings(ps, ms));
  }

  /** One more match between two registered players adds 3 points to the table if
      the scores differ and 2 on a draw; any other match adds none. */
  lemma PointsPerMatch(ps: seq<Player>, ms: seq<GroupMatch>, m: GroupMatch)
    requires Distinct(Names(ps))
    ensures Total(Standings(ps, ms + [m]), Points) ==
      Total(Standings(ps, ms), Points) +
        (if !Counted(Names(ps), m) then 0 else if m.scoreHome == m.scoreAway then 2 else 3)
  {
    var names := Names(ps);
    StandingsBalance(ps, ms);
    StandingsBalance(ps, ms + [m]);
    DecisiveConcat(names, ms, [m]);
    DrawsConcat(names, ms, [m]);
    assert [m][1..] == [];
  }

  lemma {:induction false} DecisiveConcat(names: seq<string>, a: seq<GroupMatch>, b: seq<GroupMatch>)
    ensures Decisive(names, a + b) == Decisive(names, a) + Decisive(names, b)
    decreases |a|
  {
    if |a| == 0 {
      assert a + b == b;
    } else {
      DecisiveConcat(names, a[1..], b);
      assert (a + b)[1..] == a[1..] + b && (a + b)[0] == a[0];
    }
  }

  lemma {:induction false} DrawsConcat(names: seq<string>, a: seq<GroupMatch>, b: seq<GroupMatch>)
    ensures Draws(names, a + b) == Draws(names, a) + Draws(names, b)
    decreases |a|
  {
    if |a| == 0 {
      assert a + b == b;
    } else {
      DrawsConcat(names, a[1..], b);
      assert (a + b)[1..] == a[1..] + b && (a + b)[0] == a[0];
    }
  }
}
