/** The group-stage schedule: every unordered pair of registered names once, as
    `itertools.combinations` lists them, then shuffled in place. */
module Schedule {
  import opened Types

  type Pair = (string, string)

  /** The pairs `(a, rest[k])`, in the order of `rest`. */
  function PairsWith(a: string, rest: seq<string>): seq<Pair> {
    seq(|rest|, k requires 0 <= k < |rest| => (a, rest[k]))
  }

  /** All pairs `(names[i], names[j])` with `i < j`, in lexicographic index order. */
  function Pairs(names: seq<string>): seq<Pair>
    decreases |names|
  {
    if |names| == 0 then [] else PairsWith(names[0], names[1..]) + Pairs(names[1..])
  }

  /** `p` is `(names[i], names[j])` for some positions `i < j`. */
  ghost predicate InOrder(names: seq<string>, p: Pair) {
    exists i, j :: 0 <= i < j < |names| && names[i] == p.0 && names[j] == p.1
  }

  /** N names give N(N-1)/2 pairs. */
  lemma {:induction false} PairsCount(names: seq<string>)
    ensures 2 * |Pairs(names)| == |names| * (|names| - 1)
    decreases |names|
  {
    if |names| > 0 {
      var n, m := |names| - 1, |Pairs(names[1..])|;
      PairsCount(names[1..]);
      assert 2 * m == n * (n - 1);
      assert |PairsWith(names[0], names[1..])| == n;
      assert |Pairs(names)| == n + m;
      assert (n + 1) * n == n * (n - 1) + 2 * n;
    }
  }

  /** The pairs are exactly the position-ordered pairs of the names. */
  lemma {:induction false} PairsMembers(names: seq<string>, p: Pair)
    ensures p in Pairs(names) <==> InOrder(names, p)
    decreases |names|
  {
    if |names| > 0 {
      var rest := names[1..];
      PairsMembers(rest, p);
      assert p in Pairs(names) <==> p in PairsWith(names[0], rest) || p in Pairs(rest);
      if p in PairsWith(names[0], rest) {
        var k :| 0 <= k < |rest| && PairsWith(names[0], rest)[k] == p;
        assert names[0] == p.0 && names[k + 1] == p.1;
      } else if p in Pairs(rest) {
        var i, j :| 0 <= i < j < |rest| && rest[i] == p.0 && rest[j] == p.1;
        assert names[i + 1] == p.0 && names[j + 1] == p.1;
      }
      if InOrder(names, p) {
        var i, j :| 0 <= i < j < |names| && names[i] == p.0 && names[j] == p.1;
        if i == 0 {
          assert PairsWith(names[0], rest)[j - 1] == p;
        } else {
          assert rest[i - 1] == p.0 && rest[j - 1] == p.1;
        }
      }
    }
  }

  /** Distinct names give a pair list without repeats. */
  lemma {:induction false} PairsDistinct(names: seq<string>)
    requires Distinct(names)
    ensures Distinct(Pairs(names))
    decreases |names|
  {
    if |names| > 0 {
      var rest := names[1..];
      assert Distinct(rest) by {
        forall i, j | 0 <= i < j < |rest| ensures rest[i] != rest[j] {
          assert rest[i] == names[i + 1] && rest[j] == names[j + 1];
        }
      }
      PairsDistinct(rest);
      var front, back := PairsWith(names[0], rest), Pairs(rest);
      forall i, j | 0 <= i < j < |front + back| ensures (front + back)[i] != (front + back)[j] {
        if j < |front| {
          assert front[i].1 == names[i + 1] && front[j].1 == names[j + 1];
        } else if i >= |front| {
          assert (front + back)[i] == back[i - |front|] && (front + back)[j] == back[j - |front|];
        } else {
          var q := back[j - |front|];
          assert q in back;
          PairsMembers(rest, q);
          var x, y :| 0 <= x < y < |rest| && rest[x] == q.0 && rest[y] == q.1;
          assert names[x + 1] == q.0;
          assert front[i].0 == names[0];
        }
      }
    }
  }

  /** Swapping two positions keeps the same elements. */
  function Swap<T>(x: seq<T>, i: nat, j: nat): (r: seq<T>)
    requires i < |x| && j < |x|
    ensures |r| == |x|
    ensures multiset(r) == multiset(x)
  {
    x[i := x[j]][j := x[i]]
  }

  /** The k-th random draw, or 0 once the supplied draws run out. */
  function Draw(draws: seq<nat>, k: nat): nat {
    if k < |draws| then draws[k] else 0
  }

  /** The in-place Fisher-Yates pass of `random.shuffle`: for i from the last
      index down to 1, exchange x[i] with x[j], where j = randbelow(i + 1). The
      random source is the parameter `draws`; its k-th entry, reduced modulo
      i + 1, stands for the k-th call of randbelow. */
  function ShuffleFrom<T>(x: seq<T>, i: nat, draws: seq<nat>, k: nat): (r: seq<T>)
    requires i < |x|
    ensures |r| == |x|
    ensures multiset(r) == multiset(x)
    decreases i
  {
    if i == 0 then x
    else ShuffleFrom(Swap(x, i, Draw(draws, k) % (i + 1)), i - 1, draws, k + 1)
  }

  function Shuffle<T>(x: seq<T>, draws: seq<nat>): (r: seq<T>)
    ensures |r| == |x|
    ensures multiset(r) == multiset(x)
  {
    if |x| == 0 then x else ShuffleFrom(x, |x| - 1, draws, 0)
  }

  function Fixture(p: Pair): GroupMatch {
    Match(p.0, p.1, None, None, false)
  }

  /** `generate_schedule`: the shuffled combinations, each an unplayed match with no scores. */
  function GenerateSchedule(names: seq<string>, draws: seq<nat>): (r: seq<GroupMatch>)
    ensures |r| == |Pairs(names)|
    ensures forall k :: 0 <= k < |r| ==> !r[k].played && r[k].scoreHome == None && r[k].scoreAway == None
    ensures multiset(PairsOf(r)) == multiset(Pairs(names))
  {
    var shuffled := Shuffle(Pairs(names), draws);
    var r := seq(|shuffled|, k requires 0 <= k < |shuffled| => Fixture(shuffled[k]));
    assert PairsOf(r) == shuffled;
    r
  }

  /** The (home, away) pair of every fixture. */
  function PairsOf(ms: seq<GroupMatch>): seq<Pair> {
    seq(|ms|, k requires 0 <= k < |ms| => (ms[k].home, ms[k].away))
  }

  /** Two fixtures between the same two names, in either orientation. */
  predicate SamePairing(m: GroupMatch, n: GroupMatch) {
    (m.home == n.home && m.away == n.away) || (m.home == n.away && m.away == n.home)
  }

  /** A round robin over distinct names: N(N-1)/2 matches, home always registered
      before away (so never a self-pairing), every pair of names present, and no
      pair of names scheduled twice in either orientation. */
  ghost predicate RoundRobin(names: seq<string>, s: seq<GroupMatch>) {
    && 2 * |s| == |names| * (|names| - 1)
    && (forall k :: 0 <= k < |s| ==> InOrder(names, (s[k].home, s[k].away)) && s[k].home != s[k].away)
    && (forall i, j :: 0 <= i < j < |names| ==> (names[i], names[j]) in PairsOf(s))
    && (forall k, l :: 0 <= k < l < |s| ==> !SamePairing(s[k], s[l]))
  }

  /** For distinct names `generate_schedule` yields a round robin, whatever the random draws. */
  lemma ScheduleIsRoundRobin(names: seq<string>, draws: seq<nat>)
    requires Distinct(names)
    ensures RoundRobin(names, GenerateSchedule(names, draws))
  {
    FixturesOfAllPairs(names, GenerateSchedule(names, draws));
  }

  /** Any fixture list whose (home, away) pairs are the combinations in some order
      is a round robin. */
  lemma {:induction false} FixturesOfAllPairs(names: seq<string>, s: seq<GroupMatch>)
    requires Distinct(names)
    requires multiset(PairsOf(s)) == multiset(Pairs(names))
    ensures RoundRobin(names, s)
  {
    PairsCount(names);
    SameCount(names, s);
    FixturesOrdered(names, s);
    FixturesComplete(names, s);
    FixturesNoRepeats(names, s);
  }

  lemma {:induction false} SameCount(names: seq<string>, s: seq<GroupMatch>)
    requires multiset(PairsOf(s)) == multiset(Pairs(names))
    ensures |s| == |Pairs(names)|
  {
    assert |s| == |PairsOf(s)| == |multiset(PairsOf(s))|;
  }

  lemma {:induction false} FixturesOrdered(names: seq<string>, s: seq<GroupMatch>)
    requires Distinct(names)
    requires multiset(PairsOf(s)) == multiset(Pairs(names))
    ensures forall k :: 0 <= k < |s| ==> InOrder(names, (s[k].home, s[k].away)) && s[k].home != s[k].away
  {
    var ps := PairsOf(s);
    forall k | 0 <= k < |s| ensures InOrder(names, (s[k].home, s[k].away)) && s[k].home != s[k].away {
      assert ps[k] in multiset(Pairs(names));
      PairsMembers(names, ps[k]);
    }
  }

  lemma {:induction false} FixturesComplete(names: seq<string>, s: seq<GroupMatch>)
    requires multiset(PairsOf(s)) == multiset(Pairs(names))
    ensures forall i, j :: 0 <= i < j < |names| ==> (names[i], names[j]) in PairsOf(s)
  {
    forall i, j | 0 <= i < j < |names| ensures (names[i], names[j]) in PairsOf(s) {
      PairsMembers(names, (names[i], names[j]));
      assert (names[i], names[j]) in multiset(PairsOf(s));
    }
  }

  lemma {:induction false} FixturesNoRepeats(names: seq<string>, s: seq<GroupMatch>)
    requires Distinct(names)
    requires multiset(PairsOf(s)) == multiset(Pairs(names))
    ensures forall k, l :: 0 <= k < l < |s| ==> !SamePairing(s[k], s[l])
  {
    var ps := PairsOf(s);
    PairsDistinct(names);
    DistinctPermutation(ps, Pairs(names));
    forall k, l | 0 <= k < l < |s| ensures !SamePairing(s[k], s[l]) {
      assert ps[k] != ps[l];
      assert ps[k] in multiset(Pairs(names)) && ps[l] in multiset(Pairs(names));
      PairsMembers(names, ps[k]);
      PairsMembers(names, ps[l]);
      var i, j :| 0 <= i < j < |names| && names[i] == ps[k].0 && names[j] == ps[k].1;
      var i', j' :| 0 <= i' < j' < |names| && names[i'] == ps[l].0 && names[j'] == ps[l].1;
      assert names[i] == names[j'] ==> i == j';
      assert names[j] == names[i'] ==> j == i';
    }
  }
}
