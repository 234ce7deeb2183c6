/** Shared vocabulary of the tournament model: players, group fixtures, the errors an
    action can report, and a few facts about sequences without repeated elements. */
module Types {

  datatype Option<T> = None | Some(value: T)

  /** Why an action was refused. A refused action leaves the tournament as it was. */
  datatype Error =
    | WrongStage             // the action belongs to another page of the tournament
    | DuplicateNames         // two registration entries carry the same name
    | TooFewPlayers          // fewer than three non-blank registration entries
    | NoSuchMatch            // the match index is outside the fixture list
    | AlreadyPlayed          // a result is already recorded for this match
    | NotPlayed              // there is no result to correct
    | MatchesLeft(left: nat) // group matches still to be played
    | NoSuchSlot             // the knockout slot does not exist in this bracket shape
    | SemifinalsPending      // third place and final wait for both semifinals

  datatype Result<T> = Ok(value: T) | Err(error: Error)

  /** A registration entry: a player's name and the team they play with. */
  datatype Player = Player(name: string, team: string)

  /** A group-stage fixture. Scores are absent until first recorded; a correction
      clears only `played`, so the old scores stay in the record. */
  datatype Match = Match(home: string, away: string, scoreHome: Option<nat>, scoreAway: Option<nat>, played: bool)
  {
    predicate HasScores() {
      played ==> scoreHome.Some? && scoreAway.Some?
    }
  }

  /** A fixture whose played flag is never set without both scores. */
  type GroupMatch = m: Match | m.HasScores() witness Match("", "", None, None, false)

  function Names(ps: seq<Player>): seq<string> {
    seq(|ps|, i requires 0 <= i < |ps| => ps[i].name)
  }

  predicate Distinct<T(==)>(s: seq<T>) {
    forall i, j :: 0 <= i < j < |s| ==> s[i] != s[j]
  }

  /** In a sequence without repeats every value occurs at most once. */
  lemma {:induction false} DistinctOccursOnce<T>(s: seq<T>, x: T)
    requires Distinct(s)
    ensures multiset(s)[x] <= 1
    decreases |s|
  {
    if |s| > 0 {
      var rest := s[1..];
      assert s == [s[0]] + rest;
      assert Distinct(rest) by {
        forall i, j | 0 <= i < j < |rest| ensures rest[i] != rest[j] {
          assert rest[i] == s[i + 1] && rest[j] == s[j + 1];
        }
      }
      DistinctOccursOnce(rest, x);
      if x == s[0] {
        assert x !in rest by {
          forall k | 0 <= k < |rest| ensures rest[k] != x {
            assert rest[k] == s[k + 1];
          }
        }
      }
    }
  }

  /** A value found at two positions occurs at least twice. */
  lemma RepeatOccursTwice<T>(s: seq<T>, i: nat, j: nat)
    requires i < j < |s| && s[i] == s[j]
    ensures multiset(s)[s[i]] >= 2
  {
    assert s == s[..j] + [s[j]] + s[j + 1..];
    assert s[i] in s[..j];
  }

  /** Having no repeats survives any reordering. */
  lemma DistinctPermutation<T>(s: seq<T>, t: seq<T>)
    requires multiset(s) == multiset(t)
    requires Distinct(t)
    ensures Distinct(s)
  {
    forall i, j | 0 <= i < j < |s| ensures s[i] != s[j] {
      if s[i] == s[j] {
        RepeatOccursTwice(s, i, j);
        DistinctOccursOnce(t, s[i]);
      }
    }
  }

  /** Striking the first element of one and a matching element of the other keeps
      two sequences permutations of each other. */
  lemma MultisetRemove<T>(a: seq<T>, b: seq<T>, k: nat)
    requires multiset(a) == multiset(b)
    requires 0 < |a| && k < |b| && b[k] == a[0]
    ensures multiset(a[1..]) == multiset(b[..k] + b[k + 1..])
  {
    assert a == [a[0]] + a[1..];
    assert b == b[..k] + [b[k]] + b[k + 1..];
    assert multiset(b) == multiset(b[..k]) + multiset{b[k]} + multiset(b[k + 1..]);
    assert multiset(a[1..]) == multiset(a) - multiset{a[0]};
  }

  /** A prefix of a sequence without repeats has none either. */
  lemma DistinctPrefix<T>(s: seq<T>, k: nat)
    requires Distinct(s) && k <= |s|
    ensures Distinct(s[..k])
  {
  }

  /** The set of values in a sequence, as Python's `set(s)`. */
  function Elements<T>(s: seq<T>): set<T> {
    set x | x in s
  }

  /** A nonempty sequence has no repeats exactly when its head is not repeated in
      its tail and its tail has none. */
  lemma DistinctCons<T>(s: seq<T>)
    requires |s| > 0
    ensures Distinct(s) <==> s[0] !in s[1..] && Distinct(s[1..])
  {
    var rest := s[1..];
    if s[0] !in rest && Distinct(rest) {
      forall i, j | 0 <= i < j < |s| ensures s[i] != s[j] {
        if i == 0 {
          assert s[j] == rest[j - 1];
        } else {
          assert s[i] == rest[i - 1] && s[j] == rest[j - 1];
        }
      }
    }
    if Distinct(s) {
      forall i, j | 0 <= i < j < |rest| ensures rest[i] != rest[j] {
        assert rest[i] == s[i + 1] && rest[j] == s[j + 1];
      }
      forall k | 0 <= k < |rest| ensures rest[k] != s[0] {
        assert rest[k] == s[k + 1];
      }
    }
  }

  /** `len(set(s)) == len(s)` holds exactly when `s` has no repeats. */
  lemma {:induction false} ElementsCount<T>(s: seq<T>)
    ensures |Elements(s)| <= |s|
    ensures |Elements(s)| == |s| <==> Distinct(s)
    decreases |s|
  {
    if |s| > 0 {
      var rest := s[1..];
      ElementsCount(rest);
      DistinctCons(s);
      assert Elements(s) == {s[0]} + Elements(rest) by {
        assert s == [s[0]] + rest;
      }
      if s[0] in rest {
        assert Elements(s) == Elements(rest);
      } else {
        assert s[0] !in Elements(rest);
      }
    }
  }
}
