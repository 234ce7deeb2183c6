/** The playoff page: a direct final between the top two seeds when three players
    registered, otherwise semifinals 1 v 4 and 2 v 3 feeding a third-place match
    and a final. A match goes to the home side only on a strictly higher score. */
module Knockout {
  import opened Types

  /** A playoff match record. The third-place match and the final keep no
      participants of their own (both stay absent); they are read off the
      semifinal results whenever they are needed. */
  datatype KnockoutMatch = KnockoutMatch(home: Option<string>, away: Option<string>, scoreHome: nat, scoreAway: nat, played: bool)

  /** The two bracket shapes, chosen by the number of registered players. */
  datatype Bracket =
    | DirectFinal(final: KnockoutMatch)
    | Seeded(semi1: KnockoutMatch, semi2: KnockoutMatch, third: KnockoutMatch, final: KnockoutMatch)

  /** The playoff match keys: FINAL_3P, SF1, SF2, 3RD and FINAL. */
  datatype Slot = FinalOfThree | Semi1 | Semi2 | ThirdPlace | Final

  /** How many players go through: two with three players, four otherwise. */
  function Quota(count: int): nat {
    if count == 3 then 2 else 4
  }

  function Unplayed(home: Option<string>, away: Option<string>): KnockoutMatch {
    KnockoutMatch(home, away, 0, 0, false)
  }

  /** The bracket laid out on the first visit to the playoff page. */
  function InitBracket(seeds: seq<string>, count: int): (b: Bracket)
    requires |seeds| >= Quota(count)
    ensures b.DirectFinal? <==> count == 3
    ensures b.DirectFinal? ==> b.final == Unplayed(Some(seeds[0]), Some(seeds[1]))
    ensures b.Seeded? ==>
      && b.semi1 == Unplayed(Some(seeds[0]), Some(seeds[3]))
      && b.semi2 == Unplayed(Some(seeds[1]), Some(seeds[2]))
      && b.third == Unplayed(None, None) && b.final == Unplayed(None, None)
  {
    if count == 3 then DirectFinal(Unplayed(Some(seeds[0]), Some(seeds[1])))
    else Seeded(Unplayed(Some(seeds[0]), Some(seeds[3])), Unplayed(Some(seeds[1]), Some(seeds[2])),
                Unplayed(None, None), Unplayed(None, None))
  }

  /** Winner and loser of a match between `home` and `away`: the home side only on
      a strictly higher score, so a level score sends the away side through. */
  function Outcome(home: string, away: string, scoreHome: nat, scoreAway: nat): (r: (string, string))
    ensures (r.0 == home && r.1 == away) || (r.0 == away && r.1 == home)
    ensures home != away ==> (r.0 == home <==> scoreHome > scoreAway)
  {
    if scoreHome > scoreAway then (home, away) else (away, home)
  }

  /** A match with both participants known and a recorded result. */
  predicate Decided(m: KnockoutMatch) {
    m.played && m.home.Some? && m.away.Some?
  }

  function OutcomeOf(m: KnockoutMatch): (string, string)
    requires Decided(m)
  {
    Outcome(m.home.value, m.away.value, m.scoreHome, m.scoreAway)
  }

  predicate SemisDecided(b: Bracket) {
    b.Seeded? && Decided(b.semi1) && Decided(b.semi2)
  }

  /** The third-place pairing (semifinal 1 loser against semifinal 2 loser), once both
      semifinals are decided. */
  function ThirdPlacePairing(b: Bracket): Option<(string, string)> {
    if SemisDecided(b) then Some((OutcomeOf(b.semi1).1, OutcomeOf(b.semi2).1)) else None
  }

  /** The final pairing (semifinal 1 winner against semifinal 2 winner), once both
      semifinals are decided. */
  function FinalPairing(b: Bracket): Option<(string, string)> {
    if SemisDecided(b) then Some((OutcomeOf(b.semi1).0, OutcomeOf(b.semi2).0)) else None
  }

  /** The tournament winner, once the final is recorded. */
  function Champion(b: Bracket): Option<string> {
    match b
    case DirectFinal(f) => if Decided(f) then Some(OutcomeOf(f).0) else None
    case Seeded(_, _, _, f) =>
      if SemisDecided(b) && f.played
      then Some(Outcome(FinalPairing(b).value.0, FinalPairing(b).value.1, f.scoreHome, f.scoreAway).0)
      else None
  }

  /** The match stored under a key, if the bracket shape has that key. */
  function MatchAt(b: Bracket, slot: Slot): Option<KnockoutMatch> {
    match (b, slot)
    case (DirectFinal(f), FinalOfThree) => Some(f)
    case (Seeded(s1, _, _, _), Semi1) => Some(s1)
    case (Seeded(_, s2, _, _), Semi2) => Some(s2)
    case (Seeded(_, _, t, _), ThirdPlace) => Some(t)
    case (Seeded(_, _, _, f), Final) => Some(f)
    case _ => None
  }

  function Record(m: KnockoutMatch, scoreHome: nat, scoreAway: nat): KnockoutMatch {
    m.(scoreHome := scoreHome, scoreAway := scoreAway, played := true)
  }

  /** Saving a playoff result. The page offers a match only while it is unplayed,
      and the third-place match and the final only once both semifinals are played;
      nothing orders the third-place match before the final, and draws are accepted. */
  function RecordKnockout(b: Bracket, slot: Slot, scoreHome: nat, scoreAway: nat): (r: Result<Bracket>)
    ensures r.Ok? <==>
      && MatchAt(b, slot).Some? && !MatchAt(b, slot).value.played
      && (slot == ThirdPlace || slot == Final ==> b.semi1.played && b.semi2.played)
    ensures r.Ok? ==>
      && r.value.DirectFinal? == b.DirectFinal?
      && MatchAt(r.value, slot) == Some(Record(MatchAt(b, slot).value, scoreHome, scoreAway))
      && forall other :: other != slot ==> MatchAt(r.value, other) == MatchAt(b, other)
  {
    match b
    case DirectFinal(f) =>
      if slot != FinalOfThree then Err(NoSuchSlot)
      else if f.played then Err(AlreadyPlayed)
      else Ok(DirectFinal(Record(f, scoreHome, scoreAway)))
    case Seeded(s1, s2, t, f) =>
      match slot
      case FinalOfThree => Err(NoSuchSlot)
      case Semi1 => if s1.played then Err(AlreadyPlayed) else Ok(b.(semi1 := Record(s1, scoreHome, scoreAway)))
      case Semi2 => if s2.played then Err(AlreadyPlayed) else Ok(b.(semi2 := Record(s2, scoreHome, scoreAway)))
      case ThirdPlace =>
        if !(s1.played && s2.played) then Err(SemifinalsPending)
        else if t.played then Err(AlreadyPlayed)
        else Ok(b.(third := Record(t, scoreHome, scoreAway)))
      case Final =>
        if !(s1.played && s2.played) then Err(SemifinalsPending)
        else if f.played then Err(AlreadyPlayed)
        else Ok(b.(final := Record(f, scoreHome, scoreAway)))
  }

  /** The bracket agrees with the seeds: the right shape, the seeded participants in
      place, and the third-place match and final recorded only after both semifinals. */
  predicate FitsSeeds(b: Bracket, seeds: seq<string>, count: int) {
    if count == 3 then
      && |seeds| == 2 && b.DirectFinal?
      && b.final.home == Some(seeds[0]) && b.final.away == Some(seeds[1])
    else
      && |seeds| == 4 && b.Seeded?
      && b.semi1.home == Some(seeds[0]) && b.semi1.away == Some(seeds[3])
      && b.semi2.home == Some(seeds[1]) && b.semi2.away == Some(seeds[2])
      && (b.third.played || b.final.played ==> b.semi1.played && b.semi2.played)
  }

  /** A fresh bracket fits its seeds, and recording results keeps it fitting. */
  lemma BracketKeepsSeeds(seeds: seq<string>, count: int, b: Bracket, slot: Slot, scoreHome: nat, scoreAway: nat)
    requires |seeds| == Quota(count)
    ensures FitsSeeds(InitBracket(seeds, count), seeds, count)
    ensures FitsSeeds(b, seeds, count) && RecordKnockout(b, slot, scoreHome, scoreAway).Ok? ==>
      FitsSeeds(RecordKnockout(b, slot, scoreHome, scoreAway).value, seeds, count)
  {
  }

  /** Both semifinals played: the third-place match pairs the semifinal losers and
      the final the semifinal winners, and the champion is semifinal 1's winner
      exactly when the final's home score is strictly higher. */
  lemma SemifinalPairings(b: Bracket, seeds: seq<string>)
    requires FitsSeeds(b, seeds, 4) && b.semi1.played && b.semi2.played
    ensures ThirdPlacePairing(b) == Some((Semi1Result(b, seeds).1, Semi2Result(b, seeds).1))
    ensures FinalPairing(b) == Some((Semi1Result(b, seeds).0, Semi2Result(b, seeds).0))
    ensures b.final.played ==>
      Champion(b) == Some(if b.final.scoreHome > b.final.scoreAway then Semi1Result(b, seeds).0 else Semi2Result(b, seeds).0)
  {
  }

  /** Winner and loser of semifinal 1: seed 1 (home) against seed 4 (away). */
  function Semi1Result(b: Bracket, seeds: seq<string>): (string, string)
    requires b.Seeded? && |seeds| == 4
  {
    Outcome(seeds[0], seeds[3], b.semi1.scoreHome, b.semi1.scoreAway)
  }

  /** Winner and loser of semifinal 2: seed 2 (home) against seed 3 (away). */
  function Semi2Result(b: Bracket, seeds: seq<string>): (string, string)
    requires b.Seeded? && |seeds| == 4
  {
    Outcome(seeds[1], seeds[2], b.semi2.scoreHome, b.semi2.scoreAway)
  }

  /** Whatever the semifinal scores, the two winners and two losers are the four
      seeds, each exactly once. */
  lemma SemifinalistsAreSeeds(seeds: seq<string>, h1: nat, a1: nat, h2: nat, a2: nat)
    requires |seeds| == 4 && Distinct(seeds)
    ensures var r1 := Outcome(seeds[0], seeds[3], h1, a1);
      var r2 := Outcome(seeds[1], seeds[2], h2, a2);
      && Distinct([r1.0, r1.1, r2.0, r2.1])
      && forall x :: x in [r1.0, r1.1, r2.0, r2.1] <==> x in seeds
  {
    var r1 := Outcome(seeds[0], seeds[3], h1, a1);
    var r2 := Outcome(seeds[1], seeds[2], h2, a2);
    var four := [r1.0, r1.1, r2.0, r2.1];
    var (s0, s1, s2, s3) := (seeds[0], seeds[1], seeds[2], seeds[3]);
    assert seeds == [s0, s1, s2, s3];
    assert s0 != s1 && s0 != s2 && s0 != s3 && s1 != s2 && s1 != s3 && s2 != s3;
    if h1 > a1 {
      assert r1 == (s0, s3);
    } else {
      assert r1 == (s3, s0);
    }
    if h2 > a2 {
      assert r2 == (s1, s2);
    } else {
      assert r2 == (s2, s1);
    }
  }

  /** The top two seeds are in different semifinals, so they cannot meet before the
      last round. They meet in the final exactly when both win their semifinal, and
      in the third-place match exactly when both lose it (a level score counts as a
      loss for the home side). */
  lemma TopSeedsInSeparateSemifinals(b: Bracket, seeds: seq<string>)
    requires Distinct(seeds) && FitsSeeds(b, seeds, 4) && b.semi1.played && b.semi2.played
    ensures b.semi1.away != Some(seeds[1]) && b.semi2.away != Some(seeds[0])
    ensures FinalPairing(b) == Some((seeds[0], seeds[1])) <==>
      b.semi1.scoreHome > b.semi1.scoreAway && b.semi2.scoreHome > b.semi2.scoreAway
    ensures ThirdPlacePairing(b) == Some((seeds[0], seeds[1])) <==>
      b.semi1.scoreHome <= b.semi1.scoreAway && b.semi2.scoreHome <= b.semi2.scoreAway
  {
    assert seeds[3] != seeds[1] && seeds[2] != seeds[0];
    SemifinalPairings(b, seeds);
  }

  /** With three players the final is seed 1 (home) against seed 2 (away); the
      champion is seed 1 exactly when seed 1 scores strictly more, else seed 2. */
  lemma DirectFinalResolution(b: Bracket, seeds: seq<string>)
    requires Distinct(seeds) && FitsSeeds(b, seeds, 3) && b.final.played
    ensures Champion(b) == Some(if b.final.scoreHome > b.final.scoreAway then seeds[0] else seeds[1])
    ensures Champion(b).value in seeds
  {
  }
}
