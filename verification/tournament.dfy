/** The tournament as a state machine over the three pages of the app: registration,
    the group stage and the playoff. Every user action is a pure function from the
    session state to a new state, or to the error the page reports, in which case
    the session is left as it was. */
module Tournament {
  import opened Types
  import opened Registration
  import opened Schedule
  import opened Table
  import opened Knockout

  datatype Stage = Registering | Group | Playoff

  /** The session: stage, registered players, group fixtures, the playoff bracket
      (absent until the playoff starts), the captured seeds and the player count. */
  datatype State = State(stage: Stage, players: seq<Player>, matches: seq<GroupMatch>,
                         bracket: Option<Bracket>, seeds: seq<string>, playerCount: int)

  /** A fresh (or cleared) session. */
  function Initial(): State {
    State(Registering, [], [], None, [], 0)
  }

  /** Players are registered: at least three, counted, with distinct non-blank names,
      and the fixtures are the pairs of those names in some order. */
  predicate Registered(s: State) {
    && |s.players| >= 3 && s.playerCount == |s.players|
    && Distinct(Names(s.players))
    && (forall k :: 0 <= k < |s.players| ==> !IsBlank(s.players[k].name))
    && multiset(PairsOf(s.matches)) == multiset(Pairs(Names(s.players)))
  }

  predicate AllPlayed(ms: seq<GroupMatch>) {
    forall k :: 0 <= k < |ms| ==> ms[k].played
  }

  /** How many group fixtures carry a result. */
  function PlayedCount(ms: seq<GroupMatch>): (n: nat)
    ensures n <= |ms|
    ensures n == |ms| <==> AllPlayed(ms)
    decreases |ms|
  {
    if |ms| == 0 then 0
    else
      var rest := PlayedCount(ms[1..]);
      assert AllPlayed(ms) <==> ms[0].played && AllPlayed(ms[1..]) by {
        if ms[0].played && AllPlayed(ms[1..]) {
          forall k | 0 <= k < |ms| ensures ms[k].played {
            if k > 0 { assert ms[k] == ms[1..][k - 1]; }
          }
        }
      }
      (if ms[0].played then 1 else 0) + rest
  }

  /** `df.index[:limit]`: the leading names of the table, as many as go through. */
  function Seeds(ps: seq<Player>, ms: seq<GroupMatch>, count: int): seq<string> {
    var names := RowNames(Standings(ps, ms));
    if Quota(count) <= |names| then names[..Quota(count)] else names
  }

  /** The invariant of the session, stage by stage. In the playoff the seeds are
      distinct registered names and the bracket is laid out from them. */
  predicate Valid(s: State) {
    match s.stage
    case Registering => s == Initial()
    case Group => Registered(s) && s.seeds == [] && s.bracket == None
    case Playoff =>
      && Registered(s) && AllPlayed(s.matches)
      && Distinct(s.seeds) && (forall x :: x in s.seeds ==> x in Names(s.players))
      && s.bracket.Some? && FitsSeeds(s.bracket.value, s.seeds, s.playerCount)
  }

  /** In the playoff the seeds are the leading names of the group table. */
  predicate SeededFromTable(s: State) {
    s.stage == Playoff ==> s.seeds == Seeds(s.players, s.matches, s.playerCount)
  }

  // ---------------------------------------------------------------------------
  // Actions

  /** Submitting the registration form. Duplicate names are reported before too few
      players; on success the non-blank entries become the players, in form order,
      and the group stage starts with a freshly shuffled round robin. */
  function Register(s: State, form: seq<Player>, draws: seq<nat>): (r: Result<State>)
    ensures r.Ok? <==> s.stage == Registering && Distinct(Names(NonBlank(form))) && |NonBlank(form)| >= 3
    ensures s.stage == Registering && !Distinct(Names(NonBlank(form))) ==> r == Err(DuplicateNames)
    ensures s.stage == Registering && Distinct(Names(NonBlank(form))) && |NonBlank(form)| < 3 ==> r == Err(TooFewPlayers)
    ensures r.Ok? ==>
      && r.value.stage == Group
      && r.value.players == NonBlank(form) && r.value.playerCount == |NonBlank(form)|
      && r.value.matches == GenerateSchedule(Names(NonBlank(form)), draws)
      && r.value.seeds == s.seeds && r.value.bracket == s.bracket
  {
    if s.stage != Registering then Err(WrongStage)
    else
      var entrants := NonBlank(form);
      var names := Names(entrants);
      ElementsCount(names);
      if |names| != |Elements(names)| then Err(DuplicateNames)
      else if |entrants| < 3 then Err(TooFewPlayers)
      else Ok(s.(stage := Group, players := entrants, playerCount := |entrants|,
                 matches := GenerateSchedule(names, draws)))
  }

  function WithResult(m: GroupMatch, scoreHome: nat, scoreAway: nat): GroupMatch {
    m.(scoreHome := Some(scoreHome), scoreAway := Some(scoreAway), played := true)
  }

  /** Saving the result of an unplayed group fixture. */
  function RecordGroupMatch(s: State, i: int, scoreHome: nat, scoreAway: nat): (r: Result<State>)
    ensures r.Ok? <==> s.stage == Group && 0 <= i < |s.matches| && !s.matches[i].played
    ensures r.Ok? ==>
      && |r.value.matches| == |s.matches|
      && r.value.matches[i] == Match(s.matches[i].home, s.matches[i].away, Some(scoreHome), Some(scoreAway), true)
      && (forall k :: 0 <= k < |s.matches| && k != i ==> r.value.matches[k] == s.matches[k])
      && r.value.(matches := s.matches) == s
  {
    if s.stage != Group then Err(WrongStage)
    else if !(0 <= i < |s.matches|) then Err(NoSuchMatch)
    else if s.matches[i].played then Err(AlreadyPlayed)
    else Ok(s.(matches := s.matches[i := WithResult(s.matches[i], scoreHome, scoreAway)]))
  }

  /** Correcting a played group fixture: only the played flag is cleared, the old
      scores stay in the record. */
  function CorrectGroupMatch(s: State, i: int): (r: Result<State>)
    ensures r.Ok? <==> s.stage == Group && 0 <= i < |s.matches| && s.matches[i].played
    ensures r.Ok? ==>
      && |r.value.matches| == |s.matches|
      && !r.value.matches[i].played
      && r.value.matches[i].(played := true) == s.matches[i]
      && (forall k :: 0 <= k < |s.matches| && k != i ==> r.value.matches[k] == s.matches[k])
      && r.value.(matches := s.matches) == s
  {
    if s.stage != Group then Err(WrongStage)
    else if !(0 <= i < |s.matches|) then Err(NoSuchMatch)
    else if !s.matches[i].played then Err(NotPlayed)
    else Ok(s.(matches := s.matches[i := s.matches[i].(played := false)]))
  }

  /** Moving on to the playoff. Allowed only once no group fixture is left; the top
      of the table is captured as the seeds and the bracket is laid out from them. */
  function AdvanceToPlayoff(s: State): (r: Result<State>)
    requires Valid(s)
    ensures r.Ok? <==> s.stage == Group && AllPlayed(s.matches)
    ensures s.stage == Group && !AllPlayed(s.matches) ==>
      r == Err(MatchesLeft(|s.matches| - PlayedCount(s.matches))) && r.error.left > 0
    ensures r.Ok? ==>
      var t := r.value;
      && t.stage == Playoff
      && t.players == s.players && t.matches == s.matches && t.playerCount == s.playerCount
      && |t.seeds| == Quota(s.playerCount) && Distinct(t.seeds)
      && (forall x :: x in t.seeds ==> x in Names(s.players))
      && t.seeds == RowNames(Standings(s.players, s.matches))[..Quota(s.playerCount)]
      && t.bracket == Some(InitBracket(t.seeds, s.playerCount))
  {
    if s.stage != Group then Err(WrongStage)
    else
      var left := |s.matches| - PlayedCount(s.matches);
      if left != 0 then Err(MatchesLeft(left))
      else
        var seeds := Seeds(s.players, s.matches, s.playerCount);
        SeedsFacts(s.players, s.matches, s.playerCount);
        Ok(s.(stage := Playoff, seeds := seeds, bracket := Some(InitBracket(seeds, s.playerCount))))
  }

  /** Saving a playoff result. */
  function RecordPlayoffMatch(s: State, slot: Slot, scoreHome: nat, scoreAway: nat): (r: Result<State>)
    requires Valid(s)
    ensures r.Ok? <==> s.stage == Playoff && RecordKnockout(s.bracket.value, slot, scoreHome, scoreAway).Ok?
    ensures r.Ok? ==>
      && r.value.bracket == Some(RecordKnockout(s.bracket.value, slot, scoreHome, scoreAway).value)
      && r.value.(bracket := s.bracket) == s
  {
    if s.stage != Playoff then Err(WrongStage)
    else
      match RecordKnockout(s.bracket.value, slot, scoreHome, scoreAway)
      case Err(e) => Err(e)
      case Ok(b) => Ok(s.(bracket := Some(b)))
  }

  datatype Action =
    | Submit(form: seq<Player>, draws: seq<nat>)
    | SaveGroupResult(index: int, scoreHome: nat, scoreAway: nat)
    | FixGroupResult(index: int)
    | Proceed
    | SaveKnockoutResult(slot: Slot, scoreHome: nat, scoreAway: nat)
    | Restart

  /** The stage only moves forward: registration to group to playoff. */
  predicate Moves(from: Stage, to: Stage) {
    || from == to
    || (from == Registering && to == Group)
    || (from == Group && to == Playoff)
  }

  /** One user action. A restart clears the session from any stage. Every other
      accepted action keeps the session valid and moves the stage only forward; in
      the playoff the players, the group results and the seeds are frozen. */
  function Step(s: State, a: Action): (r: Result<State>)
    requires Valid(s)
    ensures r.Ok? ==> Valid(r.value)
    ensures a.Restart? ==> r == Ok(Initial())
    ensures r.Ok? && !a.Restart? ==> Moves(s.stage, r.value.stage)
    ensures r.Ok? && s.stage == Playoff && !a.Restart? ==>
      r.value.players == s.players && r.value.matches == s.matches && r.value.seeds == s.seeds
  {
    match a
    case Submit(form, draws) =>
      RegisterKeepsValid(s, form, draws);
      Register(s, form, draws)
    case SaveGroupResult(i, sh, sa) =>
      RecordKeepsValid(s, i, sh, sa);
      RecordGroupMatch(s, i, sh, sa)
    case FixGroupResult(i) =>
      CorrectKeepsValid(s, i);
      CorrectGroupMatch(s, i)
    case Proceed =>
      AdvanceKeepsValid(s);
      AdvanceToPlayoff(s)
    case SaveKnockoutResult(slot, sh, sa) =>
      PlayoffKeepsValid(s, slot, sh, sa);
      RecordPlayoffMatch(s, slot, sh, sa)
    case Restart => Ok(Initial())
  }

  // ---------------------------------------------------------------------------
  // Properties

  /** With distinct names the seeds are that many distinct registered names: the
      leading rows of the table, each ranking at least as high as every row below. */
  lemma SeedsFacts(ps: seq<Player>, ms: seq<GroupMatch>, count: int)
    requires |ps| >= 3 && count == |ps| && Distinct(Names(ps))
    ensures var seeds, table := Seeds(ps, ms, count), Standings(ps, ms);
      && |table| == |ps|
      && |seeds| == Quota(count) && Distinct(seeds)
      && seeds == RowNames(table)[..Quota(count)]
      && (forall x :: x in seeds ==> x in Names(ps))
      && (forall k, l :: 0 <= k < Quota(count) <= l < |table| ==> RanksAtLeast(table[k], table[l]))
  {
    var table := Standings(ps, ms);
    var names := RowNames(table);
    assert |names| == |multiset(names)| == |multiset(Names(ps))| == |ps|;
    DistinctPermutation(names, Names(ps));
    DistinctPrefix(names, Quota(count));
    forall x | x in names[..Quota(count)] ensures x in Names(ps) {
      assert x in multiset(names);
    }
  }

  /** Once registered, the fixtures form a round robin over the registered names:
      N(N-1)/2 matches, no self-pairing, each pair of names exactly once. */
  lemma ValidIsRoundRobin(s: State)
    requires Valid(s) && s.stage != Registering
    ensures RoundRobin(Names(s.players), s.matches)
  {
    FixturesOfAllPairs(Names(s.players), s.matches);
  }

  /** Replacing a fixture by one between the same two names keeps the pairs. */
  lemma PairsKept(ms: seq<GroupMatch>, i: nat, m: GroupMatch)
    requires i < |ms| && m.home == ms[i].home && m.away == ms[i].away
    ensures PairsOf(ms[i := m]) == PairsOf(ms)
  {
  }

  lemma RegisterKeepsValid(s: State, form: seq<Player>, draws: seq<nat>)
    requires Valid(s)
    ensures Register(s, form, draws).Ok? ==> Valid(Register(s, form, draws).value)
  {
    var entrants := NonBlank(form);
    if Register(s, form, draws).Ok? {
      forall k | 0 <= k < |entrants| ensures !IsBlank(entrants[k].name) {
        assert entrants[k] in entrants;
      }
    }
  }

  lemma RecordKeepsValid(s: State, i: int, scoreHome: nat, scoreAway: nat)
    requires Valid(s)
    ensures RecordGroupMatch(s, i, scoreHome, scoreAway).Ok? ==> Valid(RecordGroupMatch(s, i, scoreHome, scoreAway).value)
  {
    if RecordGroupMatch(s, i, scoreHome, scoreAway).Ok? {
      PairsKept(s.matches, i, WithResult(s.matches[i], scoreHome, scoreAway));
    }
  }

  lemma CorrectKeepsValid(s: State, i: int)
    requires Valid(s)
    ensures CorrectGroupMatch(s, i).Ok? ==> Valid(CorrectGroupMatch(s, i).value)
  {
    if CorrectGroupMatch(s, i).Ok? {
      PairsKept(s.matches, i, s.matches[i].(played := false));
    }
  }

  lemma AdvanceKeepsValid(s: State)
    requires Valid(s)
    ensures AdvanceToPlayoff(s).Ok? ==> Valid(AdvanceToPlayoff(s).value)
  {
    if AdvanceToPlayoff(s).Ok? {
      var t := AdvanceToPlayoff(s).value;
      BracketKeepsSeeds(t.seeds, t.playerCount, t.bracket.value, Final, 0, 0);
    }
  }

  lemma PlayoffKeepsValid(s: State, slot: Slot, scoreHome: nat, scoreAway: nat)
    requires Valid(s)
    ensures RecordPlayoffMatch(s, slot, scoreHome, scoreAway).Ok? ==> Valid(RecordPlayoffMatch(s, slot, scoreHome, scoreAway).value)
  {
    if s.stage == Playoff {
      BracketKeepsSeeds(s.seeds, s.playerCount, s.bracket.value, slot, scoreHome, scoreAway);
    }
  }

  /** The seeds captured on moving on stay the leading names of the group table for
      the rest of the playoff, since no playoff action touches players or results. */
  lemma SeedsStayFromTable(s: State, a: Action)
    ensures Valid(s) && SeededFromTable(s) && Step(s, a).Ok? ==> SeededFromTable(Step(s, a).value)
  {
    if Valid(s) && SeededFromTable(s) && Step(s, a).Ok? {
      var t := Step(s, a).value;
      if a.Restart? {
        assert t.stage == Registering;
      } else if s.stage == Playoff {
        assert t.players == s.players && t.matches == s.matches && t.seeds == s.seeds;
        assert t.playerCount == |t.players| == s.playerCount;
      } else if a.Proceed? {
        SeedsFacts(s.players, s.matches, s.playerCount);
      } else {
        assert t.stage != Playoff;
      }
    }
  }

  /** A corrected fixture leaves the table: the standings after a correction are the
      standings of the other fixtures alone. */
  lemma CorrectionForgetsMatch(s: State, i: int)
    requires CorrectGroupMatch(s, i).Ok?
    ensures var t := CorrectGroupMatch(s, i).value;
      Standings(t.players, t.matches) == Standings(s.players, s.matches[..i] + s.matches[i + 1..])
  {
    var t := CorrectGroupMatch(s, i).value;
    UnplayedIgnored(t.players, t.matches, i);
    assert t.matches[..i] + t.matches[i + 1..] == s.matches[..i] + s.matches[i + 1..];
  }

  /** Recording a result and then correcting it gives back the table from before. */
  lemma RecordCorrectRestoresTable(s: State, i: int, scoreHome: nat, scoreAway: nat)
    requires RecordGroupMatch(s, i, scoreHome, scoreAway).Ok?
    ensures var t := RecordGroupMatch(s, i, scoreHome, scoreAway).value;
      && CorrectGroupMatch(t, i).Ok?
      && Standings(s.players, CorrectGroupMatch(t, i).value.matches) == Standings(s.players, s.matches)
  {
    var t := RecordGroupMatch(s, i, scoreHome, scoreAway).value;
    var u := CorrectGroupMatch(t, i).value;
    UnplayedIgnored(s.players, u.matches, i);
    UnplayedIgnored(s.players, s.matches, i);
    assert u.matches[..i] + u.matches[i + 1..] == s.matches[..i] + s.matches[i + 1..];
  }

  /** After recording and correcting a result, recording again has exactly the
      effect a first recording of the new scores would have had. */
  lemma RecordCorrectRecord(s: State, i: int, scoreHome: nat, scoreAway: nat, newHome: nat, newAway: nat)
    requires RecordGroupMatch(s, i, scoreHome, scoreAway).Ok?
    ensures var t := RecordGroupMatch(s, i, scoreHome, scoreAway).value;
      && CorrectGroupMatch(t, i).Ok?
      && RecordGroupMatch(CorrectGroupMatch(t, i).value, i, newHome, newAway) == RecordGroupMatch(s, i, newHome, newAway)
  {
    var t := RecordGroupMatch(s, i, scoreHome, scoreAway).value;
    var u := CorrectGroupMatch(t, i).value;
    assert u.matches[i := WithResult(u.matches[i], newHome, newAway)]
        == s.matches[i := WithResult(s.matches[i], newHome, newAway)];
  }
}
