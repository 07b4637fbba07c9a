/**
 * The records of the tournament application and the rules attached to them:
 * tournament status and validation, participants and their drawn numbers,
 * games with their pair-unordered equality and save guards, the labels shown
 * for unresolved play-off slots, winners and losers from set results, and the
 * table-tennis set-score rule.
 *
 * Instants are whole seconds, calendar dates are day ordinals (day 1 is
 * 1 January of year 1, a Monday), times of day are seconds after midnight.
 */
module Models {
  import opened Basics

  /** Primary key of a participant record. */
  type Pid = int

  const SecondsPerDay: nat := 86400

  /** The calendar date of an instant. */
  function DateOf(instant: int): int
  {
    instant / SecondsPerDay
  }

  datatype Tournament = Tournament(
    id: int,
    debug: bool,
    regEnd: int,              // instant
    drawTime: int,            // instant
    startDate: int,           // date
    startDatePlayoff: int,    // date
    endDate: int,             // date
    gamesPerPerson: int,
    gameStartTime: int,       // time of day
    gameDuration: nat)        // seconds

  // ---------------------------------------------------------------------------
  // Tournament.clean and Tournament.get_status

  datatype TournamentError =
    | RegistrationEndInPast
    | DrawNotAfterRegistration
    | StartNotAfterDraw

  /** Validation of a tournament's schedule against the current instant `now`. */
  function TournamentClean(t: Tournament, now: int): (r: Outcome<TournamentError>)
    ensures t.debug ==> r == Pass
    ensures !t.debug ==>
      (r == Pass <==> now < t.regEnd && t.regEnd < t.drawTime && DateOf(t.drawTime) < t.startDate)
    ensures !t.debug && t.regEnd <= now ==> r == Fail(RegistrationEndInPast)
  {
    if t.debug then Pass
    else if t.regEnd <= now then Fail(RegistrationEndInPast)
    else if t.drawTime <= t.regEnd then Fail(DrawNotAfterRegistration)
    else if t.startDate <= DateOf(t.drawTime) then Fail(StartNotAfterDraw)
    else Pass
  }

  const RegistrationOpen := 0
  const RegistrationOver := 1
  const GroupStage := 2
  const PlayoffStage := 3
  const Finished := 4

  /** The stage of the tournament at instant `now`, whose local date is `today`. */
  function GetStatus(t: Tournament, now: int, today: int): (s: int)
    ensures 0 <= s <= 4
    ensures s == RegistrationOpen <==> now < t.regEnd
    ensures s == RegistrationOver <==> t.regEnd <= now && today < t.startDate
    ensures s == GroupStage <==> t.regEnd <= now && t.startDate <= today < t.startDatePlayoff
    ensures s == PlayoffStage <==>
      t.regEnd <= now && t.startDate <= today && t.startDatePlayoff <= today <= t.endDate
  {
    if now < t.regEnd then RegistrationOpen
    else if now >= t.regEnd && today < t.startDate then RegistrationOver
    else if t.startDate <= today < t.startDatePlayoff then GroupStage
    else if t.startDatePlayoff <= today <= t.endDate then PlayoffStage
    else Finished
  }

  /** The status only moves forward as time passes, when the group stage starts no later than the play-off. */
  lemma StatusMonotone(t: Tournament, now1: int, now2: int)
    requires t.startDate <= t.startDatePlayoff
    requires now1 <= now2
    ensures GetStatus(t, now1, DateOf(now1)) <= GetStatus(t, now2, DateOf(now2))
  {
    assert DateOf(now1) <= DateOf(now2);
  }

  // ---------------------------------------------------------------------------
  // Set results

  datatype SetScore = SetScore(result1: int, result2: int)

  datatype ScoreError = MustBeEleven | DifferenceBelowTwo | BelowEleven | EqualScores

  /** The acceptance rule as stated over the winner's and loser's points. */
  predicate ScoreAccepted(r1: int, r2: int)
  {
    var hi := if r1 > r2 then r1 else r2;
    var lo := if r1 > r2 then r2 else r1;
    hi - lo >= 2 && (hi - lo > 2 ==> hi == 11) && (hi - lo == 2 ==> hi >= 11)
  }

  /** A finished game under law 2.11 of the ITTF Laws of Table Tennis: the first
      to 11 points wins, unless both reached 10, when a 2-point lead wins. */
  predicate LawfulGameScore(r1: int, r2: int)
  {
    var hi := if r1 > r2 then r1 else r2;
    var lo := if r1 > r2 then r2 else r1;
    lo >= 0 && ((hi == 11 && lo <= 9) || (lo >= 10 && hi == lo + 2))
  }

  /** The check run before a set result is stored. */
  function CheckSetScore(r1: int, r2: int): (r: Outcome<ScoreError>)
    ensures r == Pass <==> ScoreAccepted(r1, r2)
    ensures r1 == r2 ==> r == Fail(EqualScores)
  {
    if r1 > r2 then
      if r1 - r2 > 2 then (if r1 != 11 then Fail(MustBeEleven) else Pass)
      else if r1 - r2 == 1 then Fail(DifferenceBelowTwo)
      else if r1 < 11 then Fail(BelowEleven) else Pass
    else if r2 > r1 then
      if r2 - r1 > 2 then (if r2 != 11 then Fail(MustBeEleven) else Pass)
      else if r2 - r1 == 1 then Fail(DifferenceBelowTwo)
      else if r2 < 11 then Fail(BelowEleven) else Pass
    else Fail(EqualScores)
  }

  /** For non-negative points the stored scores are exactly the finished games of law 2.11. */
  lemma SetRuleMatchesLaw(r1: int, r2: int)
    requires r1 >= 0 && r2 >= 0
    ensures CheckSetScore(r1, r2) == Pass <==> LawfulGameScore(r1, r2)
  {
  }

  /** A negative score is never part of a lawful game, but the check lets some through. */
  lemma NegativeScoreAccepted()
    ensures CheckSetScore(11, -1) == Pass && !LawfulGameScore(11, -1)
  {
  }

  // ---------------------------------------------------------------------------
  // Games

  /** Game identifiers: 0 group stage, 1-4 quarterfinals, 5-6 semifinals,
      7 match for third place, 8 final. */
  datatype Game = Game(
    tournament: int,
    gameId: int,
    id1: int,
    id2: int,
    participant1: Option<Pid>,
    participant2: Option<Pid>,
    gameDate: Option<int>,
    startTime: Option<int>,
    results: seq<SetScore>)

  /** A fresh, unscheduled group-stage game between drawn numbers a and b. */
  function GroupGame(t: int, a: int, b: int): Game
  {
    Game(t, 0, a, b, None, None, None, None, [])
  }

  /** Game.__eq__: same tournament, same round and the same unordered pair. */
  predicate GameEq(a: Game, b: Game)
  {
    a.tournament == b.tournament && a.gameId == b.gameId &&
    ((a.id1 == b.id1 && a.id2 == b.id2) || (a.id1 == b.id2 && a.id2 == b.id1))
  }

  /** Game.__ne__, written out independently in the source. */
  predicate GameNe(a: Game, b: Game)
  {
    a.tournament != b.tournament || a.gameId != b.gameId ||
    ((a.id1 != b.id1 || a.id2 != b.id2) && (a.id1 != b.id2 || a.id2 != b.id1))
  }

  lemma NeIsNotEq(a: Game, b: Game)
    ensures GameNe(a, b) <==> !GameEq(a, b)
  {
  }

  /** Equality compares the players as an unordered pair, i.e. as a multiset of two ids. */
  lemma EqIsUnorderedPair(a: Game, b: Game)
    ensures GameEq(a, b) <==>
      a.tournament == b.tournament && a.gameId == b.gameId &&
      multiset{a.id1, a.id2} == multiset{b.id1, b.id2}
  {
    var ma, mb := multiset{a.id1, a.id2}, multiset{b.id1, b.id2};
    if ma == mb {
      assert ma[a.id1] == mb[a.id1] && ma[a.id2] == mb[a.id2];
      assert mb[b.id1] == ma[b.id1];
    }
  }

  /** Game equality is an equivalence relation. */
  lemma GameEqEquivalence(a: Game, b: Game, c: Game)
    ensures GameEq(a, a)
    ensures GameEq(a, b) ==> GameEq(b, a)
    ensures GameEq(a, b) && GameEq(b, c) ==> GameEq(a, c)
  {
  }

  /** Python's `g in gs`: some stored game compares equal to g. */
  predicate Contains(gs: seq<Game>, g: Game)
  {
    gs != [] && (GameEq(gs[0], g) || Contains(gs[1..], g))
  }

  lemma {:induction false} ContainsSpec(gs: seq<Game>, g: Game)
    ensures Contains(gs, g) <==> exists k :: 0 <= k < |gs| && GameEq(gs[k], g)
  {
    if gs != [] {
      ContainsSpec(gs[1..], g);
      if Contains(gs[1..], g) {
        var k :| 0 <= k < |gs| - 1 && GameEq(gs[1..][k], g);
        assert GameEq(gs[k + 1], g);
      }
      if exists k :: 0 <= k < |gs| && GameEq(gs[k], g) {
        var k :| 0 <= k < |gs| && GameEq(gs[k], g);
        if k > 0 {
          assert GameEq(gs[1..][k - 1], g);
        }
      }
    }
  }

  /** No two games of the sequence compare equal. */
  predicate NoDup(gs: seq<Game>)
  {
    forall i, j :: 0 <= i < j < |gs| ==> !GameEq(gs[i], gs[j])
  }

  datatype SaveError = SamePerson | Duplicate

  /** The checks of Game.save; `firstCall` is false for updates of a stored game. */
  function SaveGuard(g: Game, stored: seq<Game>, firstCall: bool): (r: Outcome<SaveError>)
    ensures !firstCall ==> r == Pass
    ensures firstCall ==> (r == Pass <==> g.id1 != g.id2 && forall k :: 0 <= k < |stored| ==> !GameEq(stored[k], g))
    ensures firstCall && g.id1 == g.id2 ==> r == Fail(SamePerson)
  {
    ContainsSpec(stored, g);
    if !firstCall then Pass
    else if g.id1 == g.id2 then Fail(SamePerson)
    else if Contains(stored, g) then Fail(Duplicate)
    else Pass
  }

  /** Storing a new game: the guard, then an append to the stored games. */
  function SaveNew(g: Game, stored: seq<Game>): (r: Result<seq<Game>, SaveError>)
  {
    match SaveGuard(g, stored, true)
    case Pass => Ok(stored + [g])
    case Fail(e) => Err(e)
  }

  /** Games stored through the first-call guard never hold two equal games or a self-pairing. */
  lemma SaveKeepsNoDup(g: Game, stored: seq<Game>)
    requires NoDup(stored)
    ensures SaveNew(g, stored).Ok? ==>
      var s := SaveNew(g, stored).value;
      NoDup(s) && s[|s| - 1].id1 != s[|s| - 1].id2 && s[..|stored|] == stored
  {
    if SaveNew(g, stored).Ok? {
      var s := stored + [g];
      forall i, j | 0 <= i < j < |s|
        ensures !GameEq(s[i], s[j])
      {
        if j == |stored| {
          assert !GameEq(stored[i], g);
        }
      }
    }
  }

  // ---------------------------------------------------------------------------
  // Labels of unresolved slots (get_p1 / get_p2)

  datatype Side =
    | Bound(pid: Pid)
    | DrawNumber(number: int)
    | GroupPlace(place: int)
    | QuarterfinalWinner(quarterfinal: int)
    | SemifinalLoser(semifinal: int)
    | SemifinalWinner(semifinal: int)
    | Unlabelled

  function GetP1(g: Game): (s: Side)
    ensures s.Bound? <==> g.participant1.Some?
    ensures g.participant1.Some? ==> s == Bound(g.participant1.value)
  {
    if g.participant1.Some? then Bound(g.participant1.value)
    else if g.gameId == 0 then DrawNumber(g.id1)
    else if g.gameId in {1, 2, 3, 4} then GroupPlace(g.gameId)
    else if g.gameId == 5 then QuarterfinalWinner(1)
    else if g.gameId == 6 then QuarterfinalWinner(2)
    else if g.gameId == 7 then SemifinalLoser(1)
    else if g.gameId == 8 then SemifinalWinner(1)
    else Unlabelled
  }

  function GetP2(g: Game): (s: Side)
    ensures s.Bound? <==> g.participant2.Some?
    ensures g.participant2.Some? ==> s == Bound(g.participant2.value)
  {
    if g.participant2.Some? then Bound(g.participant2.value)
    else if g.gameId == 0 then DrawNumber(g.id2)
    else if g.gameId in {1, 2, 3, 4} then GroupPlace(8 - g.gameId + 1)
    else if g.gameId == 5 then QuarterfinalWinner(4)
    else if g.gameId == 6 then QuarterfinalWinner(3)
    else if g.gameId == 7 then SemifinalLoser(2)
    else if g.gameId == 8 then SemifinalWinner(2)
    else Unlabelled
  }

  /** The labels describe the fixed bracket: quarterfinal k is place k against
      place 9 - k, the semifinals cross quarterfinals 1-4 and 2-3, and the last
      two games take the losers and the winners of both semifinals. */
  lemma BracketLabels(g: Game)
    requires g.participant1.None? && g.participant2.None?
    ensures 1 <= g.gameId <= 4 ==>
      GetP1(g).GroupPlace? && GetP2(g).GroupPlace? &&
      GetP1(g).place == g.gameId && GetP1(g).place + GetP2(g).place == 9
    ensures g.gameId in {5, 6} ==>
      GetP1(g).QuarterfinalWinner? && GetP2(g).QuarterfinalWinner? &&
      GetP1(g).quarterfinal + GetP2(g).quarterfinal == 5 && GetP1(g).quarterfinal == g.gameId - 4
    ensures g.gameId == 7 ==> GetP1(g) == SemifinalLoser(1) && GetP2(g) == SemifinalLoser(2)
    ensures g.gameId == 8 ==> GetP1(g) == SemifinalWinner(1) && GetP2(g) == SemifinalWinner(2)
    ensures g.gameId == 0 ==> GetP1(g) == DrawNumber(g.id1) && GetP2(g) == DrawNumber(g.id2)
    ensures !(0 <= g.gameId <= 8) ==> GetP1(g) == Unlabelled && GetP2(g) == Unlabelled
  {
  }

  // ---------------------------------------------------------------------------
  // Winner and loser of a game (get_winner / get_loser)

  /** Sets in which participant 1 scored more points. */
  function SetsWon1(rs: seq<SetScore>): (n: nat)
    ensures n <= |rs|
  {
    if rs == [] then 0
    else SetsWon1(rs[..|rs| - 1]) + (if rs[|rs| - 1].result1 > rs[|rs| - 1].result2 then 1 else 0)
  }

  /** Sets credited to participant 2: every set participant 1 did not win. */
  function SetsWon2(rs: seq<SetScore>): (n: nat)
    ensures n <= |rs|
  {
    if rs == [] then 0
    else SetsWon2(rs[..|rs| - 1]) + (if rs[|rs| - 1].result1 > rs[|rs| - 1].result2 then 0 else 1)
  }

  /** Every set is credited to exactly one side. */
  lemma {:induction false} SetsPartition(rs: seq<SetScore>)
    ensures SetsWon1(rs) + SetsWon2(rs) == |rs|
  {
    if rs != [] {
      SetsPartition(rs[..|rs| - 1]);
    }
  }

  function Winner(g: Game): Option<Pid>
  {
    if g.results == [] then None
    else if SetsWon1(g.results) > SetsWon2(g.results) then g.participant1
    else g.participant2
  }

  function Loser(g: Game): Option<Pid>
  {
    if g.results == [] then None
    else if SetsWon1(g.results) < SetsWon2(g.results) then g.participant1
    else g.participant2
  }

  /** With two bound, distinct participants and some results, winner and loser
      differ exactly when the sets are not tied; on a tie both are participant 2. */
  lemma WinnerAndLoser(g: Game)
    requires g.results != []
    requires g.participant1.Some? && g.participant2.Some? && g.participant1 != g.participant2
    ensures Winner(g) != Loser(g) <==> SetsWon1(g.results) != SetsWon2(g.results)
    ensures Winner(g) == g.participant1 <==> 2 * SetsWon1(g.results) > |g.results|
    ensures Loser(g) == g.participant1 <==> 2 * SetsWon1(g.results) < |g.results|
    ensures SetsWon1(g.results) == SetsWon2(g.results) ==> Winner(g) == Loser(g) == g.participant2
  {
    SetsPartition(g.results);
  }

  method GetWinner(g: Game) returns (w: Option<Pid>)
    ensures w == Winner(g)
  {
    w := None;
    var results := g.results;
    if results != [] {
      var p1Sets, p2Sets := 0, 0;
      for i := 0 to |results|
        invariant p1Sets == SetsWon1(results[..i]) && p2Sets == SetsWon2(results[..i])
      {
        assert results[..i + 1][..i] == results[..i];
        if results[i].result1 > results[i].result2 {
          p1Sets := p1Sets + 1;
        } else {
          p2Sets := p2Sets + 1;
        }
      }
      assert results[..|results|] == results;
      if p1Sets > p2Sets {
        w := g.participant1;
      } else {
        w := g.participant2;
      }
    }
  }

  method GetLoser(g: Game) returns (l: Option<Pid>)
    ensures l == Loser(g)
  {
    l := None;
    var results := g.results;
    if results != [] {
      var p1Sets, p2Sets := 0, 0;
      for i := 0 to |results|
        invariant p1Sets == SetsWon1(results[..i]) && p2Sets == SetsWon2(results[..i])
      {
        assert results[..i + 1][..i] == results[..i];
        if results[i].result1 > results[i].result2 {
          p1Sets := p1Sets + 1;
        } else {
          p2Sets := p2Sets + 1;
        }
      }
      assert results[..|results|] == results;
      if p1Sets < p2Sets {
        l := g.participant1;
      } else {
        l := g.participant2;
      }
    }
  }

  // ---------------------------------------------------------------------------
  // Participants: drawn numbers

  /** What Participant.clean sees of a participant record of the tournament. */
  datatype Entry = Entry(user: int, drawnNumber: Option<int>)

  datatype ParticipantError = NumberTaken(number: int)

  /** A drawn number may not be held by another participant (another user) of the tournament. */
  function CleanDrawnNumber(self: Entry, all: seq<Entry>): (r: Outcome<ParticipantError>)
    ensures self.drawnNumber.None? ==> r == Pass
    ensures r.Fail? <==>
      self.drawnNumber.Some? &&
      exists k :: 0 <= k < |all| && all[k].user != self.user && all[k].drawnNumber == self.drawnNumber
  {
    if self.drawnNumber.None? then Pass
    else if NumberHeldByOther(self, all) then Fail(NumberTaken(self.drawnNumber.value))
    else Pass
  }

  predicate NumberHeldByOther(self: Entry, all: seq<Entry>)
    ensures NumberHeldByOther(self, all) <==>
      exists k :: 0 <= k < |all| && all[k].user != self.user && all[k].drawnNumber == self.drawnNumber
  {
    all != [] &&
    ((all[0].user != self.user && all[0].drawnNumber == self.drawnNumber) || NumberHeldByOther(self, all[1..]))
  }

  /** When every participant passes the check, drawn numbers are unique among users. */
  lemma CleanGivesUniqueNumbers(all: seq<Entry>, i: int, j: int)
    requires forall k :: 0 <= k < |all| ==> CleanDrawnNumber(all[k], all) == Pass
    requires 0 <= i < |all| && 0 <= j < |all| && all[i].user != all[j].user
    requires all[i].drawnNumber.Some?
    ensures all[i].drawnNumber != all[j].drawnNumber
  {
    assert CleanDrawnNumber(all[i], all) == Pass;
  }

  /** Participant.save's effect on the games: bind the participant into every
      slot whose drawn number it holds, leaving every other field alone. */
  function BindGames(gs: seq<Game>, pk: Pid, number: int): (r: seq<Game>)
    ensures |r| == |gs|
    ensures forall k :: 0 <= k < |gs| ==>
      r[k] == gs[k].(participant1 := if gs[k].id1 == number then Some(pk) else gs[k].participant1,
                     participant2 := if gs[k].id2 == number then Some(pk) else gs[k].participant2)
  {
    seq(|gs|, k requires 0 <= k < |gs| =>
      gs[k].(participant1 := if gs[k].id1 == number then Some(pk) else gs[k].participant1,
             participant2 := if gs[k].id2 == number then Some(pk) else gs[k].participant2))
  }

  /** Binding twice changes nothing the first binding did not. */
  lemma BindIdempotent(gs: seq<Game>, pk: Pid, number: int)
    ensures BindGames(BindGames(gs, pk, number), pk, number) == BindGames(gs, pk, number)
  {
  }

  class Participant {
    const pk: Pid
    const user: int
    var drawnNumber: Option<int>
    var initialized: bool

    constructor (pk: Pid, user: int)
      ensures this.pk == pk && this.user == user
      ensures drawnNumber == None && !initialized
    {
      this.pk := pk;
      this.user := user;
      drawnNumber := None;
      initialized := false;
    }

    /** Python truthiness of the drawn number: set and not zero. */
    predicate HasNumber()
      reads this
    {
      drawnNumber.Some? && drawnNumber.value != 0
    }

    /** Participant.save: the first save with a drawn number binds the participant
        into the tournament's games (updates without the first-call checks). */
    method Save(games: array<Game>)
      modifies this, games
      ensures drawnNumber == old(drawnNumber)
      ensures !old(initialized) && old(HasNumber()) ==>
        initialized && games[..] == BindGames(old(games[..]), pk, drawnNumber.value)
      ensures !(!old(initialized) && old(HasNumber())) ==>
        initialized == old(initialized) && games[..] == old(games[..])
    {
      if !initialized && HasNumber() {
        var number := drawnNumber.value;
        for k := 0 to games.Length
          modifies games
          invariant games[..k] == BindGames(old(games[..]), pk, number)[..k]
          invariant forall m :: k <= m < games.Length ==> games[m] == old(games[m])
        {
          if games[k].id1 == number {
            games[k] := games[k].(participant1 := Some(pk));
          }
          if games[k].id2 == number {
            games[k] := games[k].(participant2 := Some(pk));
          }
          assert games[..k + 1] == games[..k] + [games[k]];
        }
        initialized := true;
      }
    }
  }
}
