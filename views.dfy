/**
 * The views that change games: the draw, which repeats pairing and
 * scheduling until every game has a day, and the submission of set results
 * for a group game or a play-off game.
 */
module Views {
  import opened Basics
  import opened Models
  import Pairing
  import opened Scheduling

  // ---------------------------------------------------------------------------
  // The draw

  datatype DrawOutcome =
    | AlreadyDrawn                     // the tournament has games: nothing is drawn
    | Drawn(stored: seq<Game>)         // the stored games after the draw
    | DrawFailed(genError: Pairing.GenError)
    | DrawRejected(saveError: SaveError) // Game.save raised while storing
    | OutOfFuel                        // the bound on tries or rounds was reached

  /** Giving games days and times changes neither who plays how often nor which games are equal. */
  lemma {:induction false} PlacingKeepsPairs(a: seq<Game>, b: seq<Game>, days: seq<int>)
    requires |a| == |b| && forall k :: 0 <= k < |a| ==> b[k] == a[k] || Placed(a[k], b[k], days)
    ensures forall p :: Pairing.Count(b, p) == Pairing.Count(a, p)
    ensures NoDup(a) ==> NoDup(b)
    ensures forall g :: g in b ==> exists h :: h in a && SameGame(h, g)
  {
    if a != [] {
      var n := |a| - 1;
      PlacingKeepsPairs(a[..n], b[..n], days);
      assert a[..n] == a[..|a| - 1] && b[..n] == b[..|b| - 1];
      forall g | g in b
        ensures exists h :: h in a && SameGame(h, g)
      {
        var k :| 0 <= k < |b| && b[k] == g;
        assert a[k] in a && SameGame(a[k], g);
      }
      if NoDup(a) {
        forall i, j | 0 <= i < j < |b|
          ensures !GameEq(b[i], b[j])
        {
          assert !GameEq(a[i], a[j]);
        }
      }
    }
  }

  /** What a completed draw promises about the stored games. */
  ghost predicate DrawnProperly(gs: seq<Game>, t: Tournament, n: nat)
  {
    var days := EligibleDays(t.startDate, t.startDatePlayoff);
    n > 0 && (forall p :: 1 <= p <= n ==> Pairing.Count(gs, p) == Pairing.Count(gs, 1)) &&
    NoDup(gs) && (forall g :: g in gs ==> g.id1 != g.id2 && 1 <= g.id1 <= n && 1 <= g.id2 <= n) &&
    (forall day, p :: Pairing.Count(DayGames(gs, day), p) <= 1) &&
    (|days| > 0 ==> forall g :: g in gs ==> g.gameDate.Some? && g.gameDate.value in days && g.startTime.Some?)
  }

  /** Games with no equal pair and no self-pairing are all stored by the saving loop. */
  lemma SavedInFull(placed: seq<Game>)
    requires NoDup(placed) && ProperPairs(placed)
    ensures SaveOutcome(placed, []) == Scheduled(placed)
  {
    SaveAllSpec(placed, []);
    assert [] + placed == placed;
  }

  /** Placing keeps the drawn numbers of the generated games. */
  lemma PlacedNumbers(gs: seq<Game>, placed: seq<Game>, t: int, n: nat, days: seq<int>)
    requires |gs| == |placed| && forall k :: 0 <= k < |gs| ==> placed[k] == gs[k] || Placed(gs[k], placed[k], days)
    requires forall g :: g in gs ==> Pairing.ValidGroupGame(t, n, g)
    ensures forall g :: g in placed ==> g.id1 != g.id2 && 1 <= g.id1 <= n && 1 <= g.id2 <= n
  {
    forall g | g in placed
      ensures g.id1 != g.id2 && 1 <= g.id1 <= n && 1 <= g.id2 <= n
    {
      var k :| 0 <= k < |placed| && placed[k] == g;
      assert gs[k] in gs;
    }
  }

  /** Generated games that scheduling placed in full are all stored, and the
      draw's promises hold of them. */
  lemma ScheduledDraw(t: Tournament, n: nat, gs: seq<Game>)
    requires n > 0 && (forall p :: 1 <= p <= n ==> Pairing.Count(gs, p) == Pairing.Count(gs, 1))
    requires NoDup(gs) && forall g :: g in gs ==> Pairing.ValidGroupGame(t.id, n, g)
    requires DatedAreTimed(gs)
    requires ScheduleFrom(gs, 0, EligibleDays(t.startDate, t.startDatePlayoff), t.gameStartTime, t.gameDuration, 0).1 == 0
    ensures var placed := ScheduleFrom(gs, 0, EligibleDays(t.startDate, t.startDatePlayoff),
                                       t.gameStartTime, t.gameDuration, 0).0;
      SaveOutcome(placed, []) == Scheduled(placed) && DrawnProperly(placed, t, n)
  {
    var days := EligibleDays(t.startDate, t.startDatePlayoff);
    var placed := ScheduleFrom(gs, 0, days, t.gameStartTime, t.gameDuration, 0).0;
    forall k | 0 <= k < |gs|
      ensures gs[k].gameDate.None? && gs[k].id1 != gs[k].id2
    {
      assert gs[k] in gs;
    }
    ScheduleSpec(gs, days, t.gameStartTime, t.gameDuration);
    PlacingKeepsPairs(gs, placed, days);
    SavedInFull(placed);
    PlacedNumbers(gs, placed, t.id, n, days);
  }

  /** me_before_draw's retry loop from try `attempt` of at most `tries`, with
      the draw number of the next shuffle: generate_games, then
      generate_schedule on an empty tournament; a try that leaves a game
      without a day starts the next. */
  ghost function DrawFrom(t: Tournament, n: nat, shuffle: (nat, seq<int>) -> seq<int>, draw: nat,
                          fuel: nat, attempt: nat, tries: nat): DrawOutcome
    requires Pairing.IsShuffle(shuffle)
    decreases tries - attempt
  {
    if attempt >= tries then OutOfFuel
    else
      var gen := Pairing.RoundsFrom(t.id, n, Pairing.InitialState(n), shuffle, draw, 0, fuel);
      match gen.0
      case GenerationFailed(e) => DrawFailed(e)
      case Exhausted => OutOfFuel
      case Generated(gs) =>
        Pairing.GenerateGamesSpec(t.id, n, shuffle, draw, fuel);
        assert DatedAreTimed(gs) by {
          forall g | g in gs
            ensures g.gameDate.None?
          {
            assert Pairing.ValidGroupGame(t.id, n, g);
          }
        }
        var s := ScheduleFrom(gs, 0, EligibleDays(t.startDate, t.startDatePlayoff), t.gameStartTime, t.gameDuration, 0);
        if s.1 > 0 then DrawFrom(t, n, shuffle, gen.1, fuel, attempt + 1, tries)
        else
          var saved := SaveOutcome(s.0, []);
          if saved.Scheduled? then Drawn(saved.stored) else DrawRejected(saved.error)
  }

  /** The retry loop never reports a rejected save, a completed draw keeps the
      draw's promises, and the loop fails exactly when the field is empty and a
      try runs with some fuel. */
  lemma {:induction false} DrawFromSpec(t: Tournament, n: nat, shuffle: (nat, seq<int>) -> seq<int>, draw: nat,
                                        fuel: nat, attempt: nat, tries: nat)
    requires Pairing.IsShuffle(shuffle)
    ensures var r := DrawFrom(t, n, shuffle, draw, fuel, attempt, tries);
      !r.DrawRejected? && !r.AlreadyDrawn? &&
      (r.Drawn? ==> DrawnProperly(r.stored, t, n)) &&
      (r.DrawFailed? <==> attempt < tries && fuel > 0 && n == 0)
    decreases tries - attempt
  {
    if attempt < tries {
      var gen := Pairing.RoundsFrom(t.id, n, Pairing.InitialState(n), shuffle, draw, 0, fuel);
      Pairing.GenerateGamesSpec(t.id, n, shuffle, draw, fuel);
      if gen.0.Generated? {
        var gs := gen.0.games;
        assert DatedAreTimed(gs) by {
          forall g | g in gs
            ensures g.gameDate.None?
          {
            assert Pairing.ValidGroupGame(t.id, n, g);
          }
        }
        var s := ScheduleFrom(gs, 0, EligibleDays(t.startDate, t.startDatePlayoff), t.gameStartTime, t.gameDuration, 0);
        if s.1 > 0 {
          DrawFromSpec(t, n, shuffle, gen.1, fuel, attempt + 1, tries);
          assert !(fuel > 0 && n == 0);
        } else {
          ScheduledDraw(t, n, gs);
        }
      }
    }
  }

  /** me_before_draw on a POST: nothing when the tournament already has games;
      otherwise generate_games and generate_schedule, again and again until
      scheduling places every game (at most `tries` times here). */
  method DrawSchedule(t: Tournament, n: nat, shuffle: (nat, seq<int>) -> seq<int>, draw0: nat,
                      fuel: nat, tries: nat, stored: seq<Game>)
    returns (r: DrawOutcome)
    requires Pairing.IsShuffle(shuffle)
    ensures r.AlreadyDrawn? <==> stored != []
    ensures stored == [] ==> r == DrawFrom(t, n, shuffle, draw0, fuel, 0, tries)
  {
    if stored != [] {
      return AlreadyDrawn;
    }
    ghost var run := DrawFrom(t, n, shuffle, draw0, fuel, 0, tries);
    var draw := draw0;
    var attempt := 0;
    while attempt < tries
      invariant DrawFrom(t, n, shuffle, draw, fuel, attempt, tries) == run
      decreases tries - attempt
    {
      var gen, next := Pairing.GenerateGames(t.id, n, shuffle, draw, fuel);
      Pairing.GenerateGamesSpec(t.id, n, shuffle, draw, fuel);
      if gen.GenerationFailed? {
        return DrawFailed(gen.error);
      }
      if gen.Exhausted? {
        return OutOfFuel;
      }
      var gs := gen.games;
      var games := new Game[|gs|](i requires 0 <= i < |gs| => gs[i]);
      assert games[..] == gs;
      forall g | g in games[..]
        ensures g.gameDate.None?
      {
        assert Pairing.ValidGroupGame(t.id, n, g);
      }
      var s := GenerateSchedule(games, t, stored);
      if s.Scheduled? {
        return Drawn(s.stored);
      }
      if s.SaveRejected? {
        return DrawRejected(s.error);
      }
      draw, attempt := next, attempt + 1;
    }
    return OutOfFuel;
  }

  // ---------------------------------------------------------------------------
  // Result submission

  datatype Submission =
    | NotListed                                   // the game is not among the player's games
    | AlreadyRecorded                             // the game has set results already
    | Recorded                                    // every submitted set was saved
    | ScoreRejected(setNumber: nat, error: ScoreError) // SetResult.save raised on this set

  const GroupSets: nat := 5
  const PlayoffSets: nat := 7

  /** How many sets, from the first, SetResult.save accepts before the first it refuses. */
  function AcceptedPrefix(sets: seq<SetScore>): (n: nat)
    ensures n <= |sets|
    ensures forall i :: 0 <= i < n ==> ScoreAccepted(sets[i].result1, sets[i].result2)
    ensures n < |sets| ==> !ScoreAccepted(sets[n].result1, sets[n].result2)
  {
    if sets == [] then 0
    else if CheckSetScore(sets[0].result1, sets[0].result2).Fail? then 0
    else 1 + AcceptedPrefix(sets[1..])
  }

  /** The play-off form's sets up to the first whose first score is empty. */
  function EnteredSets(entries: seq<Option<SetScore>>): (r: seq<SetScore>)
    ensures |r| <= |entries|
    ensures forall i :: 0 <= i < |r| ==> entries[i] == Some(r[i])
    ensures |r| < |entries| ==> entries[|r|].None?
  {
    if entries == [] || entries[0].None? then []
    else [entries[0].value] + EnteredSets(entries[1..])
  }

  /** A game on the player's list: group games (identifier 0) or play-off games. */
  predicate Mine(g: Game, p: Pid, group: bool)
  {
    (if group then g.gameId == 0 else g.gameId != 0) &&
    (g.participant1 == Some(p) || g.participant2 == Some(p))
  }

  /** The first game of the player's list that equals `target` (Game.__eq__). */
  function Listed(gs: seq<Game>, p: Pid, group: bool, target: Game): (r: Option<nat>)
    ensures r.Some? ==>
      r.value < |gs| && Mine(gs[r.value], p, group) && GameEq(gs[r.value], target) &&
      forall j :: 0 <= j < r.value ==> !(Mine(gs[j], p, group) && GameEq(gs[j], target))
    ensures r.None? ==> forall j :: 0 <= j < |gs| ==> !(Mine(gs[j], p, group) && GameEq(gs[j], target))
  {
    if gs == [] then None
    else if Mine(gs[0], p, group) && GameEq(gs[0], target) then Some(0)
    else match Listed(gs[1..], p, group, target)
      case None => None
      case Some(j) => Some(j + 1)
  }

  /** Game k with the first n of `sets` added to its results. */
  function WithSets(gs: seq<Game>, k: nat, sets: seq<SetScore>, n: nat): seq<Game>
    requires k < |gs| && n <= |sets|
  {
    gs[k := gs[k].(results := gs[k].results + sets[..n])]
  }

  lemma WithNoSets(gs: seq<Game>, k: nat, sets: seq<SetScore>)
    requires k < |gs|
    ensures WithSets(gs, k, sets, 0) == gs
  {
    assert gs[k].results + sets[..0] == gs[k].results;
  }

  lemma WithSetsStep(gs: seq<Game>, k: nat, sets: seq<SetScore>, i: nat)
    requires k < |gs| && i < |sets|
    ensures var w := WithSets(gs, k, sets, i);
      WithSets(gs, k, sets, i + 1) == w[k := w[k].(results := w[k].results + [sets[i]])]
  {
    assert (gs[k].results + sets[..i]) + [sets[i]] == gs[k].results + sets[..i + 1];
  }

  function SaveReport(sets: seq<SetScore>): Submission
  {
    var n := AcceptedPrefix(sets);
    if n == |sets| then Recorded
    else ScoreRejected(n + 1, CheckSetScore(sets[n].result1, sets[n].result2).error)
  }

  /** A submission of `sets` for game k by player p: the games afterwards and the report. */
  function Submit(gs: seq<Game>, p: Pid, group: bool, k: nat, sets: seq<SetScore>): (seq<Game>, Submission)
    requires k < |gs|
  {
    match Listed(gs, p, group, gs[k])
    case None => (gs, NotListed)
    case Some(j) =>
      if gs[j].results != [] then (gs, AlreadyRecorded)
      else (WithSets(gs, k, sets, AcceptedPrefix(sets)), SaveReport(sets))
  }

  /** for g in games: if g == game, over the player's list. */
  method FindListed(games: array<Game>, p: Pid, group: bool, k: nat) returns (j: Option<nat>)
    requires k < games.Length
    ensures j == Listed(games[..], p, group, games[k])
  {
    var target := games[k];
    for i := 0 to games.Length
      invariant forall m :: 0 <= m < i ==> !(Mine(games[m], p, group) && GameEq(games[m], target))
    {
      var g := games[i];
      var listed := if group then g.gameId == 0 else g.gameId != 0;
      if listed && (g.participant1 == Some(p) || g.participant2 == Some(p)) && GameEq(g, target) {
        return Some(i);
      }
    }
    return None;
  }

  /** The loop of SetResult saves for game k; it stops at the first refused set. */
  method SaveSets(games: array<Game>, k: nat, sets: seq<SetScore>) returns (r: Submission)
    requires k < games.Length
    modifies games
    ensures games[..] == WithSets(old(games[..]), k, sets, AcceptedPrefix(sets))
    ensures r == SaveReport(sets)
  {
    ghost var n := AcceptedPrefix(sets);
    WithNoSets(games[..], k, sets);
    for i := 0 to |sets|
      invariant i <= n
      invariant games[..] == WithSets(old(games[..]), k, sets, i)
    {
      var check := CheckSetScore(sets[i].result1, sets[i].result2);
      if check.Fail? {
        return ScoreRejected(i + 1, check.error);
      }
      WithSetsStep(old(games[..]), k, sets, i);
      games[k] := games[k].(results := games[k].results + [sets[i]]);
    }
    return Recorded;
  }

  /** me_games on a POST: the five sets of a group game. */
  method SubmitGroupResult(games: array<Game>, p: Pid, k: nat, sets: seq<SetScore>) returns (r: Submission)
    requires k < games.Length && |sets| == GroupSets
    modifies games
    ensures games[..] == Submit(old(games[..]), p, true, k, sets).0
    ensures r == Submit(old(games[..]), p, true, k, sets).1
  {
    var j := FindListed(games, p, true, k);
    if j.None? {
      return NotListed;
    }
    if games[j.value].results != [] {
      return AlreadyRecorded;
    }
    r := SaveSets(games, k, sets);
  }

  /** me_playoff_games on a POST: up to seven sets, stopping at the first empty one. */
  method SubmitPlayoffResult(games: array<Game>, p: Pid, k: nat, entries: seq<Option<SetScore>>)
    returns (r: Submission)
    requires k < games.Length && |entries| == PlayoffSets
    modifies games
    ensures games[..] == Submit(old(games[..]), p, false, k, EnteredSets(entries)).0
    ensures r == Submit(old(games[..]), p, false, k, EnteredSets(entries)).1
  {
    var j := FindListed(games, p, false, k);
    if j.None? {
      return NotListed;
    }
    if games[j.value].results != [] {
      return AlreadyRecorded;
    }
    ghost var sets := EnteredSets(entries);
    ghost var n := AcceptedPrefix(sets);
    WithNoSets(games[..], k, sets);
    for i := 0 to |entries|
      invariant i <= n
      invariant forall m :: 0 <= m < i ==> entries[m].Some?
      invariant games[..] == WithSets(old(games[..]), k, sets, i)
    {
      if entries[i].None? {
        break;
      }
      var score := entries[i].value;
      var check := CheckSetScore(score.result1, score.result2);
      if check.Fail? {
        return ScoreRejected(i + 1, check.error);
      }
      WithSetsStep(old(games[..]), k, sets, i);
      games[k] := games[k].(results := games[k].results + [score]);
    }
    return Recorded;
  }

  // ---------------------------------------------------------------------------
  // Properties of submission

  /** A submission touches only game k, and only by appending the accepted
      leading sets to its results; it does nothing when the game is not on the
      player's list or its listed twin already has results. */
  lemma SubmitSpec(gs: seq<Game>, p: Pid, group: bool, k: nat, sets: seq<SetScore>)
    requires k < |gs|
    ensures var (after, report) := Submit(gs, p, group, k, sets);
      |after| == |gs| && (forall i :: 0 <= i < |gs| && i != k ==> after[i] == gs[i]) &&
      (report.NotListed? <==> forall j :: 0 <= j < |gs| ==> !(Mine(gs[j], p, group) && GameEq(gs[j], gs[k]))) &&
      (report.NotListed? || report.AlreadyRecorded? ==> after == gs) &&
      (report.Recorded? || report.ScoreRejected? ==>
        var saved := |after[k].results| - |gs[k].results|;
        0 <= saved <= |sets| && after[k].results == gs[k].results + sets[..saved] &&
        after[k] == gs[k].(results := after[k].results) &&
        (forall i :: 0 <= i < saved ==> ScoreAccepted(sets[i].result1, sets[i].result2)) &&
        (report.Recorded? <==> saved == |sets|) &&
        (report.ScoreRejected? ==>
          report.setNumber == saved + 1 && CheckSetScore(sets[saved].result1, sets[saved].result2) == Fail(report.error)))
  {
  }

  /** The game itself is the first on the player's list equal to it when no two games are equal. */
  lemma ListedIsItself(gs: seq<Game>, p: Pid, group: bool, k: nat)
    requires k < |gs| && NoDup(gs) && Mine(gs[k], p, group)
    ensures Listed(gs, p, group, gs[k]) == Some(k)
  {
    assert Mine(gs[k], p, group) && GameEq(gs[k], gs[k]);
  }

  /** Once a submission has saved a set for a game, a later submission for it
      is refused and changes nothing. */
  lemma ResubmissionRefused(gs: seq<Game>, p: Pid, group: bool, k: nat, sets: seq<SetScore>, again: seq<SetScore>)
    requires k < |gs| && NoDup(gs) && Mine(gs[k], p, group)
    requires Submit(gs, p, group, k, sets).0[k].results != []
    ensures var after := Submit(gs, p, group, k, sets).0;
      Submit(after, p, group, k, again) == (after, AlreadyRecorded)
  {
    var after := Submit(gs, p, group, k, sets).0;
    ListedIsItself(gs, p, group, k);
    assert |after| == |gs| &&
      forall i :: 0 <= i < |gs| ==>
        after[i].gameId == gs[i].gameId && after[i].id1 == gs[i].id1 &&
        after[i].id2 == gs[i].id2 && after[i].tournament == gs[i].tournament &&
        after[i].participant1 == gs[i].participant1 && after[i].participant2 == gs[i].participant2;
    assert NoDup(after) by {
      forall i, j | 0 <= i < j < |after|
        ensures !GameEq(after[i], after[j])
      {
        assert !GameEq(gs[i], gs[j]);
      }
    }
    ListedIsItself(after, p, group, k);
  }
}
