/**
 * The greedy group-stage scheduler: the eligible weekdays between the start
 * of the group stage and the start of the play-off, the per-day bookings,
 * back-to-back start times, and generate_schedule, which puts every game on
 * the first weekday where neither of its players already plays and stores
 * the games only when no game was counted as not set; with no eligible days
 * nothing is dated and every game is stored.
 */
module Scheduling {
  import opened Basics
  import opened Models
  import Pairing

  // ---------------------------------------------------------------------------
  // Calendar (get_dates)

  /** Monday is 0 and Sunday is 6; day ordinal 1 is a Monday. */
  function Weekday(d: int): int
  {
    (d - 1) % 7
  }

  predicate IsWeekend(d: int)
  {
    Weekday(d) >= 5
  }

  /** The weekdays d with start <= d < stop, oldest first. */
  function EligibleDays(start: int, stop: int): seq<int>
    decreases stop - start
  {
    if stop <= start then []
    else EligibleDays(start, stop - 1) + (if IsWeekend(stop - 1) then [] else [stop - 1])
  }

  /** The eligible days are exactly the weekdays of [start, stop), strictly increasing. */
  lemma {:induction false} EligibleDaysSpec(start: int, stop: int)
    ensures var ds := EligibleDays(start, stop);
      (forall d :: d in ds <==> start <= d < stop && !IsWeekend(d)) &&
      (forall i, j :: 0 <= i < j < |ds| ==> ds[i] < ds[j])
    decreases stop - start
  {
    if stop > start {
      EligibleDaysSpec(start, stop - 1);
      var prev := EligibleDays(start, stop - 1);
      var ds := EligibleDays(start, stop);
      forall i, j | 0 <= i < j < |ds|
        ensures ds[i] < ds[j]
      {
        if j >= |prev| {
          assert ds[i] == prev[i] && prev[i] in prev;
        }
      }
    }
  }

  lemma WeekdayNext(d: int)
    ensures 0 <= Weekday(d) < 7
    ensures Weekday(d + 1) == if Weekday(d) == 6 then 0 else Weekday(d) + 1
  {
  }

  /** Seven consecutive days always hold exactly five weekdays. */
  lemma WeekHasFiveDays(start: int)
    ensures |EligibleDays(start, start + 7)| == 5
  {
    WeekdayNext(start);
    WeekdayNext(start + 1);
    WeekdayNext(start + 2);
    WeekdayNext(start + 3);
    WeekdayNext(start + 4);
    WeekdayNext(start + 5);
    assert EligibleDays(start, start) == [];
    assert EligibleDays(start, start + 1) == EligibleDays(start, start) + (if IsWeekend(start) then [] else [start]);
    assert EligibleDays(start, start + 2) == EligibleDays(start, start + 1) + (if IsWeekend(start + 1) then [] else [start + 1]);
    assert EligibleDays(start, start + 3) == EligibleDays(start, start + 2) + (if IsWeekend(start + 2) then [] else [start + 2]);
    assert EligibleDays(start, start + 4) == EligibleDays(start, start + 3) + (if IsWeekend(start + 3) then [] else [start + 3]);
    assert EligibleDays(start, start + 5) == EligibleDays(start, start + 4) + (if IsWeekend(start + 4) then [] else [start + 4]);
    assert EligibleDays(start, start + 6) == EligibleDays(start, start + 5) + (if IsWeekend(start + 5) then [] else [start + 5]);
  }

  method GetDates(t: Tournament) returns (days: seq<int>)
    ensures days == EligibleDays(t.startDate, t.startDatePlayoff)
  {
    var numberOfDays := t.startDatePlayoff - t.startDate;
    days := [];
    var i := 0;
    var day := t.startDate;
    while i < numberOfDays
      invariant 0 <= i <= (if numberOfDays < 0 then 0 else numberOfDays)
      invariant day == t.startDate + i
      invariant days == EligibleDays(t.startDate, day)
      decreases numberOfDays - i
    {
      i := i + 1;
      if IsWeekend(day) {
        day := day + 1;
        continue;
      }
      days := days + [day];
      day := day + 1;
    }
  }

  // ---------------------------------------------------------------------------
  // Bookings of one day (players_this_day, games_this_day)

  /** The drawn numbers a game contributes to the players list of `day`. */
  function Booked(g: Game, day: int): seq<int>
  {
    if g.gameDate == Some(day) then [g.id1, g.id2] else []
  }

  /** Both players of every game dated `day`, in game order. */
  function PlayersOn(gs: seq<Game>, day: int): seq<int>
  {
    if gs == [] then [] else PlayersOn(gs[..|gs| - 1], day) + Booked(gs[|gs| - 1], day)
  }

  method PlayersThisDay(games: seq<Game>, day: int) returns (participants: seq<int>)
    ensures participants == PlayersOn(games, day)
  {
    participants := [];
    for k := 0 to |games|
      invariant participants == PlayersOn(games[..k], day)
    {
      assert games[..k + 1][..k] == games[..k];
      if games[k].gameDate == Some(day) {
        participants := participants + [games[k].id1, games[k].id2];
      }
    }
    assert games[..|games|] == games;
  }

  /** The games dated `day`, in game order. */
  function DayGames(gs: seq<Game>, day: int): seq<Game>
  {
    if gs == [] then []
    else DayGames(gs[..|gs| - 1], day) + (if gs[|gs| - 1].gameDate == Some(day) then [gs[|gs| - 1]] else [])
  }

  lemma {:induction false} DayGamesSpec(gs: seq<Game>, day: int)
    ensures forall g :: g in DayGames(gs, day) <==> g in gs && g.gameDate == Some(day)
  {
    if gs != [] {
      var init := gs[..|gs| - 1];
      DayGamesSpec(init, day);
      assert gs == init + [gs[|gs| - 1]];
    }
  }

  method GamesThisDay(gamesAll: seq<Game>, day: int) returns (games: seq<Game>)
    ensures games == DayGames(gamesAll, day)
  {
    games := [];
    for k := 0 to |gamesAll|
      invariant games == DayGames(gamesAll[..k], day)
    {
      assert gamesAll[..k + 1][..k] == gamesAll[..k];
      if gamesAll[k].gameDate == Some(day) {
        games := games + [gamesAll[k]];
      }
    }
    assert gamesAll[..|gamesAll|] == gamesAll;
  }

  /** Games with no player against themselves. */
  predicate ProperPairs(gs: seq<Game>)
  {
    forall g :: g in gs ==> g.id1 != g.id2
  }

  /** How often p is on the players list a game contributes to `day`. */
  function Occurs(g: Game, day: int, p: int): nat
  {
    if g.gameDate == Some(day) then (if g.id1 == p then 1 else 0) + (if g.id2 == p then 1 else 0) else 0
  }

  /** How often p is on the players list of `day`, game by game. */
  function DayCount(gs: seq<Game>, day: int, p: int): nat
  {
    if gs == [] then 0 else DayCount(gs[..|gs| - 1], day, p) + Occurs(gs[|gs| - 1], day, p)
  }

  /** DayCount is the number of occurrences of p in the list players_this_day builds. */
  lemma {:induction false} DayCountIsPlayersCount(gs: seq<Game>, day: int, p: int)
    ensures multiset(PlayersOn(gs, day))[p] == DayCount(gs, day, p)
  {
    if gs != [] {
      DayCountIsPlayersCount(gs[..|gs| - 1], day, p);
    }
  }

  /** With no self-pairings, p is on a day's list once per game it plays that day. */
  lemma {:induction false} DayCountIsGameCount(gs: seq<Game>, day: int, p: int)
    requires ProperPairs(gs)
    ensures DayCount(gs, day, p) == Pairing.Count(DayGames(gs, day), p)
  {
    if gs != [] {
      var init, last := gs[..|gs| - 1], gs[|gs| - 1];
      assert forall g :: g in init ==> g in gs;
      DayCountIsGameCount(init, day, p);
      var tail := if last.gameDate == Some(day) then [last] else [];
      Pairing.CountAppend(DayGames(init, day), tail, p);
      if last.gameDate == Some(day) {
        assert last in gs;
        assert Pairing.Count(tail, p) == Pairing.Count(tail[..0], p) + (if Pairing.Involves(last, p) then 1 else 0);
      }
    }
  }

  // ---------------------------------------------------------------------------
  // have_slot_for_game

  /** Both players of g are on the players list of `day` fewer than maxGames times. */
  predicate HasSlot(gs: seq<Game>, g: Game, day: int, maxGames: int)
  {
    DayCount(gs, day, g.id1) < maxGames && DayCount(gs, day, g.id2) < maxGames
  }

  /** With the default limit of one game, a day has a slot for g exactly when
      neither of its players already has a game on that day. */
  lemma SlotMeansFreeDay(gs: seq<Game>, g: Game, day: int)
    requires ProperPairs(gs)
    ensures HasSlot(gs, g, day, 1) <==>
      Pairing.Count(DayGames(gs, day), g.id1) == 0 && Pairing.Count(DayGames(gs, day), g.id2) == 0
  {
    DayCountIsGameCount(gs, day, g.id1);
    DayCountIsGameCount(gs, day, g.id2);
  }

  // ---------------------------------------------------------------------------
  // Start times (last_game_time, get_time)

  /** Every dated game also has a start time. */
  predicate DatedAreTimed(gs: seq<Game>)
  {
    forall g :: g in gs && g.gameDate.Some? ==> g.startTime.Some?
  }

  /** The latest start time among games that all have one. */
  function MaxStart(gs: seq<Game>): (r: int)
    requires gs != [] && forall g :: g in gs ==> g.startTime.Some?
    ensures exists g :: g in gs && g.startTime == Some(r)
    ensures forall g :: g in gs ==> g.startTime.value <= r
  {
    var last := gs[|gs| - 1];
    assert last in gs;
    if |gs| == 1 then last.startTime.value
    else
      var init := gs[..|gs| - 1];
      assert forall g :: g in init ==> g in gs;
      assert gs == init + [last];
      var m := MaxStart(init);
      if last.startTime.value >= m then last.startTime.value else m
  }

  /** The start time of the last game of a day: the games of the day sorted by
      start time, the last one taken. */
  function LastGameTime(gs: seq<Game>, day: int): (r: int)
    requires DatedAreTimed(gs) && DayGames(gs, day) != []
    ensures exists g :: g in gs && g.gameDate == Some(day) && g.startTime == Some(r)
    ensures forall g :: g in gs && g.gameDate == Some(day) ==> g.startTime.value <= r
  {
    DayGamesSpec(gs, day);
    MaxStart(DayGames(gs, day))
  }

  /** A start time plus the game duration, as a time of day (wrapping past midnight). */
  function GetTime(start: int, duration: nat): (r: int)
    ensures 0 <= r < SecondsPerDay
    ensures (r - start - duration) % SecondsPerDay == 0
    ensures 0 <= start && start + duration < SecondsPerDay ==> r == start + duration
  {
    (start + duration) % SecondsPerDay
  }

  // ---------------------------------------------------------------------------
  // initial_games_number

  /** Games per day at the start of the group stage; dividing by zero days fails. */
  function InitialGamesNumber(gamesPerPerson: int, participants: nat, daysNumber: nat): (r: Option<int>)
    ensures r.None? <==> daysNumber == 0
  {
    if daysNumber == 0 then None
    else if gamesPerPerson % daysNumber == 0 && participants % 2 == 0 then Some(gamesPerPerson / daysNumber)
    else Some(gamesPerPerson / daysNumber + 1)
  }

  /** Enough games per day to give everybody their games over the days; with an
      even field it is the least such number, with an odd field at most one more. */
  lemma InitialGamesNumberBounds(gamesPerPerson: int, participants: nat, daysNumber: nat)
    requires daysNumber > 0
    ensures var r := InitialGamesNumber(gamesPerPerson, participants, daysNumber).value;
      gamesPerPerson <= r * daysNumber < gamesPerPerson + 2 * daysNumber &&
      (participants % 2 == 0 ==> (r - 1) * daysNumber < gamesPerPerson)
  {
    var q, d := gamesPerPerson / daysNumber, daysNumber;
    assert gamesPerPerson == q * d + gamesPerPerson % d;
    MulPred(q + 1, d);
  }

  // ---------------------------------------------------------------------------
  // generate_schedule

  /** The first index i or later of `days` whose day has a slot for g. */
  function FirstFreeDay(gs: seq<Game>, g: Game, days: seq<int>, i: nat): (r: Option<nat>)
    ensures r.Some? ==>
      i <= r.value < |days| && HasSlot(gs, g, days[r.value], 1) &&
      forall k :: i <= k < r.value ==> !HasSlot(gs, g, days[k], 1)
    ensures r.None? ==> forall k :: i <= k < |days| ==> !HasSlot(gs, g, days[k], 1)
    decreases |days| - i
  {
    if i >= |days| then None
    else if HasSlot(gs, g, days[i], 1) then Some(i)
    else FirstFreeDay(gs, g, days, i + 1)
  }

  /** The start time a new game gets on `day`. */
  function SlotTime(gs: seq<Game>, day: int, start: int, duration: nat): int
    requires DatedAreTimed(gs)
  {
    if DayGames(gs, day) == [] then start else GetTime(LastGameTime(gs, day), duration)
  }

  /** The two records agree on everything but the date and the start time. */
  predicate SameGame(a: Game, b: Game)
  {
    a.tournament == b.tournament && a.gameId == b.gameId && a.id1 == b.id1 && a.id2 == b.id2 &&
    a.participant1 == b.participant1 && a.participant2 == b.participant2 && a.results == b.results
  }

  /** `after` is `before` with a date among `days` and a start time, nothing else changed. */
  predicate Placed(before: Game, after: Game, days: seq<int>)
  {
    SameGame(before, after) && after.gameDate.Some? && after.gameDate.value in days && after.startTime.Some?
  }

  /** The inner loop of generate_schedule for game j: the games, and whether j found a day. */
  function PlaceGame(gs: seq<Game>, j: nat, days: seq<int>, start: int, duration: nat): (r: (seq<Game>, bool))
    requires j < |gs| && DatedAreTimed(gs)
    ensures |r.0| == |gs| && DatedAreTimed(r.0)
    ensures forall k :: 0 <= k < |gs| && k != j ==> r.0[k] == gs[k]
    ensures r.1 <==> FirstFreeDay(gs, gs[j], days, 0).Some?
    ensures r.1 ==> Placed(gs[j], r.0[j], days)
    ensures !r.1 ==> r.0 == gs
  {
    match FirstFreeDay(gs, gs[j], days, 0)
    case None => (gs, false)
    case Some(i) =>
      var g := gs[j].(gameDate := Some(days[i]), startTime := Some(SlotTime(gs, days[i], start, duration)));
      var gs' := gs[j := g];
      assert forall x :: x in gs' ==> x == g || x in gs;
      (gs', true)
  }

  /** Game j goes on the first day with a slot, at `start` when that day is empty
      and one duration after the day's last game otherwise. */
  lemma PlaceGameRule(gs: seq<Game>, j: nat, days: seq<int>, start: int, duration: nat)
    requires j < |gs| && DatedAreTimed(gs)
    ensures var r := PlaceGame(gs, j, days, start, duration);
      r.1 ==> var d := days[FirstFreeDay(gs, gs[j], days, 0).value];
        r.0[j] == gs[j].(gameDate := Some(d), startTime := Some(SlotTime(gs, d, start, duration)))
  {
  }

  /** generate_schedule's outer loop from game j on, with `unplaced` games already
      counted: the final games and the number of games counted as not set. A game
      is counted only when the last day was tried, so nothing is counted when
      there are no days at all. */
  function ScheduleFrom(gs: seq<Game>, j: nat, days: seq<int>, start: int, duration: nat, unplaced: nat)
    : (seq<Game>, nat)
    requires j <= |gs| && DatedAreTimed(gs)
    decreases |gs| - j
  {
    if j == |gs| then (gs, unplaced)
    else
      var p := PlaceGame(gs, j, days, start, duration);
      ScheduleFrom(p.0, j + 1, days, start, duration, unplaced + (if !p.1 && |days| > 0 then 1 else 0))
  }

  /** Storing the games one by one through the first-call guard of Game.save;
      the first rejection ends the loop with the games stored so far. */
  function SaveAll(gs: seq<Game>, stored: seq<Game>): seq<Game>
  {
    if gs == [] then stored
    else match SaveNew(gs[0], stored)
      case Err(_) => stored
      case Ok(s) => SaveAll(gs[1..], s)
  }

  /** The error of the first rejected game, if any. */
  function FirstRejection(gs: seq<Game>, stored: seq<Game>): Option<SaveError>
  {
    if gs == [] then None
    else match SaveNew(gs[0], stored)
      case Err(e) => Some(e)
      case Ok(s) => FirstRejection(gs[1..], s)
  }

  /** Saving succeeds exactly when no game is a self-pairing and no two games of
      `stored + gs` are equal; then everything is appended in order. */
  lemma {:induction false} SaveAllSpec(gs: seq<Game>, stored: seq<Game>)
    requires NoDup(stored)
    ensures FirstRejection(gs, stored).None? <==> NoDup(stored + gs) && ProperPairs(gs)
    ensures FirstRejection(gs, stored).None? ==> SaveAll(gs, stored) == stored + gs
    ensures NoDup(SaveAll(gs, stored))
    ensures |stored| <= |SaveAll(gs, stored)| && SaveAll(gs, stored)[..|stored|] == stored
  {
    if gs != [] {
      SaveKeepsNoDup(gs[0], stored);
      assert (stored + gs) == (stored + [gs[0]]) + gs[1..];
      match SaveNew(gs[0], stored)
      case Err(e) =>
        if NoDup(stored + gs) && ProperPairs(gs) {
          assert gs[0] in gs;
          forall k | 0 <= k < |stored|
            ensures !GameEq(stored[k], gs[0])
          {
            assert (stored + gs)[|stored|] == gs[0] && (stored + gs)[k] == stored[k];
          }
          assert false;
        }
      case Ok(s) =>
        SaveAllSpec(gs[1..], s);
        assert s == stored + [gs[0]];
        assert forall g :: g in gs[1..] ==> g in gs;
        if NoDup(s + gs[1..]) && ProperPairs(gs[1..]) {
          assert forall g :: g in gs ==> g == gs[0] || g in gs[1..];
        }
        if !NoDup(s) {
          assert false;
        }
        var fin := SaveAll(gs[1..], s);
        assert fin[..|s|] == s;
        assert fin[..|stored|] == s[..|stored|];
    }
  }

  datatype Scheduled =
    | Scheduled(stored: seq<Game>)                      // True: every game placed and stored
    | Unplaced                                          // False: some game found no day
    | SaveRejected(error: SaveError, stored: seq<Game>) // Game.save raised

  lemma ScheduleStep(gs: seq<Game>, j: nat, days: seq<int>, start: int, duration: nat, unplaced: nat)
    requires j < |gs| && DatedAreTimed(gs)
    ensures var p := PlaceGame(gs, j, days, start, duration);
      ScheduleFrom(gs, j, days, start, duration, unplaced) ==
      ScheduleFrom(p.0, j + 1, days, start, duration, unplaced + (if !p.1 && |days| > 0 then 1 else 0))
  {
  }

  // ---------------------------------------------------------------------------
  // Properties of the schedule

  lemma {:induction false} DayGamesAppend(a: seq<Game>, b: seq<Game>, day: int)
    ensures DayGames(a + b, day) == DayGames(a, day) + DayGames(b, day)
  {
    if b == [] {
      assert a + b == a;
    } else {
      var init, last := b[..|b| - 1], b[|b| - 1];
      DayGamesAppend(a, init, day);
      assert (a + b)[..|a + b| - 1] == a + init;
      var tail := if last.gameDate == Some(day) then [last] else [];
      assert DayGames(b, day) == DayGames(init, day) + tail;
      assert DayGames(a + b, day) == DayGames(a + init, day) + tail;
      assert DayGames(a, day) + DayGames(init, day) + tail == DayGames(a, day) + (DayGames(init, day) + tail);
    }
  }

  lemma {:induction false} DayCountAppend(a: seq<Game>, b: seq<Game>, day: int, p: int)
    ensures DayCount(a + b, day, p) == DayCount(a, day, p) + DayCount(b, day, p)
  {
    if b == [] {
      assert a + b == a;
    } else {
      DayCountAppend(a, b[..|b| - 1], day, p);
      assert (a + b)[..|a + b| - 1] == a + b[..|b| - 1];
    }
  }

  /** Games without a date are on nobody's list. */
  lemma {:induction false} UndatedBookNothing(gs: seq<Game>, day: int)
    requires forall k :: 0 <= k < |gs| ==> gs[k].gameDate.None?
    ensures DayGames(gs, day) == [] && forall p :: DayCount(gs, day, p) == 0
  {
    if gs != [] {
      UndatedBookNothing(gs[..|gs| - 1], day);
    }
  }

  /** Dating game j when every game from j on is undated adds it at the end of its day. */
  lemma PlaceSplit(gs: seq<Game>, j: nat, g: Game, day: int, p: int)
    requires j < |gs| && forall k :: j <= k < |gs| ==> gs[k].gameDate.None?
    ensures DayGames(gs, day) == DayGames(gs[..j], day)
    ensures DayCount(gs, day, p) == DayCount(gs[..j], day, p)
    ensures DayGames(gs[j := g], day) == DayGames(gs[..j], day) + (if g.gameDate == Some(day) then [g] else [])
    ensures DayCount(gs[j := g], day, p) == DayCount(gs[..j], day, p) + Occurs(g, day, p)
  {
    var rest := gs[j + 1..];
    UndatedBookNothing(rest, day);
    UndatedBookNothing([gs[j]], day);
    assert gs == gs[..j] + [gs[j]] + rest;
    assert gs[j := g] == gs[..j] + [g] + rest;
    DayGamesAppend(gs[..j] + [gs[j]], rest, day);
    DayGamesAppend(gs[..j], [gs[j]], day);
    DayGamesAppend(gs[..j] + [g], rest, day);
    DayGamesAppend(gs[..j], [g], day);
    DayCountAppend(gs[..j] + [gs[j]], rest, day, p);
    DayCountAppend(gs[..j], [gs[j]], day, p);
    DayCountAppend(gs[..j] + [g], rest, day, p);
    DayCountAppend(gs[..j], [g], day, p);
    assert [g][..0] == [];
  }

  /** With no days the schedule dates nothing and counts nothing as not set. */
  lemma {:induction false} ScheduleWithoutDays(gs: seq<Game>, j: nat, start: int, duration: nat, unplaced: nat)
    requires j <= |gs| && DatedAreTimed(gs)
    ensures ScheduleFrom(gs, j, [], start, duration, unplaced) == (gs, unplaced)
    decreases |gs| - j
  {
    if j < |gs| {
      ScheduleWithoutDays(gs, j + 1, start, duration, unplaced);
    }
  }

  /** Games that are either as they were or placed, spliced at k with the
      originals, still have a start time wherever they have a date. */
  lemma MixTimed(a: seq<Game>, gs: seq<Game>, k: nat, days: seq<int>)
    requires |a| == |gs| && k <= |gs| && DatedAreTimed(gs)
    requires forall i :: 0 <= i < |gs| ==> a[i] == gs[i] || Placed(gs[i], a[i], days)
    ensures DatedAreTimed(a[..k] + gs[k..])
  {
    forall g | g in a[..k] + gs[k..] && g.gameDate.Some?
      ensures g.startTime.Some?
    {
      var i :| 0 <= i < |gs| && (a[..k] + gs[k..])[i] == g;
      if i >= k {
        assert g == gs[i] && gs[i] in gs;
      } else {
        assert g == a[i] && gs[i] in gs;
      }
    }
  }

  /** Each game gets what the inner loop gives it on the games as they stand when
      its turn comes: the earlier games as finally scheduled, itself and the later
      games as they were. */
  lemma {:induction false} ScheduleGreedy(gs: seq<Game>, j: nat, days: seq<int>, start: int, duration: nat, unplaced: nat)
    requires j <= |gs| && DatedAreTimed(gs)
    ensures var r := ScheduleFrom(gs, j, days, start, duration, unplaced);
      |r.0| == |gs| &&
      forall k :: j <= k < |gs| ==>
        DatedAreTimed(r.0[..k] + gs[k..]) &&
        r.0[k] == PlaceGame(r.0[..k] + gs[k..], k, days, start, duration).0[k]
    decreases |gs| - j
  {
    ScheduleFrame(gs, j, days, start, duration, unplaced);
    if j < |gs| {
      var p := PlaceGame(gs, j, days, start, duration);
      var u := unplaced + (if !p.1 && |days| > 0 then 1 else 0);
      var r := ScheduleFrom(gs, j, days, start, duration, unplaced);
      assert r == ScheduleFrom(p.0, j + 1, days, start, duration, u);
      ScheduleFrame(p.0, j + 1, days, start, duration, u);
      ScheduleGreedy(p.0, j + 1, days, start, duration, u);
      forall k | j <= k < |gs|
        ensures DatedAreTimed(r.0[..k] + gs[k..]) &&
          r.0[k] == PlaceGame(r.0[..k] + gs[k..], k, days, start, duration).0[k]
      {
        MixTimed(r.0, gs, k, days);
        if k == j {
          assert r.0[..j] + gs[j..] == gs;
          assert r.0[j] == p.0[j];
        } else {
          assert p.0[k..] == gs[k..];
        }
      }
    }
  }

  /** Every game keeps everything but its date and time, and either stays as it
      was or is placed on one of the days; games before j are left alone. */
  lemma {:induction false} ScheduleFrame(gs: seq<Game>, j: nat, days: seq<int>, start: int, duration: nat, unplaced: nat)
    requires j <= |gs| && DatedAreTimed(gs)
    ensures var r := ScheduleFrom(gs, j, days, start, duration, unplaced);
      |r.0| == |gs| && r.1 >= unplaced &&
      (forall k :: 0 <= k < j ==> r.0[k] == gs[k]) &&
      (forall k :: j <= k < |gs| ==> r.0[k] == gs[k] || Placed(gs[k], r.0[k], days))
    decreases |gs| - j
  {
    if j < |gs| {
      var p := PlaceGame(gs, j, days, start, duration);
      var u := unplaced + (if !p.1 && |days| > 0 then 1 else 0);
      var r := ScheduleFrom(gs, j, days, start, duration, unplaced);
      ScheduleStep(gs, j, days, start, duration, unplaced);
      assert r == ScheduleFrom(p.0, j + 1, days, start, duration, u);
      ScheduleFrame(p.0, j + 1, days, start, duration, u);
      assert r.0[j] == p.0[j];
      forall k | j <= k < |gs|
        ensures r.0[k] == gs[k] || Placed(gs[k], r.0[k], days)
      {
        if k > j {
          assert p.0[k] == gs[k];
        }
      }
    }
  }

  /** When no game from j on is counted as not set and there are days, every one of them was placed. */
  lemma {:induction false} ScheduleAllPlaced(gs: seq<Game>, j: nat, days: seq<int>, start: int, duration: nat, unplaced: nat)
    requires j <= |gs| && DatedAreTimed(gs)
    ensures var r := ScheduleFrom(gs, j, days, start, duration, unplaced);
      |r.0| == |gs| &&
      (r.1 == unplaced && |days| > 0 ==> forall k :: j <= k < |gs| ==> Placed(gs[k], r.0[k], days))
    decreases |gs| - j
  {
    ScheduleFrame(gs, j, days, start, duration, unplaced);
    if j < |gs| {
      var p := PlaceGame(gs, j, days, start, duration);
      var u := unplaced + (if !p.1 && |days| > 0 then 1 else 0);
      var r := ScheduleFrom(gs, j, days, start, duration, unplaced);
      ScheduleStep(gs, j, days, start, duration, unplaced);
      assert r == ScheduleFrom(p.0, j + 1, days, start, duration, u);
      ScheduleFrame(p.0, j + 1, days, start, duration, u);
      ScheduleAllPlaced(p.0, j + 1, days, start, duration, u);
      if r.1 == unplaced && |days| > 0 {
        assert p.1;
        assert r.0[j] == p.0[j];
        forall k | j <= k < |gs|
          ensures Placed(gs[k], r.0[k], days)
        {
          if k > j {
            assert p.0[k] == gs[k];
          }
        }
      }
    }
  }

  /** A game from j on is counted as not set only when there are days and some game was left as it was. */
  lemma {:induction false} ScheduleSomeUnplaced(gs: seq<Game>, j: nat, days: seq<int>, start: int, duration: nat, unplaced: nat)
    requires j <= |gs| && DatedAreTimed(gs)
    ensures var r := ScheduleFrom(gs, j, days, start, duration, unplaced);
      |r.0| == |gs| &&
      (r.1 > unplaced ==> |days| > 0) &&
      ((forall k :: j <= k < |gs| ==> r.0[k] != gs[k]) ==> r.1 == unplaced)
    decreases |gs| - j
  {
    ScheduleFrame(gs, j, days, start, duration, unplaced);
    if j < |gs| {
      var p := PlaceGame(gs, j, days, start, duration);
      var u := unplaced + (if !p.1 && |days| > 0 then 1 else 0);
      var r := ScheduleFrom(gs, j, days, start, duration, unplaced);
      ScheduleStep(gs, j, days, start, duration, unplaced);
      assert r == ScheduleFrom(p.0, j + 1, days, start, duration, u);
      ScheduleFrame(p.0, j + 1, days, start, duration, u);
      ScheduleSomeUnplaced(p.0, j + 1, days, start, duration, u);
      if forall k :: j <= k < |gs| ==> r.0[k] != gs[k] {
        assert r.0[j] == p.0[j] != gs[j];
        assert forall k :: j + 1 <= k < |gs| ==> p.0[k] == gs[k];
      }
    }
  }

  /** No player is on the players list of any day more than once. */
  ghost predicate OnePerDay(gs: seq<Game>)
  {
    forall day, p :: DayCount(gs, day, p) <= 1
  }

  predicate UndatedFrom(gs: seq<Game>, j: nat)
  {
    forall k :: j <= k < |gs| ==> gs[k].gameDate.None?
  }

  lemma PlaceKeepsOnePerDay(gs: seq<Game>, j: nat, days: seq<int>, start: int, duration: nat)
    requires j < |gs| && DatedAreTimed(gs) && UndatedFrom(gs, j) && gs[j].id1 != gs[j].id2
    requires OnePerDay(gs)
    ensures OnePerDay(PlaceGame(gs, j, days, start, duration).0)
  {
    var p := PlaceGame(gs, j, days, start, duration);
    if p.1 {
      var i := FirstFreeDay(gs, gs[j], days, 0).value;
      var g := p.0[j];
      assert p.0 == gs[j := g];
      forall day, q
        ensures DayCount(p.0, day, q) <= 1
      {
        PlaceSplit(gs, j, g, day, q);
        assert DayCount(gs, day, q) <= 1;
        if day == days[i] && (q == g.id1 || q == g.id2) {
          assert HasSlot(gs, gs[j], days[i], 1);
        }
      }
    }
  }

  lemma {:induction false} ScheduleOnePerDay(gs: seq<Game>, j: nat, days: seq<int>, start: int, duration: nat, unplaced: nat)
    requires j <= |gs| && DatedAreTimed(gs) && UndatedFrom(gs, j) && ProperPairs(gs)
    requires OnePerDay(gs)
    ensures OnePerDay(ScheduleFrom(gs, j, days, start, duration, unplaced).0)
    decreases |gs| - j
  {
    if j < |gs| {
      var p := PlaceGame(gs, j, days, start, duration);
      assert gs[j] in gs;
      PlaceKeepsOnePerDay(gs, j, days, start, duration);
      var u := unplaced + (if !p.1 && |days| > 0 then 1 else 0);
      forall g | g in p.0
        ensures g.id1 != g.id2
      {
        var k :| 0 <= k < |p.0| && p.0[k] == g;
        assert gs[k] in gs;
      }
      ScheduleOnePerDay(p.0, j + 1, days, start, duration, u);
    }
  }

  /** The games of `day` start at `start`, `start + duration`, `start + 2 * duration`, ... */
  ghost predicate DayBackToBack(gs: seq<Game>, day: int, start: int, duration: nat)
  {
    forall m :: 0 <= m < |DayGames(gs, day)| ==> DayGames(gs, day)[m].startTime == Some(start + m * duration)
  }

  /** Every day whose last game, counted back to back, starts before midnight is back to back. */
  ghost predicate BackToBack(gs: seq<Game>, start: int, duration: nat)
  {
    forall day :: start + (|DayGames(gs, day)| - 1) * duration < SecondsPerDay ==> DayBackToBack(gs, day, start, duration)
  }

  lemma MulMonotone(a: int, b: int, c: nat)
    requires a <= b
    ensures a * c <= b * c
  {
  }

  lemma MulPred(n: int, d: int)
    ensures (n - 1) * d == n * d - d
  {
  }

  /** On a back-to-back day the latest start is that of the day's last game. */
  lemma LastIsLatest(gs: seq<Game>, day: int, start: int, duration: nat)
    requires DatedAreTimed(gs) && DayBackToBack(gs, day, start, duration) && DayGames(gs, day) != []
    ensures LastGameTime(gs, day) == start + (|DayGames(gs, day)| - 1) * duration
  {
    var ds := DayGames(gs, day);
    var n := |ds|;
    DayGamesSpec(gs, day);
    var r := LastGameTime(gs, day);
    var top := start + (n - 1) * duration;
    assert ds[n - 1] in ds;
    assert ds[n - 1].startTime == Some(top);
    assert top <= r;
    var g :| g in gs && g.gameDate == Some(day) && g.startTime == Some(r);
    assert g in ds;
    var m :| 0 <= m < n && ds[m] == g;
    MulMonotone(m, n - 1, duration);
  }

  /** On a back-to-back day with L games, the next game starts L durations after `start`. */
  lemma NextSlot(gs: seq<Game>, day: int, start: int, duration: nat)
    requires DatedAreTimed(gs) && DayBackToBack(gs, day, start, duration)
    requires 0 <= start && start + |DayGames(gs, day)| * duration < SecondsPerDay
    ensures SlotTime(gs, day, start, duration) == start + |DayGames(gs, day)| * duration
  {
    var n := |DayGames(gs, day)|;
    if n > 0 {
      LastIsLatest(gs, day, start, duration);
      var r := LastGameTime(gs, day);
      MulPred(n, duration);
      assert r + duration == start + n * duration;
      MulMonotone(0, n - 1, duration);
      assert 0 <= r;
      assert SlotTime(gs, day, start, duration) == GetTime(r, duration);
    }
  }

  /** A back-to-back list of games extended by a game at the next slot stays back to back. */
  lemma AppendBackToBack(before: seq<Game>, g: Game, start: int, duration: nat)
    requires forall m :: 0 <= m < |before| ==> before[m].startTime == Some(start + m * duration)
    requires g.startTime == Some(start + |before| * duration)
    ensures forall m :: 0 <= m < |before + [g]| ==> (before + [g])[m].startTime == Some(start + m * duration)
  {
    forall m | 0 <= m < |before + [g]|
      ensures (before + [g])[m].startTime == Some(start + m * duration)
    {
      if m < |before| {
        assert (before + [g])[m] == before[m];
      }
    }
  }

  /** Dating game j on a back-to-back day, at the day's next slot, keeps that day
      back to back while the new game starts before midnight. */
  lemma PlaceOnDayBackToBack(gs: seq<Game>, j: nat, g: Game, day: int, start: int, duration: nat)
    requires j < |gs| && DatedAreTimed(gs) && UndatedFrom(gs, j)
    requires DayBackToBack(gs, day, start, duration)
    requires 0 <= start && start + |DayGames(gs, day)| * duration < SecondsPerDay
    requires g.gameDate == Some(day) && g.startTime == Some(SlotTime(gs, day, start, duration))
    ensures DayBackToBack(gs[j := g], day, start, duration)
  {
    PlaceSplit(gs, j, g, day, 0);
    var before := DayGames(gs, day);
    assert DayGames(gs[j := g], day) == before + [g];
    NextSlot(gs, day, start, duration);
    AppendBackToBack(before, g, start, duration);
  }

  lemma PlaceKeepsBackToBack(gs: seq<Game>, j: nat, days: seq<int>, start: int, duration: nat)
    requires j < |gs| && DatedAreTimed(gs) && UndatedFrom(gs, j)
    requires BackToBack(gs, start, duration) && 0 <= start
    ensures BackToBack(PlaceGame(gs, j, days, start, duration).0, start, duration)
  {
    var p := PlaceGame(gs, j, days, start, duration);
    if p.1 {
      var i := FirstFreeDay(gs, gs[j], days, 0).value;
      var g := p.0[j];
      PlaceGameRule(gs, j, days, start, duration);
      assert p.0 == gs[j := g];
      forall day | start + (|DayGames(p.0, day)| - 1) * duration < SecondsPerDay
        ensures DayBackToBack(p.0, day, start, duration)
      {
        PlaceSplit(gs, j, g, day, 0);
        var n := |DayGames(gs, day)|;
        if day == days[i] {
          assert |DayGames(p.0, day)| - 1 == n;
          assert start + n * duration < SecondsPerDay;
          if n > 0 {
            MulMonotone(n - 1, n, duration);
            assert DayBackToBack(gs, day, start, duration);
          } else {
            assert DayGames(gs, day) == [];
          }
          PlaceOnDayBackToBack(gs, j, g, day, start, duration);
        } else {
          assert DayGames(p.0, day) == DayGames(gs, day);
          assert DayBackToBack(gs, day, start, duration);
        }
      }
    }
  }




  lemma {:induction false} ScheduleBackToBack(gs: seq<Game>, j: nat, days: seq<int>, start: int, duration: nat, unplaced: nat)
    requires j <= |gs| && DatedAreTimed(gs) && UndatedFrom(gs, j)
    requires BackToBack(gs, start, duration) && 0 <= start
    ensures BackToBack(ScheduleFrom(gs, j, days, start, duration, unplaced).0, start, duration)
    decreases |gs| - j
  {
    if j < |gs| {
      var p := PlaceGame(gs, j, days, start, duration);
      PlaceKeepsBackToBack(gs, j, days, start, duration);
      var u := unplaced + (if !p.1 && |days| > 0 then 1 else 0);
      ScheduleBackToBack(p.0, j + 1, days, start, duration, u);
    }
  }

  /** Each game, in input order, went on the first day with a slot among the
      games as they stood at its turn, at `start` on an empty day and one duration
      after the day's last game otherwise; a game no day had room for is unchanged. */
  ghost predicate FirstFreeDays(gs: seq<Game>, after: seq<Game>, days: seq<int>, start: int, duration: nat)
    requires |after| == |gs|
  {
    forall k :: 0 <= k < |gs| ==>
      var before := after[..k] + gs[k..];
      DatedAreTimed(before) &&
      match FirstFreeDay(before, gs[k], days, 0)
      case None => after[k] == gs[k]
      case Some(i) =>
        after[k] == gs[k].(gameDate := Some(days[i]), startTime := Some(SlotTime(before, days[i], start, duration)))
  }

  /** generate_schedule places the games greedily, one after the other. */
  lemma ScheduleFirstFree(gs: seq<Game>, days: seq<int>, start: int, duration: nat)
    requires DatedAreTimed(gs)
    ensures var r := ScheduleFrom(gs, 0, days, start, duration, 0);
      |r.0| == |gs| && FirstFreeDays(gs, r.0, days, start, duration)
  {
    var r := ScheduleFrom(gs, 0, days, start, duration, 0);
    ScheduleGreedy(gs, 0, days, start, duration, 0);
    forall k | 0 <= k < |gs|
      ensures var before := r.0[..k] + gs[k..];
        DatedAreTimed(before) &&
        match FirstFreeDay(before, gs[k], days, 0)
        case None => r.0[k] == gs[k]
        case Some(i) =>
          r.0[k] == gs[k].(gameDate := Some(days[i]), startTime := Some(SlotTime(before, days[i], start, duration)))
    {
      var before := r.0[..k] + gs[k..];
      assert before[k] == gs[k];
      var p := PlaceGame(before, k, days, start, duration);
      PlaceGameRule(before, k, days, start, duration);
      if !p.1 {
        assert p.0 == before;
      }
    }
  }

  /** generate_schedule on freshly generated games (none dated, no self-pairing):
      only dates and times change; with no days nothing is dated and nothing is
      reported missing; otherwise no game is missing exactly when every game got
      a day; no player plays twice on the same day; and each game, in input order,
      goes on the first day with a slot, at `start` on an empty day and one
      duration after the day's last game otherwise. */
  lemma ScheduleSpec(gs: seq<Game>, days: seq<int>, start: int, duration: nat)
    requires UndatedFrom(gs, 0) && ProperPairs(gs)
    ensures var r := ScheduleFrom(gs, 0, days, start, duration, 0);
      |r.0| == |gs| &&
      (forall k :: 0 <= k < |gs| ==> r.0[k] == gs[k] || Placed(gs[k], r.0[k], days)) &&
      (|days| == 0 ==> r == (gs, 0)) &&
      (r.1 == 0 <==> |days| == 0 || forall k :: 0 <= k < |gs| ==> r.0[k].gameDate.Some?) &&
      ProperPairs(r.0) &&
      (forall day, p :: Pairing.Count(DayGames(r.0, day), p) <= 1) &&
      FirstFreeDays(gs, r.0, days, start, duration)
  {
    var r := ScheduleFrom(gs, 0, days, start, duration, 0);
    ScheduleFrame(gs, 0, days, start, duration, 0);
    ScheduleAllPlaced(gs, 0, days, start, duration, 0);
    ScheduleSomeUnplaced(gs, 0, days, start, duration, 0);
    if |days| == 0 {
      ScheduleWithoutDays(gs, 0, start, duration, 0);
    }
    forall day, p
      ensures DayCount(gs, day, p) <= 1
    {
      UndatedBookNothing(gs, day);
    }
    ScheduleOnePerDay(gs, 0, days, start, duration, 0);
    forall g | g in r.0
      ensures g.id1 != g.id2
    {
      var k :| 0 <= k < |r.0| && r.0[k] == g;
      assert gs[k] in gs;
    }
    forall day, p
      ensures Pairing.Count(DayGames(r.0, day), p) <= 1
    {
      DayCountIsGameCount(r.0, day, p);
    }
    if r.1 > 0 {
      var k :| 0 <= k < |gs| && r.0[k] == gs[k];
      assert r.0[k].gameDate.None?;
    }
    assert FirstFreeDays(gs, r.0, days, start, duration) by {
      ScheduleFirstFree(gs, days, start, duration);
    }
  }

  /** The games of every day whose last game starts before midnight start back
      to back from the configured start time, in input order. */
  lemma ScheduleTimes(gs: seq<Game>, days: seq<int>, start: int, duration: nat)
    requires UndatedFrom(gs, 0) && 0 <= start
    ensures BackToBack(ScheduleFrom(gs, 0, days, start, duration, 0).0, start, duration)
  {
    forall day
      ensures DayGames(gs, day) == []
    {
      UndatedBookNothing(gs, day);
    }
    ScheduleBackToBack(gs, 0, days, start, duration, 0);
  }

  /** What the saving loop reports: True with the stored games, or the first rejection. */
  function SaveOutcome(games: seq<Game>, stored: seq<Game>): (r: Scheduled)
    ensures !r.Unplaced?
  {
    match FirstRejection(games, stored)
    case None => Scheduled(SaveAll(games, stored))
    case Some(e) => SaveRejected(e, SaveAll(games, stored))
  }

  /** One pass of generate_schedule's inner loop: game j goes on the first day
      with a slot; `notSet` grows by one when the last day was tried in vain. */
  method AssignDay(games: array<Game>, j: nat, days: seq<int>, start: int, duration: nat, notSet: nat)
    returns (notSet': nat)
    requires j < games.Length && DatedAreTimed(games[..])
    modifies games
    ensures var p := PlaceGame(old(games[..]), j, days, start, duration);
      games[..] == p.0 && notSet' == notSet + (if !p.1 && |days| > 0 then 1 else 0)
    ensures DatedAreTimed(games[..]) &&
      ScheduleFrom(games[..], j + 1, days, start, duration, notSet') ==
      ScheduleFrom(old(games[..]), j, days, start, duration, notSet)
  {
    ghost var before := games[..];
    ScheduleStep(before, j, days, start, duration, notSet);
    notSet' := notSet;
    var numOfDays := |days|;
    var found := false;
    for i := 0 to numOfDays
      invariant games[..] == before && !found
      invariant notSet' == notSet + (if i == numOfDays && numOfDays > 0 then 1 else 0)
      invariant FirstFreeDay(before, before[j], days, i) == FirstFreeDay(before, before[j], days, 0)
    {
      if HasSlot(games[..], games[j], days[i], 1) {
        var dayGames := GamesThisDay(games[..], days[i]);
        var gameTime;
        if |dayGames| == 0 {
          gameTime := start;
        } else {
          gameTime := GetTime(LastGameTime(games[..], days[i]), duration);
        }
        games[j] := games[j].(gameDate := Some(days[i]), startTime := Some(gameTime));
        found := true;
        break;
      }
      if i == numOfDays - 1 {
        notSet' := notSet' + 1;
      }
    }
  }

  /** The saving loop of generate_schedule: every game through Game.save, in order. */
  method SaveSchedule(games: seq<Game>, stored: seq<Game>) returns (r: Scheduled)
    ensures r == SaveOutcome(games, stored)
  {
    var store := stored;
    for k := 0 to |games|
      invariant SaveAll(games[k..], store) == SaveAll(games, stored)
      invariant FirstRejection(games[k..], store) == FirstRejection(games, stored)
    {
      assert games[k..][1..] == games[k + 1..];
      var check := SaveGuard(games[k], store, true);
      if check.Fail? {
        return SaveRejected(check.error, store);
      }
      store := store + [games[k]];
    }
    return Scheduled(store);
  }

  /** generate_schedule on the games of `games`, stored into `stored`. */
  method GenerateSchedule(games: array<Game>, t: Tournament, stored: seq<Game>) returns (r: Scheduled)
    requires DatedAreTimed(games[..])
    modifies games
    ensures var s := ScheduleFrom(old(games[..]), 0, EligibleDays(t.startDate, t.startDatePlayoff),
                                  t.gameStartTime, t.gameDuration, 0);
      games[..] == s.0 && (r.Unplaced? <==> s.1 > 0) &&
      (s.1 == 0 ==> r == SaveOutcome(s.0, stored))
  {
    var start := t.gameStartTime;
    var days := GetDates(t);
    var notSet := 0;
    ghost var initial := games[..];
    for j := 0 to games.Length
      invariant DatedAreTimed(games[..])
      invariant ScheduleFrom(games[..], j, days, start, t.gameDuration, notSet) ==
        ScheduleFrom(initial, 0, days, start, t.gameDuration, 0)
    {
      notSet := AssignDay(games, j, days, start, t.gameDuration, notSet);
    }
    assert games[..] == ScheduleFrom(games[..], games.Length, days, start, t.gameDuration, notSet).0;
    if notSet == 0 {
      r := SaveSchedule(games[..], stored);
    } else {
      r := Unplaced;
    }
  }
}
