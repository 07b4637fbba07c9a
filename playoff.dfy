/**
 * Play-off resolution: the ranking of participants, the seeding of the four
 * quarterfinals from the top eight, and the lazy filling of the semifinal,
 * third-place and final slots from the winners and losers of their feeder
 * games. Games are records in an array, updated in place as the stored games
 * are; a failed lookup aborts the resolution with the updates made so far.
 */
module Playoff {
  import opened Basics
  import opened Models

  // ---------------------------------------------------------------------------
  // Ranking

  /** A participant with its group-stage score. */
  datatype Standing = Standing(pid: Pid, winSets: int, winBalls: int)

  /** a comes no later than b when sorting by (win_sets, win_balls), highest first. */
  predicate RanksAbove(a: Standing, b: Standing)
  {
    a.winSets > b.winSets || (a.winSets == b.winSets && a.winBalls >= b.winBalls)
  }

  predicate Ranking(s: seq<Standing>)
  {
    forall i, j :: 0 <= i < j < |s| ==> RanksAbove(s[i], s[j])
  }

  /** Puts x in front of the first entry it ranks at least as high as. */
  function Insert(x: Standing, s: seq<Standing>): (r: seq<Standing>)
    ensures multiset(r) == multiset(s) + multiset{x}
  {
    if s == [] then [x]
    else if RanksAbove(x, s[0]) then [x] + s
    else
      assert s == [s[0]] + s[1..];
      [s[0]] + Insert(x, s[1..])
  }

  /** The participants sorted by (win_sets, win_balls) in descending order;
      an entry goes in front of the later entries with the same score. */
  function Ranked(ps: seq<Standing>): (r: seq<Standing>)
    ensures multiset(r) == multiset(ps)
  {
    if ps == [] then []
    else
      assert ps == [ps[0]] + ps[1..];
      Insert(ps[0], Ranked(ps[1..]))
  }

  lemma {:induction false} InsertKeepsRanking(x: Standing, s: seq<Standing>)
    requires Ranking(s)
    ensures Ranking(Insert(x, s))
  {
    if s != [] && !RanksAbove(x, s[0]) {
      InsertKeepsRanking(x, s[1..]);
      var rest := Insert(x, s[1..]);
      forall y | y in rest
        ensures RanksAbove(s[0], y)
      {
        assert y in multiset(rest);
        if y != x {
          assert y in multiset(s[1..]);
          var i :| 0 <= i < |s[1..]| && s[1..][i] == y;
          assert s[i + 1] == y;
        }
      }
      forall i, j | 0 <= i < j < |[s[0]] + rest|
        ensures RanksAbove(([s[0]] + rest)[i], ([s[0]] + rest)[j])
      {
        if i == 0 {
          assert ([s[0]] + rest)[j] in rest;
        } else {
          assert ([s[0]] + rest)[i] == rest[i - 1] && ([s[0]] + rest)[j] == rest[j - 1];
        }
      }
    }
  }

  /** The ranking is sorted, highest score first, and holds every participant exactly as often. */
  lemma {:induction false} RankedIsSorted(ps: seq<Standing>)
    ensures Ranking(Ranked(ps)) && multiset(Ranked(ps)) == multiset(ps)
  {
    if ps != [] {
      RankedIsSorted(ps[1..]);
      InsertKeepsRanking(ps[0], Ranked(ps[1..]));
    }
  }

  const PlayoffPlaces: nat := 8

  /** The first eight of the ranking (all of it when shorter). */
  function Seeds(ps: seq<Standing>): (r: seq<Standing>)
  {
    var r := Ranked(ps);
    if |r| < PlayoffPlaces then r else r[..PlayoffPlaces]
  }

  lemma RankedLength(ps: seq<Standing>)
    ensures |Ranked(ps)| == |ps|
  {
    assert |multiset(Ranked(ps))| == |multiset(ps)|;
  }

  /** Every seed ranks at least as high as every participant left out. */
  lemma SeedsAreTop(ps: seq<Standing>)
    ensures |Seeds(ps)| == (if |ps| < PlayoffPlaces then |ps| else PlayoffPlaces)
    ensures Ranking(Seeds(ps)) && multiset(Seeds(ps)) <= multiset(ps)
    ensures forall i, j :: 0 <= i < |Seeds(ps)| <= j < |Ranked(ps)| ==> RanksAbove(Seeds(ps)[i], Ranked(ps)[j])
  {
    RankedIsSorted(ps);
    RankedLength(ps);
    var r := Ranked(ps);
    if |r| >= PlayoffPlaces {
      assert r == r[..PlayoffPlaces] + r[PlayoffPlaces..];
      assert multiset(r) == multiset(r[..PlayoffPlaces]) + multiset(r[PlayoffPlaces..]);
    }
  }

  /** Python's s[i]: negative indices count from the end; out of range is an error. */
  function PyIndex<T>(s: seq<T>, i: int): (r: Option<T>)
    ensures r.Some? <==> -|s| <= i < |s|
    ensures 0 <= i < |s| ==> r == Some(s[i])
    ensures -|s| <= i < 0 ==> r == Some(s[|s| + i])
  {
    if 0 <= i < |s| then Some(s[i])
    else if -|s| <= i < 0 then Some(s[|s| + i])
    else None
  }

  // ---------------------------------------------------------------------------
  // Passes over the games

  datatype PlayoffError =
    | SeedMissing(index: int)      // ranking[id - 1] out of range
    | FeederMissing(gameId: int)   // no game with the feeder's identifier

  /** The games after a pass, and the error that ended it early, if any. */
  datatype Resolution = Resolved(games: seq<Game>) | Aborted(error: PlayoffError, games: seq<Game>)

  function Finish(err: Option<PlayoffError>, gs: seq<Game>): Resolution
  {
    if err.None? then Resolved(gs) else Aborted(err.value, gs)
  }

  predicate IsQuarterfinal(g: Game)
  {
    1 <= g.gameId <= 4
  }

  /** A quarterfinal with both participants taken from the seeds by drawn position. */
  function SeedGame(g: Game, seeds: seq<Standing>): Result<Game, PlayoffError>
  {
    match PyIndex(seeds, g.id1 - 1)
    case None => Err(SeedMissing(g.id1 - 1))
    case Some(a) =>
      match PyIndex(seeds, g.id2 - 1)
      case None => Err(SeedMissing(g.id2 - 1))
      case Some(b) => Ok(g.(participant1 := Some(a.pid), participant2 := Some(b.pid)))
  }

  /** The quarterfinal loop from index k on. */
  function QuarterPass(gs: seq<Game>, seeds: seq<Standing>, k: nat): Resolution
    decreases |gs| - k
  {
    if k >= |gs| then Resolved(gs)
    else if !IsQuarterfinal(gs[k]) then QuarterPass(gs, seeds, k + 1)
    else match SeedGame(gs[k], seeds)
      case Err(e) => Aborted(e, gs)
      case Ok(g) => QuarterPass(gs[k := g], seeds, k + 1)
  }

  datatype Stage = Semifinals | ThirdPlace | Final

  predicate InStage(s: Stage, gameId: int)
  {
    match s
    case Semifinals => gameId == 5 || gameId == 6
    case ThirdPlace => gameId == 7
    case Final => gameId == 8
  }

  /** The identifier of the game that feeds a slot: a semifinal slot names its
      quarterfinal in id1/id2; third place and final are fed by games 5 and 6. */
  function FeederId(s: Stage, g: Game, first: bool): int
  {
    match s
    case Semifinals => if first then g.id1 else g.id2
    case _ => if first then 5 else 6
  }

  /** Who moves on from a feeder: its loser for third place, its winner otherwise. */
  function Advancing(s: Stage, feeder: Game): Option<Pid>
  {
    if s == ThirdPlace then Loser(feeder) else Winner(feeder)
  }

  function Slot(g: Game, first: bool): Option<Pid>
  {
    if first then g.participant1 else g.participant2
  }

  function WithSlot(g: Game, first: bool, p: Option<Pid>): Game
  {
    if first then g.(participant1 := p) else g.(participant2 := p)
  }

  /** The index of the first game with identifier id. */
  function FirstWithId(gs: seq<Game>, id: int): (r: Option<nat>)
    ensures r.Some? ==>
      r.value < |gs| && gs[r.value].gameId == id && forall k :: 0 <= k < r.value ==> gs[k].gameId != id
    ensures r.None? ==> forall k :: 0 <= k < |gs| ==> gs[k].gameId != id
  {
    if gs == [] then None
    else if gs[0].gameId == id then Some(0)
    else match FirstWithId(gs[1..], id)
      case None => None
      case Some(i) => Some(i + 1)
  }

  /** One slot of stage game k: left alone when bound, otherwise filled from the
      first game carrying the feeder's identifier when that game has a result. */
  function FillSlot(gs: seq<Game>, k: nat, s: Stage, first: bool): Result<seq<Game>, PlayoffError>
    requires k < |gs|
  {
    if Slot(gs[k], first).Some? then Ok(gs)
    else
      var fid := FeederId(s, gs[k], first);
      match FirstWithId(gs, fid)
      case None => Err(FeederMissing(fid))
      case Some(f) =>
        var p := Advancing(s, gs[f]);
        if p.None? then Ok(gs) else Ok(gs[k := WithSlot(gs[k], first, p)])
  }

  /** The loop over the games of one stage from index k on. */
  function StagePass(gs: seq<Game>, s: Stage, k: nat): Resolution
    decreases |gs| - k
  {
    if k >= |gs| then Resolved(gs)
    else if !InStage(s, gs[k].gameId) then StagePass(gs, s, k + 1)
    else match FillSlot(gs, k, s, true)
      case Err(e) => Aborted(e, gs)
      case Ok(gs1) =>
        match FillSlot(gs1, k, s, false)
        case Err(e) => Aborted(e, gs1)
        case Ok(gs2) => StagePass(gs2, s, k + 1)
  }

  /** Semifinals, then third place, then final. */
  function LaterStages(gs: seq<Game>): Resolution
  {
    match StagePass(gs, Semifinals, 0)
    case Aborted(e, g2) => Aborted(e, g2)
    case Resolved(g2) =>
      match StagePass(g2, ThirdPlace, 0)
      case Aborted(e, g3) => Aborted(e, g3)
      case Resolved(g3) => StagePass(g3, Final, 0)
  }

  /** The play-off view: quarterfinals, then the later stages. */
  function Resolve(gs: seq<Game>, standings: seq<Standing>): Resolution
  {
    match QuarterPass(gs, Seeds(standings), 0)
    case Aborted(e, g1) => Aborted(e, g1)
    case Resolved(g1) => LaterStages(g1)
  }

  // ---------------------------------------------------------------------------
  // The loops, in place

  method SeedQuarterfinals(games: array<Game>, seeds: seq<Standing>) returns (err: Option<PlayoffError>)
    modifies games
    ensures Finish(err, games[..]) == QuarterPass(old(games[..]), seeds, 0)
  {
    for k := 0 to games.Length
      invariant QuarterPass(games[..], seeds, k) == QuarterPass(old(games[..]), seeds, 0)
    {
      var g := games[k];
      if 1 <= g.gameId <= 4 {
        var a := PyIndex(seeds, g.id1 - 1);
        if a.None? {
          return Some(SeedMissing(g.id1 - 1));
        }
        var b := PyIndex(seeds, g.id2 - 1);
        if b.None? {
          return Some(SeedMissing(g.id2 - 1));
        }
        games[k] := g.(participant1 := Some(a.value.pid), participant2 := Some(b.value.pid));
      }
    }
    return None;
  }

  /** list(Game.objects.filter(game_id=id))[0], as an index. */
  method FindGame(games: array<Game>, id: int) returns (f: Option<nat>)
    ensures f == FirstWithId(games[..], id)
  {
    var k := 0;
    while k < games.Length
      invariant 0 <= k <= games.Length
      invariant forall j :: 0 <= j < k ==> games[j].gameId != id
    {
      if games[k].gameId == id {
        return Some(k);
      }
      k := k + 1;
    }
    return None;
  }

  method FillStage(games: array<Game>, s: Stage) returns (err: Option<PlayoffError>)
    modifies games
    ensures Finish(err, games[..]) == StagePass(old(games[..]), s, 0)
  {
    for k := 0 to games.Length
      invariant StagePass(games[..], s, k) == StagePass(old(games[..]), s, 0)
    {
      var g := games[k];
      if InStage(s, g.gameId) {
        ghost var before := games[..];
        if !GetP1(g).Bound? {
          var fid := FeederId(s, g, true);
          var f := FindGame(games, fid);
          if f.None? {
            return Some(FeederMissing(fid));
          }
          var p;
          if s == ThirdPlace {
            p := GetLoser(games[f.value]);
          } else {
            p := GetWinner(games[f.value]);
          }
          if p.Some? {
            g := g.(participant1 := p);
            games[k] := g;
          }
        }
        assert FillSlot(before, k, s, true) == Ok(games[..]);
        ghost var middle := games[..];
        if !GetP2(g).Bound? {
          var fid := FeederId(s, g, false);
          var f := FindGame(games, fid);
          if f.None? {
            return Some(FeederMissing(fid));
          }
          var p;
          if s == ThirdPlace {
            p := GetLoser(games[f.value]);
          } else {
            p := GetWinner(games[f.value]);
          }
          if p.Some? {
            g := g.(participant2 := p);
            games[k] := g;
          }
        }
        assert FillSlot(middle, k, s, false) == Ok(games[..]);
      }
    }
    return None;
  }

  /** The play-off view's updates of the stored games. */
  method ResolvePlayoff(games: array<Game>, standings: seq<Standing>) returns (err: Option<PlayoffError>)
    modifies games
    ensures Finish(err, games[..]) == Resolve(old(games[..]), standings)
  {
    var seeds := Seeds(standings);
    err := SeedQuarterfinals(games, seeds);
    if err.Some? {
      return;
    }
    ghost var g1 := games[..];
    err := FillStage(games, Semifinals);
    if err.Some? {
      return;
    }
    ghost var g2 := games[..];
    err := FillStage(games, ThirdPlace);
    if err.Some? {
      return;
    }
    err := FillStage(games, Final);
  }

  // ---------------------------------------------------------------------------
  // Quarterfinal seeding

  /** A quarterfinal gets the seeds at its drawn positions; it fails exactly
      when a position is outside the seeds (negative positions count from the end). */
  lemma SeedGameSpec(g: Game, seeds: seq<Standing>)
    ensures SeedGame(g, seeds).Ok? <==>
      -|seeds| < g.id1 <= |seeds| && -|seeds| < g.id2 <= |seeds|
    ensures 1 <= g.id1 <= |seeds| && 1 <= g.id2 <= |seeds| ==>
      SeedGame(g, seeds) == Ok(g.(participant1 := Some(seeds[g.id1 - 1].pid),
                                 participant2 := Some(seeds[g.id2 - 1].pid)))
    ensures SeedGame(g, seeds).Ok? ==>
      SeedGame(SeedGame(g, seeds).value, seeds) == SeedGame(g, seeds)
  {
  }

  /** The quarterfinal loop seeds every quarterfinal and leaves every other game
      alone, whatever the quarterfinals held before; it aborts exactly when a
      quarterfinal's position is outside the seeds. */
  lemma {:induction false} QuarterPassSpec(gs: seq<Game>, seeds: seq<Standing>, k: nat)
    ensures var r := QuarterPass(gs, seeds, k);
      (r.Resolved? <==> forall j :: k <= j < |gs| && IsQuarterfinal(gs[j]) ==> SeedGame(gs[j], seeds).Ok?) &&
      (r.Resolved? ==>
        |r.games| == |gs| &&
        forall j :: 0 <= j < |gs| ==>
          r.games[j] == if k <= j && IsQuarterfinal(gs[j]) then SeedGame(gs[j], seeds).value else gs[j])
    decreases |gs| - k
  {
    if k < |gs| {
      if !IsQuarterfinal(gs[k]) {
        QuarterPassSpec(gs, seeds, k + 1);
      } else if SeedGame(gs[k], seeds).Ok? {
        var g := SeedGame(gs[k], seeds).value;
        assert forall j :: k < j < |gs| ==> gs[k := g][j] == gs[j];
        QuarterPassSpec(gs[k := g], seeds, k + 1);
      }
    }
  }

  /** Seeding a second time changes nothing. */
  lemma QuarterfinalsReseeded(gs: seq<Game>, seeds: seq<Standing>)
    requires QuarterPass(gs, seeds, 0).Resolved?
    ensures QuarterPass(QuarterPass(gs, seeds, 0).games, seeds, 0) == QuarterPass(gs, seeds, 0)
  {
    var r := QuarterPass(gs, seeds, 0).games;
    QuarterPassSpec(gs, seeds, 0);
    forall j | 0 <= j < |gs| && IsQuarterfinal(gs[j])
      ensures SeedGame(r[j], seeds) == Ok(r[j])
    {
      SeedGameSpec(gs[j], seeds);
    }
    QuarterPassSpec(r, seeds, 0);
  }

  // ---------------------------------------------------------------------------
  // Stage passes

  /** The feeders of a stage's games are not games of that stage. */
  predicate FeedersOutside(gs: seq<Game>, s: Stage)
  {
    forall j :: 0 <= j < |gs| && InStage(s, gs[j].gameId) ==>
      !InStage(s, FeederId(s, gs[j], true)) && !InStage(s, FeederId(s, gs[j], false))
  }

  /** A slot can be handled: it is bound already, or a game carries its feeder's identifier. */
  predicate Fed(gs: seq<Game>, s: Stage, j: nat, first: bool)
    requires j < |gs|
  {
    Slot(gs[j], first).Some? || FirstWithId(gs, FeederId(s, gs[j], first)).Some?
  }

  /** What a slot holds after its stage: its participant when bound, else whoever
      moves on from its feeder (nobody while the feeder has no result). */
  function Filling(gs: seq<Game>, s: Stage, j: nat, first: bool): Option<Pid>
    requires j < |gs|
  {
    if Slot(gs[j], first).Some? then Slot(gs[j], first)
    else match FirstWithId(gs, FeederId(s, gs[j], first))
      case None => None
      case Some(f) => Advancing(s, gs[f])
  }

  function Filled(gs: seq<Game>, s: Stage, j: nat): Game
    requires j < |gs|
  {
    gs[j].(participant1 := Filling(gs, s, j, true), participant2 := Filling(gs, s, j, false))
  }

  lemma FirstWithIdSameIds(a: seq<Game>, b: seq<Game>, id: int)
    requires |a| == |b| && forall j :: 0 <= j < |a| ==> a[j].gameId == b[j].gameId
    ensures FirstWithId(a, id) == FirstWithId(b, id)
  {
  }

  /** Both slots of stage game k, one after the other. */
  lemma FillBoth(gs: seq<Game>, s: Stage, k: nat)
    requires k < |gs| && InStage(s, gs[k].gameId) && FeedersOutside(gs, s)
    ensures var r1 := FillSlot(gs, k, s, true);
      (r1.Err? <==> !Fed(gs, s, k, true)) &&
      (r1.Ok? ==>
        var r2 := FillSlot(r1.value, k, s, false);
        (r2.Err? <==> !Fed(gs, s, k, false)) &&
        (r2.Ok? ==> r2.value == gs[k := Filled(gs, s, k)]))
  {
    var r1 := FillSlot(gs, k, s, true);
    if r1.Ok? {
      var gs1 := r1.value;
      assert gs1 == gs[k := gs[k].(participant1 := Filling(gs, s, k, true))];
      FirstWithIdSameIds(gs, gs1, FeederId(s, gs[k], false));
      assert Filling(gs1, s, k, false) == Filling(gs, s, k, false);
    }
  }

  /** One step of the stage loop keeps the later games' fillings. */
  lemma FillingKept(gs: seq<Game>, s: Stage, k: nat, j: nat)
    requires k < j < |gs| && InStage(s, gs[k].gameId) && FeedersOutside(gs, s)
    ensures var gs2 := gs[k := Filled(gs, s, k)];
      FeedersOutside(gs2, s) && gs2[j] == gs[j] &&
      (InStage(s, gs[j].gameId) ==>
        (Fed(gs2, s, j, true) <==> Fed(gs, s, j, true)) &&
        (Fed(gs2, s, j, false) <==> Fed(gs, s, j, false)) &&
        Filled(gs2, s, j) == Filled(gs, s, j))
  {
    var gs2 := gs[k := Filled(gs, s, k)];
    FirstWithIdSameIds(gs, gs2, FeederId(s, gs[j], true));
    FirstWithIdSameIds(gs, gs2, FeederId(s, gs[j], false));
    var f1 := FirstWithId(gs, FeederId(s, gs[j], true));
    if f1.Some? && InStage(s, gs[j].gameId) {
      assert f1.value != k;
    }
    var f2 := FirstWithId(gs, FeederId(s, gs[j], false));
    if f2.Some? && InStage(s, gs[j].gameId) {
      assert f2.value != k;
    }
  }

  /** The stage loop from k on: it aborts exactly when an unbound slot of a
      stage game has no feeder; otherwise each stage game's unbound slots take
      whoever moves on from the feeders as they stood before the loop, bound
      slots stay as they are, and every other game is left alone. */
  lemma {:induction false} StagePassSpec(gs: seq<Game>, s: Stage, k: nat)
    requires FeedersOutside(gs, s)
    ensures var r := StagePass(gs, s, k);
      (r.Resolved? <==> forall j :: k <= j < |gs| && InStage(s, gs[j].gameId) ==>
         Fed(gs, s, j, true) && Fed(gs, s, j, false)) &&
      (r.Resolved? ==>
        |r.games| == |gs| &&
        forall j :: 0 <= j < |gs| ==>
          r.games[j] == if k <= j && InStage(s, gs[j].gameId) then Filled(gs, s, j) else gs[j])
    decreases |gs| - k
  {
    if k < |gs| {
      if !InStage(s, gs[k].gameId) {
        StagePassSpec(gs, s, k + 1);
      } else {
        FillBoth(gs, s, k);
        if Fed(gs, s, k, true) && Fed(gs, s, k, false) {
          var gs2 := gs[k := Filled(gs, s, k)];
          forall j | k < j < |gs|
            ensures gs2[j] == gs[j]
            ensures InStage(s, gs[j].gameId) ==>
              (Fed(gs2, s, j, true) <==> Fed(gs, s, j, true)) &&
              (Fed(gs2, s, j, false) <==> Fed(gs, s, j, false)) && Filled(gs2, s, j) == Filled(gs, s, j)
          {
            FillingKept(gs, s, k, j);
          }
          if k + 1 < |gs| {
            FillingKept(gs, s, k, k + 1);
          }
          assert FeedersOutside(gs2, s);
          StagePassSpec(gs2, s, k + 1);
        }
      }
    }
  }

  // ---------------------------------------------------------------------------
  // Idempotence

  /** Every slot of the stage's games already holds what the stage would put there. */
  predicate Settled(gs: seq<Game>, s: Stage)
  {
    forall j :: 0 <= j < |gs| && InStage(s, gs[j].gameId) ==>
      Fed(gs, s, j, true) && Fed(gs, s, j, false) && Filled(gs, s, j) == gs[j]
  }

  /** Games that differ at most in the participants of stage t's games. */
  predicate OnlyStageChanged(a: seq<Game>, b: seq<Game>, t: Stage)
  {
    |a| == |b| &&
    forall j :: 0 <= j < |a| ==>
      b[j].gameId == a[j].gameId && b[j].id1 == a[j].id1 && b[j].id2 == a[j].id2 &&
      (!InStage(t, a[j].gameId) ==> b[j] == a[j])
  }

  lemma StagePassFrame(gs: seq<Game>, s: Stage)
    requires FeedersOutside(gs, s) && StagePass(gs, s, 0).Resolved?
    ensures OnlyStageChanged(gs, StagePass(gs, s, 0).games, s)
  {
    StagePassSpec(gs, s, 0);
  }

  /** A stage that ran to its end leaves its games settled. */
  lemma StageSettles(gs: seq<Game>, s: Stage)
    requires FeedersOutside(gs, s) && StagePass(gs, s, 0).Resolved?
    ensures Settled(StagePass(gs, s, 0).games, s)
  {
    StagePassSpec(gs, s, 0);
    var r := StagePass(gs, s, 0).games;
    forall j | 0 <= j < |r| && InStage(s, r[j].gameId)
      ensures Fed(r, s, j, true) && Fed(r, s, j, false) && Filled(r, s, j) == r[j]
    {
      FirstWithIdSameIds(gs, r, FeederId(s, gs[j], true));
      FirstWithIdSameIds(gs, r, FeederId(s, gs[j], false));
      var f1 := FirstWithId(gs, FeederId(s, gs[j], true));
      if f1.Some? {
        assert r[f1.value] == gs[f1.value];
      }
      var f2 := FirstWithId(gs, FeederId(s, gs[j], false));
      if f2.Some? {
        assert r[f2.value] == gs[f2.value];
      }
    }
  }

  /** On settled games a stage changes nothing. */
  lemma SettledIsFixpoint(gs: seq<Game>, s: Stage)
    requires FeedersOutside(gs, s) && Settled(gs, s)
    ensures StagePass(gs, s, 0) == Resolved(gs)
  {
    StagePassSpec(gs, s, 0);
    assert StagePass(gs, s, 0).games == gs;
  }

  /** Running a stage a second time changes no slot. */
  lemma StageIdempotent(gs: seq<Game>, s: Stage)
    requires FeedersOutside(gs, s) && StagePass(gs, s, 0).Resolved?
    ensures StagePass(StagePass(gs, s, 0).games, s, 0) == StagePass(gs, s, 0)
  {
    var r := StagePass(gs, s, 0).games;
    StageSettles(gs, s);
    StagePassFrame(gs, s);
    SettledIsFixpoint(r, s);
  }

  /** A later stage t, whose games are not this stage's feeders, keeps this stage settled. */
  lemma SettledKept(a: seq<Game>, b: seq<Game>, s: Stage, t: Stage)
    requires Settled(a, s) && FeedersOutside(a, s) && OnlyStageChanged(a, b, t)
    requires forall id :: InStage(s, id) ==> !InStage(t, id)
    requires forall j :: 0 <= j < |a| && InStage(s, a[j].gameId) ==>
      !InStage(t, FeederId(s, a[j], true)) && !InStage(t, FeederId(s, a[j], false))
    ensures Settled(b, s) && FeedersOutside(b, s)
  {
    forall j | 0 <= j < |b| && InStage(s, b[j].gameId)
      ensures Fed(b, s, j, true) && Fed(b, s, j, false) && Filled(b, s, j) == b[j]
    {
      assert b[j] == a[j];
      FirstWithIdSameIds(a, b, FeederId(s, a[j], true));
      FirstWithIdSameIds(a, b, FeederId(s, a[j], false));
    }
  }

  /** Semifinal slots name quarterfinals, as the draw creates them. */
  predicate SemifinalsFedByQuarterfinals(gs: seq<Game>)
  {
    forall j :: 0 <= j < |gs| && InStage(Semifinals, gs[j].gameId) ==>
      1 <= gs[j].id1 <= 4 && 1 <= gs[j].id2 <= 4
  }

  /** After the later stages every one of them is settled and the quarterfinals are as they were. */
  lemma LaterStagesSettle(g1: seq<Game>)
    requires SemifinalsFedByQuarterfinals(g1) && LaterStages(g1).Resolved?
    ensures var r := LaterStages(g1).games;
      |r| == |g1| &&
      (forall j :: 0 <= j < |g1| ==> r[j].gameId == g1[j].gameId) &&
      (forall j :: 0 <= j < |g1| && IsQuarterfinal(g1[j]) ==> r[j] == g1[j]) &&
      Settled(r, Semifinals) && FeedersOutside(r, Semifinals) &&
      Settled(r, ThirdPlace) && FeedersOutside(r, ThirdPlace) &&
      Settled(r, Final) && FeedersOutside(r, Final)
  {
    var r2 := StagePass(g1, Semifinals, 0).games;
    StageSettles(g1, Semifinals);
    StagePassFrame(g1, Semifinals);
    var r3 := StagePass(r2, ThirdPlace, 0).games;
    StageSettles(r2, ThirdPlace);
    StagePassFrame(r2, ThirdPlace);
    SettledKept(r2, r3, Semifinals, ThirdPlace);
    var r4 := StagePass(r3, Final, 0).games;
    StageSettles(r3, Final);
    StagePassFrame(r3, Final);
    SettledKept(r3, r4, Semifinals, Final);
    SettledKept(r3, r4, ThirdPlace, Final);
  }

  /** Opening the play-off view again, with no new results, changes no game. */
  lemma ResolveIdempotent(gs: seq<Game>, standings: seq<Standing>)
    requires SemifinalsFedByQuarterfinals(gs)
    requires Resolve(gs, standings).Resolved?
    ensures Resolve(Resolve(gs, standings).games, standings) == Resolve(gs, standings)
  {
    var seeds := Seeds(standings);
    QuarterPassSpec(gs, seeds, 0);
    var r1 := QuarterPass(gs, seeds, 0).games;
    assert SemifinalsFedByQuarterfinals(r1);
    LaterStagesSettle(r1);
    var r4 := LaterStages(r1).games;
    forall j | 0 <= j < |r4| && IsQuarterfinal(r4[j])
      ensures SeedGame(r4[j], seeds) == Ok(r4[j])
    {
      assert r1[j].gameId == gs[j].gameId;
      assert r4[j] == r1[j] == SeedGame(gs[j], seeds).value;
      SeedGameSpec(gs[j], seeds);
    }
    QuarterPassSpec(r4, seeds, 0);
    assert QuarterPass(r4, seeds, 0).games == r4;
    SettledIsFixpoint(r4, Semifinals);
    SettledIsFixpoint(r4, ThirdPlace);
    SettledIsFixpoint(r4, Final);
  }
}
