/**
 * Pairing of group-stage games (generate_games and its helpers).
 *
 * Participants are their drawn numbers 1..N. Each round folds a shuffled list
 * of participants onto itself, skipping pairs that were already drawn; when
 * the game counts are uneven, only the participants with the fewest games
 * (padded to two) are folded. `random.shuffle` is an oracle `shuffle(draw, s)`
 * that returns some permutation of `s`; `draw` numbers the calls.
 */
module Pairing {
  import opened Basics
  import opened Models

  const AttemptsNumber: nat := 50
  const Divider: nat := 2

  /** Equalisation rounds required before generation stops. */
  function NumberOfRounds(n: int): (r: nat)
    ensures r == 4 <==> n % 2 == 0
    ensures r == 2 <==> n % 2 != 0
  {
    if n % 2 == 0 then 4 else 2
  }

  // ---------------------------------------------------------------------------
  // Counting games

  predicate Involves(g: Game, p: int)
  {
    g.id1 == p || g.id2 == p
  }

  /** The number of games in which drawn number p plays. */
  function Count(gs: seq<Game>, p: int): (c: nat)
    ensures c <= |gs|
  {
    if gs == [] then 0
    else Count(gs[..|gs| - 1], p) + (if Involves(gs[|gs| - 1], p) then 1 else 0)
  }

  lemma {:induction false} CountAppend(a: seq<Game>, b: seq<Game>, p: int)
    ensures Count(a + b, p) == Count(a, p) + Count(b, p)
  {
    if b == [] {
      assert a + b == a;
    } else {
      CountAppend(a, b[..|b| - 1], p);
      assert (a + b)[..|a + b| - 1] == a + b[..|b| - 1];
    }
  }

  method NumberOfGames(games: seq<Game>, p: int) returns (number: nat)
    ensures number == Count(games, p)
  {
    number := 0;
    for i := 0 to |games|
      invariant number == Count(games[..i], p)
    {
      assert games[..i + 1][..i] == games[..i];
      if games[i].id1 == p || games[i].id2 == p {
        number := number + 1;
      }
    }
    assert games[..|games|] == games;
  }

  /** The game count of every participant, in list order. */
  function Counts(games: seq<Game>, ps: seq<int>): (r: seq<nat>)
    ensures |r| == |ps|
    ensures forall k :: 0 <= k < |ps| ==> r[k] == Count(games, ps[k])
  {
    seq(|ps|, k requires 0 <= k < |ps| => Count(games, ps[k]))
  }

  method GamesPerPerson(games: seq<Game>, participants: seq<int>) returns (counts: seq<nat>)
    ensures counts == Counts(games, participants)
  {
    counts := [];
    for k := 0 to |participants|
      invariant counts == Counts(games, participants[..k])
    {
      var c := NumberOfGames(games, participants[k]);
      counts := counts + [c];
    }
    assert participants[..|participants|] == participants;
  }

  /** Everybody in the list has played the same number of games (an empty list does not qualify). */
  predicate EqualCounts(games: seq<Game>, ps: seq<int>)
  {
    |ps| > 0 && forall k :: 0 <= k < |ps| ==> Count(games, ps[k]) == Count(games, ps[0])
  }

  /** A list has exactly one distinct value iff it is non-empty and constant. */
  lemma SingleValue(s: seq<nat>)
    ensures |set x: nat | x in s| == 1 <==> |s| > 0 && forall k :: 0 <= k < |s| ==> s[k] == s[0]
  {
    var values := set x: nat | x in s;
    if |s| > 0 && forall k :: 0 <= k < |s| ==> s[k] == s[0] {
      forall x | x in values
        ensures x == s[0]
      {
        var k :| 0 <= k < |s| && s[k] == x;
      }
      assert values == {s[0]};
    } else if s != [] {
      var k :| 0 <= k < |s| && s[k] != s[0];
      assert {s[0], s[k]} <= values;
      assert |{s[0], s[k]}| == 2;
      SubsetCard({s[0], s[k]}, values);
    } else {
      assert values == {};
    }
  }

  lemma {:induction false} SubsetCard(a: set<nat>, b: set<nat>)
    requires a <= b
    ensures |a| <= |b|
  {
    if a != {} {
      var x :| x in a;
      SubsetCard(a - {x}, b - {x});
    }
  }

  method GamesNumberIsEqual(games: seq<Game>, participants: seq<int>) returns (equal: bool)
    ensures equal <==> EqualCounts(games, participants)
  {
    var counts := GamesPerPerson(games, participants);
    var distinct := set c: nat | c in counts;
    SingleValue(counts);
    equal := |distinct| == 1;
  }

  /** Python's min over a non-empty list. */
  function MinOf(s: seq<nat>): (m: nat)
    requires |s| > 0
    ensures m in s
    ensures forall k :: 0 <= k < |s| ==> m <= s[k]
  {
    if |s| == 1 then s[0]
    else
      var m' := MinOf(s[..|s| - 1]);
      if s[|s| - 1] < m' then s[|s| - 1] else m'
  }

  // ---------------------------------------------------------------------------
  // The pool of participants for an uneven round

  /** The participants, in list order, that have played exactly m games. */
  function WithCount(games: seq<Game>, ps: seq<int>, m: nat): (r: seq<int>)
    ensures forall x :: x in r <==> x in ps && Count(games, x) == m
    ensures Distinct(ps) ==> Distinct(r)
  {
    if ps == [] then []
    else
      var last := ps[|ps| - 1];
      assert forall x :: x in ps <==> x in ps[..|ps| - 1] || x == last;
      WithCount(games, ps[..|ps| - 1], m) + (if Count(games, last) == m then [last] else [])
  }

  /** Append to acc the members of rest that acc lacks, in order, until acc has `size` members. */
  function PadTo(rest: seq<int>, acc: seq<int>, size: nat): seq<int>
  {
    if |acc| >= size || rest == [] then acc
    else PadTo(rest[1..], if rest[0] in acc then acc else acc + [rest[0]], size)
  }

  /** Lines 82-90 of generate_games: the participants with the fewest games, padded to two. */
  function MinimumPool(games: seq<Game>, ps: seq<int>): seq<int>
    requires |ps| > 0
  {
    var f := WithCount(games, ps, MinOf(Counts(games, ps)));
    if |f| < Divider then PadTo(ps, f, Divider) else f
  }

  method SelectPool(games: seq<Game>, participants: seq<int>) returns (pool: seq<int>)
    requires |participants| > 0
    ensures pool == MinimumPool(games, participants)
  {
    var counts := GamesPerPerson(games, participants);
    var minGames := MinOf(counts);
    pool := [];
    for k := 0 to |participants|
      invariant pool == WithCount(games, participants[..k], minGames)
    {
      assert participants[..k + 1][..k] == participants[..k];
      var c := NumberOfGames(games, participants[k]);
      if c == minGames {
        pool := pool + [participants[k]];
      }
    }
    assert participants[..|participants|] == participants;
    if |pool| < Divider {
      pool := PadPool(participants, pool);
    }
  }

  /** Lines 87-90: append participants the pool lacks, in list order, until it has two. */
  method PadPool(participants: seq<int>, pool0: seq<int>) returns (pool: seq<int>)
    requires |pool0| < Divider
    ensures pool == PadTo(participants, pool0, Divider)
  {
    pool := pool0;
    var i := 0;
    while i < |participants|
      invariant 0 <= i <= |participants|
      invariant |pool| < Divider
      invariant PadTo(participants[i..], pool, Divider) == PadTo(participants, pool0, Divider)
    {
      assert participants[i..][1..] == participants[i + 1..];
      var p := participants[i];
      if p !in pool {
        pool := pool + [p];
        if |pool| == Divider {
          assert PadTo(participants[i + 1..], pool, Divider) == pool;
          break;
        }
      }
      i := i + 1;
    }
  }

  /** How many members of rest are missing from acc. */
  function FreshCount(rest: seq<int>, acc: seq<int>): nat
  {
    if rest == [] then 0 else (if rest[0] in acc then 0 else 1) + FreshCount(rest[1..], acc)
  }

  lemma {:induction false} FreshCountExtend(rest: seq<int>, acc: seq<int>, x: int)
    requires x !in rest
    ensures FreshCount(rest, acc + [x]) == FreshCount(rest, acc)
  {
    if rest != [] {
      FreshCountExtend(rest[1..], acc, x);
    }
  }

  lemma {:induction false} FreshCountNone(rest: seq<int>, acc: seq<int>)
    requires forall x :: x in rest ==> x in acc
    ensures FreshCount(rest, acc) == 0
  {
    if rest != [] {
      var x := rest[0];
      assert x in rest;
      assert forall y :: y in rest[1..] ==> y in rest;
      FreshCountNone(rest[1..], acc);
      assert x in acc;
    }
  }

  function Min(a: int, b: int): int
  {
    if a <= b then a else b
  }

  lemma {:induction false} PadShape(rest: seq<int>, acc: seq<int>, size: nat)
    requires Distinct(rest) && Distinct(acc) && |acc| <= size
    ensures var r := PadTo(rest, acc, size);
      |r| == Min(size, |acc| + FreshCount(rest, acc)) && |acc| <= |r| && r[..|acc|] == acc &&
      Distinct(r) && forall x :: x in r ==> x in acc || x in rest
  {
    if |acc| >= size || rest == [] {
      if rest != [] {
        assert |acc| == size;
      }
    } else {
      var x := rest[0];
      var tail := rest[1..];
      assert Distinct(tail);
      assert x !in tail;
      if x in acc {
        PadShape(tail, acc, size);
      } else {
        var acc' := acc + [x];
        FreshCountExtend(tail, acc, x);
        PadShape(tail, acc', size);
        var r := PadTo(tail, acc', size);
        assert r[..|acc|] == r[..|acc'|][..|acc|];
      }
    }
  }

  /** The pool holds every participant with the minimum count; if there are
      fewer than two of them it is padded to two with the first participant in
      list order that it lacks (or is the whole list when that has one member);
      it is always a list of distinct participants. */
  lemma PoolShape(games: seq<Game>, ps: seq<int>)
    requires |ps| > 0 && Distinct(ps)
    ensures
      var m := MinOf(Counts(games, ps));
      var f := WithCount(games, ps, m);
      var pool := MinimumPool(games, ps);
      (forall x :: x in ps ==> m <= Count(games, x)) &&
      (forall x :: x in f <==> x in ps && Count(games, x) == m) &&
      1 <= |f| &&
      (|f| >= Divider ==> pool == f) &&
      (|f| < Divider ==> |pool| == Min(Divider, |ps|) && pool[..|f|] == f) &&
      (|f| == 1 && |ps| == 1 ==> pool == f) &&
      (|f| == 1 && |ps| >= 2 ==> pool == f + [if ps[0] == f[0] then ps[1] else ps[0]]) &&
      Distinct(pool) && (forall x :: x in pool ==> x in ps)
  {
    var counts := Counts(games, ps);
    var m := MinOf(counts);
    var f := WithCount(games, ps, m);
    forall x | x in ps
      ensures m <= Count(games, x)
    {
      var k :| 0 <= k < |ps| && ps[k] == x;
      assert counts[k] == Count(games, x);
    }
    var k0 :| 0 <= k0 < |counts| && counts[k0] == m;
    assert ps[k0] in f;
    if |f| < Divider {
      PadShape(ps, f, Divider);
      assert |f| == 1;
      if |ps| == 1 {
        assert f[0] in ps;
        FreshCountNone(ps, f);
      } else {
        PadSingle(ps, f);
      }
    }
  }

  /** A one-member pool is padded with the first participant in list order
      other than its member. */
  lemma PadSingle(ps: seq<int>, f: seq<int>)
    requires |ps| >= 2 && Distinct(ps) && |f| == 1 && f[0] in ps
    ensures PadTo(ps, f, Divider) == f + [if ps[0] == f[0] then ps[1] else ps[0]]
  {
    assert ps[0] != ps[1];
    if ps[0] in f {
      assert ps[1] !in f;
      assert PadTo(ps, f, Divider) == PadTo(ps[1..], f, Divider);
      assert ps[1..][0] == ps[1];
      assert PadTo(ps[1..], f, Divider) == PadTo(ps[2..], f + [ps[1]], Divider);
    } else {
      assert PadTo(ps, f, Divider) == PadTo(ps[1..], f + [ps[0]], Divider);
    }
  }

  // ---------------------------------------------------------------------------
  // Folding a shuffled list into games

  /** Position i meets position n-1-i, for i < n/2. */
  function FoldPairs(t: int, s: seq<int>): (c: seq<Game>)
  {
    seq(|s| / 2, i requires 0 <= i < |s| / 2 => GroupGame(t, s[i], s[|s| - 1 - i]))
  }

  /** The candidates, in order, that are not equal to an already drawn game. */
  function NewGames(games: seq<Game>, c: seq<Game>): (r: seq<Game>)
    ensures |r| <= |c|
  {
    if c == [] then []
    else NewGames(games, c[..|c| - 1]) + (if Contains(games, c[|c| - 1]) then [] else [c[|c| - 1]])
  }

  /** The filter keeps exactly the candidates that are new. */
  lemma {:induction false} NewGamesMembers(games: seq<Game>, c: seq<Game>)
    ensures forall x :: x in NewGames(games, c) <==> x in c && !Contains(games, x)
  {
    if c != [] {
      NewGamesMembers(games, c[..|c| - 1]);
      assert forall x :: x in c[..|c| - 1] ==> x in c;
    }
  }

  /** The two games have no player in common. */
  predicate Disjoint(a: Game, b: Game)
  {
    a.id1 != b.id1 && a.id1 != b.id2 && a.id2 != b.id1 && a.id2 != b.id2
  }

  predicate PairwiseDisjoint(gs: seq<Game>)
  {
    forall i, j :: 0 <= i < j < |gs| ==> Disjoint(gs[i], gs[j])
  }

  lemma {:induction false} NewGamesDisjoint(games: seq<Game>, c: seq<Game>)
    requires PairwiseDisjoint(c)
    ensures PairwiseDisjoint(NewGames(games, c))
  {
    if c != [] {
      var init := c[..|c| - 1];
      var last := c[|c| - 1];
      assert PairwiseDisjoint(init);
      NewGamesDisjoint(games, init);
      NewGamesMembers(games, init);
      var r0 := NewGames(games, init);
      forall x | x in r0
        ensures Disjoint(x, last)
      {
        var k :| 0 <= k < |init| && init[k] == x;
        assert Disjoint(c[k], c[|c| - 1]);
      }
    }
  }

  /** A fold of distinct participants: at most n/2 fresh games, no self-pairing,
      no participant twice, nothing equal to a game drawn before, and every
      pair of the fold that was not drawn before. */
  lemma SubsetShape(t: int, games: seq<Game>, s: seq<int>)
    requires Distinct(s)
    ensures
      var r := NewGames(games, FoldPairs(t, s));
      |r| <= |s| / 2 &&
      (forall g :: g in r ==>
         g == GroupGame(t, g.id1, g.id2) && g.id1 != g.id2 && g.id1 in s && g.id2 in s && !Contains(games, g)) &&
      (forall i :: 0 <= i < |s| / 2 ==>
         (GroupGame(t, s[i], s[|s| - 1 - i]) in r <==> !Contains(games, GroupGame(t, s[i], s[|s| - 1 - i])))) &&
      PairwiseDisjoint(r)
  {
    var c := FoldPairs(t, s);
    var n := |s|;
    forall i, j | 0 <= i < j < |c|
      ensures Disjoint(c[i], c[j])
    {
      assert s[i] != s[j] && s[i] != s[n - 1 - j] && s[n - 1 - i] != s[j] && s[n - 1 - i] != s[n - 1 - j];
    }
    NewGamesDisjoint(games, c);
    NewGamesMembers(games, c);
    forall g | g in c
      ensures g == GroupGame(t, g.id1, g.id2) && g.id1 != g.id2 && g.id1 in s && g.id2 in s
    {
      var i :| 0 <= i < |c| && c[i] == g;
      assert s[i] != s[n - 1 - i];
    }
    forall i | 0 <= i < n / 2
      ensures GroupGame(t, s[i], s[n - 1 - i]) in c
    {
      assert c[i] == GroupGame(t, s[i], s[n - 1 - i]);
    }
  }

  /** Pairwise disjoint games are never equal to one another. */
  lemma DisjointNoDup(gs: seq<Game>)
    requires PairwiseDisjoint(gs)
    ensures NoDup(gs)
  {
  }

  lemma NoDupAppend(games: seq<Game>, r: seq<Game>)
    requires NoDup(games) && NoDup(r)
    requires forall x :: x in r ==> !Contains(games, x)
    ensures NoDup(games + r)
  {
    var s := games + r;
    forall i, j | 0 <= i < j < |s|
      ensures !GameEq(s[i], s[j])
    {
      if i < |games| <= j {
        assert s[j] in r && s[i] == games[i];
        ContainsSpec(games, s[j]);
      }
    }
  }

  /** Draw d of the shuffle permutes s. */
  ghost predicate Permutes(shuffle: (nat, seq<int>) -> seq<int>, d: nat, s: seq<int>)
  {
    multiset(shuffle(d, s)) == multiset(s)
  }

  /** random.shuffle: every draw is a permutation of its argument. */
  ghost predicate IsShuffle(shuffle: (nat, seq<int>) -> seq<int>)
  {
    forall d, s :: Permutes(shuffle, d, s)
  }

  /** generate_games_subset: shuffle the list (the caller sees the new order) and
      fold it, keeping the pairs not yet drawn. */
  method GenerateGamesSubset(t: int, games: seq<Game>, participants: seq<int>,
                             shuffle: (nat, seq<int>) -> seq<int>, draw: nat)
    returns (subset: seq<Game>, shuffled: seq<int>)
    ensures shuffled == shuffle(draw, participants)
    ensures subset == NewGames(games, FoldPairs(t, shuffled))
  {
    shuffled := shuffle(draw, participants);
    var n := |shuffled|;
    ghost var c := FoldPairs(t, shuffled);
    subset := [];
    for i := 0 to n / 2
      invariant subset == NewGames(games, c[..i])
    {
      assert c[..i + 1][..i] == c[..i];
      var game := GroupGame(t, shuffled[i], shuffled[n - i - 1]);
      if !Contains(games, game) {
        subset := subset + [game];
      }
    }
    assert c[..n / 2] == c;
  }

  // ---------------------------------------------------------------------------
  // The generation loop

  function Range(n: nat): (r: seq<int>)
    ensures |r| == n && forall i :: 0 <= i < n ==> r[i] == i + 1
  {
    seq(n, i => i + 1)
  }

  /** A well-formed group-stage game of tournament t between two of the drawn numbers 1..n. */
  predicate ValidGroupGame(t: int, n: nat, g: Game)
  {
    g == GroupGame(t, g.id1, g.id2) && g.id1 != g.id2 && 1 <= g.id1 <= n && 1 <= g.id2 <= n
  }

  /** The variables of generate_games's loop. */
  datatype GenState = GenState(games: seq<Game>, rounds: nat, attempt: nat, participants: seq<int>)

  function InitialState(n: nat): GenState
  {
    GenState([], 0, 0, Range(n))
  }

  ghost predicate GenInv(t: int, n: nat, s: GenState)
  {
    multiset(s.participants) == multiset(Range(n)) &&
    (forall g :: g in s.games ==> ValidGroupGame(t, n, g)) &&
    NoDup(s.games) && s.attempt <= AttemptsNumber
  }

  /** The list folded by one round: everybody when counts are equal, otherwise the minimum pool. */
  function RoundPool(games: seq<Game>, ps: seq<int>): seq<int>
    requires |ps| > 0
  {
    if EqualCounts(games, ps) then ps else MinimumPool(games, ps)
  }

  datatype GenError = EmptyMinimum   // min() of an empty list raises ValueError

  /** The state after one iteration of generate_games's while loop. */
  function NextState(t: int, n: nat, s: GenState, shuffle: (nat, seq<int>) -> seq<int>, draw: nat): GenState
    requires s.participants != []
  {
    var equal := EqualCounts(s.games, s.participants);
    var shuffled := shuffle(draw, RoundPool(s.games, s.participants));
    var games := s.games + NewGames(s.games, FoldPairs(t, shuffled));
    var order := shuffle(draw + 1, if equal then shuffled else s.participants);
    if s.attempt + 1 > AttemptsNumber then InitialState(n)
    else GenState(games, if EqualCounts(games, order) then s.rounds + 1 else s.rounds, s.attempt + 1, order)
  }

  /** One iteration of generate_games's while loop. */
  method GenerationRound(t: int, n: nat, s: GenState, shuffle: (nat, seq<int>) -> seq<int>, draw: nat)
    returns (r: Result<GenState, GenError>)
    ensures r.Err? <==> s.participants == []
    ensures r.Ok? ==> s.participants != [] && r.value == NextState(t, n, s, shuffle, draw)
  {
    if s.participants == [] {
      return Err(EmptyMinimum);
    }
    var participants := s.participants;
    var equal := GamesNumberIsEqual(s.games, participants);
    var subset;
    if equal {
      subset, participants := GenerateGamesSubset(t, s.games, participants, shuffle, draw);
    } else {
      var pool := SelectPool(s.games, participants);
      var poolOrder;
      subset, poolOrder := GenerateGamesSubset(t, s.games, pool, shuffle, draw);
    }
    var games := s.games + subset;
    participants := shuffle(draw + 1, participants);
    var rounds := s.rounds;
    var now := GamesNumberIsEqual(games, participants);
    if now {
      rounds := rounds + 1;
    }
    var attempt := s.attempt + 1;
    if attempt > AttemptsNumber {
      participants := Range(n);
      games := [];
      rounds := 0;
      attempt := 0;
    }
    r := Ok(GenState(games, rounds, attempt, participants));
  }

  /** A round either completes an equalisation round (everybody now has the same
      count), leaves the round counter alone, or hard-resets after 50 attempts;
      it keeps the participants a permutation of 1..n and the games valid and distinct. */
  lemma NextStateSpec(t: int, n: nat, s: GenState, shuffle: (nat, seq<int>) -> seq<int>, draw: nat)
    requires IsShuffle(shuffle) && GenInv(t, n, s) && s.participants != []
    ensures var s' := NextState(t, n, s, shuffle, draw);
      GenInv(t, n, s') &&
      (s.attempt == AttemptsNumber ==> s' == InitialState(n)) &&
      (s.attempt < AttemptsNumber ==>
         s'.attempt == s.attempt + 1 && s'.games[..|s.games|] == s.games &&
         (s'.rounds == s.rounds + 1 <==> EqualCounts(s'.games, s'.participants)) &&
         (s'.rounds == s.rounds || s'.rounds == s.rounds + 1))
  {
    var s' := NextState(t, n, s, shuffle, draw);
    if s.attempt < AttemptsNumber {
      var shuffled := shuffle(draw, RoundPool(s.games, s.participants));
      var subset := NewGames(s.games, FoldPairs(t, shuffled));
      RoundKeepsInvariant(t, n, s, shuffle, draw, subset, s.games + subset);
      var equal := EqualCounts(s.games, s.participants);
      var before := if equal then shuffled else s.participants;
      assert Permutes(shuffle, draw, RoundPool(s.games, s.participants));
      assert Permutes(shuffle, draw + 1, before);
      assert multiset(before) == multiset(s.participants);
      assert s'.games[..|s.games|] == s.games;
    }
  }

  /** The list a round folds repeats nobody and takes only from the participants. */
  lemma RoundPoolShape(games: seq<Game>, ps: seq<int>)
    requires |ps| > 0 && Distinct(ps)
    ensures Distinct(RoundPool(games, ps)) && forall x :: x in RoundPool(games, ps) ==> x in ps
  {
    if !EqualCounts(games, ps) {
      PoolShape(games, ps);
    }
  }

  /** The list a round folds is a repetition-free list of drawn numbers. */
  lemma ShuffledPoolShape(t: int, n: nat, s: GenState, shuffle: (nat, seq<int>) -> seq<int>, draw: nat)
    requires IsShuffle(shuffle) && GenInv(t, n, s) && s.participants != []
    ensures var shuffled := shuffle(draw, RoundPool(s.games, s.participants));
      Distinct(shuffled) && forall x :: x in shuffled ==> 1 <= x <= n
  {
    var ps := s.participants;
    DistinctRange(n);
    DistinctPermutation(Range(n), ps);
    var pool := RoundPool(s.games, ps);
    RoundPoolShape(s.games, ps);
    var shuffled := shuffle(draw, pool);
    assert Permutes(shuffle, draw, pool);
    DistinctPermutation(pool, shuffled);
    forall x | x in shuffled
      ensures 1 <= x <= n
    {
      assert x in multiset(shuffled);
      assert x in ps;
      assert x in multiset(Range(n));
    }
  }

  lemma RoundKeepsInvariant(t: int, n: nat, s: GenState, shuffle: (nat, seq<int>) -> seq<int>, draw: nat,
                            subset: seq<Game>, games: seq<Game>)
    requires IsShuffle(shuffle) && GenInv(t, n, s) && s.participants != []
    requires subset == NewGames(s.games, FoldPairs(t, shuffle(draw, RoundPool(s.games, s.participants))))
    requires games == s.games + subset
    ensures NoDup(games) && forall g :: g in games ==> ValidGroupGame(t, n, g)
  {
    var shuffled := shuffle(draw, RoundPool(s.games, s.participants));
    ShuffledPoolShape(t, n, s, shuffle, draw);
    SubsetShape(t, s.games, shuffled);
    DisjointNoDup(subset);
    NoDupAppend(s.games, subset);
  }

  lemma DistinctRange(n: nat)
    ensures Distinct(Range(n))
  {
  }

  /** Equal counts over a permutation of 1..n mean every drawn number has the same count. */
  lemma EqualCountsAll(games: seq<Game>, ps: seq<int>, n: nat)
    requires EqualCounts(games, ps) && multiset(ps) == multiset(Range(n))
    ensures n > 0 && forall p :: 1 <= p <= n ==> Count(games, p) == Count(games, 1)
  {
    assert ps[0] in multiset(Range(n));
    forall p | 1 <= p <= n
      ensures Count(games, p) == Count(games, ps[0])
    {
      assert Range(n)[p - 1] == p;
      assert p in multiset(ps);
      var k :| 0 <= k < |ps| && ps[k] == p;
    }
    assert Range(n)[0] == 1;
  }

  datatype Generation = Generated(games: seq<Game>) | GenerationFailed(error: GenError) | Exhausted

  /** generate_games's while loop from state s, with the draw number of its next
      shuffle and the number of iterations already run: it returns the games as
      soon as the round counter reaches the target, and gives up once `fuel`
      iterations have run. */
  function RoundsFrom(t: int, n: nat, s: GenState, shuffle: (nat, seq<int>) -> seq<int>, draw: nat,
                      steps: nat, fuel: nat): (Generation, nat)
    decreases fuel - steps
  {
    if s.rounds == NumberOfRounds(n) then (Generated(s.games), draw)
    else if steps >= fuel then (Exhausted, draw)
    else if s.participants == [] then (GenerationFailed(EmptyMinimum), draw + 2)
    else RoundsFrom(t, n, NextState(t, n, s, shuffle, draw), shuffle, draw + 2, steps + 1, fuel)
  }

  /** An iteration that runs hands the loop on to the next state. */
  lemma RoundsFromStep(t: int, n: nat, s: GenState, shuffle: (nat, seq<int>) -> seq<int>, draw: nat,
                       steps: nat, fuel: nat, s': GenState)
    requires s.rounds != NumberOfRounds(n) && steps < fuel && s.participants != []
    requires s' == NextState(t, n, s, shuffle, draw)
    ensures RoundsFrom(t, n, s, shuffle, draw, steps, fuel) == RoundsFrom(t, n, s', shuffle, draw + 2, steps + 1, fuel)
  {
  }

  /** Nothing drawn before keeps every candidate. */
  lemma {:induction false} NewGamesOnEmpty(c: seq<Game>)
    ensures NewGames([], c) == c
  {
    if c != [] {
      NewGamesOnEmpty(c[..|c| - 1]);
      assert c[..|c| - 1] + [c[|c| - 1]] == c;
    }
  }

  /** The first pass after a (re)start folds every participant, so drawn games
      are never fewer than n/2; and a completed round has drawn some when n >= 2. */
  ghost predicate Grown(n: nat, s: GenState)
  {
    (s.games == [] || |s.games| >= n / 2) && (n >= 2 && s.rounds > 0 ==> s.games != [])
  }

  /** What the loop keeps: the round invariant, the size of the drawn games, and
      an empty field never completing a round. */
  ghost predicate RunInv(t: int, n: nat, s: GenState)
  {
    GenInv(t, n, s) && Grown(n, s) && (n == 0 ==> s.rounds == 0) &&
    (s.rounds == NumberOfRounds(n) ==> EqualCounts(s.games, s.participants))
  }

  /** An iteration keeps the drawn games growing: a pass from no games folds
      the whole shuffled field. */
  lemma NextStateGrows(t: int, n: nat, s: GenState, shuffle: (nat, seq<int>) -> seq<int>, draw: nat)
    requires IsShuffle(shuffle) && GenInv(t, n, s) && Grown(n, s) && s.participants != []
    ensures Grown(n, NextState(t, n, s, shuffle, draw))
  {
    if s.attempt < AttemptsNumber && s.games == [] {
      var ps := s.participants;
      assert EqualCounts([], ps);
      var shuffled := shuffle(draw, ps);
      assert Permutes(shuffle, draw, ps);
      assert |shuffled| == |multiset(shuffled)| == |multiset(ps)| == |multiset(Range(n))| == n;
      NewGamesOnEmpty(FoldPairs(t, shuffled));
      assert [] + NewGames([], FoldPairs(t, shuffled)) == FoldPairs(t, shuffled);
    }
  }

  /** An iteration with rounds still to go keeps the loop's invariant. */
  lemma RunInvStep(t: int, n: nat, s: GenState, shuffle: (nat, seq<int>) -> seq<int>, draw: nat)
    requires IsShuffle(shuffle) && RunInv(t, n, s) && s.participants != []
    requires s.rounds != NumberOfRounds(n)
    ensures RunInv(t, n, NextState(t, n, s, shuffle, draw))
  {
    assert n > 0 by {
      assert s.participants[0] in multiset(s.participants);
      assert multiset(s.participants) == multiset(Range(n));
    }
    NextStateSpec(t, n, s, shuffle, draw);
    NextStateGrows(t, n, s, shuffle, draw);
  }

  /** A run of the loop that returns games returns at least n/2 of them for
      n >= 2, every drawn number plays equally often, no two are equal and each
      pairs two different numbers of 1..n; it fails exactly when the field is
      empty and an iteration runs. */
  lemma {:induction false} RoundsFromSpec(t: int, n: nat, s: GenState, shuffle: (nat, seq<int>) -> seq<int>,
                                          draw: nat, steps: nat, fuel: nat)
    requires IsShuffle(shuffle) && RunInv(t, n, s)
    ensures var r := RoundsFrom(t, n, s, shuffle, draw, steps, fuel);
      (r.0.Generated? ==>
         n > 0 && (forall p :: 1 <= p <= n ==> Count(r.0.games, p) == Count(r.0.games, 1)) &&
         NoDup(r.0.games) && (forall g :: g in r.0.games ==> ValidGroupGame(t, n, g)) &&
         (n >= 2 ==> |r.0.games| >= n / 2)) &&
      (r.0.GenerationFailed? <==> n == 0 && steps < fuel) &&
      r.1 >= draw
    decreases fuel - steps
  {
    if s.rounds == NumberOfRounds(n) {
      EqualCountsAll(s.games, s.participants, n);
    } else if steps < fuel {
      if n > 0 {
        assert s.participants != [] by {
          assert Range(n)[0] == 1;
          assert 1 in multiset(Range(n));
        }
        var s' := NextState(t, n, s, shuffle, draw);
        RunInvStep(t, n, s, shuffle, draw);
        RoundsFromStep(t, n, s, shuffle, draw, steps, fuel, s');
        RoundsFromSpec(t, n, s', shuffle, draw + 2, steps + 1, fuel);
      } else {
        assert s.participants == [];
      }
    }
  }

  /** generate_games, run for at most `fuel` iterations: the loop returns as soon
      as the round counter reaches the target. */
  method GenerateGames(t: int, n: nat, shuffle: (nat, seq<int>) -> seq<int>, draw0: nat, fuel: nat)
    returns (r: Generation, nextDraw: nat)
    ensures (r, nextDraw) == RoundsFrom(t, n, InitialState(n), shuffle, draw0, 0, fuel)
  {
    ghost var run := RoundsFrom(t, n, InitialState(n), shuffle, draw0, 0, fuel);
    var target := NumberOfRounds(n);
    var s := InitialState(n);
    var draw := draw0;
    var steps := 0;
    while s.rounds != target && steps < fuel
      invariant RoundsFrom(t, n, s, shuffle, draw, steps, fuel) == run
      decreases fuel - steps
    {
      var stop;
      stop, s, draw, steps := LoopPass(t, n, s, shuffle, draw, steps, fuel);
      if stop.Some? {
        return stop.value, draw;
      }
    }
    nextDraw := draw;
    if s.rounds == target {
      r := Generated(s.games);
    } else {
      r := Exhausted;
    }
  }

  /** What generate_games promises, from its start state: games returned are
      at least n/2 for n >= 2, balanced, pairwise different group games of
      1..n, and the loop fails exactly when the field is empty and runs. */
  lemma GenerateGamesSpec(t: int, n: nat, shuffle: (nat, seq<int>) -> seq<int>, draw0: nat, fuel: nat)
    requires IsShuffle(shuffle)
    ensures var r := RoundsFrom(t, n, InitialState(n), shuffle, draw0, 0, fuel);
      (r.0.Generated? ==>
         n > 0 && (forall p :: 1 <= p <= n ==> Count(r.0.games, p) == Count(r.0.games, 1)) &&
         NoDup(r.0.games) && (forall g :: g in r.0.games ==> ValidGroupGame(t, n, g)) &&
         (n >= 2 ==> |r.0.games| >= n / 2)) &&
      (r.0.GenerationFailed? <==> n == 0 && fuel > 0) &&
      r.1 >= draw0
  {
    InitialRunInv(t, n);
    RoundsFromSpec(t, n, InitialState(n), shuffle, draw0, 0, fuel);
  }

  /** One pass of generate_games's loop body: either it returns from the loop
      with the loop's result, or the loop goes on from the new state. */
  method LoopPass(t: int, n: nat, s: GenState, shuffle: (nat, seq<int>) -> seq<int>, draw: nat,
                  steps: nat, fuel: nat)
    returns (stop: Option<Generation>, s': GenState, draw': nat, steps': nat)
    requires s.rounds != NumberOfRounds(n) && steps < fuel
    ensures steps' == steps + 1
    ensures stop.Some? ==> (stop.value, draw') == RoundsFrom(t, n, s, shuffle, draw, steps, fuel)
    ensures stop.None? ==> RoundsFrom(t, n, s', shuffle, draw', steps', fuel) == RoundsFrom(t, n, s, shuffle, draw, steps, fuel)
  {
    var round := GenerationRound(t, n, s, shuffle, draw);
    if round.Err? {
      assert round.error == EmptyMinimum;
      return Some(GenerationFailed(round.error)), s, draw + 2, steps + 1;
    }
    RoundsFromStep(t, n, s, shuffle, draw, steps, fuel, round.value);
    return None, round.value, draw + 2, steps + 1;
  }

  /** The start state keeps the loop's invariant. */
  lemma InitialRunInv(t: int, n: nat)
    ensures RunInv(t, n, InitialState(n))
  {
  }
}
