/** The tournament loop of `Manager` (manager.py:129-183) and the guard of
    `Commandline.run_matches` (manager.py:341-350). The random number
    generator, the game engine and the rating engine are parameters: every
    `random.randint` call takes a raw draw from the caller, the engine maps a
    command line to its output (or a timeout), and the rating engine is the
    function of `Players.RatingEngine`. */
module Manager {
  import opened Results
  import opened PyText
  import Match
  import Players
  import Database

  /* ---------------- random.randint ---------------- */

  /** A raw draw reduced below `n`. */
  function Reduce(draw: nat, n: nat): (r: nat)
    requires n > 0
    ensures r < n
    ensures draw < n ==> r == draw
  {
    draw % n
  }

  /** `random.randint(low, high)` with the generator's raw draw supplied:
      the draw reduced into the range; ValueError on an empty range. */
  function RandInt(low: int, high: int, draw: nat): (r: Result<int>)
    ensures high < low <==> r.Err?
    ensures r.Err? ==> r.error == EmptyRange(low, high)
    ensures r.Ok? ==> low <= r.value <= high
  {
    if high < low then Err(EmptyRange(low, high)) else Ok(low + Reduce(draw, high - low + 1))
  }

  /** Every value of a non-empty range is the outcome of some draw. */
  lemma RandIntReachesAll(low: int, high: int, v: int)
    requires low <= v <= high
    ensures RandInt(low, high, v - low) == Ok(v)
  {
  }

  /* ---------------- pick_players ---------------- */

  /** `list(range(0, size))`. */
  function Range(size: nat): (s: seq<nat>)
    ensures |s| == size && forall i :: 0 <= i < size ==> s[i] == i
  {
    seq(size, i requires 0 <= i < size => i)
  }

  /** `list.remove(x)`: drop one occurrence of `x` (see `RemoveFirstSpec`
      for which one). */
  function RemoveFirst(s: seq<nat>, x: nat): (r: seq<nat>)
    requires x in s
    ensures |r| == |s| - 1
  {
    if s[0] == x then s[1..] else [s[0]] + RemoveFirst(s[1..], x)
  }

  /** `list.remove(x)` takes away one copy of `x` and nothing else. */
  lemma {:induction false} RemoveFirstCounts(s: seq<nat>, x: nat)
    requires x in s
    ensures multiset(RemoveFirst(s, x)) == multiset(s) - multiset{x}
  {
    assert s == [s[0]] + s[1..];
    if s[0] != x {
      RemoveFirstCounts(s[1..], x);
    }
  }

  /** `list.remove(x)` takes out exactly the first occurrence: what precedes
      it and what follows it are kept, in order. */
  lemma {:induction false} RemoveFirstSpec(s: seq<nat>, j: nat)
    requires j < |s| && s[j] !in s[..j]
    ensures RemoveFirst(s, s[j]) == s[..j] + s[j + 1..]
  {
    if j > 0 {
      assert s[0] != s[j] by {
        assert s[..j][0] == s[0];
      }
      assert s[1..][j - 1] == s[j];
      assert s[j] !in s[1..][..j - 1] by {
        assert s[1..][..j - 1] == s[..j][1..];
      }
      RemoveFirstSpec(s[1..], j - 1);
      assert s[..j] == [s[0]] + s[1..][..j - 1];
      assert s[j + 1..] == s[1..][j..];
    }
  }

  /** Every index below `size` occurs once in `range(0, size)`, nothing else occurs. */
  lemma {:induction false} RangeCounts(size: nat)
    ensures forall x: nat :: multiset(Range(size))[x] == if x < size then 1 else 0
  {
    if size > 0 {
      RangeCounts(size - 1);
      assert Range(size) == Range(size - 1) + [size - 1];
    }
  }

  /** Two equal entries make a value occur at least twice. */
  lemma TwoCopies(s: seq<nat>, a: nat, b: nat)
    requires a < b < |s|
    ensures s[a] == s[b] ==> multiset(s)[s[a]] >= 2
  {
    assert s == s[..b] + s[b..];
    assert s[..b][a] == s[a];
    assert s[b..][0] == s[b];
  }

  /** A sub-multiset of `range(0, size)` holds distinct indices below `size`. */
  lemma WithinRange(s: seq<nat>, size: nat)
    requires multiset(s) <= multiset(Range(size))
    ensures Database.Distinct(s)
    ensures forall i :: 0 <= i < |s| ==> s[i] < size
  {
    RangeCounts(size);
    forall i | 0 <= i < |s|
      ensures s[i] < size
    {
      assert s[i] in multiset(s);
    }
    forall a, b | 0 <= a < b < |s|
      ensures s[a] != s[b]
    {
      TwoCopies(s, a, b);
    }
  }

  /** The choice of participants as `pick_players` makes it
      (manager.py:157-165), as a function: with `chosen` picked so far and
      `open` the remaining pool, draw a position in the pool (the draw for
      the `|chosen|`-th pick), move the index found there to the chosen
      ones, until `num` are chosen; `randint(0, -1)` raises once the pool
      runs dry first. */
  function PickFrom(chosen: seq<nat>, open: seq<nat>, num: int, draw: nat -> nat): Result<seq<nat>>
    decreases |open|
  {
    if |chosen| >= num then Ok(chosen)
    else if |open| == 0 then Err(RandInt(0, -1, draw(|chosen|)).error)
    else
      var index := open[RandInt(0, |open| - 1, draw(|chosen|)).value];
      PickFrom(chosen + [index], RemoveFirst(open, index), num, draw)
  }

  /** `pick_players(num)` among `size` players. */
  function Pick(size: nat, num: int, draw: nat -> nat): (r: Result<seq<nat>>)
    ensures r.Err? <==> num > size
    ensures r.Err? ==> r.error == EmptyRange(0, -1)
  {
    PickFromSpec([], Range(size), num, draw);
    PickFrom([], Range(size), num, draw)
  }

  /** Continuing a selection: it fails exactly when the pool cannot supply
      the missing picks; otherwise it extends `chosen` to `num` indices
      (or keeps it, if already that long), each taken from the pool, none
      more often than the pool holds it. */
  lemma {:induction false} PickFromSpec(chosen: seq<nat>, open: seq<nat>, num: int, draw: nat -> nat)
    ensures var r := PickFrom(chosen, open, num, draw);
      && (r.Err? <==> num > |chosen| + |open|)
      && (r.Err? ==> r.error == EmptyRange(0, -1))
      && (r.Ok? ==> |r.value| == (if num <= |chosen| then |chosen| else num))
      && (r.Ok? ==> |chosen| <= |r.value| && r.value[..|chosen|] == chosen)
      && (r.Ok? ==> multiset(r.value) <= multiset(chosen + open))
    decreases |open|
  {
    if |chosen| < num && |open| > 0 {
      var index := open[RandInt(0, |open| - 1, draw(|chosen|)).value];
      var rest := RemoveFirst(open, index);
      MoveKeepsPool(chosen, open, index);
      PickFromSpec(chosen + [index], rest, num, draw);
      var r := PickFrom(chosen + [index], rest, num, draw);
      if r.Ok? {
        assert r.value[..|chosen|] == (r.value[..|chosen| + 1])[..|chosen|];
      }
    }
  }

  /** Moving an index from the pool to the chosen ones keeps their
      concatenation a permutation of the same indices. */
  lemma MoveKeepsPool(chosen: seq<nat>, open: seq<nat>, index: nat)
    requires index in open
    ensures multiset(chosen + [index] + RemoveFirst(open, index)) == multiset(chosen + open)
    ensures |chosen + [index] + RemoveFirst(open, index)| == |chosen + open|
  {
    RemoveFirstCounts(open, index);
  }

  /** `Manager.pick_players` (manager.py:156-165): the pool starts as all
      indices; each turn of the loop draws a position in the pool, records
      the index found there and removes it from the pool. Throughout, the
      chosen indices followed by the pool are a permutation of all indices. */
  method PickPlayers(size: nat, num: int, draw: nat -> nat) returns (r: Result<seq<nat>>)
    ensures r == Pick(size, num, draw)
    ensures r.Err? <==> num > size
    ensures r.Err? ==> r.error == EmptyRange(0, -1)
    ensures r.Ok? ==> |r.value| == (if num < 0 then 0 else num)
    ensures r.Ok? ==> Database.Distinct(r.value) && forall i :: 0 <= i < |r.value| ==> r.value[i] < size
  {
    var open := Range(size);
    ghost var all := open;
    var chosen: seq<nat> := [];
    var count := 0;
    assert chosen + open == all;
    while count < num
      invariant count == |chosen| && (count <= num || count == 0)
      invariant multiset(chosen + open) == multiset(all) && |chosen + open| == size
      invariant PickFrom(chosen, open, num, draw) == PickFrom([], all, num, draw)
    {
      var pick := RandInt(0, |open| - 1, draw(count));
      if pick.Err? {
        return Err(pick.error);
      }
      var index := open[pick.value];
      MoveKeepsPool(chosen, open, index);
      chosen := chosen + [index];
      open := RemoveFirst(open, index);
      count := count + 1;
    }
    assert multiset(chosen) <= multiset(chosen + open);
    WithinRange(chosen, size);
    return Ok(chosen);
  }

  /** `pick_players(num)` among `size` players: `num` distinct indices below
      `size` when there are that many players, otherwise the error of
      `randint(0, -1)`. */
  lemma PickSpec(size: nat, num: int, draw: nat -> nat)
    ensures var r := Pick(size, num, draw);
      && (r.Err? <==> num > size)
      && (r.Err? ==> r.error == EmptyRange(0, -1))
      && (r.Ok? ==> |r.value| == (if num < 0 then 0 else num))
      && (r.Ok? ==> Database.Distinct(r.value) && forall i :: 0 <= i < |r.value| ==> r.value[i] < size)
  {
    PickFromSpec([], Range(size), num, draw);
    assert [] + Range(size) == Range(size);
    var r := Pick(size, num, draw);
    if r.Ok? {
      WithinRange(r.value, size);
    }
  }

  /* ---------------- choosing a round ---------------- */

  /** The manager's settings (manager.py:130-137). The command line always
      builds the manager with the defaults. */
  datatype Config = Config(sizeMin: int, sizeMax: int, playersMin: int, playersMax: int)

  const DefaultConfig: Config := Config(20, 50, 2, 6)

  /** The seed range of `run_rounds` (manager.py:173). */
  const SeedLow: int := 10000
  const SeedHigh: int := 2073741824

  /** The raw draws of one round: the player count, one per pick, the map size and the seed. */
  datatype RoundDraws = RoundDraws(count: nat, picks: nat -> nat, size: nat, seed: nat)

  /** What `run_rounds` decides for one round. */
  datatype RoundPlan = RoundPlan(picks: seq<nat>, width: int, height: int, seed: int)

  function Min(a: int, b: int): int
  {
    if a <= b then a else b
  }

  /** The choices at the top of the loop of `run_rounds` (manager.py:169-173):
      between 2 and `min(players_max, len(players))` participants (the lower
      bound is the literal 2, not `players_min`), a square map whose side is
      a multiple of 5 between the size bounds, and a seed. */
  function ChooseRound(cfg: Config, numPlayers: nat, d: RoundDraws): (r: Result<RoundPlan>)
    ensures Min(cfg.playersMax, numPlayers) < 2 ==> r == Err(EmptyRange(2, Min(cfg.playersMax, numPlayers)))
    ensures Min(cfg.playersMax, numPlayers) >= 2 && cfg.sizeMax / 5 < cfg.sizeMin / 5 ==> r == Err(EmptyRange(cfg.sizeMin / 5, cfg.sizeMax / 5))
    ensures r.Ok? <==> Min(cfg.playersMax, numPlayers) >= 2 && cfg.sizeMin / 5 <= cfg.sizeMax / 5
    ensures r.Ok? ==> 2 <= |r.value.picks| <= Min(cfg.playersMax, numPlayers)
    ensures r.Ok? ==> Database.Distinct(r.value.picks) && forall i :: 0 <= i < |r.value.picks| ==> r.value.picks[i] < numPlayers
    ensures r.Ok? ==> r.value.width % 5 == 0 && r.value.height == r.value.width
    ensures r.Ok? ==> cfg.sizeMin / 5 * 5 <= r.value.width <= cfg.sizeMax / 5 * 5
    ensures r.Ok? ==> SeedLow <= r.value.seed <= SeedHigh
  {
    var count :- RandInt(2, Min(cfg.playersMax, numPlayers), d.count);
    PickSpec(numPlayers, count, d.picks);
    var picks := Pick(numPlayers, count, d.picks).value;
    var k :- RandInt(cfg.sizeMin / 5, cfg.sizeMax / 5, d.size);
    var seed := RandInt(SeedLow, SeedHigh, d.seed).value;
    Ok(RoundPlan(picks, k * 5, k * 5, seed))
  }

  /* ---------------- one round ---------------- */

  /** What the game engine does with a command line: print its report, or
      run past the time limit. A finished run also says whether the file
      system then lets the replay file it names be disposed of. With
      `keep_replays` set (the default) that means moved into the replay
      directory; with `--no-replays` it means deleted. */
  datatype EngineRun = Finished(stdout: seq<byte>, replayMovable: bool) | TimedOut

  type Engine = seq<string> -> EngineRun

  /** `[self.players[i] for i in players]` (manager.py:143). */
  function Participants(players: seq<Players.Player>, picks: seq<nat>): (ps: seq<Players.Player>)
    requires forall i :: 0 <= i < |picks| ==> picks[i] < |players|
    ensures |ps| == |picks| && forall k :: 0 <= k < |picks| ==> ps[k] == players[picks[k]]
  {
    seq(|picks|, k requires 0 <= k < |picks| => players[picks[k]])
  }

  /** `self.paths` of a match (manager.py:66). */
  function Paths(ps: seq<Players.Player>): (paths: seq<string>)
    ensures |paths| == |ps| && forall k :: 0 <= k < |ps| ==> paths[k] == ps[k].path
  {
    seq(|ps|, k requires 0 <= k < |ps| => ps[k].path)
  }

  /** The command line of a round's match. */
  function RoundCommand(binary: string, participants: seq<Players.Player>, plan: RoundPlan): seq<string>
  {
    Match.GetCommand(binary, plan.width, plan.height, plan.seed, Paths(participants))
  }

  /** The replay file is disposed of without raising (manager.py:100-107):
      `shutil.move(self.replay_file, replay_dir)` when replays are kept,
      `os.remove(self.replay_file)` under `--no-replays`. No file has an
      empty name, so an empty replay line raises on either branch. */
  function ReplayMoves(replayFile: string, movable: bool): (ok: bool)
    ensures replayFile == "" ==> !ok
    ensures !movable ==> !ok
  {
    replayFile != "" && movable
  }

  /** `Match.run_match` (manager.py:92-107): run the engine, decode and
      parse its report, rate the participants by the parsed ranks, then
      move the replay file into the replay directory, or delete it under
      `--no-replays`. A timeout, undecodable output, a report the parser
      refuses or a replay that can be neither moved nor deleted raises; the rated players are returned
      only when all of it succeeds. */
  function PlayMatch(binary: string, participants: seq<Players.Player>, plan: RoundPlan, engine: Engine, rating: Players.RatingEngine): (r: Result<seq<Players.Player>>)
    ensures engine(RoundCommand(binary, participants, plan)).TimedOut? ==> r == Err(EngineTimeout)
    ensures match engine(RoundCommand(binary, participants, plan))
      case TimedOut => true
      case Finished(stdout, movable) =>
        match DecodeAscii(stdout)
        case Err(e) => r == Err(e)
        case Ok(text) =>
          var lines := Split(text, '\n');
          var parsed := Match.ParseResults(text, |participants|);
          && (|lines| < 2 * |participants| + 2 ==> r == Err(NotEnoughLines(|lines|)))
          && (parsed.Err? ==> r == Err(parsed.error))
          && (parsed.Ok? && !ReplayMoves(parsed.value.replayFile, movable) ==> r == Err(ReplayNotMoved(parsed.value.replayFile)))
          && (parsed.Ok? && ReplayMoves(parsed.value.replayFile, movable) ==>
                r == Ok(Players.UpdateRanks(participants, parsed.value.results, rating)))
    ensures r.Ok? ==> |r.value| == |participants|
    ensures r.Ok? ==> forall k :: 0 <= k < |participants| ==>
      && Players.SameButRating(participants[k], r.value[k])
      && (Players.SkillConsistent(participants[k]) ==> Players.SkillConsistent(r.value[k]))
  {
    match engine(RoundCommand(binary, participants, plan))
    case TimedOut => Err(EngineTimeout)
    case Finished(stdout, movable) =>
      var text :- DecodeAscii(stdout);
      var outcome :- Match.ParseResults(text, |participants|);
      Players.ApplyPosteriorsEffect(participants, rating(participants, outcome.results));
      var rated := Players.UpdateRanks(participants, outcome.results, rating);
      if ReplayMoves(outcome.replayFile, movable) then Ok(rated) else Err(ReplayNotMoved(outcome.replayFile))
  }

  /** What a round works on: the manager's in-memory players and the player table. */
  datatype State = State(players: seq<Players.Player>, db: Database.Store)

  /** The rated participants written back into the manager's list: they are
      the very objects `self.players` holds. */
  function Scatter(players: seq<Players.Player>, picks: seq<nat>, rated: seq<Players.Player>): (r: seq<Players.Player>)
    requires |rated| == |picks| && forall i :: 0 <= i < |picks| ==> picks[i] < |players|
    ensures |r| == |players|
    decreases |picks|
  {
    if picks == [] then players else Scatter(players[picks[0] := rated[0]], picks[1..], rated[1..])
  }

  /** With distinct positions, each rated participant lands at its own
      position and every other player stays as it was. */
  lemma {:induction false} ScatterEffect(players: seq<Players.Player>, picks: seq<nat>, rated: seq<Players.Player>)
    requires |rated| == |picks| && forall i :: 0 <= i < |picks| ==> picks[i] < |players|
    requires Database.Distinct(picks)
    ensures var r := Scatter(players, picks, rated);
      && (forall k :: 0 <= k < |picks| ==> r[picks[k]] == rated[k])
      && (forall i :: 0 <= i < |players| && i !in picks ==> r[i] == players[i])
    decreases |picks|
  {
    if picks != [] {
      var next := players[picks[0] := rated[0]];
      ScatterEffect(next, picks[1..], rated[1..]);
      var r := Scatter(players, picks, rated);
      forall k | 0 <= k < |picks|
        ensures r[picks[k]] == rated[k]
      {
        if k == 0 {
          assert picks[0] !in picks[1..] by {
            assert forall m :: 0 <= m < |picks| - 1 ==> picks[1..][m] == picks[m + 1] && picks[m + 1] != picks[0];
          }
        } else {
          assert picks[1..][k - 1] == picks[k];
        }
      }
      forall i | 0 <= i < |players| && i !in picks
        ensures r[i] == players[i]
      {
        assert i !in picks[1..] by {
          assert forall m :: 0 <= m < |picks| - 1 ==> picks[1..][m] == picks[m + 1];
        }
        assert i != picks[0];
      }
    }
  }

  /** `Manager.run_round` after the match (manager.py:148-149): the rated
      participants are saved and the table is re-ranked in the order of the
      ranking query. */
  ghost function Commit(s: State, picks: seq<nat>, rated: seq<Players.Player>): (r: State)
    requires |rated| == |picks| && forall i :: 0 <= i < |picks| ==> picks[i] < |s.players|
    ensures r.db.Keys == s.db.Keys && |r.players| == |s.players|
  {
    var saved := Database.SavePlayers(s.db, rated);
    State(Scatter(s.players, picks, rated), Database.UpdatePlayerRanks(saved, Database.RankingQuery(saved)))
  }

  /** `Manager.run_round` (manager.py:142-149): all or nothing. Either the
      round raises and the caller's state is all there is, or the match is
      rated and committed; the table keeps its players either way. */
  ghost function RunRound(binary: string, s: State, plan: RoundPlan, engine: Engine, rating: Players.RatingEngine): (r: Result<State>)
    requires forall i :: 0 <= i < |plan.picks| ==> plan.picks[i] < |s.players|
    ensures r.Err? <==> PlayMatch(binary, Participants(s.players, plan.picks), plan, engine, rating).Err?
    ensures r.Ok? ==> r.value.db.Keys == s.db.Keys && |r.value.players| == |s.players|
  {
    var rated :- PlayMatch(binary, Participants(s.players, plan.picks), plan, engine, rating);
    Ok(Commit(s, plan.picks, rated))
  }

  /** What every round of `run_rounds` can count on: the manager's players
      have distinct names, and the plan picks distinct positions among them. */
  predicate Playable(s: State, plan: RoundPlan)
  {
    && Players.UniqueNames(s.players)
    && Database.Distinct(plan.picks)
    && (forall i :: 0 <= i < |plan.picks| ==> plan.picks[i] < |s.players|)
  }

  /** Output too short for the report makes the round raise before any
      rating is applied or saved (manager.py:98-99, 111-112, 146-149). */
  lemma ShortOutputAborts(binary: string, s: State, plan: RoundPlan, engine: Engine, rating: Players.RatingEngine,
                          stdout: seq<byte>, movable: bool)
    requires forall i :: 0 <= i < |plan.picks| ==> plan.picks[i] < |s.players|
    requires engine(RoundCommand(binary, Participants(s.players, plan.picks), plan)) == Finished(stdout, movable)
    requires DecodeAscii(stdout).Ok?
    requires |Split(DecodeAscii(stdout).value, '\n')| < 2 * |plan.picks| + 2
    ensures RunRound(binary, s, plan, engine, rating) == Err(NotEnoughLines(|Split(DecodeAscii(stdout).value, '\n')|))
  {
  }

  /** A decoded report decides the round (manager.py:98-107, 146-149): a
      report the parser refuses raises its error, a replay that can be neither
      moved nor deleted raises after the rating, and otherwise the participants rated
      by exactly the parsed ranks are committed. */
  lemma RoundFollowsReport(binary: string, s: State, plan: RoundPlan, engine: Engine, rating: Players.RatingEngine,
                           stdout: seq<byte>, movable: bool)
    requires forall i :: 0 <= i < |plan.picks| ==> plan.picks[i] < |s.players|
    requires engine(RoundCommand(binary, Participants(s.players, plan.picks), plan)) == Finished(stdout, movable)
    requires DecodeAscii(stdout).Ok?
    ensures var parsed := Match.ParseResults(DecodeAscii(stdout).value, |plan.picks|);
      var r := RunRound(binary, s, plan, engine, rating);
      && (parsed.Err? ==> r == Err(parsed.error))
      && (parsed.Ok? && !ReplayMoves(parsed.value.replayFile, movable) ==> r == Err(ReplayNotMoved(parsed.value.replayFile)))
      && (parsed.Ok? && ReplayMoves(parsed.value.replayFile, movable) ==>
            r == Ok(Commit(s, plan.picks, Players.UpdateRanks(Participants(s.players, plan.picks), parsed.value.results, rating))))
  {
    var participants := Participants(s.players, plan.picks);
    assert |participants| == |plan.picks|;
  }


  /** A completed round changes the in-memory players only in their
      ratings, and only those of the participants; names stay distinct. */
  lemma RoundKeepsRoster(binary: string, s: State, plan: RoundPlan, engine: Engine, rating: Players.RatingEngine)
    requires Playable(s, plan)
    requires RunRound(binary, s, plan, engine, rating).Ok?
    ensures var t := RunRound(binary, s, plan, engine, rating).value;
      && |t.players| == |s.players|
      && (forall i :: 0 <= i < |s.players| ==> Players.SameButRating(s.players[i], t.players[i]))
      && (forall i :: 0 <= i < |s.players| && i !in plan.picks ==> t.players[i] == s.players[i])
      && Players.UniqueNames(t.players)
  {
    var participants := Participants(s.players, plan.picks);
    var rated := PlayMatch(binary, participants, plan, engine, rating).value;
    var t := RunRound(binary, s, plan, engine, rating).value;
    ScatterEffect(s.players, plan.picks, rated);
    forall i | 0 <= i < |s.players|
      ensures Players.SameButRating(s.players[i], t.players[i])
    {
      if i in plan.picks {
        var k :| 0 <= k < |plan.picks| && plan.picks[k] == i;
        assert t.players[i] == rated[k];
      }
    }
  }

  /** The rated participants carry the participants' names, which are
      distinct because the picks are. */
  lemma RatedNamesUnique(s: State, plan: RoundPlan, rated: seq<Players.Player>)
    requires Playable(s, plan)
    requires |rated| == |plan.picks|
    requires forall k :: 0 <= k < |rated| ==> Players.SameButRating(Participants(s.players, plan.picks)[k], rated[k])
    ensures Players.UniqueNames(rated)
    ensures forall name :: Database.Participates(rated, name) <==> Database.Participates(Participants(s.players, plan.picks), name)
  {
    var participants := Participants(s.players, plan.picks);
    forall i, j | 0 <= i < j < |rated|
      ensures rated[i].name != rated[j].name
    {
      var a, b := plan.picks[i], plan.picks[j];
      if a < b {
        assert s.players[a].name != s.players[b].name;
      } else {
        assert s.players[b].name != s.players[a].name;
      }
    }
    forall name
      ensures Database.Participates(rated, name) <==> Database.Participates(participants, name)
    {
      if Database.Participates(rated, name) {
        var k :| 0 <= k < |rated| && rated[k].name == name;
        assert participants[k].name == name;
      }
      if Database.Participates(participants, name) {
        var k :| 0 <= k < |participants| && participants[k].name == name;
        assert rated[k].name == name;
      }
    }
  }

  /** A completed round saves every participant that has a row: one more
      game and the rating it now has in memory; apart from that only the
      rank column may change. */
  lemma RoundSavesParticipants(binary: string, s: State, plan: RoundPlan, engine: Engine, rating: Players.RatingEngine)
    requires Playable(s, plan)
    requires RunRound(binary, s, plan, engine, rating).Ok?
    ensures var t := RunRound(binary, s, plan, engine, rating).value;
      forall k :: 0 <= k < |plan.picks| && s.players[plan.picks[k]].name in s.db ==>
        var name := s.players[plan.picks[k]].name;
        var p := t.players[plan.picks[k]];
        t.db[name] == Database.Saved(s.db[name], p.skill, p.mu, p.sigma).(rank := t.db[name].rank)
  {
    var participants := Participants(s.players, plan.picks);
    var rated := PlayMatch(binary, participants, plan, engine, rating).value;
    var t := RunRound(binary, s, plan, engine, rating).value;
    RatedNamesUnique(s, plan, rated);
    ScatterEffect(s.players, plan.picks, rated);
    var saved := Database.SavePlayers(s.db, rated);
    Database.SavePlayersEffect(s.db, rated);
    Database.RanksAreDense(saved, Database.RankingQuery(saved));
    forall k | 0 <= k < |plan.picks| && s.players[plan.picks[k]].name in s.db
      ensures var name := s.players[plan.picks[k]].name;
        var p := t.players[plan.picks[k]];
        t.db[name] == Database.Saved(s.db[name], p.skill, p.mu, p.sigma).(rank := t.db[name].rank)
    {
      assert rated[k].name == s.players[plan.picks[k]].name;
      assert t.players[plan.picks[k]] == rated[k];
    }
  }

  /** A completed round leaves the row of every player that did not take
      part as it was, except for its rank. */
  lemma RoundKeepsBystanders(binary: string, s: State, plan: RoundPlan, engine: Engine, rating: Players.RatingEngine)
    requires Playable(s, plan)
    requires RunRound(binary, s, plan, engine, rating).Ok?
    ensures var t := RunRound(binary, s, plan, engine, rating).value;
      forall name :: name in s.db && !Database.Participates(Participants(s.players, plan.picks), name) ==>
        t.db[name] == s.db[name].(rank := t.db[name].rank)
  {
    var participants := Participants(s.players, plan.picks);
    var rated := PlayMatch(binary, participants, plan, engine, rating).value;
    RatedNamesUnique(s, plan, rated);
    var saved := Database.SavePlayers(s.db, rated);
    Database.SavePlayersEffect(s.db, rated);
    Database.RanksAreDense(saved, Database.RankingQuery(saved));
  }

  /** After a completed round the ranks are 1..N, one per row, in order of
      skill. */
  lemma RoundRanksBySkill(binary: string, s: State, plan: RoundPlan, engine: Engine, rating: Players.RatingEngine)
    requires forall i :: 0 <= i < |plan.picks| ==> plan.picks[i] < |s.players|
    requires RunRound(binary, s, plan, engine, rating).Ok?
    ensures var t := RunRound(binary, s, plan, engine, rating).value;
      Database.DenseRanks(t.db) && Database.RanksFollowSkill(t.db)
  {
    var rated := PlayMatch(binary, Participants(s.players, plan.picks), plan, engine, rating).value;
    var saved := Database.SavePlayers(s.db, rated);
    Database.RanksAreDense(saved, Database.RankingQuery(saved));
    Database.RanksAreBySkill(saved, Database.RankingQuery(saved));
  }

  /* ---------------- the round loop ---------------- */

  /** One turn of the loop of `run_rounds` (manager.py:169-175): choose the
      round, then play it. */
  ghost function Step(cfg: Config, binary: string, s: State, d: RoundDraws, engine: Engine, rating: Players.RatingEngine): (r: Result<State>)
    ensures r.Ok? ==> r.value.db.Keys == s.db.Keys && |r.value.players| == |s.players|
  {
    var plan :- ChooseRound(cfg, |s.players|, d);
    RunRound(binary, s, plan, engine, rating)
  }

  /** How a run of the manager ends: the loop condition fails, the operator
      interrupts it between rounds, a round raises, or the command line finds too few
      active players to start. */
  datatype Stop = Completed | Interrupted | Crashed(error: Error) | TooFewPlayers

  datatype Run = Run(state: State, roundCount: int, stop: Stop)

  /** Whether the loop of `run_rounds` goes on: forever for a negative
      `rounds`, otherwise until `rounds` rounds are done. */
  predicate KeepGoing(rounds: int, roundCount: int)
  {
    rounds < 0 || roundCount < rounds
  }

  /** One turn's outcome for a state before it and the number of rounds done. */
  type Stepper = (State, nat) -> Result<State>

  /** The loop of `run_rounds` (manager.py:168-176) over any turn. The loop
      never stops on its own for a negative `rounds`, so `fuel` is the
      number of turns the operator lets start before interrupting between
      rounds. A turn
      that raises ends the run with the state the turns before it
      committed. */
  ghost function Loop(step: Stepper, s: State, rounds: int, roundCount: nat, fuel: nat): (r: Run)
    ensures roundCount <= r.roundCount <= roundCount + fuel
    ensures r.stop.Completed? <==> !KeepGoing(rounds, r.roundCount)
    ensures r.stop.Interrupted? ==> r.roundCount == roundCount + fuel
    ensures !r.stop.TooFewPlayers?
    ensures r.roundCount == roundCount ==> r.state == s
    decreases fuel
  {
    if !KeepGoing(rounds, roundCount) then Run(s, roundCount, Completed)
    else if fuel == 0 then Run(s, roundCount, Interrupted)
    else
      match step(s, roundCount)
      case Err(e) => Run(s, roundCount, Crashed(e))
      case Ok(next) => Loop(step, next, rounds, roundCount + 1, fuel - 1)
  }

  /** `Manager.run_rounds` (manager.py:167-176): round `n` uses the random
      draws `draws(n)` and the engine `engines(n)`. */
  ghost function RunRounds(cfg: Config, binary: string, s: State, rounds: int, roundCount: nat,
                           draws: nat -> RoundDraws, engines: nat -> Engine, rating: Players.RatingEngine, fuel: nat): (r: Run)
    ensures roundCount <= r.roundCount
    ensures r.stop.Completed? <==> !KeepGoing(rounds, r.roundCount)
    ensures !r.stop.TooFewPlayers?
  {
    Loop((t: State, n: nat) => Step(cfg, binary, t, draws(n), engines(n), rating), s, rounds, roundCount, fuel)
  }

  /** With `rounds` not negative and enough fuel, the loop runs exactly up to
      `rounds` unless a turn raises; with a negative `rounds` it never
      completes. */
  lemma {:induction false} LoopCount(step: Stepper, s: State, rounds: int, roundCount: nat, fuel: nat)
    ensures var r := Loop(step, s, rounds, roundCount, fuel);
      && (rounds < 0 ==> !r.stop.Completed?)
      && (roundCount <= rounds ==> r.roundCount <= rounds)
      && (roundCount <= rounds && rounds - roundCount <= fuel ==> r.stop.Crashed? || (r.stop.Completed? && r.roundCount == rounds))
    decreases fuel
  {
    if KeepGoing(rounds, roundCount) && fuel > 0 {
      var step1 := step(s, roundCount);
      if step1.Ok? {
        LoopCount(step, step1.value, rounds, roundCount + 1, fuel - 1);
      }
    }
  }

  /** What a completed turn keeps: the table's players, the manager's
      players up to their ratings, distinct names, and ranks 1..N in order
      of skill. */
  predicate Advances(s: State, t: State)
  {
    && t.db.Keys == s.db.Keys
    && |t.players| == |s.players|
    && (forall i :: 0 <= i < |s.players| ==> Players.SameButRating(s.players[i], t.players[i]))
    && Players.UniqueNames(t.players)
    && Database.DenseRanks(t.db) && Database.RanksFollowSkill(t.db)
  }

  /** Every completed turn of `run_rounds` advances the state. */
  lemma StepAdvances(cfg: Config, binary: string, s: State, d: RoundDraws, engine: Engine, rating: Players.RatingEngine)
    requires Players.UniqueNames(s.players)
    requires Step(cfg, binary, s, d, engine, rating).Ok?
    ensures Advances(s, Step(cfg, binary, s, d, engine, rating).value)
  {
    var plan := ChooseRound(cfg, |s.players|, d).value;
    RoundKeepsRoster(binary, s, plan, engine, rating);
    RoundRanksBySkill(binary, s, plan, engine, rating);
  }

  /** Two advances in a row are one advance. */
  lemma AdvancesTransitive(s: State, t: State, u: State)
    requires Advances(s, t) && Advances(t, u)
    ensures Advances(s, u)
  {
    forall i | 0 <= i < |s.players|
      ensures Players.SameButRating(s.players[i], u.players[i])
    {
      assert Players.SameButRating(t.players[i], u.players[i]);
    }
  }

  /** A loop whose every completed turn keeps `inv` and moves the state
      along a transitive relation `rel` keeps `inv`, and once a turn has
      completed its final state is `rel`-related to its first. */
  lemma {:induction false} LoopKeeps(step: Stepper, inv: State -> bool, rel: (State, State) -> bool,
                                     s: State, rounds: int, roundCount: nat, fuel: nat)
    requires inv(s)
    requires forall t: State, n: nat :: inv(t) && step(t, n).Ok? ==> inv(step(t, n).value) && rel(t, step(t, n).value)
    requires forall a: State, b: State, c: State :: rel(a, b) && rel(b, c) ==> rel(a, c)
    ensures var r := Loop(step, s, rounds, roundCount, fuel);
      && inv(r.state)
      && (r.roundCount > roundCount ==> rel(s, r.state))
    decreases fuel
  {
    if KeepGoing(rounds, roundCount) && fuel > 0 {
      var step1 := step(s, roundCount);
      if step1.Ok? {
        LoopKeeps(step, inv, rel, step1.value, rounds, roundCount + 1, fuel - 1);
      }
    }
  }

  /** The round loop of the manager: the players keep their names and the
      table its players, and after any completed round the ranks are 1..N in
      order of skill. */
  lemma RunRoundsInvariant(cfg: Config, binary: string, s: State, rounds: int, roundCount: nat,
                           draws: nat -> RoundDraws, engines: nat -> Engine, rating: Players.RatingEngine, fuel: nat)
    requires Players.UniqueNames(s.players)
    ensures var r := RunRounds(cfg, binary, s, rounds, roundCount, draws, engines, rating, fuel);
      && r.state.db.Keys == s.db.Keys
      && Players.UniqueNames(r.state.players)
      && (r.roundCount > roundCount ==> Advances(s, r.state))
  {
    var step: Stepper := (t: State, n: nat) => Step(cfg, binary, t, draws(n), engines(n), rating);
    var inv := (t: State) => Players.UniqueNames(t.players);
    var rel := (a: State, b: State) => Advances(a, b);
    forall t: State, n: nat | inv(t) && step(t, n).Ok?
      ensures inv(step(t, n).value) && rel(t, step(t, n).value)
    {
      StepAdvances(cfg, binary, t, draws(n), engines(n), rating);
    }
    forall a: State, b: State, c: State | rel(a, b) && rel(b, c)
      ensures rel(a, c)
    {
      AdvancesTransitive(a, b, c);
    }
    LoopKeeps(step, inv, rel, s, rounds, roundCount, fuel);
  }

  /* ---------------- the command line ---------------- */

  /** `Commandline.run_matches` (manager.py:341-350): the active players are
      read from the table; with fewer than two nothing runs, otherwise a
      fresh default manager runs `rounds` rounds (1 for a single match, -1
      to run forever). */
  ghost function RunMatches(binary: string, db: Database.Store, rounds: int,
                            draws: nat -> RoundDraws, engines: nat -> Engine, rating: Players.RatingEngine, fuel: nat): (r: Run)
    ensures r.stop.TooFewPlayers? <==> |Database.ActivePlayers(db)| < 2
    ensures r.stop.TooFewPlayers? ==> r.state.db == db && r.roundCount == 0
  {
    var players := Database.ActivePlayers(db);
    if |players| < 2 then Run(State(players, db), 0, TooFewPlayers)
    else RunRounds(DefaultConfig, binary, State(players, db), rounds, 0, draws, engines, rating, fuel)
  }

  /** A run from the command line keeps the table's players, and once a
      round has completed the ranks are 1..N in order of skill. */
  lemma RunMatchesEffect(binary: string, db: Database.Store, rounds: int,
                         draws: nat -> RoundDraws, engines: nat -> Engine, rating: Players.RatingEngine, fuel: nat)
    ensures var r := RunMatches(binary, db, rounds, draws, engines, rating, fuel);
      && r.state.db.Keys == db.Keys
      && (r.roundCount > 0 ==> Database.DenseRanks(r.state.db) && Database.RanksFollowSkill(r.state.db))
  {
    var players := Database.ActivePlayers(db);
    if |players| >= 2 {
      RunRoundsInvariant(DefaultConfig, binary, State(players, db), rounds, 0, draws, engines, rating, fuel);
    }
  }

  /** With at least two active players, every round's plan is possible: the
      default settings never make `run_rounds` raise before the match. */
  lemma DefaultRoundsChoose(numPlayers: nat, d: RoundDraws)
    requires numPlayers >= 2
    ensures var r := ChooseRound(DefaultConfig, numPlayers, d);
      && r.Ok?
      && 2 <= |r.value.picks| <= 6
      && 20 <= r.value.width <= 50
  {
  }

  /** `Manager.add_player` (manager.py:178-183): a taken name is reported
      and nothing is added, so unlike the table's own insertion this never
      raises. */
  function AddPlayer(db: Database.Store, name: string, path: string): (r: Database.Store)
    ensures name in db ==> r == db
    ensures name !in db ==> r.Keys == db.Keys + {name} && r[name] == Database.NewRecord(path)
    ensures forall other :: other in db ==> r[other] == db[other]
  {
    if name in db then db else Database.AddPlayer(db, name, path).value
  }
}
