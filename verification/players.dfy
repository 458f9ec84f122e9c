/** Players as the manager holds them in memory, and the application of the
    rating engine's verdict to them (manager.py:36-58, 260-280). The rating
    engine itself is a parameter: a function from the participants and their
    ranks to a posterior `(mu, sigma)` per player name. */
module Players {
  import opened Results

  /** One competing program. `last_seen` is not modelled. */
  datatype Player = Player(
    name: string,
    path: string,
    rank: int,
    skill: real,
    mu: real,
    sigma: real,
    ngames: int,
    active: bool)

  /** The posterior rating the engine reports for one player name. */
  datatype Posterior = Posterior(name: string, mu: real, sigma: real)

  /** The rating engine: participants (with their prior `mu`, `sigma`) and
      their ranks in, posteriors out, in the engine's own order. */
  type RatingEngine = (seq<Player>, seq<int>) -> seq<Posterior>

  const DefaultRank: int := 1000
  const DefaultMu: real := 50.0
  const DefaultSigma: real := 50.0 / 3.0

  /** The conservative skill estimate: three standard deviations below the mean. */
  function ConservativeSkill(mu: real, sigma: real): real
  {
    mu - sigma * 3.0
  }

  /** The relation `skill = mu - 3 sigma` between a player's rating fields. */
  predicate SkillConsistent(p: Player)
  {
    p.skill == ConservativeSkill(p.mu, p.sigma)
  }

  /** `Player(name, path)` with the constructor's defaults (manager.py:261). */
  function NewPlayer(name: string, path: string): (p: Player)
    ensures p.name == name && p.path == path
    ensures p.rank == 1000 && p.ngames == 0 && p.active
    ensures p.mu == 50.0 && p.sigma * 3.0 == 50.0
    ensures p.skill == 0.0 && SkillConsistent(p)
  {
    Player(name, path, DefaultRank, 0.0, DefaultMu, DefaultSigma, 0, true)
  }

  /** `Player.update_skill`: recompute the skill from `mu` and `sigma`,
      leaving every other field alone. */
  function UpdateSkill(p: Player): (r: Player)
    ensures SkillConsistent(r)
    ensures r.(skill := p.skill) == p
  {
    p.(skill := ConservativeSkill(p.mu, p.sigma))
  }

  /** A player given a new rating: `mu`, `sigma`, then the derived skill. */
  function Rated(p: Player, mu: real, sigma: real): (r: Player)
    ensures r.mu == mu && r.sigma == sigma && SkillConsistent(r)
    ensures r.(mu := p.mu, sigma := p.sigma, skill := p.skill) == p
  {
    UpdateSkill(p.(mu := mu, sigma := sigma))
  }

  /** The position of the first player called `name`, if any. */
  function FirstWithName(players: seq<Player>, name: string): (r: Option<nat>)
    ensures r.Some? ==> (r.value < |players| && players[r.value].name == name
      && forall k :: 0 <= k < r.value ==> players[k].name != name)
    ensures r.None? ==> forall k :: 0 <= k < |players| ==> players[k].name != name
  {
    if players == [] then None
    else if players[0].name == name then Some(0)
    else
      match FirstWithName(players[1..], name)
      case None => None
      case Some(i) => Some(i + 1)
  }

  /** `update_player_skill` (manager.py:36-44): the first player called
      `name` takes the new rating; once one is found the rest are skipped. */
  function UpdatePlayerSkill(players: seq<Player>, name: string, mu: real, sigma: real): (r: seq<Player>)
    ensures |r| == |players|
    ensures match FirstWithName(players, name)
      case None => r == players
      case Some(i) => r == players[i := Rated(players[i], mu, sigma)]
  {
    if players == [] then []
    else if players[0].name == name then [Rated(players[0], mu, sigma)] + players[1..]
    else
      var rest := UpdatePlayerSkill(players[1..], name, mu, sigma);
      assert players == [players[0]] + players[1..];
      [players[0]] + rest
  }

  /** The posteriors applied one after another, in the engine's order
      (the loops of manager.py:55-58). */
  function ApplyPosteriors(players: seq<Player>, posteriors: seq<Posterior>): (r: seq<Player>)
    ensures |r| == |players|
    decreases |posteriors|
  {
    if posteriors == [] then players
    else
      var p := posteriors[0];
      ApplyPosteriors(UpdatePlayerSkill(players, p.name, p.mu, p.sigma), posteriors[1..])
  }

  /** `update_ranks` (manager.py:47-58): ask the engine, apply its answer. */
  function UpdateRanks(players: seq<Player>, ranks: seq<int>, engine: RatingEngine): (r: seq<Player>)
    ensures |r| == |players|
  {
    ApplyPosteriors(players, engine(players, ranks))
  }

  /** Two players that agree on everything but the rating. */
  predicate SameButRating(p: Player, q: Player)
  {
    p.name == q.name && p.path == q.path && p.rank == q.rank && p.ngames == q.ngames && p.active == q.active
  }

  /** Whether some posterior names this player. */
  predicate Named(posteriors: seq<Posterior>, name: string)
  {
    exists k :: 0 <= k < |posteriors| && posteriors[k].name == name
  }

  /** One update changes only the rating of the player it finds. */
  lemma UpdatePlayerSkillEffect(players: seq<Player>, name: string, mu: real, sigma: real)
    ensures var r := UpdatePlayerSkill(players, name, mu, sigma);
      forall i :: 0 <= i < |players| ==>
        && SameButRating(players[i], r[i])
        && (players[i].name != name ==> r[i] == players[i])
        && (SkillConsistent(players[i]) ==> SkillConsistent(r[i]))
  {
    var r := UpdatePlayerSkill(players, name, mu, sigma);
    match FirstWithName(players, name)
    case None =>
    case Some(k) =>
      assert r[k] == Rated(players[k], mu, sigma);
  }

  /** Applying posteriors changes only ratings: every player keeps its name,
      path, rank, game count and active flag; a player no posterior names is
      not touched at all; and a player whose skill agreed with its rating
      before still does. */
  lemma {:induction false} ApplyPosteriorsEffect(players: seq<Player>, posteriors: seq<Posterior>)
    ensures var r := ApplyPosteriors(players, posteriors);
      forall i :: 0 <= i < |players| ==>
        && SameButRating(players[i], r[i])
        && (!Named(posteriors, players[i].name) ==> r[i] == players[i])
        && (SkillConsistent(players[i]) ==> SkillConsistent(r[i]))
    decreases |posteriors|
  {
    if posteriors != [] {
      var p := posteriors[0];
      var mid := UpdatePlayerSkill(players, p.name, p.mu, p.sigma);
      UpdatePlayerSkillEffect(players, p.name, p.mu, p.sigma);
      ApplyPosteriorsEffect(mid, posteriors[1..]);
      var r := ApplyPosteriors(players, posteriors);
      forall i | 0 <= i < |players|
        ensures SameButRating(players[i], r[i])
        ensures !Named(posteriors, players[i].name) ==> r[i] == players[i]
        ensures SkillConsistent(players[i]) ==> SkillConsistent(r[i])
      {
        if !Named(posteriors, players[i].name) {
          assert posteriors[0].name != players[i].name;
          assert mid[i] == players[i];
          assert !Named(posteriors[1..], players[i].name);
        }
      }
    }
  }

  /** The rating of a name after the posteriors: that of the last posterior
      naming it, or `prior` if none does. */
  function LastPosterior(posteriors: seq<Posterior>, name: string, prior: Posterior): Posterior
  {
    if posteriors == [] then prior
    else if posteriors[|posteriors| - 1].name == name then posteriors[|posteriors| - 1]
    else LastPosterior(posteriors[..|posteriors| - 1], name, prior)
  }

  /** Peeling the first posterior off: it only replaces the prior of its own name. */
  lemma {:induction false} LastPosteriorFirst(p: Posterior, rest: seq<Posterior>, name: string, prior: Posterior)
    ensures LastPosterior([p] + rest, name, prior) == LastPosterior(rest, name, if p.name == name then p else prior)
    decreases |rest|
  {
    var all := [p] + rest;
    if rest != [] {
      assert all[..|all| - 1] == [p] + rest[..|rest| - 1];
      LastPosteriorFirst(p, rest[..|rest| - 1], name, prior);
    }
  }

  /** Names occur at most once. */
  predicate UniqueNames(players: seq<Player>)
  {
    forall i, j :: 0 <= i < j < |players| ==> players[i].name != players[j].name
  }

  /** With unique names, every player ends with the rating of the last
      posterior that names it (its own rating if none does). */
  lemma {:induction false} ApplyPosteriorsRating(players: seq<Player>, posteriors: seq<Posterior>)
    requires UniqueNames(players)
    ensures var r := ApplyPosteriors(players, posteriors);
      forall i :: 0 <= i < |players| ==>
        var last := LastPosterior(posteriors, players[i].name, Posterior(players[i].name, players[i].mu, players[i].sigma));
        r[i].mu == last.mu && r[i].sigma == last.sigma
    decreases |posteriors|
  {
    if posteriors != [] {
      var p := posteriors[0];
      var mid := UpdatePlayerSkill(players, p.name, p.mu, p.sigma);
      UpdatePlayerSkillEffect(players, p.name, p.mu, p.sigma);
      ApplyPosteriorsRating(mid, posteriors[1..]);
      var r := ApplyPosteriors(players, posteriors);
      forall i | 0 <= i < |players|
        ensures var last := LastPosterior(posteriors, players[i].name, Posterior(players[i].name, players[i].mu, players[i].sigma));
          r[i].mu == last.mu && r[i].sigma == last.sigma
      {
        var name := players[i].name;
        var prior := Posterior(name, players[i].mu, players[i].sigma);
        assert posteriors == [p] + posteriors[1..];
        LastPosteriorFirst(p, posteriors[1..], name, prior);
        if p.name == name {
          assert FirstWithName(players, name) == Some(i);
          assert mid[i].mu == p.mu && mid[i].sigma == p.sigma;
        } else {
          assert mid[i] == players[i];
        }
      }
    }
  }
}
