/** The player table (manager.py:185-257) as a map from the unique player
    name to the rest of the row. SQL text, commits, the connection and the
    `lastseen` timestamps are not modelled; nor is the unused games table. */
module Database {
  import opened Results
  import Players

  /** A row of the players table, without its name (the key) and timestamp. */
  datatype Record = Record(path: string, rank: int, skill: real, mu: real, sigma: real, ngames: int, active: bool)

  type Store = map<string, Record>

  /** The columns a player's fields fill, in the table's column order. */
  function ToRecord(p: Players.Player): Record
  {
    Record(p.path, p.rank, p.skill, p.mu, p.sigma, p.ngames, p.active)
  }

  /** `parse_player_record` (manager.py:278-280): a row as an in-memory
      player. No column is lost or swapped: writing the player's fields
      back gives the row. */
  function ToPlayer(name: string, rec: Record): (p: Players.Player)
    ensures p.name == name && ToRecord(p) == rec
  {
    Players.Player(name, rec.path, rec.rank, rec.skill, rec.mu, rec.sigma, rec.ngames, rec.active)
  }

  /** The row `Database.add_player` inserts (manager.py:229). */
  function NewRecord(path: string): Record
  {
    Record(path, 1000, 0.0, 50.0, 50.0 / 3.0, 0, true)
  }

  /** The inserted row reads back as a freshly constructed `Player`, whose
      skill agrees with its rating. */
  lemma NewRecordIsNewPlayer(name: string, path: string)
    ensures ToPlayer(name, NewRecord(path)) == Players.NewPlayer(name, path)
    ensures Players.SkillConsistent(ToPlayer(name, NewRecord(path)))
  {
  }

  /* ---------------- registration and removal ---------------- */

  /** `Database.add_player`: the unique name column refuses a second row
      with the same (case-sensitive) name. */
  function AddPlayer(db: Store, name: string, path: string): (r: Result<Store>)
    ensures name in db <==> r == Err(DuplicateName(name))
    ensures r.Ok? ==> r.value.Keys == db.Keys + {name}
    ensures r.Ok? ==> var rec := r.value[name];
      && rec.path == path && rec.rank == 1000 && rec.skill == 0.0 && rec.mu == 50.0
      && rec.sigma * 3.0 == 50.0 && rec.ngames == 0 && rec.active
    ensures r.Ok? ==> forall other :: other in db ==> r.value[other] == db[other]
  {
    if name in db then Err(DuplicateName(name)) else Ok(db[name := NewRecord(path)])
  }

  /** `Database.delete_player`: removing an absent name is a no-op. */
  function DeletePlayer(db: Store, name: string): (r: Store)
    ensures name !in r && r.Keys == db.Keys - {name}
    ensures forall other :: other in r ==> r[other] == db[other]
  {
    db - {name}
  }

  /** Deleting a player just registered restores the table. */
  lemma DeleteUndoesAdd(db: Store, name: string, path: string)
    requires name !in db
    ensures AddPlayer(db, name, path).Ok?
    ensures DeletePlayer(AddPlayer(db, name, path).value, name) == db
  {
    var added := AddPlayer(db, name, path).value;
    assert DeletePlayer(added, name).Keys == db.Keys;
  }

  /* ---------------- the active flag ---------------- */

  /** `update players set active=? where name=?`: no row, no change. */
  function SetActive(db: Store, name: string, active: bool): (r: Store)
    ensures r.Keys == db.Keys
    ensures name in db ==> r[name] == db[name].(active := active)
    ensures forall other :: other in db && other != name ==> r[other] == db[other]
  {
    if name in db then db[name := db[name].(active := active)] else db
  }

  /** `Database.activate_player`. */
  function ActivatePlayer(db: Store, name: string): (r: Store)
    ensures r.Keys == db.Keys
    ensures name in db ==> r[name].active && r[name].(active := db[name].active) == db[name]
    ensures forall other :: other in db && other != name ==> r[other] == db[other]
  {
    SetActive(db, name, true)
  }

  /** `Database.deactivate_player`: the row stays, only its flag drops. */
  function DeactivatePlayer(db: Store, name: string): (r: Store)
    ensures r.Keys == db.Keys
    ensures name in db ==> !r[name].active && r[name].(active := db[name].active) == db[name]
    ensures forall other :: other in db && other != name ==> r[other] == db[other]
  {
    SetActive(db, name, false)
  }

  /** Deactivating and reactivating an active player restores the table. */
  lemma ReactivateRestores(db: Store, name: string)
    requires name in db && db[name].active
    ensures ActivatePlayer(DeactivatePlayer(db, name), name) == db
  {
    var r := ActivatePlayer(DeactivatePlayer(db, name), name);
    assert r[name] == db[name];
    assert forall other :: other in db ==> r[other] == db[other];
  }

  /* ---------------- saving ratings ---------------- */

  /** A row after one completed game with a new rating. */
  function Saved(rec: Record, skill: real, mu: real, sigma: real): Record
  {
    rec.(ngames := rec.ngames + 1, skill := skill, mu := mu, sigma := sigma)
  }

  /** `Database.update_player_skill` (manager.py:243-244): one more game and
      the given rating; an absent name changes nothing (the UPDATE matches
      no row). */
  function UpdatePlayerSkill(db: Store, name: string, skill: real, mu: real, sigma: real): (r: Store)
    ensures r.Keys == db.Keys
    ensures name in db ==> (
      && r[name].ngames == db[name].ngames + 1
      && r[name].skill == skill && r[name].mu == mu && r[name].sigma == sigma
      && r[name].path == db[name].path && r[name].rank == db[name].rank && r[name].active == db[name].active)
    ensures forall other :: other in db && other != name ==> r[other] == db[other]
  {
    if name in db then db[name := Saved(db[name], skill, mu, sigma)] else db
  }

  /** `Database.save_player`. */
  function SavePlayer(db: Store, p: Players.Player): (r: Store)
    ensures p.name !in db ==> r == db
    ensures p.name in db ==> r == db[p.name := db[p.name].(ngames := db[p.name].ngames + 1, skill := p.skill, mu := p.mu, sigma := p.sigma)]
  {
    UpdatePlayerSkill(db, p.name, p.skill, p.mu, p.sigma)
  }

  /** `Manager.save_players` (manager.py:151-154): save each player in turn. */
  function SavePlayers(db: Store, players: seq<Players.Player>): (r: Store)
    ensures r.Keys == db.Keys
    decreases |players|
  {
    if players == [] then db else SavePlayers(SavePlayer(db, players[0]), players[1..])
  }

  /** Whether some player in the list has this name. */
  predicate Participates(players: seq<Players.Player>, name: string)
  {
    exists k :: 0 <= k < |players| && players[k].name == name
  }

  /** A name in the tail of the list is in the list. */
  lemma ParticipatesInTail(players: seq<Players.Player>, name: string)
    requires |players| > 0
    ensures Participates(players[1..], name) ==> Participates(players, name)
  {
    if Participates(players[1..], name) {
      var k :| 0 <= k < |players[1..]| && players[1..][k].name == name;
      assert players[k + 1].name == name;
    }
  }

  /** With unique names the first player's name does not recur. */
  lemma UniqueHeadAbsent(players: seq<Players.Player>)
    requires |players| > 0 && Players.UniqueNames(players)
    ensures !Participates(players[1..], players[0].name)
  {
    forall k | 0 <= k < |players| - 1
      ensures players[1..][k].name != players[0].name
    {
      assert players[1..][k] == players[k + 1];
    }
  }

  /** Saving players with distinct names: each stored participant gains
      exactly one game and takes its in-memory rating; every other row is
      untouched. */
  lemma {:induction false} SavePlayersEffect(db: Store, players: seq<Players.Player>)
    requires Players.UniqueNames(players)
    ensures var r := SavePlayers(db, players);
      && (forall name :: name in db && !Participates(players, name) ==> r[name] == db[name])
      && (forall k :: 0 <= k < |players| && players[k].name in db ==>
            r[players[k].name] == Saved(db[players[k].name], players[k].skill, players[k].mu, players[k].sigma))
    decreases |players|
  {
    if players != [] {
      var p := players[0];
      var db1 := SavePlayer(db, p);
      var rest := players[1..];
      assert Players.UniqueNames(rest);
      SavePlayersEffect(db1, rest);
      var r := SavePlayers(db, players);
      assert r == SavePlayers(db1, rest);
      forall name | name in db && !Participates(players, name)
        ensures r[name] == db[name]
      {
        assert name != p.name;
        ParticipatesInTail(players, name);
      }
      forall k | 0 <= k < |players| && players[k].name in db
        ensures r[players[k].name] == Saved(db[players[k].name], players[k].skill, players[k].mu, players[k].sigma)
      {
        if k == 0 {
          UniqueHeadAbsent(players);
        } else {
          assert rest[k - 1] == players[k];
          assert players[k].name != p.name;
        }
      }
    }
  }

  /* ---------------- ranks ---------------- */

  /** `Database.update_player_rank`: no row, no change. */
  function UpdatePlayerRank(db: Store, name: string, rank: int): (r: Store)
    ensures r.Keys == db.Keys
    ensures name in db ==> r[name] == db[name].(rank := rank)
    ensures forall other :: other in db && other != name ==> r[other] == db[other]
  {
    if name in db then db[name := db[name].(rank := rank)] else db
  }

  /** Rank `first + i` to the `i`-th name of `order`. */
  function AssignRanks(db: Store, order: seq<string>, first: int): (r: Store)
    ensures r.Keys == db.Keys
    decreases |order|
  {
    if order == [] then db else AssignRanks(UpdatePlayerRank(db, order[0], first), order[1..], first + 1)
  }

  /** `Database.update_player_ranks` (manager.py:249-251): the names as the
      query `select name from players order by skill desc` returns them,
      numbered from 1. */
  function UpdatePlayerRanks(db: Store, order: seq<string>): (r: Store)
    ensures r.Keys == db.Keys
  {
    AssignRanks(db, order, 1)
  }

  /** No element occurs twice. */
  predicate Distinct<T(==)>(s: seq<T>)
  {
    forall i, j :: 0 <= i < j < |s| ==> s[i] != s[j]
  }

  /** `order` lists the names of `names`, each exactly once. */
  predicate ListsExactly(order: seq<string>, names: set<string>)
  {
    && (forall i :: 0 <= i < |order| ==> order[i] in names)
    && (forall name :: name in names ==> name in order)
    && Distinct(order)
  }

  /** Skill does not increase along `order`. */
  predicate NonIncreasingSkill(db: Store, order: seq<string>)
    requires forall i :: 0 <= i < |order| ==> order[i] in db
  {
    forall i, j :: 0 <= i < j < |order| ==> db[order[i]].skill >= db[order[j]].skill
  }

  /** What the ranking query may return for a table: every name exactly
      once, in non-increasing order of skill. Among equal skills the order
      is the database's choice. */
  predicate IsSkillOrder(db: Store, order: seq<string>)
  {
    ListsExactly(order, db.Keys) && NonIncreasingSkill(db, order)
  }

  /** The first of distinct names does not recur. */
  lemma HeadNotInTail(s: seq<string>)
    requires |s| > 0 && Distinct(s)
    ensures s[0] !in s[1..]
  {
    assert forall k :: 0 <= k < |s| - 1 ==> s[1..][k] == s[k + 1] && s[k + 1] != s[0];
  }

  /** Numbering distinct names from `first` gives the `i`-th name rank
      `first + i` and leaves everything else as it was. */
  lemma {:induction false} AssignRanksEffect(db: Store, order: seq<string>, first: int)
    requires Distinct(order)
    ensures var r := AssignRanks(db, order, first);
      && (forall i :: 0 <= i < |order| && order[i] in db ==> r[order[i]] == db[order[i]].(rank := first + i))
      && (forall name :: name in db && name !in order ==> r[name] == db[name])
    decreases |order|
  {
    if order != [] {
      var db1 := UpdatePlayerRank(db, order[0], first);
      AssignRanksEffect(db1, order[1..], first + 1);
      var r := AssignRanks(db, order, first);
      forall i | 0 <= i < |order| && order[i] in db
        ensures r[order[i]] == db[order[i]].(rank := first + i)
      {
        if i == 0 {
          HeadNotInTail(order);
        } else {
          assert order[1..][i - 1] == order[i];
          assert order[i] != order[0];
        }
      }
    }
  }

  /** A sequence of distinct names has as many elements as its set. */
  lemma {:induction false} DistinctCardinality(s: seq<string>)
    requires Distinct(s)
    ensures |set x | x in s| == |s|
  {
    if s != [] {
      DistinctCardinality(s[1..]);
      assert (set x | x in s) == {s[0]} + (set x | x in s[1..]);
      HeadNotInTail(s);
    }
  }

  /** Rank by position: the `i`-th name of the ranking query gets rank `i + 1`. */
  lemma RanksByPosition(db: Store, order: seq<string>)
    requires IsSkillOrder(db, order)
    ensures var r := UpdatePlayerRanks(db, order);
      && |r| == |order|
      && (forall i :: 0 <= i < |order| ==> r[order[i]] == db[order[i]].(rank := 1 + i))
      && (forall name :: name in r ==> exists i :: 0 <= i < |order| && order[i] == name)
  {
    AssignRanksEffect(db, order, 1);
    assert (set x | x in order) == db.Keys;
    DistinctCardinality(order);
  }

  /** The ranks held in a table. */
  function RankSet(db: Store): set<int>
  {
    set name | name in db :: db[name].rank
  }

  /** The ranks of a table are exactly 1..N, one player each. */
  predicate DenseRanks(db: Store)
  {
    && (forall name :: name in db ==> 1 <= db[name].rank <= |db|)
    && (forall a, b :: a in db && b in db && a != b ==> db[a].rank != db[b].rank)
    && (forall k :: 1 <= k <= |db| ==> k in RankSet(db))
  }

  /** A better (smaller) rank never goes with a lower skill, and a strictly
      higher skill always has the better rank. */
  predicate RanksFollowSkill(db: Store)
  {
    && (forall a, b :: a in db && b in db && db[a].rank < db[b].rank ==> db[a].skill >= db[b].skill)
    && (forall a, b :: a in db && b in db && db[a].skill > db[b].skill ==> db[a].rank < db[b].rank)
  }

  /** After `update_player_ranks` with a valid ranking query result the
      ranks are exactly 1..N, one per player, and nothing but the rank
      column changes. */
  lemma RanksAreDense(db: Store, order: seq<string>)
    requires IsSkillOrder(db, order)
    ensures var r := UpdatePlayerRanks(db, order);
      && (forall name :: name in r ==> r[name] == db[name].(rank := r[name].rank))
      && DenseRanks(r)
  {
    var r := UpdatePlayerRanks(db, order);
    RanksByPosition(db, order);
    forall k | 1 <= k <= |r|
      ensures k in RankSet(r)
    {
      assert r[order[k - 1]].rank == k;
    }
  }

  /** After `update_player_ranks` the ranks follow the skills. */
  lemma RanksAreBySkill(db: Store, order: seq<string>)
    requires IsSkillOrder(db, order)
    ensures RanksFollowSkill(UpdatePlayerRanks(db, order))
  {
    var r := UpdatePlayerRanks(db, order);
    RanksByPosition(db, order);
    assert forall name :: name in r ==> name in order;
    PositionsFollowSkill(db, order, r);
  }

  /** A store that ranks each player by its position in a skill order
      follows skill in both directions. */
  lemma PositionsFollowSkill(db: Store, order: seq<string>, r: Store)
    requires IsSkillOrder(db, order)
    requires forall i :: 0 <= i < |order| ==> order[i] in r && r[order[i]] == db[order[i]].(rank := 1 + i)
    requires forall name :: name in r ==> name in order
    ensures RanksFollowSkill(r)
  {
    forall a, b | a in r && b in r
      ensures r[a].rank < r[b].rank ==> r[a].skill >= r[b].skill
      ensures r[a].skill > r[b].skill ==> r[a].rank < r[b].rank
    {
      var i :| 0 <= i < |order| && order[i] == a;
      var j :| 0 <= j < |order| && order[j] == b;
      assert r[a] == db[a].(rank := 1 + i) && r[b] == db[b].(rank := 1 + j);
      if i < j {
        assert db[a].skill >= db[b].skill;
      } else if j < i {
        assert db[b].skill >= db[a].skill;
      }
    }
  }

  /** Some name of greatest skill among `names`. */
  lemma {:induction false} MaxSkillExists(db: Store, names: set<string>)
    requires names != {} && names <= db.Keys
    ensures exists top :: top in names && forall m :: m in names ==> db[m].skill <= db[top].skill
    decreases names
  {
    var x :| x in names;
    if names != {x} {
      MaxSkillExists(db, names - {x});
      var t :| t in names - {x} && forall m :: m in names - {x} ==> db[m].skill <= db[t].skill;
      if db[x].skill >= db[t].skill {
        assert forall m :: m in names ==> db[m].skill <= db[x].skill;
      } else {
        assert forall m :: m in names ==> db[m].skill <= db[t].skill;
      }
    } else {
      assert forall m :: m in names ==> db[m].skill <= db[x].skill;
    }
  }

  /** A name of greatest skill in front of a skill order of the others is a
      skill order of all. */
  lemma PrependTop(db: Store, names: set<string>, top: string, rest: seq<string>)
    requires names <= db.Keys && top in names
    requires forall m :: m in names ==> db[m].skill <= db[top].skill
    requires ListsExactly(rest, names - {top}) && NonIncreasingSkill(db, rest)
    ensures ListsExactly([top] + rest, names) && NonIncreasingSkill(db, [top] + rest)
  {
    var order := [top] + rest;
    assert forall i :: 1 <= i < |order| ==> order[i] == rest[i - 1];
  }

  /** One result order of `select name from players order by skill desc`
      restricted to `names`: repeatedly a name of greatest remaining skill
      (which one, among equals, is left open). */
  ghost function SkillOrder(db: Store, names: set<string>): (order: seq<string>)
    requires names <= db.Keys
    ensures ListsExactly(order, names) && NonIncreasingSkill(db, order)
    decreases names
  {
    if names == {} then []
    else
      MaxSkillExists(db, names);
      var top :| top in names && forall m :: m in names ==> db[m].skill <= db[top].skill;
      var rest := SkillOrder(db, names - {top});
      PrependTop(db, names, top, rest);
      [top] + rest
  }

  /** The ranking query over the whole table. */
  ghost function RankingQuery(db: Store): (order: seq<string>)
    ensures IsSkillOrder(db, order)
  {
    SkillOrder(db, db.Keys)
  }

  /* ---------------- loading the active players ---------------- */

  /** The names of a set in some order, each once. */
  ghost function Enumerate(names: set<string>): (s: seq<string>)
    ensures ListsExactly(s, names)
    decreases names
  {
    if names == {} then []
    else
      var x :| x in names;
      var rest := Enumerate(names - {x});
      var s := [x] + rest;
      assert forall i :: 1 <= i < |s| ==> s[i] == rest[i - 1];
      s
  }

  /** The rows of the given names, in that order, as players. */
  function RowsNamed(db: Store, names: seq<string>): (players: seq<Players.Player>)
    requires forall i :: 0 <= i < |names| ==> names[i] in db
    ensures |players| == |names|
    ensures forall i :: 0 <= i < |names| ==> players[i] == ToPlayer(names[i], db[names[i]])
  {
    seq(|names|, i requires 0 <= i < |names| => ToPlayer(names[i], db[names[i]]))
  }

  /** Every name listed has its row among the players read. */
  lemma RowsNamedListsAll(db: Store, names: seq<string>, wanted: set<string>)
    requires forall i :: 0 <= i < |names| ==> names[i] in db
    requires ListsExactly(names, wanted)
    ensures forall name :: name in wanted ==> exists i :: 0 <= i < |names| && RowsNamed(db, names)[i].name == name
    ensures Players.UniqueNames(RowsNamed(db, names))
  {
    var players := RowsNamed(db, names);
    forall name | name in wanted
      ensures exists i :: 0 <= i < |names| && players[i].name == name
    {
      var i :| 0 <= i < |names| && names[i] == name;
      assert players[i].name == name;
    }
  }

  /** `select * from players where active > 0` read into players
      (manager.py:342-343): every active row once, in the database's order. */
  ghost function ActivePlayers(db: Store): (players: seq<Players.Player>)
    ensures forall i :: 0 <= i < |players| ==> players[i].name in db && players[i] == ToPlayer(players[i].name, db[players[i].name])
    ensures forall i :: 0 <= i < |players| ==> players[i].active
    ensures forall name :: name in db && db[name].active ==> exists i :: 0 <= i < |players| && players[i].name == name
    ensures Players.UniqueNames(players)
  {
    var wanted := set name | name in db && db[name].active;
    var names := Enumerate(wanted);
    assert forall name :: name in db && db[name].active ==> name in wanted;
    RowsNamedListsAll(db, names, wanted);
    RowsNamed(db, names)
  }
}
