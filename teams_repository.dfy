/** The keyed-map team store (src/teams/teams.repository.ts). */
module TeamsRepo {
  import opened Outcomes
  import opened JsBuiltins
  import opened Records
  import opened KeyedStore

  /** How `create` builds the record stored under a key, at clock reading `now`. */
  function TeamMaker(now: Time): (int, CreateTeamDto) -> Team {
    (id: int, dto: CreateTeamDto) => NewTeam(id, None, dto, now)
  }

  class TeamsRepository {
    /** `Record<number, Team>`: the stored teams by id. */
    var teams: map<int, Team>
    /** The id the next `create` hands out. */
    var nextId: int
    /** Every id handed out so far, including those of teams removed since. */
    ghost var issued: set<int>

    /** The counter starts at 1, the ids handed out are exactly those below it,
        and every stored key is one of them. */
    ghost predicate Valid()
      reads this
    {
      && nextId >= 1
      && (forall k :: k in issued <==> 1 <= k < nextId)
      && (forall k :: k in teams ==> k in issued)
    }

    constructor ()
      ensures Valid() && teams == map[] && nextId == 1 && issued == {}
    {
      teams := map[];
      nextId := 1;
      issued := {};
    }

    /** `create` on each payload in order: the teams land under the consecutive
        ids `old(nextId) .. old(nextId) + |xs| - 1`. */
    method Seed(xs: seq<CreateTeamDto>, now: Time)
      requires Valid()
      modifies this
      ensures Valid()
      ensures teams == CreateAll(old(teams), old(nextId), xs, TeamMaker(now))
      ensures nextId == old(nextId) + |xs|
      ensures |teams| == |old(teams)| + |xs|
      ensures forall k :: k in old(teams) ==> k in teams && teams[k] == old(teams)[k]
      ensures forall i :: 0 <= i < |xs| ==>
                old(nextId) + i in teams && teams[old(nextId) + i] == NewTeam(old(nextId) + i, None, xs[i], now)
      ensures forall k :: k in issued <==> k in old(issued) || old(nextId) <= k < nextId
    {
      for i := 0 to |xs|
        invariant Valid()
        invariant nextId == old(nextId) + i
        invariant teams == CreateAll(old(teams), old(nextId), xs[..i], TeamMaker(now))
      {
        CreateAllSnoc(old(teams), old(nextId), xs[..i], xs[i], TeamMaker(now));
        assert xs[..i + 1] == xs[..i] + [xs[i]];
        var created := Create(xs[i], now);
      }
      assert xs[..|xs|] == xs;
      assert teams == CreateAll(old(teams), old(nextId), xs, TeamMaker(now));
      CreateAllSize(old(teams), old(nextId), xs, TeamMaker(now));
      forall i | 0 <= i < |xs|
        ensures old(nextId) + i in teams && teams[old(nextId) + i] == NewTeam(old(nextId) + i, None, xs[i], now)
      {
        CreateAllAt(old(teams), old(nextId), xs, TeamMaker(now), i);
      }
    }

    /** Stores a new team, with no members and no creator, under `nextId` and
        advances the counter. The id was
        never handed out before and is above every id handed out so far, so it
        collides with no stored key, even after removals. */
    method Create(dto: CreateTeamDto, now: Time) returns (t: Team)
      requires Valid()
      modifies this
      ensures Valid()
      ensures t == NewTeam(old(nextId), None, dto, now)
      ensures t.members == [] && (t.isActive <==> dto.isActive != Some(false))
      ensures nextId == old(nextId) + 1
      ensures teams == old(teams)[t.id := t]
      ensures t.id !in old(issued) && t.id !in old(teams)
      ensures forall k :: k in old(issued) ==> k < t.id
      ensures issued == old(issued) + {t.id}
    {
      var id := nextId;
      nextId := nextId + 1;
      t := NewTeam(id, None, dto, now);
      teams := teams[id := t];
      issued := issued + {id};
    }

    /** `Object.values(teams)`: every stored team once, in ascending key order. */
    function FindAll(): (r: seq<Team>)
      requires Valid()
      reads this
      ensures |r| == |teams|
      ensures forall k :: k in teams ==> teams[k] in r
      ensures forall i :: 0 <= i < |r| ==> exists k :: k in teams && teams[k] == r[i]
      ensures forall k :: k in teams ==> |KeysBetween(teams, 1, k)| < |r| && r[|KeysBetween(teams, 1, k)|] == teams[k]
    {
      assert KeysBetween(teams, 1, nextId) == teams.Keys;
      ValuesInKeyOrderPositions(teams, 1, nextId);
      ValuesInKeyOrder(teams, 1, nextId)
    }

    /** The team stored under the id, or `undefined`. */
    function FindOne(id: int): (r: Option<Team>)
      reads this
      ensures r.Some? <==> id in teams
      ensures r.Some? ==> r.value == teams[id]
    {
      if id in teams then Some(teams[id]) else None
    }

    /** `undefined` and no change for an absent id; otherwise the shallow merge
        is stored under the same key, and no other key changes. */
    method Update(id: int, dto: UpdateTeamDto) returns (r: Option<Team>)
      requires Valid()
      modifies this
      ensures Valid()
      ensures nextId == old(nextId) && issued == old(issued)
      ensures id !in old(teams) ==> r == None && teams == old(teams)
      ensures id in old(teams) ==>
                && r == Some(MergeTeam(old(teams)[id], dto))
                && teams == old(teams)[id := r.value]
    {
      if id !in teams {
        return None;
      }
      var updated := MergeTeam(teams[id], dto);
      teams := teams[id := updated];
      r := Some(updated);
    }

    /** `undefined` and no change for an absent id; otherwise deletes exactly that
        key and returns its record. The counter does not move back. */
    method Remove(id: int) returns (r: Option<Team>)
      requires Valid()
      modifies this
      ensures Valid()
      ensures nextId == old(nextId) && issued == old(issued)
      ensures id !in old(teams) ==> r == None && teams == old(teams)
      ensures id in old(teams) ==> r == Some(old(teams)[id]) && teams == old(teams) - {id}
    {
      if id !in teams {
        return None;
      }
      r := Some(teams[id]);
      teams := teams - {id};
    }
  }
}
