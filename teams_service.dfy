/** The array-backed team store and its membership rules (src/teams/teams.service.ts). */
module TeamsSvc {
  import opened Outcomes
  import opened JsBuiltins
  import opened Records
  import UsersSvc

  /** `teams.findIndex(team => team.id === id)`: the position of the first team with that id. */
  function TeamIndex(teams: seq<Team>, id: int): (r: Option<nat>)
    ensures r.Some? ==> r.value < |teams| && teams[r.value].id == id
    ensures r.Some? ==> forall j :: 0 <= j < r.value ==> teams[j].id != id
    ensures r.None? <==> forall j :: 0 <= j < |teams| ==> teams[j].id != id
  {
    FindIndex(teams, (t: Team) => t.id == id)
  }

  /** Rewriting the team found for an id with a record that keeps that id does
      not move where the id is found. */
  lemma TeamIndexAfterWrite(teams: seq<Team>, id: int, t: Team)
    requires TeamIndex(teams, id).Some? && t.id == id
    ensures TeamIndex(teams[TeamIndex(teams, id).value := t], id) == TeamIndex(teams, id)
  {
    var i := TeamIndex(teams, id).value;
    var after := teams[i := t];
    assert after[i].id == id;
    assert forall j :: 0 <= j < i ==> after[j] == teams[j];
  }

  /** The item `findAll` lists for a team. */
  datatype TeamSummary = TeamSummary(
    id: int,
    name: string,
    description: Option<string>,
    currentCaptainId: Option<int>)

  /** `teams.map(team => ({ id, name, description, currentCaptainId }))`. */
  function Summaries(teams: seq<Team>): (r: seq<TeamSummary>)
    ensures |r| == |teams|
    ensures forall i :: 0 <= i < |teams| ==>
              r[i] == TeamSummary(teams[i].id, teams[i].name, teams[i].description, teams[i].currentCaptainId)
  {
    if teams == [] then []
    else [TeamSummary(teams[0].id, teams[0].name, teams[0].description, teams[0].currentCaptainId)]
         + Summaries(teams[1..])
  }

  /** The `catch` block of addMember and removeMember: a `NotFoundException` is
      rethrown as it is; anything else becomes "User with id … not found". */
  function Caught(e: Exception, userId: int): (r: Exception)
    ensures r.NotFoundException?
    ensures e.NotFoundException? ==> r == e
    ensures e.Error? ==> r.cause == UserNotFound(userId)
  {
    if e.NotFoundException? then e else NotFoundException(UserNotFound(userId))
  }

  /** What one member id contributes to the listing: its user when it resolves,
      and nothing when it does not (`findOne` throws and the entry becomes `null`). */
  function ResolvedOne(users: seq<User>, x: int): (r: seq<User>)
    ensures UsersSvc.Lookup(users, x).None? ==> r == []
    ensures UsersSvc.Lookup(users, x).Some? ==> r == [UsersSvc.Lookup(users, x).value]
  {
    match UsersSvc.Lookup(users, x)
    case None => []
    case Some(u) => [u]
  }

  /** `members.map(id => usersService.findOne(id) or null).filter(m => m !== null)`:
      the users the ids resolve to, in member order, dropping the ids that do not resolve. */
  function Resolved(users: seq<User>, ids: seq<int>): (r: seq<User>)
    ensures |r| <= |ids|
    ensures forall u :: u in r ==> u in users && u.id in ids
    ensures forall k :: 0 <= k < |ids| && UsersSvc.Lookup(users, ids[k]).Some? ==>
              UsersSvc.Lookup(users, ids[k]).value in r
    ensures (forall k :: 0 <= k < |ids| ==> UsersSvc.Lookup(users, ids[k]).Some?) ==> |r| == |ids|
  {
    if ids == [] then []
    else
      var rest := Resolved(users, ids[1..]);
      assert forall k :: 1 <= k < |ids| ==> ids[k] == ids[1..][k - 1];
      ResolvedOne(users, ids[0]) + rest
  }

  /** Resolving a concatenation resolves each part in turn: the listing keeps member order. */
  lemma {:induction false} ResolvedAppend(users: seq<User>, a: seq<int>, b: seq<int>)
    ensures Resolved(users, a + b) == Resolved(users, a) + Resolved(users, b)
  {
    if a == [] {
      assert a + b == b;
    } else {
      assert (a + b)[0] == a[0] && (a + b)[1..] == a[1..] + b;
      ResolvedAppend(users, a[1..], b);
    }
  }

  /** When every id resolves, the listing is exactly the users of the ids, position by position. */
  lemma {:induction false} ResolvedAllResolve(users: seq<User>, ids: seq<int>)
    requires forall k :: 0 <= k < |ids| ==> UsersSvc.Lookup(users, ids[k]).Some?
    ensures |Resolved(users, ids)| == |ids|
    ensures forall k :: 0 <= k < |ids| ==> Resolved(users, ids)[k] == UsersSvc.Lookup(users, ids[k]).value
  {
    if ids != [] {
      var rest := ids[1..];
      assert forall k :: 0 <= k < |rest| ==> rest[k] == ids[k + 1];
      ResolvedAllResolve(users, rest);
      var u := UsersSvc.Lookup(users, ids[0]).value;
      assert Resolved(users, ids) == [u] + Resolved(users, rest);
      forall k | 0 <= k < |ids|
        ensures Resolved(users, ids)[k] == UsersSvc.Lookup(users, ids[k]).value
      {
        if k > 0 {
          assert ids[k] == rest[k - 1];
        }
      }
    }
  }

  /** When no id resolves, the listing is empty. */
  lemma {:induction false} ResolvedNoneResolve(users: seq<User>, ids: seq<int>)
    requires forall k :: 0 <= k < |ids| ==> UsersSvc.Lookup(users, ids[k]).None?
    ensures Resolved(users, ids) == []
  {
    if ids != [] {
      assert forall k :: 0 <= k < |ids| - 1 ==> ids[1..][k] == ids[k + 1];
      ResolvedNoneResolve(users, ids[1..]);
    }
  }

  /** Resolving ids with one more id at the end appends that id's user when it
      resolves and nothing otherwise, so each id contributes at most one user, in
      member order. */
  lemma ResolvedSnoc(users: seq<User>, ids: seq<int>, x: int)
    ensures Resolved(users, ids + [x]) == Resolved(users, ids) + ResolvedOne(users, x)
    ensures |Resolved(users, ids + [x])| == |Resolved(users, ids)| + |ResolvedOne(users, x)|
  {
    ResolvedAppend(users, ids, [x]);
    assert [x][1..] == [];
  }

  /** The seed payloads of `onModuleInit`. */
  const EngineeringTeam := CreateTeamDto("Engineering Team", 1, Some("Main engineering team"), Some(true), Some(1))
  const DesignTeam := CreateTeamDto("Design Team", 2, Some("Product design team"), Some(true), Some(2))

  class TeamsService {
    /** The user store membership is checked against. */
    const usersService: UsersSvc.UsersService
    /** The stored teams, in insertion order. */
    var teams: seq<Team>

    constructor (usersService: UsersSvc.UsersService)
      ensures this.usersService == usersService && teams == []
    {
      this.usersService := usersService;
      teams := [];
    }

    /** Pushes the two seed teams, each built as `create` builds one. They name a
        captain while having no members, so "the captain is a member" is not an
        invariant of the store. */
    method OnModuleInit(now: Time)
      modifies this
      ensures teams == old(teams) + [NewTeam(|old(teams)| + 1, Some(1), EngineeringTeam, now),
                                     NewTeam(|old(teams)| + 2, Some(2), DesignTeam, now)]
      ensures forall j :: |old(teams)| <= j < |teams| ==>
                teams[j].currentCaptainId.Some? && teams[j].currentCaptainId.value !in teams[j].members
    {
      var seeds := [EngineeringTeam, DesignTeam];
      for n := 0 to |seeds|
        invariant |teams| == |old(teams)| + n
        invariant teams[..|old(teams)|] == old(teams)
        invariant forall j :: 0 <= j < n ==>
                    teams[|old(teams)| + j] == NewTeam(|old(teams)| + j + 1, Some(seeds[j].creatorId), seeds[j], now)
      {
        teams := teams + [NewTeam(|teams| + 1, Some(seeds[n].creatorId), seeds[n], now)];
      }
      var base := |old(teams)|;
      assert seeds[0] == EngineeringTeam && EngineeringTeam.creatorId == 1;
      assert seeds[1] == DesignTeam && DesignTeam.creatorId == 2;
      assert teams[base] == NewTeam(base + 1, Some(1), EngineeringTeam, now);
      assert teams[base + 1] == NewTeam(base + 2, Some(2), DesignTeam, now);
      assert teams == teams[..base] + [teams[base], teams[base + 1]];
    }

    /** Appends one team whose id is the current length plus one, with no members
        and active unless the payload says otherwise; nothing already stored changes. */
    method Create(dto: CreateTeamDto, now: Time) returns (t: Team)
      modifies this
      ensures t == NewTeam(|old(teams)| + 1, Some(dto.creatorId), dto, now)
      ensures t.members == [] && (t.isActive <==> dto.isActive != Some(false))
      ensures teams == old(teams) + [t]
    {
      t := NewTeam(|teams| + 1, Some(dto.creatorId), dto, now);
      teams := teams + [t];
    }

    /** One summary per stored team, in order. */
    function FindAll(): (r: seq<TeamSummary>)
      reads this
      ensures |r| == |teams|
      ensures forall i :: 0 <= i < |r| ==>
                && r[i].id == teams[i].id
                && r[i].name == teams[i].name
                && r[i].description == teams[i].description
                && r[i].currentCaptainId == teams[i].currentCaptainId
    {
      Summaries(teams)
    }

    /** The first team with the id; a plain `Error` when there is none. */
    function FindOne(id: int): (r: Result<Team>)
      reads this
      ensures r.Ok? <==> exists i :: 0 <= i < |teams| && teams[i].id == id
      ensures r.Ok? ==> r.value in teams && r.value.id == id
      ensures r.Ok? ==> r.value == teams[TeamIndex(teams, id).value]
      ensures r.Fail? ==> r.exception == Error(TeamNotFound(id))
    {
      match TeamIndex(teams, id)
      case None => Fail(Error(TeamNotFound(id)))
      case Some(i) => Ok(teams[i])
    }

    /** Replaces the first team with the id by its shallow merge with the payload;
        every other position is left alone. */
    method Update(id: int, dto: UpdateTeamDto) returns (r: Result<Team>)
      modifies this
      ensures TeamIndex(old(teams), id).None? ==>
                r == Fail(Error(TeamNotFound(id))) && teams == old(teams)
      ensures TeamIndex(old(teams), id).Some? ==>
                var i := TeamIndex(old(teams), id).value;
                && r == Ok(MergeTeam(old(teams)[i], dto))
                && teams == old(teams)[i := r.value]
    {
      var found := TeamIndex(teams, id);
      if found.None? {
        r := Fail(Error(TeamNotFound(id)));
        return;
      }
      var i := found.value;
      var updated := MergeTeam(teams[i], dto);
      teams := teams[i := updated];
      r := Ok(updated);
    }

    /** Splices out the first team with the id and returns it; the others keep their order. */
    method Remove(id: int) returns (r: Result<Team>)
      modifies this
      ensures TeamIndex(old(teams), id).None? ==>
                r == Fail(Error(TeamNotFound(id))) && teams == old(teams)
      ensures TeamIndex(old(teams), id).Some? ==>
                var i := TeamIndex(old(teams), id).value;
                && r == Ok(old(teams)[i])
                && teams == RemoveAt(old(teams), i)
    {
      var found := TeamIndex(teams, id);
      if found.None? {
        r := Fail(Error(TeamNotFound(id)));
        return;
      }
      var i := found.value;
      r := Ok(teams[i]);
      teams := RemoveAt(teams, i);
    }

    /** A missing team throws a plain `Error`. A user id that does not resolve, or
        one already in `members`, surfaces as `NotFoundException` "User with id …
        not found". Otherwise the id is pushed onto that team's `members`. Nothing
        changes on failure. */
    method AddMember(teamId: int, userId: int) returns (r: Result<Team>)
      modifies this
      ensures TeamIndex(old(teams), teamId).None? ==>
                r == Fail(Error(TeamNotFound(teamId))) && teams == old(teams)
      ensures TeamIndex(old(teams), teamId).Some? ==>
                var i := TeamIndex(old(teams), teamId).value;
                var team := old(teams)[i];
                if UsersSvc.Lookup(usersService.users, userId).None? || userId in team.members then
                  r == Fail(NotFoundException(UserNotFound(userId))) && teams == old(teams)
                else
                  && r == Ok(team.(members := team.members + [userId]))
                  && teams == old(teams)[i := r.value]
    {
      var found := TeamIndex(teams, teamId);
      if found.None? {
        r := Fail(Error(TeamNotFound(teamId)));
        return;
      }
      var i := found.value;
      var user := usersService.FindOne(userId);
      if user.Fail? {
        r := Fail(Caught(user.exception, userId));
        return;
      }
      if userId in teams[i].members {
        r := Fail(Caught(Error(AlreadyMember(userId, teamId)), userId));
        return;
      }
      var team := teams[i].(members := teams[i].members + [userId]);
      teams := teams[i := team];
      r := Ok(team);
    }

    /** A missing team throws a plain `Error`; a user id that does not resolve, or
        one not in `members`, throws `NotFoundException`. Otherwise the first
        occurrence of the id is spliced out of `members`; the captain is left as
        it was, even when it is the user removed. Nothing changes on failure. */
    method RemoveMember(teamId: int, userId: int) returns (r: Result<Team>)
      modifies this
      ensures TeamIndex(old(teams), teamId).None? ==>
                r == Fail(Error(TeamNotFound(teamId))) && teams == old(teams)
      ensures TeamIndex(old(teams), teamId).Some? ==>
                var i := TeamIndex(old(teams), teamId).value;
                var team := old(teams)[i];
                if UsersSvc.Lookup(usersService.users, userId).None? then
                  r == Fail(NotFoundException(UserNotFound(userId))) && teams == old(teams)
                else if userId !in team.members then
                  r == Fail(NotFoundException(NotAMember(userId, teamId))) && teams == old(teams)
                else
                  && r == Ok(team.(members := RemoveAt(team.members, IndexOf(team.members, userId).value)))
                  && r.value.currentCaptainId == team.currentCaptainId
                  && teams == old(teams)[i := r.value]
    {
      var found := TeamIndex(teams, teamId);
      if found.None? {
        r := Fail(Error(TeamNotFound(teamId)));
        return;
      }
      var i := found.value;
      var user := usersService.FindOne(userId);
      if user.Fail? {
        r := Fail(Caught(user.exception, userId));
        return;
      }
      var memberIndex := IndexOf(teams[i].members, userId);
      if memberIndex.None? {
        r := Fail(Caught(NotFoundException(NotAMember(userId, teamId)), userId));
        return;
      }
      var team := teams[i].(members := RemoveAt(teams[i].members, memberIndex.value));
      teams := teams[i := team];
      r := Ok(team);
    }

    /** A missing team, or a user id not in `members`, throws a plain `Error`;
        otherwise only `currentCaptainId` of that team changes. The user store is
        never consulted, and a team without members never gets a captain here. */
    method SetCaptain(teamId: int, userId: int) returns (r: Result<Team>)
      modifies this
      ensures TeamIndex(old(teams), teamId).None? ==>
                r == Fail(Error(TeamNotFound(teamId))) && teams == old(teams)
      ensures TeamIndex(old(teams), teamId).Some? ==>
                var i := TeamIndex(old(teams), teamId).value;
                var team := old(teams)[i];
                if userId !in team.members then
                  r == Fail(Error(NotFoundInTeam(userId, teamId))) && teams == old(teams)
                else
                  && r == Ok(team.(currentCaptainId := Some(userId)))
                  && teams == old(teams)[i := r.value]
    {
      var found := TeamIndex(teams, teamId);
      if found.None? {
        r := Fail(Error(TeamNotFound(teamId)));
        return;
      }
      var i := found.value;
      var memberIndex := IndexOf(teams[i].members, userId);
      if memberIndex.None? {
        r := Fail(Error(NotFoundInTeam(userId, teamId)));
        return;
      }
      var team := teams[i].(currentCaptainId := Some(userId));
      teams := teams[i := team];
      r := Ok(team);
    }

    /** A missing team throws a plain `Error`; otherwise the users its member ids
        resolve to, in member order, leaving out the ids no user holds any more. */
    function GetMembers(teamId: int): (r: Result<seq<User>>)
      reads this, usersService
      ensures r.Fail? <==> TeamIndex(teams, teamId).None?
      ensures r.Fail? ==> r.exception == Error(TeamNotFound(teamId))
      ensures r.Ok? ==> r.value == Resolved(usersService.users, teams[TeamIndex(teams, teamId).value].members)
      ensures r.Ok? ==>
                var members := teams[TeamIndex(teams, teamId).value].members;
                && |r.value| <= |members|
                && (forall u :: u in r.value ==> u in usersService.users && u.id in members)
                && (forall k :: 0 <= k < |members| && UsersSvc.Lookup(usersService.users, members[k]).Some? ==>
                      UsersSvc.Lookup(usersService.users, members[k]).value in r.value)
    {
      match TeamIndex(teams, teamId)
      case None => Fail(Error(TeamNotFound(teamId)))
      case Some(i) => Ok(Resolved(usersService.users, teams[i].members))
    }
  }

  /** A successful addMember followed by removeMember of the same user on the
      same team restores the whole team list, `members` included. */
  method AddThenRemoveMember(service: TeamsService, teamId: int, userId: int)
    returns (added: Result<Team>, removed: Result<Team>)
    modifies service
    ensures added.Ok? ==> removed.Ok? && service.teams == old(service.teams)
  {
    ghost var before := service.teams;
    added := service.AddMember(teamId, userId);
    ghost var between := service.teams;
    removed := service.RemoveMember(teamId, userId);
    if added.Ok? {
      var i := TeamIndex(before, teamId).value;
      var members := before[i].members;
      TeamIndexAfterWrite(before, teamId, added.value);
      assert between == before[i := added.value];
      RemoveAppended(members, userId);
      assert service.teams[i] == before[i];
      assert service.teams == before;
    }
  }

  /** Removing the captain from `members` does not clear `currentCaptainId`: after
      setCaptain and removeMember of the same user both succeed, the team still
      names that user as captain, and if the user was in `members` once, the
      captain is no longer a member. */
  method CaptainOutlivesMembership(service: TeamsService, teamId: int, userId: int)
    returns (appointed: Result<Team>, removed: Result<Team>)
    modifies service
    ensures appointed.Ok? && removed.Ok? ==> removed.value.currentCaptainId == Some(userId)
    ensures appointed.Ok? && removed.Ok? && Distinct(appointed.value.members) ==>
              userId !in removed.value.members
  {
    ghost var before := service.teams;
    appointed := service.SetCaptain(teamId, userId);
    removed := service.RemoveMember(teamId, userId);
    if appointed.Ok? && removed.Ok? {
      TeamIndexAfterWrite(before, teamId, appointed.value);
      RemoveFirstOccurrence(appointed.value.members, userId);
    }
  }
}
