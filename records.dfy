/** The two entities, the payloads that create and update them, and the
    object-spread merge every `update` performs. */
module Records {
  import opened Outcomes

  /** A reading of the wall clock (`new Date()`), supplied by the caller. */
  type Time = int

  /** A stored user (src/users/entities/user.entity.ts). */
  datatype User = User(
    id: int,
    name: string,
    email: string,
    role: string,
    isActive: bool,
    createdAt: Time,
    updatedAt: Time)

  /** The body of a create-user request. */
  datatype CreateUserDto = CreateUserDto(
    name: string,
    email: string,
    role: string,
    isActive: bool,
    createdAt: Time,
    updatedAt: Time)

  /** The body of an update-user request: every field optional, `id` included. */
  datatype UpdateUserDto = UpdateUserDto(
    id: Option<int>,
    name: Option<string>,
    email: Option<string>,
    role: Option<string>,
    isActive: Option<bool>,
    createdAt: Option<Time>,
    updatedAt: Option<Time>)

  /** A stored team (src/teams/entities/team.entity.ts); `members` holds user ids. */
  datatype Team = Team(
    id: int,
    name: string,
    createdDate: Time,
    creatorId: Option<int>,
    description: Option<string>,
    isActive: bool,
    currentCaptainId: Option<int>,
    members: seq<int>)

  /** The body of a create-team request. */
  datatype CreateTeamDto = CreateTeamDto(
    name: string,
    creatorId: int,
    description: Option<string>,
    isActive: Option<bool>,
    currentCaptainId: Option<int>)

  /** The body of an update-team request: every field optional, `members` and `id` included. */
  datatype UpdateTeamDto = UpdateTeamDto(
    id: Option<int>,
    name: Option<string>,
    creatorId: Option<int>,
    description: Option<string>,
    isActive: Option<bool>,
    currentCaptainId: Option<int>,
    members: Option<seq<int>>)

  /** `{ id, ...dto, createdAt: now, updatedAt: now }`: the user both user stores
      create. The payload's own timestamps are overwritten by the clock. */
  function NewUser(id: int, dto: CreateUserDto, now: Time): (r: User)
    ensures r.id == id
    ensures r.name == dto.name && r.email == dto.email && r.role == dto.role && r.isActive == dto.isActive
    ensures r.createdAt == now && r.updatedAt == now
  {
    User(id, dto.name, dto.email, dto.role, dto.isActive, now, now)
  }

  /** `{ ...user, ...dto }`: a shallow merge. Each key the payload supplies takes
      the payload's value; each key it leaves out keeps the stored one. */
  function MergeUser(u: User, p: UpdateUserDto): (r: User)
    ensures p.id.Some? ==> r.id == p.id.value
    ensures p.id.None? ==> r.id == u.id
    ensures p.name.Some? ==> r.name == p.name.value
    ensures p.name.None? ==> r.name == u.name
    ensures p.email.Some? ==> r.email == p.email.value
    ensures p.email.None? ==> r.email == u.email
    ensures p.role.Some? ==> r.role == p.role.value
    ensures p.role.None? ==> r.role == u.role
    ensures p.isActive.Some? ==> r.isActive == p.isActive.value
    ensures p.isActive.None? ==> r.isActive == u.isActive
    ensures p.createdAt.Some? ==> r.createdAt == p.createdAt.value
    ensures p.createdAt.None? ==> r.createdAt == u.createdAt
    ensures p.updatedAt.Some? ==> r.updatedAt == p.updatedAt.value
    ensures p.updatedAt.None? ==> r.updatedAt == u.updatedAt
  {
    User(
      p.id.GetOr(u.id),
      p.name.GetOr(u.name),
      p.email.GetOr(u.email),
      p.role.GetOr(u.role),
      p.isActive.GetOr(u.isActive),
      p.createdAt.GetOr(u.createdAt),
      p.updatedAt.GetOr(u.updatedAt))
  }

  /** `{ ...user, ...dto, updatedAt: now }`: what both user stores write back on
      update. `updatedAt` is refreshed whatever the payload says; every other key
      takes the payload's value when it supplies one and keeps the stored value
      otherwise, `id` and `createdAt` included. */
  function UpdatedUser(u: User, p: UpdateUserDto, now: Time): (r: User)
    ensures r.updatedAt == now
    ensures p.id.Some? ==> r.id == p.id.value
    ensures p.id.None? ==> r.id == u.id
    ensures p.name.Some? ==> r.name == p.name.value
    ensures p.name.None? ==> r.name == u.name
    ensures p.email.Some? ==> r.email == p.email.value
    ensures p.email.None? ==> r.email == u.email
    ensures p.role.Some? ==> r.role == p.role.value
    ensures p.role.None? ==> r.role == u.role
    ensures p.isActive.Some? ==> r.isActive == p.isActive.value
    ensures p.isActive.None? ==> r.isActive == u.isActive
    ensures p.createdAt.Some? ==> r.createdAt == p.createdAt.value
    ensures p.createdAt.None? ==> r.createdAt == u.createdAt
  {
    MergeUser(u, p).(updatedAt := now)
  }

  /** The payload that supplies nothing. */
  const NoUserChanges := UpdateUserDto(None, None, None, None, None, None, None)

  /** Field by field, what `q` supplies wins over what `p` supplies. */
  function ThenUser(p: UpdateUserDto, q: UpdateUserDto): UpdateUserDto {
    UpdateUserDto(
      q.id.Or(p.id),
      q.name.Or(p.name),
      q.email.Or(p.email),
      q.role.Or(p.role),
      q.isActive.Or(p.isActive),
      q.createdAt.Or(p.createdAt),
      q.updatedAt.Or(p.updatedAt))
  }

  /** Merging an empty payload changes nothing; merging the same payload twice is
      merging it once; two merges in a row are one merge of the combined payload. */
  lemma MergeUserLaws(u: User, p: UpdateUserDto, q: UpdateUserDto)
    ensures MergeUser(u, NoUserChanges) == u
    ensures MergeUser(MergeUser(u, p), p) == MergeUser(u, p)
    ensures MergeUser(MergeUser(u, p), q) == MergeUser(u, ThenUser(p, q))
  {
  }

  /** The team both team stores create: no members yet, created now, and active
      unless the payload says `isActive: false` (`dto.isActive ?? true`). */
  function NewTeam(id: int, creatorId: Option<int>, dto: CreateTeamDto, now: Time): (t: Team)
    ensures t.id == id && t.name == dto.name && t.createdDate == now && t.members == []
    ensures t.creatorId == creatorId && t.description == dto.description
    ensures t.isActive <==> dto.isActive != Some(false)
    ensures t.currentCaptainId == dto.currentCaptainId
  {
    Team(id, dto.name, now, creatorId, dto.description, dto.isActive.GetOr(true),
         dto.currentCaptainId, [])
  }

  /** `{ ...team, ...dto }`: a shallow merge. Each key the payload supplies takes
      the payload's value, `members` and `id` included; each key it leaves out
      keeps the stored one; `createdDate` is not in the payload and always stays. */
  function MergeTeam(t: Team, p: UpdateTeamDto): (r: Team)
    ensures r.createdDate == t.createdDate
    ensures p.id.Some? ==> r.id == p.id.value
    ensures p.id.None? ==> r.id == t.id
    ensures p.name.Some? ==> r.name == p.name.value
    ensures p.name.None? ==> r.name == t.name
    ensures p.creatorId.Some? ==> r.creatorId == p.creatorId
    ensures p.creatorId.None? ==> r.creatorId == t.creatorId
    ensures p.description.Some? ==> r.description == p.description
    ensures p.description.None? ==> r.description == t.description
    ensures p.isActive.Some? ==> r.isActive == p.isActive.value
    ensures p.isActive.None? ==> r.isActive == t.isActive
    ensures p.currentCaptainId.Some? ==> r.currentCaptainId == p.currentCaptainId
    ensures p.currentCaptainId.None? ==> r.currentCaptainId == t.currentCaptainId
    ensures p.members.Some? ==> r.members == p.members.value
    ensures p.members.None? ==> r.members == t.members
  {
    Team(
      p.id.GetOr(t.id),
      p.name.GetOr(t.name),
      t.createdDate,
      p.creatorId.Or(t.creatorId),
      p.description.Or(t.description),
      p.isActive.GetOr(t.isActive),
      p.currentCaptainId.Or(t.currentCaptainId),
      p.members.GetOr(t.members))
  }

  /** The payload that supplies nothing. */
  const NoTeamChanges := UpdateTeamDto(None, None, None, None, None, None, None)

  /** Field by field, what `q` supplies wins over what `p` supplies. */
  function ThenTeam(p: UpdateTeamDto, q: UpdateTeamDto): UpdateTeamDto {
    UpdateTeamDto(
      q.id.Or(p.id),
      q.name.Or(p.name),
      q.creatorId.Or(p.creatorId),
      q.description.Or(p.description),
      q.isActive.Or(p.isActive),
      q.currentCaptainId.Or(p.currentCaptainId),
      q.members.Or(p.members))
  }

  /** The merge laws for teams. */
  lemma MergeTeamLaws(t: Team, p: UpdateTeamDto, q: UpdateTeamDto)
    ensures MergeTeam(t, NoTeamChanges) == t
    ensures MergeTeam(MergeTeam(t, p), p) == MergeTeam(t, p)
    ensures MergeTeam(MergeTeam(t, p), q) == MergeTeam(t, ThenTeam(p, q))
  {
  }
}
