# In-memory Users and Teams store, modelled in Dafny

This project models the in-memory store behind a small Users and Teams API.
The store exists in two parallel forms, and both are modelled here.

- **`UsersService` and `TeamsService`** are the live implementation.
  - Each keeps an array of records in insertion order.
  - A new record's id is the array length plus one.
  - `update` is a shallow object-spread merge written back at the found position.
  - `remove` splices out the first record with the id.
  - `TeamsService` holds the `UsersService` and adds the membership rules:
    - `addMember` checks that the user resolves and rejects duplicates;
    - `removeMember` checks that the user resolves and is a member;
    - `setCaptain` checks membership only;
    - `getMembers` resolves member ids against the user store and drops the ids that no longer resolve.
- **`UsersRepository` and `TeamsRepository`** are the keyed-map variant.
  - Each keeps an id-to-record map and a counter `nextId`.
  - A missing id yields `undefined` instead of a thrown error.

Each store is a Dafny `class` whose fields are the store's own fields: a `seq` for an array, a `map` for a `Record<number, …>`, and an `int` for `nextId`.
The operations that change the store are methods with `modifies this`, and each method states the store's whole new state.
The read-only operations are functions.
A thrown exception is the `Fail` case of `Result`, and the model keeps a plain JavaScript `Error` distinct from the framework's `NotFoundException`.
The array and object built-ins the code relies on (`findIndex`, `indexOf`, `splice`, `Object.values`) are functions with contracts in `JsBuiltins`.
`find` on users is `UsersSvc.Lookup`.
The `??` operator, and a spread key the payload may leave out, are `Option.GetOr` and `Option.Or` in `Outcomes`.

The repositories carry a ghost set `issued` holding every id handed out so far.
Their invariant `Valid()` ties that set to `nextId`, which is how the model states that a key handed out by the counter is never handed out again, even after a removal.
A stored record's `id` field is another matter: `update` can overwrite it (see below).
The array services have no such guarantee.
The model proves that a removal followed by a create hands out an id that a remaining user still holds.

Files:

- `outcomes.dfy`: optional values, exception causes, `Result`.
- `js_builtins.dfy`: the array and object built-ins.
- `records.dfy`: users, teams, request payloads, and the shallow merge.
- `keyed_store.dfy`: what `seed` computes in both repositories.
- `users_service.dfy`, `teams_service.dfy`, `users_repository.dfy`, `teams_repository.dfy`: one module per store.

### Behaviours of the code worth knowing

- A duplicate `addMember` is rejected with `NotFoundException` "User with id … not found", not with an error of its own.
  - The inner `Error` "already a member" is thrown inside the `try` and rewrapped by the `catch` (src/teams/teams.service.ts:117-129).
  - `TeamsSvc.TeamsService.AddMember` states exactly that.
- In the model `members` is always an array, so the `!team.members` guards (src/teams/teams.service.ts:112, :140, :163, :176) never fire.
  - A team with no members fails `removeMember` and `setCaptain` because `indexOf` returns -1.
  - For `setCaptain` that failure is a plain `Error` "not found in team".
  - In the code the guards can fire, after `update` stores `members: null`; see "## Left out".
- A captain need not be a member.
  - The seeded teams name a captain and have no members (src/teams/teams.service.ts:21, :28, :41).
  - `removeMember` leaves the captain in place.
  - `TeamsSvc.TeamsService.OnModuleInit` and `TeamsSvc.CaptainOutlivesMembership` state both.
- The array services compute a new id as length + 1 (src/users/users.service.ts:35), so after a removal a create can hand out an id that a remaining user still holds.
  - `UsersSvc.RemoveThenCreateReusesId` states that.
  - The repositories' counter never hands out an id twice.
- In the repositories a record's `id` field can differ from the key it is stored under.
  - `update` spreads the payload, `id` included, into the stored record (src/users/users.repository.ts:38, src/teams/teams.repository.ts:41); `Records.UpdatedUser` and `Records.MergeTeam` state that the payload's `id` wins.
  - `findOne` looks up the key (src/users/users.repository.ts:32), so it misses a record under that record's new `id`, and `findAll` lists records in key order, not `id` order.
  - A removed key's number can thus come back as the `id` of a record stored under another key; only the keys are never handed out twice.
- `UsersService.OnModuleInit` is spelled with a capital `O` (src/users/users.service.ts:10), so the framework never calls it. The model keeps it as an ordinary method.

## Model

| member | source | states |
|---|---|---|
| JsBuiltins.FindIndex | src/users/users.service.ts:57 | `findIndex` gives the first index whose element satisfies the predicate, and -1 (`None`) exactly when none does |
| JsBuiltins.IndexOf | src/teams/teams.service.ts:144 | `indexOf` is found exactly when the value is in the array; the index holds the value and no earlier index does |
| JsBuiltins.RemoveAt | src/users/users.service.ts:71 | `splice(i, 1)` drops exactly one element; the length falls by one, earlier elements keep their place, later ones shift down by one, and the multiset loses exactly that element |
| JsBuiltins.RemoveAppended | src/teams/teams.service.ts:122 | pushing a value not yet present and then splicing out its first occurrence gives back the original array |
| JsBuiltins.RemoveFirstOccurrence | src/teams/teams.service.ts:144-150 | splicing the first occurrence removes one copy of the value; from a duplicate-free array it removes the value altogether and leaves no duplicates |
| JsBuiltins.ValuesInKeyOrder | src/users/users.repository.ts:28 | `Object.values` lists every stored record, only stored records, and as many entries as there are stored keys |
| JsBuiltins.ValuesAt | src/users/users.repository.ts:28 | the value stored under a key sits in the listing at the position given by the number of smaller stored keys, so the listing is in ascending key order and a record stored under two keys appears once per key |
| JsBuiltins.ValuesInKeyOrderPositions | src/teams/teams.repository.ts:31 | the same placement for every stored key of the range at once |
| KeyedStore.CreateAll | src/users/users.repository.ts:12 | `forEach(create)` on a map: the keys afterwards are the old keys plus the counter up to the counter + \|xs\| - 1, and every record stored below the counter stays as it was |
| KeyedStore.CreateAllSnoc | src/teams/teams.repository.ts:12 | seeding one payload more stores it under the next key after the others, built by `create` |
| KeyedStore.CreateAllSize | src/users/users.repository.ts:11-13 | when every key is below the counter, seeding adds \|xs\| new keys, so the store grows by \|xs\| |
| KeyedStore.CreateAllAt | src/teams/teams.repository.ts:11-13 | the i-th seed payload is stored under the counter + i |
| Outcomes.Option.GetOr | src/teams/teams.service.ts:54 | `x ?? d` is the value when there is one and `d` otherwise |
| Outcomes.Option.Or | src/teams/teams.service.ts:87 | a spread key that may be missing on both sides takes the payload's value when supplied and keeps the stored one otherwise |
| Records.NewUser | src/users/users.service.ts:34-39 | a new user has the given id and the payload's name, email, role and active flag; both timestamps are the current time, whatever the payload says |
| Records.MergeUser | src/users/users.repository.ts:38 | `{ ...user, ...dto }`: each key the payload supplies takes the payload's value, and each key it leaves out keeps the stored one |
| Records.UpdatedUser | src/users/users.service.ts:61 | `{ ...user, ...dto, updatedAt: now }`: `updatedAt` is the current time; every other key, `id` and `createdAt` included, takes the payload's value when supplied and keeps the stored one otherwise |
| Records.MergeUserLaws | src/users/users.repository.ts:38 | merging an empty payload changes nothing; merging the same payload twice equals merging it once; two merges in a row equal one merge of the combined payload |
| Records.NewTeam | src/teams/teams.repository.ts:17-25 | a new team has the given id and creator, the payload's name, description and captain, the current time as `createdDate`, and no members; it is active unless the payload says `isActive: false` |
| Records.MergeTeam | src/teams/teams.service.ts:85-88 | `{ ...team, ...dto }`: each key the payload supplies, `members` and `id` included, takes the payload's value; each key it leaves out keeps the stored one; `createdDate` always stays |
| Records.MergeTeamLaws | src/teams/teams.repository.ts:41 | the same merge laws for teams |
| UsersSvc.UserIndex | src/users/users.service.ts:57 | the position of the first user with the id, and `None` exactly when no user has it |
| UsersSvc.Lookup | src/users/users.service.ts:49 | `find` succeeds exactly when some user has the id; it returns a stored user with that id, namely the first one |
| UsersSvc.LookupAfterAppend | src/users/users.service.ts:40 | a pushed user is found by its id only if no earlier user has that id; otherwise the earlier user keeps being found |
| UsersSvc.UserIndexAt | src/users/users.service.ts:67 | the first position that holds an id is where `findIndex` stops |
| UsersSvc.RemoveThenCreateReusesId | src/users/users.service.ts:35 | with ids 1..n, removing any user but the last and then creating one more hands out the id the last user still holds, and a lookup of that id returns the older user |
| UsersSvc.ReuseSteps | src/users/users.service.ts:71 | the intermediate arrays of the id-reuse scenario: id 1 is at position 0 of the first pair, and id 2 resolves to the older user in the last pair |
| UsersSvc.UsersService.constructor | src/users/users.service.ts:8 | the store starts empty |
| UsersSvc.UsersService.OnModuleInit | src/users/users.service.ts:10-31 | appends John Doe and Jane Smith, in that order, with ids length + 1 and length + 2 |
| UsersSvc.UsersService.Create | src/users/users.service.ts:33-42 | appends exactly one user with id = old length + 1, built from the payload with both timestamps set to now; earlier users are unchanged |
| UsersSvc.UsersService.FindAll | src/users/users.service.ts:44-46 | the stored users, in insertion order |
| UsersSvc.UsersService.FindOne | src/users/users.service.ts:48-54 | succeeds exactly when some user has the id and returns the first user with it, even when a later user shares the id; otherwise a plain `Error` "User with id … not found" |
| UsersSvc.UsersService.Update | src/users/users.service.ts:56-64 | a missing id throws a plain `Error` and changes nothing; otherwise only the first user with the id is replaced, by its merge with the payload with `updatedAt` refreshed |
| UsersSvc.UsersService.Remove | src/users/users.service.ts:66-73 | a missing id throws a plain `Error` and changes nothing; otherwise the first user with the id is spliced out and returned, and the others keep their order |
| UsersSvc.IdReuseScenario | src/users/users.service.ts:35 | on a fresh store, creating two users, removing the first and creating a third gives the newcomer id 2, which the second user holds, and `findOne(2)` returns the second user |
| TeamsSvc.TeamIndex | src/teams/teams.service.ts:80 | the position of the first team with the id, and `None` exactly when no team has it |
| TeamsSvc.TeamIndexAfterWrite | src/teams/teams.service.ts:122 | writing a record with the same id back at the found position does not move where the id is found |
| TeamsSvc.Summaries | src/teams/teams.service.ts:63-68 | one summary per team, in order, carrying its id, name, description and captain |
| TeamsSvc.Caught | src/teams/teams.service.ts:125-130 | the catch block always throws a `NotFoundException`: a `NotFoundException` passes through unchanged, and any other error becomes "User with id … not found" |
| TeamsSvc.ResolvedOne | src/teams/teams.service.ts:183-187 | one member id contributes its user when it resolves, and nothing when `findOne` throws |
| TeamsSvc.Resolved | src/teams/teams.service.ts:181-189 | the resolved members are stored users whose ids are among the member ids; every member id that resolves contributes its user; there are at most as many as there are ids, and exactly as many when all resolve |
| TeamsSvc.ResolvedAppend | src/teams/teams.service.ts:182 | resolving a concatenation resolves each part in turn, so the listing follows member order |
| TeamsSvc.ResolvedAllResolve | src/teams/teams.service.ts:182-184 | when every member id resolves, the listing is exactly the users of the ids, position by position |
| TeamsSvc.ResolvedNoneResolve | src/teams/teams.service.ts:185-189 | when no member id resolves, the listing is empty |
| TeamsSvc.ResolvedSnoc | src/teams/teams.service.ts:189 | one more member id at the end adds exactly its user when it resolves and nothing otherwise, so each id contributes at most one entry, in member order |
| TeamsSvc.TeamsService.constructor | src/teams/teams.service.ts:9-11 | the store starts empty and holds the given user store |
| TeamsSvc.TeamsService.OnModuleInit | src/teams/teams.service.ts:13-45 | appends the Engineering and Design teams with ids length + 1 and length + 2 and creators 1 and 2; each names a captain who is not a member |
| TeamsSvc.TeamsService.Create | src/teams/teams.service.ts:47-60 | appends exactly one team with id = old length + 1, the payload's creator, no members, and active unless the payload says otherwise; earlier teams are unchanged |
| TeamsSvc.TeamsService.FindAll | src/teams/teams.service.ts:62-69 | one item per stored team, in order, with that team's id, name, description and captain |
| TeamsSvc.TeamsService.FindOne | src/teams/teams.service.ts:71-77 | succeeds exactly when some team has the id and returns the first such team; otherwise a plain `Error` "Team with id … not found" |
| TeamsSvc.TeamsService.Update | src/teams/teams.service.ts:79-91 | a missing id throws a plain `Error` and changes nothing; otherwise only the first team with the id is replaced, by its shallow merge with the payload |
| TeamsSvc.TeamsService.Remove | src/teams/teams.service.ts:93-100 | a missing id throws a plain `Error` and changes nothing; otherwise the first team with the id is spliced out and returned, and the others keep their order |
| TeamsSvc.TeamsService.AddMember | src/teams/teams.service.ts:105-131 | a missing team throws a plain `Error`; a user that does not resolve, or one already a member, throws `NotFoundException` "User with id … not found"; nothing changes on failure; on success exactly that team's `members` gains the user id at the end |
| TeamsSvc.TeamsService.RemoveMember | src/teams/teams.service.ts:133-159 | a missing team throws a plain `Error`; a user that does not resolve, or one not in `members`, throws `NotFoundException`; nothing changes on failure; on success exactly the first occurrence of the id leaves that team's `members`, and the captain is untouched |
| TeamsSvc.TeamsService.SetCaptain | src/teams/teams.service.ts:161-172 | succeeds exactly when the team exists and the user id is in `members`, and then changes only that team's captain; the user store is not consulted; failures are plain `Error`s and change nothing |
| TeamsSvc.TeamsService.GetMembers | src/teams/teams.service.ts:174-190 | a missing team throws a plain `Error`; otherwise exactly `Resolved` of that team's members, so the users come in member order, one per resolving id, with the ids that do not resolve dropped |
| TeamsSvc.AddThenRemoveMember | src/teams/teams.service.ts:150 | a successful `addMember` followed by `removeMember` of the same user on the same team succeeds and restores the whole team list |
| TeamsSvc.CaptainOutlivesMembership | src/teams/teams.service.ts:170 | after `setCaptain` and then `removeMember` of the same user both succeed, the team still names that user as captain, although a team without duplicate members no longer has the user as a member |
| UsersRepo.UsersRepository.constructor | src/users/users.repository.ts:8-9 | an empty map, with the counter at 1 and no id handed out |
| UsersRepo.UsersRepository.Seed | src/users/users.repository.ts:11-13 | equals `create` on each payload in order: \|xs\| new users under consecutive ids from the old counter, users stored before are kept, and the counter advances by \|xs\| |
| UsersRepo.UsersRepository.Create | src/users/users.repository.ts:15-25 | stores the new user under the old counter and increments the counter; the id was never handed out before, is above every earlier id, and collides with no stored key |
| UsersRepo.UsersRepository.FindAll | src/users/users.repository.ts:27-29 | exactly the stored users, as many as there are keys, each key's user at the position given by the number of smaller keys (ascending key order) |
| UsersRepo.UsersRepository.FindOne | src/users/users.repository.ts:31-33 | the user stored under the id, or `undefined` exactly when the key is absent |
| UsersRepo.UsersRepository.Update | src/users/users.repository.ts:35-41 | an absent id gives `undefined` and changes nothing; otherwise the merged user with `updatedAt` refreshed is stored under the same key, and no other key changes |
| UsersRepo.UsersRepository.Remove | src/users/users.repository.ts:43-48 | an absent id gives `undefined` and changes nothing; otherwise exactly that key is deleted and its user returned; the counter does not move |
| UsersRepo.NoReuseScenario | src/users/users.repository.ts:16 | on a fresh repository, create, remove and create again give ids 1 and 2, and id 1 stays absent |
| TeamsRepo.TeamsRepository.constructor | src/teams/teams.repository.ts:8-9 | an empty map, with the counter at 1 and no id handed out |
| TeamsRepo.TeamsRepository.Seed | src/teams/teams.repository.ts:11-13 | equals `create` on each payload in order: \|xs\| new teams under consecutive ids from the old counter, teams stored before are kept, and the counter advances by \|xs\| |
| TeamsRepo.TeamsRepository.Create | src/teams/teams.repository.ts:15-28 | stores a team with no members and no creator under the old counter, active unless the payload says `false`, and increments the counter; the id was never handed out and collides with no stored key |
| TeamsRepo.TeamsRepository.FindAll | src/teams/teams.repository.ts:30-32 | exactly the stored teams, as many as there are keys, each key's team at the position given by the number of smaller keys (ascending key order) |
| TeamsRepo.TeamsRepository.FindOne | src/teams/teams.repository.ts:34-36 | the team stored under the id, or `undefined` exactly when the key is absent |
| TeamsRepo.TeamsRepository.Update | src/teams/teams.repository.ts:38-44 | an absent id gives `undefined` and changes nothing; otherwise the shallow merge is stored under the same key, and no other key changes |
| TeamsRepo.TeamsRepository.Remove | src/teams/teams.repository.ts:46-51 | an absent id gives `undefined` and changes nothing; otherwise exactly that key is deleted and its team returned; the counter does not move |

## Left out

- HTTP controllers, routing, the string-to-number parsing of path ids, bootstrap, documentation setup, module wiring and the API-key guard are framework plumbing around the stores.
- Pagination, sorting and a response projection that embeds user data are not implemented by these services, so they are not modelled. `findAll` takes no query, and the teams' `findAll` is the plain four-field projection.
- Clock readings (`new Date()`) are a caller-supplied `now: Time`. One reading serves a whole call, although the code reads the clock once per timestamp.
- `getMembers` returns a `Promise`. The model is the value that promise resolves to, computed sequentially.
- Payloads are modelled field by field, with a missing field as `None`. Explicit `null` or `undefined` values are not modelled, and neither are extra runtime fields outside a payload's declared shape, such as an `id` in a create body.
- `null` members are not modelled. `UpdateTeamDto.members` has no validator (src/teams/dto/update-team.dto.ts:6-7), so `update` can store `members: null`. After that, the code's `!team.members` guards fire: `addMember` starts a fresh array, `removeMember` throws `NotFoundException` "No members in team", `setCaptain` throws a plain `Error` with the same message, and `getMembers` returns an empty list. In the model `members` is always an array, so none of these paths exist.
- Ids are unbounded integers. In the code they are JavaScript numbers: past 2^53, `nextId++` (src/users/users.repository.ts:16, src/teams/teams.repository.ts:16) and `length + 1` no longer yield new values. So the repositories' "never reused" holds in the model only because `int` has no upper bound.
- Aliasing is not modelled. The services hand out live references: `findAll` returns the array itself, and `findOne` returns the object that `addMember` then mutates. The model returns values, and each mutation writes the changed record back at its position.
- Validation decorators on the payload classes are not modelled. They run before the stores are reached.
- JsBuiltins.ValuesInKeyOrder: models `Object.values` only for integer keys, listed in ascending order. That is the only kind of key these stores use.
