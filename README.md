# OceanBattle game core in Dafny

A verified model of the game-orchestration layer of OceanBattle, a server for
a two-player naval battle game. The model covers three pieces:

- **The players registry (`PlayersManager`).** It keeps the active players,
  unique by id. It brokers invites and accepts between players and the
  sessions they are in, and it marks a player's battlefield ready. Each
  operation is a cascade of guards, and a failed guard ends the call quietly.
- **The match (`Session`).** It holds a creator, an optional opponent and a
  two-slot battlefield array. Slot 0 is the creator's board and slot 1 stays
  empty until an opponent joins. `IsActive` is derived from the opponent and
  from the ships still afloat.
- **The session registry (`SessionsManager`).** It builds a session through a
  factory and appends it to its list.

Modules, one per component:

| module | file | contents |
|---|---|---|
| `Wrappers` | wrappers.dfy | `Option` stands for a nullable reference. `Outcome` stands for "returns, or throws this". |
| `Linq` | linq.dfy | `Any`, `FirstOrDefault` and `List.RemoveAll`, written as scans from the front. |
| `GameData` | game_data.dfy | `User`, `UserDto`, `Level` and `Ship` (values), plus the `Battlefield` class and its factory. |
| `Sessions` | session.dfy | The `Session` class from `Session.cs`. |
| `SessionService` | sessions_manager.dfy | The session factory and `SessionsManager`. |
| `GameContracts` | game_contracts.dfy | The collaborators the players registry is written against: `GameSession`, `SessionRegistry` and `GameInterface`. |
| `PlayerService` | players_manager.dfy | The `PlayersManager` class, the pure functions behind it and lemmas about them. |
| `Scenarios` | scenarios.dfy | Client methods that follow the unit tests in `PlayersManagerTests.cs` and `SessionTests.cs`. Each derives the outcome the test checks from the contracts alone. |

### Modelling choices

- **Two revisions.** `PlayersManager` is written against a newer revision of
  its interfaces than the revision of `Session.cs` and `SessionsManager.cs`
  modelled here. It uses a session invite list, a lookup `FindSession` and a
  bulk `EndSessions`. `Session.cs` and `SessionsManager.cs` in this revision
  have none of these. The players registry's collaborators are therefore
  separate classes in `GameContracts`, each with small bodies that stand in
  for an implementation. `GameSession` follows `IGameSession.cs` plus the
  invite list `InvitedPlayersIDs`, which that interface file does not declare
  but `PlayersManager.cs` reads and appends to. `SessionRegistry` and
  `GameInterface` follow the `FindSession`, `EndSessions` and `SendInvite`
  members of `ISessionsManager.cs` and `IGameInterface.cs`. `Session` and
  `SessionsManager` follow the older implementation text.
- **`FindSession`.** It is a lookup in a map, `Index`, from a participant id to
  that participant's session.
- **`EndSessions(creatorId)`.** It drops from `Index` every session whose
  creator has that id, as its interface comment says.
- **`GameSession.AddOponent`.** Its interface says nothing about the slots.
  The model copies what `Session.AddOponent` does (that class implements
  `ISession`, not `IGameSession`, in this revision): a fresh board owned by
  the opponent goes into slot 1 and slot 0 stays.
- **Call logs.** `GameInterface.Invites`, `GameSession.AddOponentCalls`,
  `SessionRegistry.EndSessionsCalls`, `SessionFactory.Calls` and
  `SessionFactory.Built` are ghost logs of the calls each collaborator
  receives and, for the factory, of what it returned. They let a contract state
  "called exactly once" or "never called".
- **Exceptions.** `ConfirmReady` reads `First(b => b!.Owner!.Id == playerId)`.
  That read can throw in two ways: a null dereference when an empty slot or
  an ownerless board comes before the match, or "no matching element". The
  model returns these as `Fail(NullReference)` and `Fail(NoMatchingElement)`
  and changes nothing. The source lets the exception propagate.
- **Overloads.** C# overloads get distinct names. They are `InviteUser` and
  `InviteByUserName` beside `InvitePlayer`, `AcceptUserInvite` and
  `AcceptInviteByUserName` beside `AcceptInvite`, `RemoveUserFromActive`, and
  `ConfirmUserReady`.
- **Read-only views.** `ActivePlayers` and `Sessions` are fields of sequence
  type. A sequence is an immutable value, so the private list and the
  read-only view over it are the same thing here.
- **Constants.** `Creator`, `BattlefieldSize` and `Battlefields` have private
  setters that only the constructor uses. The model makes them `const`, so
  Dafny checks that nothing else assigns them. The array's slots can still
  change.
- **Users.** `User` is a value compared on all of its fields, where the source
  compares references. The registries look players up only by `Id` or
  `UserName`, so this changes none of the modelled behaviour.

## Model

| member | source | states |
|---|---|---|
| `Linq.Any` | OceanBattle.Game/Services/PlayersManager.cs:30-31 | `Any` is true iff some element satisfies the predicate |
| `Linq.FirstOrDefault` | OceanBattle.Game/Services/PlayersManager.cs:33-34 | Returns `None` iff no element matches; otherwise the element at the first matching index |
| `Linq.RemoveAll` | OceanBattle.Game/Services/PlayersManager.cs:42 | Only elements failing the predicate survive, every such element survives, and a list with no match is returned unchanged |
| `Linq.RemoveAllConcat` | OceanBattle.Game/Services/PlayersManager.cs:42 | Removal distributes over concatenation, so the kept players stay in their relative order |
| `Linq.RemoveAllIdempotent` | OceanBattle.Game/Services/PlayersManager.cs:39-43 | Removing the same id a second time changes nothing |
| `PlayerService.WithPlayerKeepsUniqueIds` | OceanBattle.Game/Services/PlayersManager.cs:24-28 | Adding keeps the list id-unique and leaves the id active. The user is appended iff no active player had its id; otherwise the list is unchanged |
| `PlayerService.WithPlayerIdempotent` | OceanBattle.Game/Services/PlayersManager.cs:24-28 | Adding a second user with the same id leaves the list as the first add left it |
| `PlayerService.FirstWithIdIsUnique` | OceanBattle.Game/Services/PlayersManager.cs:33-34 | In an id-unique list, the lookup by a player's id returns exactly that player |
| `PlayerService.RemoveAllKeepsUniqueIds` | OceanBattle.Game/Services/PlayersManager.cs:39-43 | Removal preserves id-uniqueness of the active list |
| `PlayerService.WithInvitedNoDuplicates` | OceanBattle.Game/Services/PlayersManager.cs:73-74 | Inviting puts the id on the list and keeps it free of duplicates; inviting the same id twice is the same as once |
| `PlayerService.OwnerSearch` | OceanBattle.Game/Services/PlayersManager.cs:102-104 | `Found(i)`: slot `i` is owned by the id and every earlier slot belongs to another owner. `NullReference`: an empty slot or ownerless board comes before any match. `NoMatchingElement`: every slot belongs to another owner |
| `PlayerService.PlayersManager.constructor` | OceanBattle.Game/Services/PlayersManager.cs:13-22 | Starts with no active players and holds the given collaborators |
| `PlayerService.PlayersManager.IsPlayerActive` | OceanBattle.Game/Services/PlayersManager.cs:30-31 | True iff some active player has the id; reads only |
| `PlayerService.PlayersManager.GetPlayer` | OceanBattle.Game/Services/PlayersManager.cs:33-34 | `None` iff the id is not active; otherwise an active player with that id; reads only |
| `PlayerService.PlayersManager.AddAsActive` | OceanBattle.Game/Services/PlayersManager.cs:24-28 | The new list appends the user only when the id is absent; the list stays id-unique and the id is active afterwards |
| `PlayerService.PlayersManager.RemoveFromActive` | OceanBattle.Game/Services/PlayersManager.cs:39-43 | `EndSessions(playerId)` is called exactly once whether or not the player was active. The list equals `RemoveAll` of the old one, and the id is no longer active |
| `PlayerService.PlayersManager.RemoveUserFromActive` | OceanBattle.Game/Services/PlayersManager.cs:36-37 | Same effect as `RemoveFromActive` with the user's id |
| `PlayerService.PlayersManager.InvitePlayer` | OceanBattle.Game/Services/PlayersManager.cs:58-77 | Nothing changes and no invite is sent unless the target is active, the sender is active and the sender has a session. If all three hold, the id is added to that session's invite list only if absent, no other list changes, and exactly one `SendInvite(playerId, sender)` goes out |
| `PlayerService.PlayersManager.InviteUser` | OceanBattle.Game/Services/PlayersManager.cs:45-46 | Same effect as `InvitePlayer` with both users' ids |
| `PlayerService.PlayersManager.InviteByUserName` | OceanBattle.Game/Services/PlayersManager.cs:48-56 | With no active player of that user name nothing happens; otherwise the effect of `InvitePlayer` with the first such player's id |
| `PlayerService.PlayersManager.AcceptInvite` | OceanBattle.Game/Services/PlayersManager.cs:107-130 | Returns `None` and no session changes unless all six guards hold: sender active, player in no session, sender's session exists, player invited to it, no opponent yet, player active. If they hold, the session gets exactly one `AddOponent(player)`, no other session changes, slot 0 stays, and the result is that session's slot 1: a fresh board owned by the player. If they fail, no slot array changes either |
| `PlayerService.PlayersManager.AcceptUserInvite` | OceanBattle.Game/Services/PlayersManager.cs:79-80 | Same effect as `AcceptInvite` with both users' ids |
| `PlayerService.PlayersManager.AcceptInviteByUserName` | OceanBattle.Game/Services/PlayersManager.cs:82-90 | With no active sender of that user name it returns `None` and changes nothing; otherwise the effect of `AcceptInvite` with that sender's id |
| `PlayerService.PlayersManager.ConfirmReady` | OceanBattle.Game/Services/PlayersManager.cs:95-105 | No session: nothing happens. Otherwise the first board owned by the id is marked ready and no other board changes. If `First` would throw, the fault is returned and no board changes |
| `PlayerService.PlayersManager.ConfirmUserReady` | OceanBattle.Game/Services/PlayersManager.cs:92-93 | Same effect as `ConfirmReady` with the user's id |
| `Sessions.Session.constructor` | OceanBattle.Game/Models/Session.cs:23-36 | Sets `Creator` and `BattlefieldSize`. `Battlefields` is a fresh array of length 2. Slot 0 is a fresh board of the given size owned by the creator. Slot 1 and `Oponent` are empty. The match invariant holds |
| `Sessions.Session.AddOponent` | OceanBattle.Game/Models/Session.cs:38-46 | `Oponent` is the new player and slot 1 is a fresh board of the session's size owned by them. Slot 0 and its board are untouched, and the invariant is kept |
| `Sessions.Session.IsActive` | OceanBattle.Game/Models/Session.cs:12-15 | True iff an opponent is present and neither board is fully destroyed; in particular false with no opponent. The invariant makes both slot reads safe |
| `SessionService.SessionFactory.Create` | OceanBattle.Game/DependencyInjection/DependencyInjectionExtensions.cs:20 | Records one call with its arguments and logs the session it returns: a fresh, valid session for that creator and size, built on the factory's battlefield factory, with no opponent |
| `SessionService.SessionsManager.constructor` | OceanBattle.Game/Services/SessionsManager.cs:12-18 | Starts with no sessions |
| `SessionService.SessionsManager.CreateSession` | OceanBattle.Game/Services/SessionsManager.cs:20-26 | Calls the factory exactly once with the creator and the level's size. It returns the session the factory built (the one appended to the factory's log), which is appended to the old list: exactly one more session, earlier ones unchanged and in order. No duplicates arise |
| `GameContracts.GameSession.AddOponent` | OceanBattle.Game/Abstractions/IGameSession.cs:19 | Records one call with the opponent and seats them. Slot 1 gets a fresh board owned by the opponent, as `Session.AddOponent` gives it; slot 0 and the invite list are untouched |
| `GameContracts.SessionRegistry.FindSession` | OceanBattle.Game/Abstractions/ISessionsManager.cs:60-66 | A lookup from a participant id to that participant's session, with no state change: a session exactly when the id is indexed, and then the indexed one |
| `GameContracts.SessionRegistry.EndSessions` | OceanBattle.Game/Abstractions/ISessionsManager.cs:28-32 | Records one call; every session created by that id leaves the lookup and no other entry changes |
| `GameContracts.GameInterface.SendInvite` | OceanBattle.Game/Abstractions/IGameInterface.cs:60 | Records exactly one invite with the receiver and the sender |
| `GameData.BattlefieldFactory.Create` | OceanBattle.Game/Models/Session.cs:32 | Returns a fresh board of the requested size with no owner, not yet ready |

## Left out

- `AddOponent` in this revision of `Session.cs` has no guard. A second call replaces the opponent and slot 1. The model keeps this. The no-op while active belongs to a newer revision.
- Turn order (`Next`), the completion, hit and readiness event streams, `GetBattlefield` and `GetOponentBattlefield`, and readiness inside `IsActive` exist only in a newer revision. They are not in this revision of `Session.cs`.
- `SessionsManager` guards against double booking, and its `FindSession` and `EndSessions`, exist only in a newer revision. The players registry sees them through `GameContracts.SessionRegistry`.
- `ConfirmReady` returning a `bool` belongs to a newer revision; in `PlayersManager.cs` it is `void`.
- The battlefield grid, ship placement and hit resolution are not modelled. `Battlefield` keeps only `Owner`, `IsReady`, `Ships` and its size.
- GameContracts.GameSession.AddOponent: does not give slot 1's board the session's size, because `GameSession` carries no size.
- PlayerService.PlayersManager.AcceptInvite: does not promise that sessions other than the sender's keep their slot arrays when the guards hold, because nothing stops two sessions sharing one array.
- Notifications to clients are asynchronous and fire-and-forget. They are modelled as ghost call logs. Delivery and its failures are not modelled.
- PlayerService.PlayersManager.RemoveFromActive: the contract does not order `EndSessions` before the removal. The two touch disjoint state, so the order is not observable in the model.
- The registries are shared by concurrent request handlers and have no locking. The model is sequential.
- `LevelsRepository` and `ShipsRepository` are constant tables. They are not part of this model.
- The web hub, the controllers, authentication and tokens, persistence and dependency-injection setup are not part of this model.
