/** The registry of active players. It keeps the players unique by id and
    brokers invites, accepts and readiness between players and the sessions
    they are in. Every operation is a cascade of guards; a guard that fails
    ends the operation silently, with no change and no notification. */
module PlayerService {
  import opened Wrappers
  import opened GameData
  import opened GameContracts
  import Linq

  /** The predicate `u => u.Id == id`. */
  function HasId(id: string): User -> bool
  {
    (u: User) => u.Id == id
  }

  /** The predicate `u => u.UserName == userName`. */
  function HasUserName(userName: string): User -> bool
  {
    (u: User) => u.UserName == userName
  }

  /** No two players in the list share an id. */
  ghost predicate UniqueIds(players: seq<User>)
  {
    forall i, j :: 0 <= i < j < |players| ==> players[i].Id != players[j].Id
  }

  /** No id occurs twice in the list. */
  ghost predicate NoDuplicates(ids: seq<string>)
  {
    forall i, j :: 0 <= i < j < |ids| ==> ids[i] != ids[j]
  }

  /** The active list after `AddAsActive(user)`: `user` is appended unless a
      player with the same id is already there. */
  function WithPlayer(players: seq<User>, user: User): seq<User>
  {
    if Linq.Any(players, HasId(user.Id)) then players else players + [user]
  }

  /** An invite list after inviting `id`: appended only when absent. */
  function WithInvited(ids: seq<string>, id: string): seq<string>
  {
    if id in ids then ids else ids + [id]
  }

  /** After `AddAsActive(user)` the list stays id-unique, `user.Id` is
      active, and exactly one entry carries that id: a second user with an
      id already present is not added. */
  lemma WithPlayerKeepsUniqueIds(players: seq<User>, user: User)
    requires UniqueIds(players)
    ensures UniqueIds(WithPlayer(players, user))
    ensures Linq.Any(WithPlayer(players, user), HasId(user.Id))
    ensures Linq.Any(players, HasId(user.Id)) ==> WithPlayer(players, user) == players
    ensures !Linq.Any(players, HasId(user.Id)) ==> WithPlayer(players, user) == players + [user]
  {
    var r := WithPlayer(players, user);
    if !Linq.Any(players, HasId(user.Id)) {
      forall i, j | 0 <= i < j < |r| ensures r[i].Id != r[j].Id {
        if j == |players| {
          assert !HasId(user.Id)(players[i]);
        }
      }
      assert HasId(user.Id)(r[|players|]);
    }
  }

  /** Adding two users with the same id adds at most the first. */
  lemma WithPlayerIdempotent(players: seq<User>, user: User, again: User)
    requires again.Id == user.Id
    ensures WithPlayer(WithPlayer(players, user), again) == WithPlayer(players, user)
  {
    var r := WithPlayer(players, user);
    if !Linq.Any(players, HasId(user.Id)) {
      assert HasId(again.Id)(r[|players|]);
    }
  }

  /** In an id-unique list, the first player with a given id is the one
      player with that id. */
  lemma FirstWithIdIsUnique(players: seq<User>, k: nat)
    requires UniqueIds(players) && k < |players|
    ensures Linq.FirstOrDefault(players, HasId(players[k].Id)) == Some(players[k])
  {
  }

  /** Removing never breaks id-uniqueness. */
  lemma {:induction false} RemoveAllKeepsUniqueIds(players: seq<User>, p: User -> bool)
    requires UniqueIds(players)
    ensures UniqueIds(Linq.RemoveAll(players, p))
  {
    if players != [] {
      var tail := players[1..];
      assert UniqueIds(tail) by {
        forall i, j | 0 <= i < j < |tail| ensures tail[i].Id != tail[j].Id {
          assert tail[i] == players[i + 1] && tail[j] == players[j + 1];
        }
      }
      RemoveAllKeepsUniqueIds(tail, p);
      if !p(players[0]) {
        var rest := Linq.RemoveAll(tail, p);
        var r := [players[0]] + rest;
        forall i, j | 0 <= i < j < |r| ensures r[i].Id != r[j].Id {
          if i == 0 {
            assert r[j] == rest[j - 1] && rest[j - 1] in tail;
            var m :| 0 <= m < |tail| && tail[m] == rest[j - 1];
            assert players[m + 1] == r[j];
          } else {
            assert r[i] == rest[i - 1] && r[j] == rest[j - 1];
          }
        }
      }
    }
  }

  /** Inviting keeps the invite list free of duplicates, puts `id` on it,
      and inviting the same id again changes nothing. */
  lemma WithInvitedNoDuplicates(ids: seq<string>, id: string)
    requires NoDuplicates(ids)
    ensures NoDuplicates(WithInvited(ids, id))
    ensures id in WithInvited(ids, id)
    ensures WithInvited(WithInvited(ids, id), id) == WithInvited(ids, id)
  {
  }

  /** What `ConfirmReady`'s `First(b => b!.Owner!.Id == playerId)` meets at
      one slot whose predicate evaluates normally: a board owned by `id`. */
  predicate OwnedBy(slot: Option<Battlefield>, id: string)
    reads if slot.Some? then {slot.value} else {}
  {
    slot.Some? && slot.value.Owner.Some? && slot.value.Owner.value.Id == id
  }

  /** A slot the predicate evaluates to false on: a board owned by another. */
  predicate OwnedByOther(slot: Option<Battlefield>, id: string)
    reads if slot.Some? then {slot.value} else {}
  {
    slot.Some? && slot.value.Owner.Some? && slot.value.Owner.value.Id != id
  }

  /** The exceptions `First` with that predicate can raise. */
  datatype Fault = NullReference | NoMatchingElement

  datatype Search = Found(index: nat) | Threw(fault: Fault)

  /** `First(b => b!.Owner!.Id == id)` over the slots from `from` on: the index
      of the first board owned by `id`, a null dereference if an empty slot or
      an ownerless board comes first, or "no matching element". */
  function OwnerSearch(slots: seq<Option<Battlefield>>, id: string, from: nat): (r: Search)
    requires from <= |slots|
    reads set i | 0 <= i < |slots| && slots[i].Some? :: slots[i].value
    decreases |slots| - from
    ensures r.Found? ==>
      && from <= r.index < |slots|
      && OwnedBy(slots[r.index], id)
      && forall j :: from <= j < r.index ==> OwnedByOther(slots[j], id)
    ensures r == Threw(NullReference) ==>
      exists k :: && from <= k < |slots|
                  && (slots[k].None? || slots[k].value.Owner.None?)
                  && forall j :: from <= j < k ==> OwnedByOther(slots[j], id)
    ensures r == Threw(NoMatchingElement) ==>
      forall j :: from <= j < |slots| ==> OwnedByOther(slots[j], id)
  {
    if from == |slots| then Threw(NoMatchingElement)
    else if slots[from].None? || slots[from].value.Owner.None? then Threw(NullReference)
    else if slots[from].value.Owner.value.Id == id then Found(from)
    else OwnerSearch(slots, id, from + 1)
  }

  class PlayersManager {
    const gameInterface: GameInterface
    const sessionsManager: SessionRegistry
    /** The active players. A sequence is an immutable value, so this field
        is at once the private list and the read-only view handed out. */
    var ActivePlayers: seq<User>

    /** The registry invariant: active players are unique by id. */
    ghost predicate Valid()
      reads this
    {
      UniqueIds(ActivePlayers)
    }

    constructor (gameInterface: GameInterface, sessionsManager: SessionRegistry)
      ensures Valid()
      ensures this.gameInterface == gameInterface && this.sessionsManager == sessionsManager
      ensures ActivePlayers == []
    {
      this.gameInterface := gameInterface;
      this.sessionsManager := sessionsManager;
      ActivePlayers := [];
    }

    /** Some active player has this id. */
    function IsPlayerActive(id: string): (r: bool)
      reads this
      ensures r <==> exists i :: 0 <= i < |ActivePlayers| && ActivePlayers[i].Id == id
    {
      Linq.Any(ActivePlayers, HasId(id))
    }

    /** The first active player with this id, or `None` when there is none;
        under the invariant, the one player with this id. */
    function GetPlayer(id: string): (r: Option<User>)
      reads this
      ensures r.None? <==> !IsPlayerActive(id)
      ensures r.Some? ==> r.value in ActivePlayers && r.value.Id == id
    {
      Linq.FirstOrDefault(ActivePlayers, HasId(id))
    }

    method AddAsActive(user: User)
      requires Valid()
      modifies this
      ensures Valid()
      ensures ActivePlayers == WithPlayer(old(ActivePlayers), user)
      ensures IsPlayerActive(user.Id)
    {
      WithPlayerKeepsUniqueIds(ActivePlayers, user);
      if !Linq.Any(ActivePlayers, HasId(user.Id)) {
        ActivePlayers := ActivePlayers + [user];
      }
    }

    /** Asks the session registry to end the player's sessions, then drops
        every active entry with that id, keeping the others in order. */
    method RemoveFromActive(playerId: string)
      requires Valid() && sessionsManager.Valid()
      modifies this, sessionsManager
      ensures Valid() && sessionsManager.Valid()
      ensures sessionsManager.EndSessionsCalls == old(sessionsManager.EndSessionsCalls) + [playerId]
      ensures sessionsManager.Index ==
        map id | id in old(sessionsManager.Index) && old(sessionsManager.Index)[id].Creator.Id != playerId
          :: old(sessionsManager.Index)[id]
      ensures ActivePlayers == Linq.RemoveAll(old(ActivePlayers), HasId(playerId))
      ensures !IsPlayerActive(playerId)
    {
      sessionsManager.EndSessions(playerId);
      RemoveAllKeepsUniqueIds(ActivePlayers, HasId(playerId));
      ActivePlayers := Linq.RemoveAll(ActivePlayers, HasId(playerId));
    }

    method RemoveUserFromActive(player: User)
      requires Valid() && sessionsManager.Valid()
      modifies this, sessionsManager
      ensures Valid() && sessionsManager.Valid()
      ensures sessionsManager.EndSessionsCalls == old(sessionsManager.EndSessionsCalls) + [player.Id]
      ensures sessionsManager.Index ==
        map id | id in old(sessionsManager.Index) && old(sessionsManager.Index)[id].Creator.Id != player.Id
          :: old(sessionsManager.Index)[id]
      ensures ActivePlayers == Linq.RemoveAll(old(ActivePlayers), HasId(player.Id))
    {
      RemoveFromActive(player.Id);
    }

    /** The three guards of an invite: the invited player is active, the
        sender is active, and the sender is in a session. */
    ghost predicate CanInvite(playerId: string, senderId: string)
      reads this, sessionsManager
    {
      && IsPlayerActive(playerId)
      && IsPlayerActive(senderId)
      && sessionsManager.FindSession(senderId).Some?
    }

    /** No invite was sent and no invite list changed. */
    twostate predicate NoInvite()
      requires unchanged(sessionsManager)
      reads this, gameInterface, sessionsManager, sessionsManager.Index.Values
    {
      && gameInterface.Invites == old(gameInterface.Invites)
      && forall s :: s in sessionsManager.Index.Values ==> s.InvitedPlayersIDs == old(s.InvitedPlayersIDs)
    }

    /** The effect of `InvitePlayer(playerId, senderId)`: when the guards hold,
        `playerId` is on the sender's session's invite list (added only if
        absent), no other list changed, and exactly one invite went out from
        the sender; otherwise nothing happened. */
    twostate predicate InviteEffect(playerId: string, senderId: string)
      requires unchanged(sessionsManager)
      reads this, gameInterface, sessionsManager, sessionsManager.Index.Values
    {
      if old(CanInvite(playerId, senderId)) then
        var session := old(sessionsManager.FindSession(senderId)).value;
        && session.InvitedPlayersIDs == WithInvited(old(session.InvitedPlayersIDs), playerId)
        && gameInterface.Invites == old(gameInterface.Invites) + [Invite(playerId, old(GetPlayer(senderId)).value)]
        && forall s :: s in sessionsManager.Index.Values && s != session ==>
             s.InvitedPlayersIDs == old(s.InvitedPlayersIDs)
      else
        NoInvite()
    }

    method InvitePlayer(playerId: string, senderId: string)
      requires Valid()
      modifies gameInterface, sessionsManager.Index.Values`InvitedPlayersIDs
      ensures InviteEffect(playerId, senderId)
    {
      if !Linq.Any(ActivePlayers, HasId(playerId)) {
        return;
      }
      var sender := GetPlayer(senderId);
      if sender.None? {
        return;
      }
      var session := sessionsManager.FindSession(senderId);
      if session.None? {
        return;
      }
      if playerId !in session.value.InvitedPlayersIDs {
        session.value.InvitedPlayersIDs := session.value.InvitedPlayersIDs + [playerId];
      }
      gameInterface.SendInvite(playerId, sender.value);
    }

    method InviteUser(player: User, sender: User)
      requires Valid()
      modifies gameInterface, sessionsManager.Index.Values`InvitedPlayersIDs
      ensures InviteEffect(player.Id, sender.Id)
    {
      InvitePlayer(player.Id, sender.Id);
    }

    /** Resolves the invited player by user name among the active players;
        with no match nothing happens. */
    method InviteByUserName(player: UserDto, senderId: string)
      requires Valid()
      modifies gameInterface, sessionsManager.Index.Values`InvitedPlayersIDs
      ensures var target := Linq.FirstOrDefault(ActivePlayers, HasUserName(player.UserName));
        if target.Some? then InviteEffect(target.value.Id, senderId) else NoInvite()
    {
      var activePlayer := Linq.FirstOrDefault(ActivePlayers, HasUserName(player.UserName));
      if activePlayer.None? {
        return;
      }
      InvitePlayer(activePlayer.value.Id, senderId);
    }

    /** The six guards of an accept: the sender is active, the player is in
        no session, the sender is, the player is on that session's invite
        list, the session has no opponent yet, and the player is active. */
    ghost predicate CanAccept(playerId: string, senderId: string)
      reads this, sessionsManager, sessionsManager.Index.Values
    {
      && IsPlayerActive(senderId)
      && sessionsManager.FindSession(playerId).None?
      && sessionsManager.FindSession(senderId).Some?
      && playerId in sessionsManager.FindSession(senderId).value.InvitedPlayersIDs
      && sessionsManager.FindSession(senderId).value.Oponent.None?
      && IsPlayerActive(playerId)
    }

    /** The effect of `AcceptInvite(playerId, senderId)` returning `r`: when
        the guards hold, the sender's session received exactly one
        `AddOponent` call, with the player, no other session changed, and `r`
        is that session's slot 1, a fresh board owned by the player;
        otherwise `r` is `None` and no session or slot array changed. */
    twostate predicate AcceptEffect(playerId: string, senderId: string, new r: Option<Battlefield>)
      requires unchanged(sessionsManager) && sessionsManager.Valid()
      reads this, sessionsManager, sessionsManager.Index.Values
      reads set s | s in sessionsManager.Index.Values :: s.Battlefields
      reads if r.Some? then {r.value} else {}
    {
      if old(CanAccept(playerId, senderId)) then
        var session := old(sessionsManager.FindSession(senderId)).value;
        && session.AddOponentCalls == old(session.AddOponentCalls) + [old(GetPlayer(playerId)).value]
        && session.Oponent == old(GetPlayer(playerId))
        && session.InvitedPlayersIDs == old(session.InvitedPlayersIDs)
        && session.Battlefields[0] == old(session.Battlefields[0])
        && r == session.Battlefields[1]
        && r.Some? && fresh(r.value) && r.value.Owner == old(GetPlayer(playerId))
        && forall s :: s in sessionsManager.Index.Values && s != session ==> unchanged(s)
      else
        && r == None
        && forall s :: s in sessionsManager.Index.Values ==> unchanged(s) && unchanged(s.Battlefields)
    }

    method AcceptInvite(playerId: string, senderId: string) returns (r: Option<Battlefield>)
      requires Valid() && sessionsManager.Valid()
      modifies sessionsManager.Index.Values, set s | s in sessionsManager.Index.Values :: s.Battlefields
      ensures AcceptEffect(playerId, senderId, r)
    {
      if GetPlayer(senderId).None? {
        return None;
      }
      if sessionsManager.FindSession(playerId).Some? {
        return None;
      }
      var gameSession := sessionsManager.FindSession(senderId);
      if gameSession.None? ||
         playerId !in gameSession.value.InvitedPlayersIDs ||
         gameSession.value.Oponent.Some?
      {
        return None;
      }
      var player := GetPlayer(playerId);
      if player.None? {
        return None;
      }
      gameSession.value.AddOponent(player.value);
      r := gameSession.value.Battlefields[1];
    }

    method AcceptUserInvite(player: User, sender: User) returns (r: Option<Battlefield>)
      requires Valid() && sessionsManager.Valid()
      modifies sessionsManager.Index.Values, set s | s in sessionsManager.Index.Values :: s.Battlefields
      ensures AcceptEffect(player.Id, sender.Id, r)
    {
      r := AcceptInvite(player.Id, sender.Id);
    }

    /** Resolves the sender by user name among the active players; with no
        match the result is `None` and nothing changes. */
    method AcceptInviteByUserName(playerId: string, sender: UserDto) returns (r: Option<Battlefield>)
      requires Valid() && sessionsManager.Valid()
      modifies sessionsManager.Index.Values, set s | s in sessionsManager.Index.Values :: s.Battlefields
      ensures var activeSender := Linq.FirstOrDefault(ActivePlayers, HasUserName(sender.UserName));
        if activeSender.Some? then AcceptEffect(playerId, activeSender.value.Id, r)
        else r == None && forall s :: s in sessionsManager.Index.Values ==> unchanged(s) && unchanged(s.Battlefields)
    {
      var activeSender := Linq.FirstOrDefault(ActivePlayers, HasUserName(sender.UserName));
      if activeSender.None? {
        return None;
      }
      r := AcceptInvite(playerId, activeSender.value.Id);
    }

    /** The boards `ConfirmReady(playerId)` may mark: those of the player's session. */
    function ReadyTargets(playerId: string): set<Battlefield>
      reads this, sessionsManager
      reads if sessionsManager.FindSession(playerId).Some?
            then {sessionsManager.FindSession(playerId).value.Battlefields} else {}
    {
      match sessionsManager.FindSession(playerId)
      case None => {}
      case Some(session) => Slots(session.Battlefields)
    }

    /** Marks ready the first board of the player's session that the player
        owns. With no session nothing happens; a null slot or an ownerless
        board met before the match, or no match at all, is the exception
        `First` throws, returned here as a fault with nothing changed. */
    method ConfirmReady(playerId: string) returns (outcome: Outcome<Fault>)
      modifies ReadyTargets(playerId)`IsReady
      ensures sessionsManager.FindSession(playerId).None? ==> outcome == Pass
      ensures sessionsManager.FindSession(playerId).Some? ==>
        var session := sessionsManager.FindSession(playerId).value;
        match old(OwnerSearch(session.Battlefields[..], playerId, 0))
        case Found(i) =>
          && outcome == Pass
          && session.Battlefields[i].Some? && session.Battlefields[i].value.IsReady
          && forall b :: b in Slots(session.Battlefields) && b != session.Battlefields[i].value ==>
               b.IsReady == old(b.IsReady)
        case Threw(fault) =>
          && outcome == Fail(fault)
          && forall b :: b in Slots(session.Battlefields) ==> b.IsReady == old(b.IsReady)
    {
      var session := sessionsManager.FindSession(playerId);
      if session.None? {
        return Pass;
      }
      var slots := session.value.Battlefields;
      var search := OwnerSearch(slots[..], playerId, 0);
      match search {
        case Found(i) =>
          slots[i].value.IsReady := true;
          outcome := Pass;
        case Threw(fault) =>
          outcome := Fail(fault);
      }
    }

    method ConfirmUserReady(player: User) returns (outcome: Outcome<Fault>)
      modifies ReadyTargets(player.Id)`IsReady
      ensures sessionsManager.FindSession(player.Id).None? ==> outcome == Pass
      ensures sessionsManager.FindSession(player.Id).Some? ==>
        var session := sessionsManager.FindSession(player.Id).value;
        match old(OwnerSearch(session.Battlefields[..], player.Id, 0))
        case Found(i) =>
          && outcome == Pass
          && session.Battlefields[i].Some? && session.Battlefields[i].value.IsReady
          && forall b :: b in Slots(session.Battlefields) && b != session.Battlefields[i].value ==>
               b.IsReady == old(b.IsReady)
        case Threw(fault) =>
          && outcome == Fail(fault)
          && forall b :: b in Slots(session.Battlefields) ==> b.IsReady == old(b.IsReady)
    {
      outcome := ConfirmReady(player.Id);
    }
  }
}
