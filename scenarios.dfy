/** Client scenarios, following the unit tests of the players registry and
    of the session: each derives the outcome the test expects from the
    contracts alone, with the collaborators built as plain objects. */
module Scenarios {
  import opened Wrappers
  import opened GameData
  import opened GameContracts
  import opened Sessions
  import opened PlayerService

  /** A second user with an id already listed is not added
      (PlayersManagerTests.cs, AddAsActive_ShouldFail). */
  method AddSameIdTwice() {
    var gameInterface := new GameInterface();
    var registry := new SessionRegistry();
    var players := new PlayersManager(gameInterface, registry);
    var user := User("id-1", "ann");
    var user2 := User("id-1", "bob");
    players.AddAsActive(user);
    players.AddAsActive(user2);
    assert players.ActivePlayers == [user];
    assert user2 !in players.ActivePlayers;
  }

  /** Removing a player drops them from the active list
      (PlayersManagerTests.cs, RemoveFromActive_ShouldSucceed). */
  method AddThenRemove() {
    var gameInterface := new GameInterface();
    var registry := new SessionRegistry();
    var players := new PlayersManager(gameInterface, registry);
    var user := User("id-1", "ann");
    players.AddAsActive(user);
    assert players.GetPlayer("id-1") == Some(user);
    players.RemoveFromActive("id-1");
    assert players.ActivePlayers == [];
    assert players.GetPlayer("id-1") == None;
    assert registry.EndSessionsCalls == ["id-1"];
  }

  /** An invite from an active sender with a session to an active player:
      the receiver is on the invite list and one invite went out
      (PlayersManagerTests.cs, InvitePlayer_ShouldSucced). */
  method InviteActive() {
    var gameInterface := new GameInterface();
    var registry := new SessionRegistry();
    var players := new PlayersManager(gameInterface, registry);
    var sender := User("id-s", "sam");
    var receiver := User("id-r", "rui");
    var slots := new Option<Battlefield>[2] [None, None];
    var session := new GameSession(sender, slots);
    registry.Index := map["id-s" := session];
    players.AddAsActive(sender);
    players.AddAsActive(receiver);
    assert players.ActivePlayers == [sender, receiver];
    assert players.GetPlayer("id-s") == Some(sender);

    players.InvitePlayer("id-r", "id-s");
    assert session.InvitedPlayersIDs == ["id-r"];
    assert gameInterface.Invites == [Invite("id-r", sender)];
  }

  /** Accepting an invite when every guard holds seats the receiver,
      records one `AddOponent` call and hands back a fresh board in slot 1
      owned by the receiver; a second accept is refused
      (PlayersManagerTests.cs, AcceptInvite_ShouldSucceed). */
  method AcceptInvited(players: PlayersManager, session: GameSession, sender: User, receiver: User)
    requires players.Valid() && players.sessionsManager.Valid()
    requires players.sessionsManager.Index == map[sender.Id := session]
    requires players.ActivePlayers == [sender, receiver]
    requires sender.Id != receiver.Id
    requires session.InvitedPlayersIDs == [receiver.Id] && session.Oponent == None
    modifies session, session.Battlefields
  {
    FirstWithIdIsUnique(players.ActivePlayers, 1);
    assert players.GetPlayer(receiver.Id) == Some(receiver);
    assert players.CanAccept(receiver.Id, sender.Id);
    var accepted := players.AcceptInvite(receiver.Id, sender.Id);
    assert accepted.Some? && accepted.value.Owner == Some(receiver);
    assert accepted == session.Battlefields[1];
    assert session.Oponent == Some(receiver);
    assert session.AddOponentCalls == old(session.AddOponentCalls) + [receiver];

    // The session now has an opponent, so a second accept is refused.
    var again := players.AcceptInvite(receiver.Id, sender.Id);
    assert again == None;
    assert session.AddOponentCalls == old(session.AddOponentCalls) + [receiver];
  }

  /** A session set up as a real one is before anyone joins: the creator's
      board in slot 0, slot 1 empty, the receiver invited, both players
      active. All premises of `AcceptInvited` hold for it. */
  method AcceptIntoFreshSession() {
    var gameInterface := new GameInterface();
    var registry := new SessionRegistry();
    var players := new PlayersManager(gameInterface, registry);
    var sender := User("s", "sam");
    var receiver := User("p", "pia");
    var board := new Battlefield(10, 10);
    board.Owner := Some(sender);
    var slots := new Option<Battlefield>[2] [Some(board), None];
    var session := new GameSession(sender, slots);
    session.InvitedPlayersIDs := ["p"];
    registry.Index := map["s" := session];
    players.AddAsActive(sender);
    players.AddAsActive(receiver);
    assert players.ActivePlayers == [sender, receiver];
    AcceptInvited(players, session, sender, receiver);
  }

  /** An invite to a player who is not active changes nothing
      (PlayersManagerTests.cs, InvitePlayer_ShouldFail_PlayerInactive). */
  method InviteInactive() {
    var gameInterface := new GameInterface();
    var registry := new SessionRegistry();
    var players := new PlayersManager(gameInterface, registry);
    var sender := User("id-s", "sam");
    var slots := new Option<Battlefield>[2] [None, None];
    var session := new GameSession(sender, slots);
    registry.Index := map["id-s" := session];
    players.AddAsActive(sender);

    players.InvitePlayer("id-r", "id-s");
    assert "id-r" !in session.InvitedPlayersIDs;
    assert gameInterface.Invites == [];
  }

  /** A match is active only while an opponent is seated and both sides
      have a ship afloat (SessionTests.cs). */
  method SessionLifecycle() {
    var factory := new BattlefieldFactory();
    var creator := User("id-c", "cai");
    var session := new Session(creator, 10, factory);
    assert !session.IsActive();

    session.AddOponent(User("id-o", "oli"));
    var mine := session.Battlefields[0].value;
    var theirs := session.Battlefields[1].value;
    mine.Ships := [Ship(false)];
    theirs.Ships := [Ship(true), Ship(false)];
    assert session.Valid();
    assert session.IsActive();

    theirs.Ships := [Ship(true), Ship(true)];
    assert !session.IsActive() by {
      assert AllDestroyed(theirs.Ships);
    }
  }
}
