/** The collaborators the players registry is written against, in the newer
    shape that it uses: a game session with an invite list, a session
    registry that can look a participant up and end a creator's sessions,
    and the notification sink towards the clients. Their implementations are
    not part of this model; each keeps a ghost log of the calls it receives so
    that "called once" and "never called" can be stated. */
module GameContracts {
  import opened Wrappers
  import opened GameData

  /** A match as the players registry sees it. */
  class GameSession {
    const Creator: User
    var Oponent: Option<User>
    const Battlefields: array<Option<Battlefield>>
    var InvitedPlayersIDs: seq<string>
    ghost var AddOponentCalls: seq<User>

    constructor (creator: User, battlefields: array<Option<Battlefield>>)
      ensures Creator == creator && Battlefields == battlefields
      ensures Oponent == None && InvitedPlayersIDs == [] && AddOponentCalls == []
    {
      Creator := creator;
      Battlefields := battlefields;
      Oponent := None;
      InvitedPlayersIDs := [];
      AddOponentCalls := [];
    }

    /** Records the call, seats the opponent and, as `Session.AddOponent`
        does, puts a fresh board owned by the opponent in slot 1; slot 0 and
        the invite list are left alone. */
    method AddOponent(oponent: User)
      requires Battlefields.Length == 2
      modifies this, Battlefields
      ensures AddOponentCalls == old(AddOponentCalls) + [oponent]
      ensures Oponent == Some(oponent)
      ensures InvitedPlayersIDs == old(InvitedPlayersIDs)
      ensures Battlefields[0] == old(Battlefields[0])
      ensures Battlefields[1].Some? && fresh(Battlefields[1].value)
      ensures Battlefields[1].value.Owner == Some(oponent)
    {
      AddOponentCalls := AddOponentCalls + [oponent];
      Oponent := Some(oponent);
      var battlefield := new Battlefield(0, 0);
      battlefield.Owner := Some(oponent);
      Battlefields[1] := Some(battlefield);
    }
  }

  /** The session registry as a participant lookup: `Index` maps a player id
      to the session that player is involved in. */
  class SessionRegistry {
    var Index: map<string, GameSession>
    ghost var EndSessionsCalls: seq<string>

    /** Every session the registry hands out has the two slots of a match. */
    ghost predicate Valid()
      reads this
    {
      forall id :: id in Index ==> Index[id].Battlefields.Length == 2
    }

    constructor ()
      ensures Valid()
      ensures Index == map[] && EndSessionsCalls == []
    {
      Index := map[];
      EndSessionsCalls := [];
    }

    /** The session `participantId` is involved in, or `None`. */
    function FindSession(participantId: string): (r: Option<GameSession>)
      reads this
      ensures r.Some? <==> participantId in Index
      ensures r.Some? ==> r.value == Index[participantId] && r.value in Index.Values
    {
      if participantId in Index then Some(Index[participantId]) else None
    }

    /** Ends every session created by `creatorId`: they leave the lookup. */
    method EndSessions(creatorId: string)
      requires Valid()
      modifies this
      ensures Valid()
      ensures EndSessionsCalls == old(EndSessionsCalls) + [creatorId]
      ensures Index == map id | id in old(Index) && old(Index)[id].Creator.Id != creatorId :: old(Index)[id]
    {
      EndSessionsCalls := EndSessionsCalls + [creatorId];
      Index := map id | id in Index && Index[id].Creator.Id != creatorId :: Index[id];
    }
  }

  /** An invite as it is handed to the client side. */
  datatype Invite = Invite(ReceiverId: string, Sender: User)

  /** The notification sink; only the invite notification is used by the
      players registry. */
  class GameInterface {
    ghost var Invites: seq<Invite>

    constructor ()
      ensures Invites == []
    {
      Invites := [];
    }

    method SendInvite(receiverId: string, sender: User)
      modifies this
      ensures Invites == old(Invites) + [Invite(receiverId, sender)]
    {
      Invites := Invites + [Invite(receiverId, sender)];
    }
  }
}
