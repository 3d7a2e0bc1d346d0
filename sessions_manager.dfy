/** The session registry of this revision of `SessionsManager.cs`, which has
    no double-booking guard, no lookup and no bulk end: it asks a session
    factory for a new match and appends it to its list. */
module SessionService {
  import opened Wrappers
  import opened GameData
  import opened Sessions

  /** The typed factory the registry is given: it builds a `Session` for a
      creator and a board size. Every call and the session it built are
      recorded so that "called once, with these arguments" and "this is the
      session it returned" can be stated. */
  class SessionFactory {
    const battlefieldFactory: BattlefieldFactory
    ghost var Calls: seq<(User, int)>
    ghost var Built: seq<Session>

    constructor (battlefieldFactory: BattlefieldFactory)
      ensures this.battlefieldFactory == battlefieldFactory
      ensures Calls == [] && Built == []
    {
      this.battlefieldFactory := battlefieldFactory;
      Calls := [];
      Built := [];
    }

    method Create(creator: User, battlefieldSize: int) returns (session: Session)
      modifies this
      ensures Calls == old(Calls) + [(creator, battlefieldSize)]
      ensures Built == old(Built) + [session]
      ensures fresh(session) && fresh(session.Battlefields)
      ensures session.Valid()
      ensures session.Creator == creator && session.BattlefieldSize == battlefieldSize
      ensures session.battlefieldFactory == battlefieldFactory
      ensures session.Oponent == None && session.Battlefields[1] == None
    {
      session := new Session(creator, battlefieldSize, battlefieldFactory);
      Calls := Calls + [(creator, battlefieldSize)];
      Built := Built + [session];
    }
  }

  class SessionsManager {
    const sessionFactory: SessionFactory
    /** The live sessions. A sequence is an immutable value, so this field is
        at once the private list and the read-only view handed out. */
    var Sessions: seq<Session>

    /** Each live session is listed once. */
    ghost predicate Valid()
      reads this
    {
      forall i, j :: 0 <= i < j < |Sessions| ==> Sessions[i] != Sessions[j]
    }

    constructor (sessionFactory: SessionFactory)
      ensures Valid()
      ensures this.sessionFactory == sessionFactory
      ensures Sessions == []
    {
      this.sessionFactory := sessionFactory;
      Sessions := [];
    }

    /** Has the factory build a session at `level`'s board size and appends
        that very session; the list grows by exactly it and nothing before it
        moves. */
    method CreateSession(creator: User, level: Level) returns (session: Session)
      requires Valid()
      modifies this, sessionFactory
      ensures Valid()
      ensures sessionFactory.Calls == old(sessionFactory.Calls) + [(creator, level.BattlefieldSize)]
      ensures sessionFactory.Built == old(sessionFactory.Built) + [session]
      ensures fresh(session) && session.Valid()
      ensures session.Creator == creator && session.BattlefieldSize == level.BattlefieldSize
      ensures session.Oponent == None && session.Battlefields[1] == None
      ensures Sessions == old(Sessions) + [session]
      ensures |Sessions| == |old(Sessions)| + 1
    {
      session := sessionFactory.Create(creator, level.BattlefieldSize);
      Sessions := Sessions + [session];
    }
  }
}
