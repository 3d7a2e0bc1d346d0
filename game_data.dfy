/** The data types the game core works with but does not define: players,
    their transfer objects, levels, ships and battlefields. Battlefield grids,
    ship placement and hit resolution belong to the battlefield itself and are
    not modelled; only what the core reads or writes is kept. */
module GameData {
  import opened Wrappers

  /** A registered player, compared by value. `Id` is the unique identity. */
  datatype User = User(Id: string, UserName: string)

  /** What a client sends to name a player: only the user name. */
  datatype UserDto = UserDto(UserName: string)

  /** A game level; the core reads only its battlefield size. */
  datatype Level = Level(BattlefieldSize: int)

  /** A ship as the core sees it: sunk or still afloat. */
  datatype Ship = Ship(IsDestroyed: bool)

  /** Whether a ship is still in play, the predicate `ship => !ship.IsDestroyed`. */
  function Afloat(ship: Ship): bool
  {
    !ship.IsDestroyed
  }

  /** The battlefields held in a match's slot array. */
  function Slots(slots: array<Option<Battlefield>>): set<Battlefield>
    reads slots
  {
    set i | 0 <= i < slots.Length && slots[i].Some? :: slots[i].value
  }

  /** A player's board. The core assigns `Owner` and `IsReady` and reads `Ships`. */
  class Battlefield {
    const Width: int
    const Height: int
    var Owner: Option<User>
    var IsReady: bool
    var Ships: seq<Ship>

    constructor (width: int, height: int)
      ensures Width == width && Height == height
      ensures Owner == None && !IsReady && Ships == []
    {
      Width, Height := width, height;
      Owner, IsReady, Ships := None, false, [];
    }
  }

  /** Builds a fresh battlefield of the requested size, owned by nobody yet. */
  class BattlefieldFactory {
    constructor ()
    {
    }

    method Create(width: int, height: int) returns (battlefield: Battlefield)
      ensures fresh(battlefield)
      ensures battlefield.Width == width && battlefield.Height == height
      ensures battlefield.Owner == None && !battlefield.IsReady
    {
      battlefield := new Battlefield(width, height);
    }
  }
}
