/** A match between a creator and, once one joins, an opponent. Slot 0 of the
    two battlefield slots belongs to the creator from construction on; slot 1
    stays empty until an opponent is added. */
module Sessions {
  import opened Wrappers
  import opened GameData
  import Linq

  /** Every ship of a side is sunk (trivially so when the side has none). */
  ghost predicate AllDestroyed(ships: seq<Ship>)
  {
    forall i :: 0 <= i < |ships| ==> ships[i].IsDestroyed
  }

  class Session {
    const battlefieldFactory: BattlefieldFactory
    // The three properties below have private setters that only the
    // constructor uses, so they are constants of the object.
    const BattlefieldSize: int
    const Battlefields: array<Option<Battlefield>>
    const Creator: User
    var Oponent: Option<User>

    /** The match invariant: two slots; slot 0 is always the creator's board;
        slot 1 is empty exactly while there is no opponent and is the
        opponent's board afterwards; the two boards are distinct. */
    ghost predicate Valid()
      reads this, Battlefields, Slots(Battlefields)
    {
      && Battlefields.Length == 2
      && Battlefields[0].Some?
      && Battlefields[0].value.Owner == Some(Creator)
      && (Oponent.None? ==> Battlefields[1].None?)
      && (Oponent.Some? ==>
            && Battlefields[1].Some?
            && Battlefields[1].value.Owner == Oponent
            && Battlefields[1].value != Battlefields[0].value)
    }

    constructor (creator: User, battlefieldSize: int, battlefieldFactory: BattlefieldFactory)
      ensures Valid()
      ensures Creator == creator && BattlefieldSize == battlefieldSize
      ensures this.battlefieldFactory == battlefieldFactory
      ensures Oponent == None
      ensures fresh(Battlefields) && Battlefields.Length == 2
      ensures Battlefields[0].Some? && fresh(Battlefields[0].value)
      ensures Battlefields[0].value.Owner == Some(creator)
      ensures Battlefields[0].value.Width == battlefieldSize
      ensures Battlefields[0].value.Height == battlefieldSize
      ensures Battlefields[1] == None
    {
      Creator := creator;
      BattlefieldSize := battlefieldSize;
      this.battlefieldFactory := battlefieldFactory;
      var battlefield := battlefieldFactory.Create(battlefieldSize, battlefieldSize);
      battlefield.Owner := Some(creator);
      Battlefields := new Option<Battlefield>[2] [Some(battlefield), None];
      Oponent := None;
    }

    /** Seats `oponent` and gives them a fresh board in slot 1. This revision
        has no guard: a second call replaces the opponent and board. */
    method AddOponent(oponent: User)
      requires Valid()
      modifies this, Battlefields
      ensures Valid()
      ensures Oponent == Some(oponent)
      ensures Battlefields[1].Some? && fresh(Battlefields[1].value)
      ensures Battlefields[1].value.Owner == Some(oponent)
      ensures Battlefields[1].value.Width == BattlefieldSize
      ensures Battlefields[1].value.Height == BattlefieldSize
      ensures Battlefields[0] == old(Battlefields[0])
      ensures unchanged(Battlefields[0].value)
    {
      Oponent := Some(oponent);
      var battlefield := battlefieldFactory.Create(BattlefieldSize, BattlefieldSize);
      battlefield.Owner := Some(oponent);
      Battlefields[1] := Some(battlefield);
    }

    /** The match is in play: an opponent has joined and neither side is
        fully sunk. The invariant makes both slot reads safe. */
    function IsActive(): (r: bool)
      requires Valid()
      reads this, Battlefields, Slots(Battlefields)
      ensures r <==>
        && Oponent.Some?
        && !AllDestroyed(Battlefields[0].value.Ships)
        && !AllDestroyed(Battlefields[1].value.Ships)
    {
      && Oponent.Some?
      && Linq.Any(Battlefields[0].value.Ships, Afloat)
      && Linq.Any(Battlefields[1].value.Ships, Afloat)
    }
  }
}
