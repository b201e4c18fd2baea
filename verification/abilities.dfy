/** The ability contract and the abilities that implement it. Every ability
    supplies the two hooks of the abstract `Character` class: `ModifySpaz`,
    run once when it is attached, and `HandleMessage`, run for each message
    the spaz forwards. A new ability is a new constructor here, and Dafny's
    exhaustive `match` refuses it until both hooks are given. */
module Abilities {
  import opened Actor
  import opened Inputs
  import opened Optional
  import Characters
  import opened Registry
  import FrostyAbility

  datatype Ability = Frosty

  /** `modify_spaz`. The framework relies on every hook tuning the spaz
      without renaming it or swapping its attached ability. */
  function ModifySpaz(a: Ability, s: Spaz<Ability>): (r: Spaz<Ability>)
    ensures r.characterName == s.characterName && r.character == s.character
    ensures a == Frosty ==> r.bombType == FrostyAbility.IceBomb
  {
    match a
    case Frosty => FrostyAbility.ModifySpaz(s)
  }

  /** `handlemessage`. The dispatcher forwards every message it is given; the
      abilities defined here (Frosty alone) ignore host messages that are not
      custom input events. */
  function HandleMessage(a: Ability, m: Message): (r: seq<Effect>)
    ensures m.Other? ==> r == []
    ensures a == Frosty ==> (r != [] <==> IsInstance(m, DoubleJump))
  {
    match a
    case Frosty => FrostyAbility.HandleMessage(m)
  }

  /** The `register_character` calls ability modules make when they are
      imported, in import order. */
  const ModuleRegistrations: seq<(Characters.Character, Ability)> := [(Characters.Frosty, Frosty)]

  /** The registry once every ability module has been imported. */
  function Loaded(): Registry<Ability>
  {
    Bootstrap(Empty(), ModuleRegistrations)
  }

  /** Importing the Frosty module registers it under "Frosty", and nothing
      else is registered. */
  lemma LoadedRegistersFrosty()
    ensures Lookup(Loaded(), "Frosty") == Some(Frosty)
    ensures Loaded().Keys == {"Frosty"}
  {
  }

}
