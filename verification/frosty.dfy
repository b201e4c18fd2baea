/** Frosty's ability: at spawn it switches the spaz to ice bombs; afterwards
    it reacts to a double jump by writing a console line and ignores every
    other message. */
module FrostyAbility {
  import opened Actor
  import opened Inputs

  const IceBomb: string := "ice"
  const DoubleJumpLine: string := "we double jumped."

  /** `Frosty.modify_spaz`: the bomb type becomes ice and no other field of
      the spaz changes. */
  function ModifySpaz<A>(s: Spaz<A>): (r: Spaz<A>)
    ensures r.bombType == IceBomb
    ensures r.characterName == s.characterName && r.character == s.character
  {
    s.(bombType := IceBomb)
  }

  /** `Frosty.handlemessage`: one console line for a double jump; nothing,
      and no failure, for any other message. */
  function HandleMessage(m: Message): (r: seq<Effect>)
    ensures IsInstance(m, DoubleJump) <==> r == [Printed(DoubleJumpLine)]
    ensures !IsInstance(m, DoubleJump) <==> r == []
  {
    if IsInstance(m, DoubleJump) then [Printed(DoubleJumpLine)] else []
  }

}
