/** The part of the host's spaz actor that the ability framework touches,
    and the observable effects an ability can produce. */
module Actor {
  import opened Optional

  /** A spawned spaz: the display string it was spawned as, its bomb type
      (a tunable an ability may change), and the ability attached to it at
      spawn, if any. `character` replaces the attribute the source creates
      on the object at attach time: `None` is "no such attribute". */
  datatype Spaz<A> = Spaz(characterName: string, bombType: string, character: Option<A>)

  /** An effect an ability produces outside the spaz: a line written to the
      console. */
  datatype Effect = Printed(line: string)

  /** A freshly spawned spaz: nothing attached yet. */
  predicate Unattached<A>(s: Spaz<A>)
  {
    s.character.None?
  }

}
