# Character abilities for BombSquad spazes, in Dafny

This project models the character-ability framework of `bastd/characters`.
Character modules attach custom behaviour to a spaz, BombSquad's playable
avatar, when it spawns. Afterwards the spaz forwards custom input events to the
attached ability. The framework has four parts, and each is modelled here:

- **The `Characters` enumeration** (`characters.dfy`, module `Characters`).
  It has sixteen identities, each with a fixed display string.
- **The `CHARACTERS` registry** (`registry.dfy`, module `Registry`). It maps a
  display string to an ability class. `register_character` fills it and the
  last registration of a key wins. Module import order is modelled as an
  explicit sequence of registrations (`Bootstrap`).
- **The ability contract** (`abilities.dfy`, module `Abilities`). Every ability
  supplies the two hooks of the abstract `Character` class, `modify_spaz` and
  `handlemessage`. Abilities are a closed datatype, so an ability that misses a
  hook does not compile. The one ability in the repository, Frosty
  (`frosty.dfy`, module `FrostyAbility`), switches the spaz to ice bombs and
  reacts to a double jump. Its module-load registration is `ModuleRegistrations`.
- **The dispatch entry points** (`dispatch.dfy`, module `Dispatch`).
  `handle_spaz` looks up the spaz's `character_name`, attaches the registered
  ability and runs its `modify_spaz` once. `handle_inputs` forwards a message
  to the attached ability, or does nothing if none is attached.

The three custom input events (`inputs.dfy`, module `Inputs`) are
payload-free. They sit beside the other messages the host sends a spaz.
The spaz itself (`actor.dfy`, module `Actor`) is reduced to what the framework
touches: its name, its bomb type and the optional attached ability. The print
in Frosty's handler becomes an `Effect` value that the dispatch functions
return.

Two details of `handle_spaz` (character.py:77-87) shape the model:

- Attachment is not final. Calling `handle_spaz` again on an attached spaz
  whose name is registered stores a new instance (character.py:86), and
  `Dispatch.HandleSpaz` does the same.
- `handle_spaz` tests membership and then tests `char is not None`. The second
  test always passes once the first has, because registry values are classes.
  The model has the single membership branch.

## Model

| member | source | states |
|---|---|---|
| Characters.AllIsComplete | ba_data/python/bastd/characters/character.py:18-36 | there are exactly sixteen character identities; every one is listed once |
| Characters.ValuesDistinct | ba_data/python/bastd/characters/character.py:18-36 | the sixteen display strings are pairwise distinct, so no member is an alias of another |
| Characters.ValueInjective | ba_data/python/bastd/characters/character.py:18-36 | two identities have the same display string only if they are the same identity, so distinct identities never collide as registry keys |
| Characters.Find | ba_data/python/bastd/characters/character.py:18-36 | a search of identities by display string returns the first listed identity that displays as the name, and finds none only when no listed identity does |
| Characters.FromValueRoundTrip | ba_data/python/bastd/characters/character.py:18-36 | a by-value enumeration lookup of a member's display string returns that member |
| Characters.FromValueCharacterises | ba_data/python/bastd/characters/character.py:18-36 | a by-value lookup succeeds exactly for strings that some identity displays as, and what it returns displays as the string |
| Inputs.ExactlyThreeKinds | ba_data/python/bastd/characters/inputs.py:12-24 | there are exactly three input event kinds: double jump, double punch and double pickup |
| Inputs.KindTestExclusive | ba_data/python/bastd/characters/inputs.py:12-24 | no message passes the type test of two different kinds, and a host message passes none |
| Inputs.SameKindEqual | ba_data/python/bastd/characters/inputs.py:12-24 | the events carry no fields, so any two messages of the same kind are equal |
| Registry.Empty | ba_data/python/bastd/characters/character.py:15 | the registry starts with no entries |
| Registry.Lookup | ba_data/python/bastd/characters/character.py:80 | a dictionary `get` finds a class exactly for registered names, returns the stored class, and never fails on an unknown name |
| Registry.Register | ba_data/python/bastd/characters/character.py:39-49 | after registration the identity's display string finds the class; the key set grows by exactly that key; every other entry is unchanged |
| Registry.LastWriterWins | ba_data/python/bastd/characters/character.py:49 | registering an identity a second time replaces the first class without error and leaves no trace of it |
| Registry.RegisterIdempotent | ba_data/python/bastd/characters/character.py:49 | registering the same identity and class twice gives the same registry as registering once |
| Registry.RegisterFrame | ba_data/python/bastd/characters/character.py:49 | a registration changes the lookup of no name other than its identity's display string |
| Registry.RegisterDistinctCommute | ba_data/python/bastd/characters/character.py:18-49 | registrations of distinct identities commute, and neither overwrites the other |
| Registry.BootstrapSnoc | ba_data/python/bastd/characters/character.py:49 | loading one more registration call applies exactly one more registration to the registry built so far |
| Registry.BootstrapLookup | ba_data/python/bastd/characters/character.py:39-49 | after a sequence of registration calls, a name finds the class of the last call for it; names no call touched answer as before |
| Registry.BootstrapKeys | ba_data/python/bastd/characters/character.py:39-49 | loading adds exactly the display strings of the identities registered |
| FrostyAbility.ModifySpaz | ba_data/python/bastd/characters/modified/frosty.py:24-25 | Frosty's spawn hook sets the bomb type to "ice" and leaves the spaz's name and attached ability alone |
| FrostyAbility.HandleMessage | ba_data/python/bastd/characters/modified/frosty.py:27-29 | Frosty writes its line for a double jump and produces nothing, without failing, for every other message |
| Abilities.ModifySpaz | ba_data/python/bastd/characters/character.py:55-62 | every ability's spawn hook keeps the spaz's name and attached ability; Frosty's gives ice bombs |
| Abilities.HandleMessage | ba_data/python/bastd/characters/character.py:64-71 | the message hook of the abilities in the repository (Frosty alone) ignores host messages that are not custom input events, and Frosty's reacts exactly to double jumps |
| Abilities.LoadedRegistersFrosty | ba_data/python/bastd/characters/modified/frosty.py:33 | once the ability modules are loaded, "Frosty" finds the Frosty ability and no other name is registered |
| Dispatch.Attach | ba_data/python/bastd/characters/character.py:86 | storing an ability on the spaz makes it the attached ability and changes nothing else |
| Dispatch.HandleSpaz | ba_data/python/bastd/characters/character.py:77-87 | an unregistered name leaves the spaz unchanged; a registered one attaches that class and then runs its spawn hook once on the attached spaz, keeping the name |
| Dispatch.HandleInputs | ba_data/python/bastd/characters/character.py:90-96 | a message to an unattached spaz has no effect; to an attached one it is handed to that ability's handler |
| Dispatch.SpawnedSpazForwardsToRegistered | ba_data/python/bastd/characters/character.py:77-96 | once `handle_spaz` has run, each message goes to the handler of the class registered under the spaz's name; a spaz spawned under an unregistered name ignores every message |
| Dispatch.DeliverAllAppend | ba_data/python/bastd/characters/character.py:90-96 | the effects of a message stream are those of its first part followed by those of the rest |
| Dispatch.ForwardsInOrder | ba_data/python/bastd/characters/character.py:95-96 | each message reaches the attached ability exactly once, after every message delivered before it |
| Dispatch.UnattachedIgnoresAll | ba_data/python/bastd/characters/character.py:95 | no stream of messages to an unattached spaz has any effect |
| Dispatch.FrostyCountsDoubleJumps | ba_data/python/bastd/characters/modified/frosty.py:27-29 | a spaz with Frosty attached writes one line per double jump and nothing else |
| Dispatch.Spawn | ba_data/python/bastd/characters/character.py:77-87 | a freshly spawned spaz ends up with an ability exactly when its name is registered, that ability is the class registered under its name, and it keeps its bomb type when the name is not registered |
| Dispatch.LoadedSpawn | ba_data/python/bastd/characters/modified/frosty.py:24-33 | with the modules loaded, exactly the spazes spawned as "Frosty" get an ability; theirs is Frosty and their bomb type is "ice" |
| Dispatch.FrostyJumpThenPunch | ba_data/python/bastd/characters/modified/frosty.py:27-33 | a spawned Frosty sent one double jump and one double punch writes exactly one line |

## Left out

- The spaz actor's physics, rendering and spawning belong to the host engine. The spaz is a record of the three fields the framework reads or writes.
- Python's `setattr`/`hasattr` probe for an attached ability is replaced by the explicit `character` option field.
- Frosty's `print` is an `Effect` value returned by the dispatch functions. No console is modelled.
- `bastd/characters/__init__.py` only re-exports names and imports the ability modules. The import side effect is the explicit `Abilities.ModuleRegistrations` sequence fed to `Registry.Bootstrap`.
- Abilities.ModifySpaz: promises that every ability's spawn hook keeps the spaz's name and attachment. The abstract `Character` class (character.py:55-62) lets `modify_spaz` change anything on the spaz; the promise holds because Frosty, the only ability in the repository, keeps both.
- Abilities.HandleMessage: promises that host messages other than the three custom input events produce no effect. The dispatcher forwards every message (character.py:90-96) and the abstract hook (character.py:64-71) lets an ability react to any of them; the promise holds only for the closed set of abilities here, which is Frosty alone.
- Characters.FromValue: returns `None` for a string that is no member's display string, where Python's `Characters(s)` raises `ValueError`. The framework never performs this lookup: `register_character` uses the member's `.value` and `handle_spaz` looks up the raw name. It is kept as the inverse against which the distinctness of display strings is proved.
- Abilities are stateless here. An attached instance is identified with its class. An ability that kept per-instance state, or kept the spaz from `modify_spaz` and changed it later, is not modelled. Frosty does neither.
- The host's other message types appear only as `Other(typeName)`. Their contents do not matter to the framework.
- Application utilities, host hooks and the plugin settings window are host I/O, threading and UI code. They are not part of this model.
