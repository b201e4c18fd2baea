/** The two entry points the spaz calls: `handle_spaz` when it spawns and
    `handle_inputs` for each message it receives afterwards. A spaz with no
    registered ability stays unattached, and every message to it is dropped. */
module Dispatch {
  import opened Actor
  import opened Inputs
  import opened Optional
  import opened Registry
  import opened Abilities
  import FrostyAbility

  /** The spaz with a new instance of ability `a` stored on it. Abilities hold
      no per-instance state, so an instance is determined by its class. */
  function Attach(s: Spaz<Ability>, a: Ability): (r: Spaz<Ability>)
    ensures r.character == Some(a)
    ensures r.characterName == s.characterName && r.bombType == s.bombType
  {
    s.(character := Some(a))
  }

  /** `handle_spaz`: look the spaz's name up; if no class is registered return
      the spaz untouched; otherwise attach an instance of the class and then
      run its `modify_spaz` hook once on the attached spaz. */
  function HandleSpaz(reg: Registry<Ability>, s: Spaz<Ability>): (r: Spaz<Ability>)
    ensures Lookup(reg, s.characterName).None? ==> r == s
    ensures Lookup(reg, s.characterName).Some? ==>
      var a := Lookup(reg, s.characterName).value;
      && r.character == Some(a)
      && r.characterName == s.characterName
      && r == ModifySpaz(a, Attach(s, a))
  {
    match Lookup(reg, s.characterName)
    case None => s
    case Some(a) => ModifySpaz(a, Attach(s, a))
  }

  /** `handle_inputs`: forward the message to the attached ability's
      `handlemessage`, once; without an attached ability, do nothing. The
      spaz itself is never changed by a message. */
  function HandleInputs(s: Spaz<Ability>, m: Message): (r: seq<Effect>)
    ensures Unattached(s) ==> r == []
    ensures s.character.Some? ==> r == HandleMessage(s.character.value, m)
  {
    match s.character
    case None => []
    case Some(a) => HandleMessage(a, m)
  }

  /** The effects of delivering `msgs` to the spaz one after another, in the
      order the host sends them. */
  function DeliverAll(s: Spaz<Ability>, msgs: seq<Message>): seq<Effect>
    decreases |msgs|
  {
    if msgs == [] then []
    else HandleInputs(s, msgs[0]) + DeliverAll(s, msgs[1..])
  }

  /** Delivery order is kept: the effects of a stream are the effects of its
      first part followed by those of the rest. */
  lemma {:induction false} DeliverAllAppend(s: Spaz<Ability>, a: seq<Message>, b: seq<Message>)
    ensures DeliverAll(s, a + b) == DeliverAll(s, a) + DeliverAll(s, b)
    decreases |a|
  {
    if a == [] {
      assert a + b == b;
    } else {
      assert (a + b)[1..] == a[1..] + b;
      DeliverAllAppend(s, a[1..], b);
    }
  }

  /** Each message reaches the attached ability exactly once, after all the
      messages delivered before it. */
  lemma ForwardsInOrder(s: Spaz<Ability>, a: Ability, msgs: seq<Message>, m: Message)
    requires s.character == Some(a)
    ensures DeliverAll(s, msgs + [m]) == DeliverAll(s, msgs) + HandleMessage(a, m)
  {
    DeliverAllAppend(s, msgs, [m]);
    assert DeliverAll(s, [m]) == HandleInputs(s, m) + DeliverAll(s, []);
  }

  /** No message to an unattached spaz has any effect. */
  lemma {:induction false} UnattachedIgnoresAll(s: Spaz<Ability>, msgs: seq<Message>)
    requires Unattached(s)
    ensures DeliverAll(s, msgs) == []
    decreases |msgs|
  {
    if msgs != [] {
      UnattachedIgnoresAll(s, msgs[1..]);
    }
  }

  /** A spaz with Frosty attached writes one line per double jump it is sent
      and nothing for any other message. */
  lemma {:induction false} FrostyCountsDoubleJumps(s: Spaz<Ability>, msgs: seq<Message>)
    requires s.character == Some(Frosty)
    ensures |DeliverAll(s, msgs)| == CountKind(msgs, DoubleJump)
    ensures forall i :: 0 <= i < |DeliverAll(s, msgs)| ==>
      DeliverAll(s, msgs)[i] == Printed(FrostyAbility.DoubleJumpLine)
    decreases |msgs|
  {
    if msgs != [] {
      FrostyCountsDoubleJumps(s, msgs[1..]);
      var head := HandleInputs(s, msgs[0]);
      assert head == FrostyAbility.HandleMessage(msgs[0]);
      assert DeliverAll(s, msgs) == head + DeliverAll(s, msgs[1..]);
    }
  }

  /** The two entry points together: after `handle_spaz`, every message goes
      to the handler of the class registered under the spaz's name, and a spaz
      spawned under an unregistered name ignores every message. */
  lemma SpawnedSpazForwardsToRegistered(reg: Registry<Ability>, s: Spaz<Ability>, m: Message)
    ensures s.characterName in reg ==>
      HandleInputs(HandleSpaz(reg, s), m) == HandleMessage(reg[s.characterName], m)
    ensures s.characterName !in reg && Unattached(s) ==> HandleInputs(HandleSpaz(reg, s), m) == []
  {
  }

  /** A spaz as the host spawns it, after `handle_spaz` has run. */
  function Spawn(reg: Registry<Ability>, name: string, bombType: string): (r: Spaz<Ability>)
    ensures r.characterName == name
    ensures r.character.Some? <==> name in reg
    ensures name in reg ==> r.character == Some(reg[name])
    ensures name !in reg ==> r.bombType == bombType
  {
    HandleSpaz(reg, Spaz(name, bombType, None))
  }

  /** With the abilities loaded, exactly the spazes spawned as "Frosty" get an
      ability, and theirs is Frosty with ice bombs. */
  lemma LoadedSpawn(name: string, bombType: string)
    ensures Spawn(Loaded(), name, bombType).character.Some? <==> name == "Frosty"
    ensures name == "Frosty" ==>
      && Spawn(Loaded(), name, bombType).character == Some(Frosty)
      && Spawn(Loaded(), name, bombType).bombType == "ice"
  {
  }

  /** Spawn Frosty, then send one double jump and one double punch: exactly
      one line is written. */
  lemma FrostyJumpThenPunch(bombType: string)
    ensures |DeliverAll(Spawn(Loaded(), "Frosty", bombType), [Input(DoubleJump), Input(DoublePunch)])| == 1
  {
  }

}
