/** The `Characters` enumeration: one identity per playable character kind,
    each with a fixed display string. The display string is what the ability
    registry is keyed by and what a spawned spaz carries as its
    `character_name`. */
module Characters {
  import opened Optional

  datatype Character =
    | Kronk | Zoe | JackMorgan | Mel | SnakeShadow | Bones | Bernard | Wizard
    | Pascal | Frosty | Cyborg | Pixie | Agent | TaobaoMascot | Santa | Bunny

  /** The enumeration member's `value`: its display string. */
  function Value(c: Character): string
  {
    match c
    case Kronk => "Kronk"
    case Zoe => "Zoe"
    case JackMorgan => "Jack Morgan"
    case Mel => "Mel"
    case SnakeShadow => "Snake Shadow"
    case Bones => "Bones"
    case Bernard => "Bernard"
    case Wizard => "Grumbledorf"
    case Pascal => "Pascal"
    case Frosty => "Frosty"
    case Cyborg => "B-9000"
    case Pixie => "Pixel"
    case Agent => "Agent Johnson"
    case TaobaoMascot => "Taobao Mascot"
    case Santa => "Santa Claus"
    case Bunny => "Easter Bunny"
  }

  /** The members in declaration order, as iterating the enumeration yields them. */
  const All: seq<Character> :=
    [ Kronk, Zoe, JackMorgan, Mel, SnakeShadow, Bones, Bernard, Wizard,
      Pascal, Frosty, Cyborg, Pixie, Agent, TaobaoMascot, Santa, Bunny ]

  /** Every identity is listed exactly once, and there are sixteen of them. */
  lemma AllIsComplete(c: Character)
    ensures c in All
    ensures |All| == 16
    ensures forall i, j :: 0 <= i < j < |All| ==> All[i] != All[j]
  {
  }

  /** No two listed identities share a display string. In Python a repeated
      value would silently turn the later member into an alias of the earlier
      one; here every member is its own. */
  lemma ValuesDistinct()
    ensures forall i, j :: 0 <= i < j < |All| ==> Value(All[i]) != Value(All[j])
  {
  }

  /** Distinct identities never collide as registry keys. */
  lemma ValueInjective(a: Character, b: Character)
    ensures Value(a) == Value(b) <==> a == b
  {
  }

  /** The first member of `cs` whose display string is `s`, or nothing when
      no member of `cs` displays as `s`. */
  function Find(s: string, cs: seq<Character>): (r: Option<Character>)
    ensures r.Some? ==> r.value in cs && Value(r.value) == s
    ensures r.Some? ==>
      exists i :: 0 <= i < |cs| && cs[i] == r.value && forall j :: 0 <= j < i ==> Value(cs[j]) != s
    ensures r.None? ==> forall i :: 0 <= i < |cs| ==> Value(cs[i]) != s
  {
    if cs == [] then None
    else if Value(cs[0]) == s then Some(cs[0])
    else Find(s, cs[1..])
  }

  /** By-value lookup `Characters(s)`: the identity whose display string is
      `s`, or nothing for a name that is not a character kind (where Python
      raises `ValueError`). Defined by a search of the members in declaration
      order; since display strings are distinct, at most one can match. */
  function FromValue(s: string): Option<Character>
  {
    Find(s, All)
  }

  /** Looking up a member's own display string gives back that member. */
  lemma FromValueRoundTrip(c: Character)
    ensures FromValue(Value(c)) == Some(c)
  {
    AllIsComplete(c);
    var r := FromValue(Value(c));
    assert r.Some?;
    ValueInjective(r.value, c);
  }

  /** A name is found exactly when some identity displays as it, and what is
      found displays as that name. */
  lemma FromValueCharacterises(s: string)
    ensures FromValue(s).Some? <==> exists c :: Value(c) == s
    ensures FromValue(s).Some? ==> Value(FromValue(s).value) == s
  {
    if c :| Value(c) == s {
      FromValueRoundTrip(c);
    }
  }

}
