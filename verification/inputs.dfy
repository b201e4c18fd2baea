/** The custom input events a modified spaz can receive, and the messages a
    spaz's ability is handed in general. The three event kinds are payload-free
    records; every other message the host sends a spaz is only known by the
    name of its type. */
module Inputs {

  /** The three event dataclasses. */
  datatype InputKind = DoubleJump | DoublePunch | DoublePickup

  /** A message delivered to a spaz: one of the three events (it carries no
      fields beyond its kind), or any other host message. */
  datatype Message = Input(kind: InputKind) | Other(typeName: string)

  const AllKinds: seq<InputKind> := [DoubleJump, DoublePunch, DoublePickup]

  /** The type test `isinstance(msg, <kind>Message)`. */
  predicate IsInstance(m: Message, k: InputKind)
  {
    m.Input? && m.kind == k
  }

  /** There are exactly three event kinds, each listed once. */
  lemma ExactlyThreeKinds(k: InputKind)
    ensures k in AllKinds
    ensures |AllKinds| == 3
    ensures AllKinds[0] != AllKinds[1] && AllKinds[1] != AllKinds[2] && AllKinds[0] != AllKinds[2]
  {
  }

  /** The kind test is exclusive: no message passes the test for two kinds,
      and a host message passes none. */
  lemma KindTestExclusive(m: Message, k1: InputKind, k2: InputKind)
    ensures IsInstance(m, k1) && IsInstance(m, k2) ==> k1 == k2
    ensures m.Other? ==> !IsInstance(m, k1)
  {
  }

  /** Dataclass equality over zero fields: two messages of the same kind are
      equal, and every message of a kind is the one `Input(kind)`. */
  lemma SameKindEqual(m1: Message, m2: Message, k: InputKind)
    requires IsInstance(m1, k) && IsInstance(m2, k)
    ensures m1 == m2 == Input(k)
  {
  }

  /** How many messages of `msgs` pass the test for kind `k`. */
  function CountKind(msgs: seq<Message>, k: InputKind): (n: nat)
    ensures n <= |msgs|
    ensures n == 0 <==> forall i :: 0 <= i < |msgs| ==> !IsInstance(msgs[i], k)
  {
    if msgs == [] then 0
    else (if IsInstance(msgs[0], k) then 1 else 0) + CountKind(msgs[1..], k)
  }

}
