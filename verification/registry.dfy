/** The process-wide `CHARACTERS` registry: display string to ability class.
    It is generic in the ability type `K`, since the registry neither knows
    nor inspects what it stores. */
module Registry {
  import opened Optional
  import opened Characters

  type Registry<K> = map<string, K>

  /** The registry before any ability module has loaded. */
  function Empty<K>(): (r: Registry<K>)
    ensures r.Keys == {}
  {
    map[]
  }

  /** `CHARACTERS.get(name)`: the registered class, or nothing. Never fails. */
  function Lookup<K>(reg: Registry<K>, name: string): (r: Option<K>)
    ensures r.Some? <==> name in reg
    ensures r.Some? ==> reg[name] == r.value
  {
    if name in reg then Some(reg[name]) else None
  }

  /** `register_character(character, cls)`: store `cls` under the identity's
      display string, replacing whatever was there, without complaint. */
  function Register<K>(reg: Registry<K>, c: Character, cls: K): (r: Registry<K>)
    ensures Lookup(r, Value(c)) == Some(cls)
    ensures r.Keys == reg.Keys + {Value(c)}
    ensures forall name :: name in reg && name != Value(c) ==> r[name] == reg[name]
  {
    reg[Value(c) := cls]
  }

  /** Registering the same identity again: the later class wins and the
      earlier registration leaves no trace. */
  lemma LastWriterWins<K>(reg: Registry<K>, c: Character, k1: K, k2: K)
    ensures Register(Register(reg, c, k1), c, k2) == Register(reg, c, k2)
    ensures Lookup(Register(Register(reg, c, k1), c, k2), Value(c)) == Some(k2)
  {
  }

  /** Registering the same pair twice is the same as registering it once. */
  lemma RegisterIdempotent<K>(reg: Registry<K>, c: Character, k: K)
    ensures Register(Register(reg, c, k), c, k) == Register(reg, c, k)
  {
  }

  /** Every lookup except the registered identity's answers as before. */
  lemma RegisterFrame<K>(reg: Registry<K>, c: Character, k: K, name: string)
    requires name != Value(c)
    ensures Lookup(Register(reg, c, k), name) == Lookup(reg, name)
  {
  }

  /** Registrations of distinct identities do not interfere: their order does
      not matter and each survives the other. */
  lemma RegisterDistinctCommute<K>(reg: Registry<K>, c1: Character, k1: K, c2: Character, k2: K)
    requires c1 != c2
    ensures Register(Register(reg, c1, k1), c2, k2) == Register(Register(reg, c2, k2), c1, k1)
    ensures Lookup(Register(Register(reg, c1, k1), c2, k2), Value(c1)) == Some(k1)
  {
  }

  /** The registry after a sequence of `register_character` calls made in
      load order, starting from `reg`. */
  function Bootstrap<K>(reg: Registry<K>, calls: seq<(Character, K)>): (r: Registry<K>)
    decreases |calls|
  {
    if calls == [] then reg
    else Bootstrap(Register(reg, calls[0].0, calls[0].1), calls[1..])
  }

  /** Reference definition: the class passed by the LAST call that named a
      character displaying as `name`, found by scanning the calls backwards. */
  function LastRegistered<K>(calls: seq<(Character, K)>, name: string): Option<K>
    decreases |calls|
  {
    if calls == [] then None
    else if Value(calls[|calls| - 1].0) == name then Some(calls[|calls| - 1].1)
    else LastRegistered(calls[..|calls| - 1], name)
  }

  /** One more call at the end of the load sequence is one more registration
      on the registry built so far. */
  lemma {:induction false} BootstrapSnoc<K>(reg: Registry<K>, calls: seq<(Character, K)>, call: (Character, K))
    ensures Bootstrap(reg, calls + [call]) == Register(Bootstrap(reg, calls), call.0, call.1)
    decreases |calls|
  {
    if calls == [] {
      assert [] + [call] == [call];
    } else {
      assert (calls + [call])[1..] == calls[1..] + [call];
      BootstrapSnoc(Register(reg, calls[0].0, calls[0].1), calls[1..], call);
    }
  }

  /** Last writer wins over a whole load sequence: a name answers with the
      class of the last call that registered it, and names no call touched
      answer as they did before loading. */
  lemma {:induction false} BootstrapLookup<K>(reg: Registry<K>, calls: seq<(Character, K)>, name: string)
    ensures LastRegistered(calls, name).Some? ==> Lookup(Bootstrap(reg, calls), name) == LastRegistered(calls, name)
    ensures LastRegistered(calls, name).None? ==> Lookup(Bootstrap(reg, calls), name) == Lookup(reg, name)
    decreases |calls|
  {
    if calls != [] {
      var front := calls[..|calls| - 1];
      var last := calls[|calls| - 1];
      assert calls == front + [last];
      BootstrapSnoc(reg, front, last);
      BootstrapLookup(reg, front, name);
    }
  }

  /** Loading adds exactly the keys of the identities it registers. */
  lemma {:induction false} BootstrapKeys<K>(reg: Registry<K>, calls: seq<(Character, K)>)
    ensures Bootstrap(reg, calls).Keys == reg.Keys + set i | 0 <= i < |calls| :: Value(calls[i].0)
    decreases |calls|
  {
    if calls != [] {
      var reg' := Register(reg, calls[0].0, calls[0].1);
      BootstrapKeys(reg', calls[1..]);
      var rest := set i | 0 <= i < |calls[1..]| :: Value(calls[1..][i].0);
      var all := set i | 0 <= i < |calls| :: Value(calls[i].0);
      assert all == {Value(calls[0].0)} + rest by {
        forall x | x in all ensures x in {Value(calls[0].0)} + rest {
          var i :| 0 <= i < |calls| && x == Value(calls[i].0);
          if i > 0 {
            assert x == Value(calls[1..][i - 1].0);
          }
        }
        forall x | x in rest ensures x in all {
          var i :| 0 <= i < |calls[1..]| && x == Value(calls[1..][i].0);
          assert x == Value(calls[i + 1].0);
        }
      }
    }
  }

}
