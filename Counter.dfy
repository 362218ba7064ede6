/**
  SafeCounter (slack-emoji-ranking.go:184-204): a dictionary from reaction
  name to a running Go `int` total. The mutex that guards the map is not
  modelled: nothing in the program calls the counter concurrently.
  */
module Counter {

  import opened GoInt

  /** Reading a Go map: a missing key reads as the zero value. */
  function Get(m: map<string, Int>, key: string): Int
  {
    if key in m then m[key] else 0
  }

  class SafeCounter {
    var v: map<string, Int>

    /** A counter over an empty map, as `main` creates it. */
    constructor ()
      ensures v == map[]
    {
      v := map[];
    }

    /** Adds `cnt` to the count of `key`, a missing key counting as 0; the
        sum wraps around like any Go `int` addition. */
    method Inc(key: string, cnt: Int)
      modifies this
      ensures v == old(v)[key := Wrap(Get(old(v), key) + cnt)]
      ensures v.Keys == old(v).Keys + {key}
      ensures forall k :: k in old(v) && k != key ==> v[k] == old(v)[k]
    {
      v := v[key := Wrap(Get(v, key) + cnt)];
    }

    /** The current count of `key`, 0 when it was never incremented. */
    method Value(key: string) returns (r: Int)
      ensures key in v ==> r == v[key]
      ensures key !in v ==> r == 0
    {
      r := Get(v, key);
    }
  }
}
