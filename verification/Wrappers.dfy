/** Optional values, powers of 256, and the ranges of the machine integers. */
module Wrappers {
  datatype Option<+T> = None | Some(value: T)
  {
    function UnwrapOr(default: T): T {
      match this
      case None => default
      case Some(v) => v
    }
  }

  function Get<K, V>(m: map<K, V>, k: K): Option<V> { if k in m then Some(m[k]) else None }

  /** An optional sequence with something put before it. */
  function Prefixed<T>(before: seq<T>, r: Option<seq<T>>): Option<seq<T>> {
    match r
    case None => None
    case Some(rest) => Some(before + rest)
  }

  lemma PrefixedMore<T>(before: seq<T>, more: seq<T>, r: Option<seq<T>>)
    ensures Prefixed([], r) == r && Prefixed(before, Some([])) == Some(before)
    ensures Prefixed(before, Prefixed(more, r)) == Prefixed(before + more, r)
  {
    if r.Some? {
      assert [] + r.value == r.value && before + (more + r.value) == before + more + r.value;
    }
    assert before + [] == before;
  }

  function Power256(k: nat): (p: nat)
    ensures p > 0
  {
    if k == 0 then 1 else 256 * Power256(k - 1)
  }

  const MIN_I64: int := -0x8000_0000_0000_0000
  const MAX_I64: int := 0x7fff_ffff_ffff_ffff
  const MAX_U64: nat := 0xffff_ffff_ffff_ffff
  const MAX_I32: int := 0x7fff_ffff
}
