/** Small vocabulary shared by every module of the project. */
module Prelude {

  datatype Option<+T> = None | Some(value: T) {
    function GetOr(default: T): T {
      if Some? then value else default
    }
  }

  datatype Result<+T, +E> = Ok(value: T) | Err(error: E)

  /** A caller, by tenant, principal and agent: the key for captures, frames and interactions. */
  datatype Owner = Owner(tid: string, oid: string, appId: string)

  /** A node's SPIFFE identity. */
  type Svid = string

  function Min(a: int, b: int): int {
    if a < b then a else b
  }

  function Max(a: int, b: int): int {
    if a < b then b else a
  }

  lemma {:induction false} SubmapIsNoLarger<K, V>(less: map<K, V>, more: map<K, V>)
    requires less.Keys <= more.Keys
    ensures |less| <= |more|
    decreases |less|
  {
    if less != map[] {
      var k :| k in less;
      SubmapIsNoLarger(less - {k}, more - {k});
    }
  }

  lemma SizeWithout<K, V>(m: map<K, V>, k: K)
    requires k in m
    ensures |m - {k}| == |m| - 1
  {
    assert |m| == |m.Keys| && (m - {k}).Keys == m.Keys - {k};
    assert |m - {k}| == |(m - {k}).Keys|;
  }

  lemma SizeWith<K, V>(m: map<K, V>, k: K, v: V)
    ensures |m[k := v]| == if k in m then |m| else |m| + 1
  {
    assert |m| == |m.Keys| && m[k := v].Keys == m.Keys + {k};
    assert |m[k := v]| == |m[k := v].Keys|;
  }
}
