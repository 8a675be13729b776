/** What several modules need: a value that may be missing, and addresses that are not in use. */
module Wrappers {

  datatype Option<T> = None | Some(value: T)

  /** An address that malloc may return: not NULL, and not that of an allocation. */
  lemma FreshAddress<T>(m: map<nat, T>)
    ensures exists p: nat :: p != 0 && p !in m
  {
    var bound := Above(m.Keys);
    assert bound + 1 !in m;
  }

  ghost function Above(ps: set<nat>): (n: nat)
    ensures forall p :: p in ps ==> p <= n
  {
    if ps == {} then 0
    else
      var q :| q in ps;
      var n := Above(ps - {q});
      assert forall p :: p in ps ==> p == q || p in ps - {q};
      if q > n then q else n
  }
}
