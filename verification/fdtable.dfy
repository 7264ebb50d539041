/** The kernel's descriptor allocator, abstracted: open, pipe2 and
    fcntl(F_DUPFD_CLOEXEC) all return the lowest descriptor that is not in
    use and is at least some floor. */
module FdTable {

  /** The descriptors of `s` that are at least `k`. */
  function From(s: set<nat>, k: nat): set<nat> {
    set x | x in s && x >= k
  }

  lemma FromShrinks(s: set<nat>, k: nat)
    requires k in s
    ensures |From(s, k + 1)| < |From(s, k)|
  {
    assert From(s, k) == From(s, k + 1) + {k};
  }

  /** The lowest descriptor that is at least `k` and not in `s`. */
  function LowestFreeFrom(s: set<nat>, k: nat): (r: nat)
    ensures r >= k && r !in s
    ensures forall m :: k <= m < r ==> m in s
    decreases |From(s, k)|
  {
    if k in s then FromShrinks(s, k); LowestFreeFrom(s, k + 1) else k
  }

  /** The lowest free descriptor, as open and pipe2 return it. */
  function LowestFree(s: set<nat>): (r: nat)
    ensures r !in s
    ensures forall m :: 0 <= m < r ==> m in s
  {
    LowestFreeFrom(s, 0)
  }

  /** A shell holding exactly 0, 1 and 2 gets 3 from its next open. */
  lemma LowestFreeAboveStdio()
    ensures LowestFree({0, 1, 2}) == 3
  {
    var r := LowestFree({0, 1, 2});
    assert r >= 3;
    assert 3 !in {0, 1, 2};
  }

  /** Freeing a descriptor below the lowest free one makes it the lowest. */
  lemma LowestFreeAfterClose(s: set<nat>, f: nat)
    requires f in s && f < LowestFree(s)
    ensures LowestFree(s - {f}) == f
  {
    var r := LowestFree(s - {f});
    assert f !in s - {f};
    assert forall m: nat :: m < f ==> m in s - {f};
  }
}
