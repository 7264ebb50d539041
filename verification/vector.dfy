/** The growable array of vector.c, as a sequence of in-use slots plus a
    capacity. vec_push_back with a NULL source pointer leaves the new slot
    unwritten, so it holds whatever the storage held there: uninitialised
    bytes, or an element a pop left behind. The model writes that slot as
    `None` and says nothing about its bytes. The data pointer is NULL
    exactly when the capacity is 0, because the only allocation is the one
    that raises it. */
module Vector {
  import opened Base

  datatype Vec<T> = Vec(cells: seq<Option<T>>, capacity: nat) {

    function Size(): nat {
      |cells|
    }

    /** The data pointer is non-NULL. */
    predicate HasData() {
      capacity > 0
    }
  }

  /** n is 1, 2, 4, 8, ... */
  predicate IsPowerOfTwo(n: nat)
    decreases n
  {
    n == 1 || (n >= 2 && n % 2 == 0 && IsPowerOfTwo(n / 2))
  }

  /** The representation invariant every operation keeps. */
  predicate Valid<T>(v: Vec<T>) {
    v.Size() <= v.capacity && (v.capacity == 0 || IsPowerOfTwo(v.capacity))
  }

  /** vec_init: empty, no storage. */
  function Init<T>(): (v: Vec<T>)
    ensures v.Size() == 0 && v.capacity == 0 && !v.HasData()
    ensures Valid(v)
  {
    Vec([], 0)
  }

  /** The capacity vec_push_back reallocates to when the array is full. */
  function Grown(capacity: nat): nat {
    if capacity == 0 then 1 else capacity * 2
  }

  /** vec_push_back: reallocate when full, then store the element (when the
      source pointer is non-NULL) at the old size. */
  function PushBack<T>(v: Vec<T>, x: Option<T>): (w: Vec<T>)
    ensures w.Size() == v.Size() + 1
    ensures w.cells[..v.Size()] == v.cells && w.cells[v.Size()] == x
    ensures w.capacity >= v.capacity
    ensures w.capacity != v.capacity ==> v.Size() == v.capacity
    ensures Valid(v) ==> Valid(w) && w.HasData()
  {
    var cap := if v.Size() == v.capacity then Grown(v.capacity) else v.capacity;
    Vec(v.cells + [x], cap)
  }

  /** vec_pop_back: decrements the size without a check, so the caller must
      know the array is non-empty. */
  function PopBack<T>(v: Vec<T>): (w: Vec<T>)
    requires v.Size() > 0
    ensures w.Size() == v.Size() - 1
    ensures w.capacity == v.capacity
    ensures forall i :: 0 <= i < w.Size() ==> w.cells[i] == v.cells[i]
    ensures Valid(v) ==> Valid(w)
  {
    Vec(v.cells[..v.Size() - 1], v.capacity)
  }

  /** vec_at, for an index below the size. */
  function At<T>(v: Vec<T>, i: nat): (x: Option<T>)
    requires i < v.Size()
    ensures x in v.cells
  {
    v.cells[i]
  }

  /** Pushing then popping gives back the original contents. */
  lemma PopUndoesPush<T>(v: Vec<T>, x: Option<T>)
    ensures PopBack(PushBack(v, x)).cells == v.cells
    ensures PopBack(PushBack(v, x)).capacity >= v.capacity
  {
  }

  /** Pushes every element of xs in order. */
  function PushAll<T>(v: Vec<T>, xs: seq<T>): Vec<T>
    decreases |xs|
  {
    if |xs| == 0 then v else PushAll(PushBack(v, Some(xs[0])), xs[1..])
  }

  /** A vector built by pushes alone holds exactly the pushed elements, and
      never holds more than twice the storage it needs. */
  lemma {:induction false} PushAllFromInit<T>(v: Vec<T>, xs: seq<T>)
    requires Valid(v)
    requires v.Size() > 0 ==> v.capacity < 2 * v.Size()
    requires v.Size() == 0 ==> v.capacity == 0
    ensures var w := PushAll(v, xs);
      && Valid(w)
      && w.Size() == v.Size() + |xs|
      && w.cells[..v.Size()] == v.cells
      && (forall i :: 0 <= i < |xs| ==> w.cells[v.Size() + i] == Some(xs[i]))
      && (w.Size() > 0 ==> w.capacity < 2 * w.Size())
    decreases |xs|
  {
    if |xs| > 0 {
      var v' := PushBack(v, Some(xs[0]));
      PushAllFromInit(v', xs[1..]);
      var w := PushAll(v', xs[1..]);
      assert w.cells[..v'.Size()] == v'.cells;
      assert w.cells[..v.Size()] == w.cells[..v'.Size()][..v.Size()];
      forall i | 0 <= i < |xs|
        ensures w.cells[v.Size() + i] == Some(xs[i])
      {
        if i > 0 {
          assert xs[1..][i - 1] == xs[i];
        } else {
          assert w.cells[v.Size()] == w.cells[..v'.Size()][v.Size()];
        }
      }
    }
  }
}
