/**
 * The generic container and the generic free functions of the
 * GenericType playground: a FIFO `Queue`, its `peek` extension,
 * `mid` (lower median of a sorted copy), `pairs` (the entries of a
 * dictionary) and the `Int` and `String` instances of `add`.
 */
module GenericType {
  import opened Wrappers

  // ---------------------------------------------------------------------
  // Queue<Element>
  // ---------------------------------------------------------------------

  /** A first-in-first-out queue over one backing sequence; the front is index 0. */
  class Queue<T> {
    var elements: seq<T>

    /** `Queue<Int>()`: a new queue is empty. */
    constructor ()
      ensures elements == []
    {
      elements := [];
    }

    /** `enqueue(newElement:)`: appends to the back; nothing else changes. */
    method Enqueue(newElement: T)
      modifies this
      ensures elements == old(elements) + [newElement]
      ensures |elements| == |old(elements)| + 1
    {
      elements := elements + [newElement];
    }

    /**
     * `dequeue()`: `nil` on an empty queue, which is left as it was;
     * otherwise removes the front element and returns it.
     */
    method Dequeue() returns (r: Option<T>)
      modifies this
      ensures old(elements) == [] ==> r == None && elements == old(elements)
      ensures old(elements) != [] ==> r == Some(old(elements)[0]) && elements == old(elements)[1..]
    {
      if elements == [] {
        return None;
      }
      r := Some(elements[0]);
      elements := elements[1..];
    }

    /**
     * `peek()`: the element the next `dequeue` would return, or `nil`;
     * being a function, it cannot change the queue.
     */
    function Peek(): (r: Option<T>)
      reads this
      ensures r == None <==> elements == []
      ensures r.Some? ==> r.value == elements[0]
    {
      if elements == [] then None else Some(elements[0])
    }
  }

  /**
   * The playground's run: enqueue 4 and 2, dequeue three times (4, 2,
   * then nil, leaving the queue empty), enqueue 5 and 3, and peek (5).
   */
  method FifoExample() returns (first: Option<int>, second: Option<int>, third: Option<int>, front: Option<int>)
    ensures first == Some(4) && second == Some(2) && third == None
    ensures front == Some(5)
  {
    var q := new Queue<int>();
    q.Enqueue(4);
    q.Enqueue(2);
    first := q.Dequeue();
    second := q.Dequeue();
    third := q.Dequeue();
    assert q.elements == [];
    q.Enqueue(5);
    q.Enqueue(3);
    front := q.Peek();
    var again := q.Peek();
    assert again == front && q.elements == [5, 3];
  }

  /**
   * The FIFO law for any run: enqueueing `xs` into a new queue and then
   * dequeueing as many times returns the elements of `xs` in order, and
   * one more `dequeue` finds the queue empty.
   */
  method FillThenDrain<T>(xs: seq<T>) returns (out: seq<T>, last: Option<T>)
    ensures out == xs
    ensures last == None
  {
    var q := new Queue<T>();
    var i := 0;
    while i < |xs|
      invariant 0 <= i <= |xs|
      invariant q.elements == xs[..i]
    {
      q.Enqueue(xs[i]);
      i := i + 1;
    }
    out := [];
    i := 0;
    while i < |xs|
      invariant 0 <= i <= |xs|
      invariant out == xs[..i]
      invariant q.elements == xs[i..]
    {
      var r := q.Dequeue();
      out := out + [r.value];
      i := i + 1;
    }
    last := q.Dequeue();
  }

  // ---------------------------------------------------------------------
  // mid(array:) over Int
  // ---------------------------------------------------------------------

  predicate Sorted(s: seq<int>) {
    forall i, j :: 0 <= i < j < |s| ==> s[i] <= s[j]
  }

  /** Inserts `x` into a sorted sequence at its place. */
  function Insert(x: int, s: seq<int>): (r: seq<int>)
    ensures multiset(r) == multiset(s) + multiset{x}
    ensures Sorted(s) ==> Sorted(r)
  {
    if s == [] then [x]
    else if x <= s[0] then [x] + s
    else
      assert s == [s[0]] + s[1..];
      var t := Insert(x, s[1..]);
      InsertStep(x, s, t);
      [s[0]] + t
  }

  /** The recursive step of `Insert`: the head of `s` stays in front. */
  lemma InsertStep(x: int, s: seq<int>, t: seq<int>)
    requires s != [] && s[0] < x
    requires multiset(t) == multiset(s[1..]) + multiset{x}
    requires Sorted(s[1..]) ==> Sorted(t)
    ensures Sorted(s) ==> Sorted([s[0]] + t)
  {
    if Sorted(s) {
      SortedTail(s);
      forall i | 0 <= i < |t|
        ensures s[0] <= t[i]
      {
        assert t[i] in multiset(t);
        if t[i] != x {
          assert t[i] in s[1..];
        }
      }
      var r := [s[0]] + t;
      forall i, j | 0 <= i < j < |r|
        ensures r[i] <= r[j]
      {
        assert r[j] == t[j - 1];
        if i > 0 {
          assert r[i] == t[i - 1];
        }
      }
    }
  }

  /** `sorted()` on `[Int]`: an ascending permutation of the input. */
  function Sort(s: seq<int>): (r: seq<int>)
    ensures Sorted(r)
    ensures multiset(r) == multiset(s)
  {
    if s == [] then []
    else
      assert s == [s[0]] + s[1..];
      Insert(s[0], Sort(s[1..]))
  }

  /**
   * A sorted permutation is unique, so `Sort` is the result of any
   * correct sort, `sorted()` included.
   */
  lemma {:induction false} SortedPermutationUnique(a: seq<int>, b: seq<int>)
    requires Sorted(a) && Sorted(b)
    requires multiset(a) == multiset(b)
    ensures a == b
  {
    if a == [] {
      assert |b| == |multiset(b)| == 0;
    } else {
      assert |b| == |multiset(b)| == |multiset(a)| == |a|;
      SortedHeadLeast(a, b[0]);
      SortedHeadLeast(b, a[0]);
      HeadRest(a);
      HeadRest(b);
      MultisetCancel(a[0], multiset(a[1..]), multiset(b[1..]));
      SortedTail(a);
      SortedTail(b);
      SortedPermutationUnique(a[1..], b[1..]);
      assert a == [a[0]] + a[1..];
      assert b == [b[0]] + b[1..];
    }
  }

  lemma SortedHeadLeast(s: seq<int>, x: int)
    requires Sorted(s) && x in multiset(s)
    ensures s != [] && s[0] <= x
  {
    var i :| 0 <= i < |s| && s[i] == x;
  }

  lemma SortedTail(s: seq<int>)
    requires Sorted(s) && s != []
    ensures Sorted(s[1..])
  {
    forall i, j | 0 <= i < j < |s| - 1
      ensures s[1..][i] <= s[1..][j]
    {
      assert s[1..][i] == s[i + 1] && s[1..][j] == s[j + 1];
    }
  }

  lemma HeadRest(s: seq<int>)
    requires s != []
    ensures multiset(s) == multiset{s[0]} + multiset(s[1..])
  {
    assert s == [s[0]] + s[1..];
  }

  lemma MultisetCancel(x: int, p: multiset<int>, q: multiset<int>)
    requires multiset{x} + p == multiset{x} + q
    ensures p == q
  {
    forall e
      ensures p[e] == q[e]
    {
      assert (multiset{x} + p)[e] == (multiset{x} + q)[e];
    }
  }

  /** Which side of a value an element lies on. */
  datatype Side = Below | Above

  predicate Beyond(x: int, v: int, side: Side) {
    match side
    case Below => x < v
    case Above => x > v
  }

  /** The number of elements of `s` strictly below (or above) `v`. */
  function CountBeyond(s: seq<int>, v: int, side: Side): (n: nat)
    ensures n <= |s|
  {
    if s == [] then 0
    else (if Beyond(s[0], v, side) then 1 else 0) + CountBeyond(s[1..], v, side)
  }

  lemma {:induction false} CountBeyondAppend(a: seq<int>, b: seq<int>, v: int, side: Side)
    ensures CountBeyond(a + b, v, side) == CountBeyond(a, v, side) + CountBeyond(b, v, side)
  {
    if a != [] {
      assert a + b != [] && (a + b)[0] == a[0];
      assert (a + b)[1..] == a[1..] + b;
      CountBeyondAppend(a[1..], b, v, side);
    } else {
      assert a + b == b;
    }
  }

  lemma {:induction false} CountBeyondNone(s: seq<int>, v: int, side: Side)
    requires forall i :: 0 <= i < |s| ==> !Beyond(s[i], v, side)
    ensures CountBeyond(s, v, side) == 0
  {
    if s != [] {
      CountBeyondNone(s[1..], v, side);
    }
  }

  /** Counting depends only on the multiset of elements. */
  lemma {:induction false} CountBeyondPermutation(a: seq<int>, b: seq<int>, v: int, side: Side)
    requires multiset(a) == multiset(b)
    ensures CountBeyond(a, v, side) == CountBeyond(b, v, side)
  {
    if a == [] {
      assert |b| == |multiset(b)| == 0;
    } else {
      assert a[0] in multiset(b);
      var j :| 0 <= j < |b| && b[j] == a[0];
      var rest := RemoveAt(b, j, v, side);
      HeadRest(a);
      MultisetCancel(a[0], multiset(a[1..]), multiset(rest));
      CountBeyondPermutation(a[1..], rest, v, side);
    }
  }

  /** Taking out the element at index `j`: what remains, for its multiset and its counts. */
  lemma RemoveAt(b: seq<int>, j: nat, v: int, side: Side) returns (rest: seq<int>)
    requires j < |b|
    ensures rest == b[..j] + b[j + 1..]
    ensures multiset(b) == multiset{b[j]} + multiset(rest)
    ensures CountBeyond(b, v, side) == (if Beyond(b[j], v, side) then 1 else 0) + CountBeyond(rest, v, side)
  {
    rest := b[..j] + b[j + 1..];
    assert b == b[..j] + ([b[j]] + b[j + 1..]);
    CountBeyondAppend(b[..j], [b[j]] + b[j + 1..], v, side);
    CountBeyondAppend(b[..j], b[j + 1..], v, side);
    assert ([b[j]] + b[j + 1..])[1..] == b[j + 1..];
  }

  /**
   * In a sorted sequence at most `k` elements lie below the element at
   * index `k`, and at most `|t| - 1 - k` lie above it.
   */
  lemma SortedRank(t: seq<int>, k: nat)
    requires Sorted(t) && k < |t|
    ensures CountBeyond(t, t[k], Below) <= k
    ensures CountBeyond(t, t[k], Above) <= |t| - 1 - k
  {
    assert t == t[..k] + t[k..];
    CountBeyondAppend(t[..k], t[k..], t[k], Below);
    CountBeyondNone(t[k..], t[k], Below);
    assert t == t[..k + 1] + t[k + 1..];
    CountBeyondAppend(t[..k + 1], t[k + 1..], t[k], Above);
    CountBeyondNone(t[..k + 1], t[k], Above);
  }

  /**
   * `mid(array:)`: `nil` for an empty array; otherwise the lower median,
   * the element at index `(count - 1) / 2` of a sorted copy. It has at
   * most `(count - 1) / 2` elements below it and at most `count / 2`
   * above it.
   */
  function Mid(a: seq<int>): (r: Option<int>)
    ensures r == None <==> a == []
    ensures r.Some? ==> r.value in a
    ensures r.Some? ==> CountBeyond(a, r.value, Below) <= (|a| - 1) / 2
    ensures r.Some? ==> CountBeyond(a, r.value, Above) <= |a| / 2
  {
    if a == [] then None
    else
      var t := Sort(a);
      var k := (|a| - 1) / 2;
      assert |t| == |multiset(t)| == |a|;
      assert t[k] in multiset(a);
      SortedRank(t, k);
      CountBeyondPermutation(a, t, t[k], Below);
      CountBeyondPermutation(a, t, t[k], Above);
      Some(t[k])
  }

  /**
   * `mid` agrees with every sorted copy of the input: whatever sort is
   * used, the result is the element at index `(count - 1) / 2`.
   */
  lemma MidOfSortedCopy(a: seq<int>, t: seq<int>)
    requires Sorted(t) && multiset(t) == multiset(a)
    requires a != []
    ensures |t| == |a|
    ensures Mid(a) == Some(t[(|a| - 1) / 2])
  {
    assert |t| == |multiset(t)| == |a|;
    SortedPermutationUnique(Sort(a), t);
  }

  /**
   * The rank bounds of `Mid` pin the value down: an element of `a` with
   * at most `(|a| - 1) / 2` elements below and at most `|a| / 2` above
   * is the lower median.
   */
  lemma MidRankUnique(a: seq<int>, v: int)
    requires v in a
    requires CountBeyond(a, v, Below) <= (|a| - 1) / 2
    requires CountBeyond(a, v, Above) <= |a| / 2
    ensures Mid(a) == Some(v)
  {
    var t := Sort(a);
    var k := (|a| - 1) / 2;
    assert |t| == |multiset(t)| == |a|;
    CountBeyondPermutation(a, t, v, Below);
    CountBeyondPermutation(a, t, v, Above);
    if v < t[k] {
      AboveFrom(t, k, v);
    } else if v > t[k] {
      BelowUpTo(t, k, v);
    }
  }

  /** Below a sorted suffix's head, everything from index `k` on is above. */
  lemma AboveFrom(t: seq<int>, k: nat, v: int)
    requires Sorted(t) && k < |t| && v < t[k]
    ensures CountBeyond(t, v, Above) >= |t| - k
  {
    assert t == t[..k] + t[k..];
    CountBeyondAppend(t[..k], t[k..], v, Above);
    CountAll(t[k..], v, Above);
  }

  /** Above the element at index `k`, everything up to index `k` is below. */
  lemma BelowUpTo(t: seq<int>, k: nat, v: int)
    requires Sorted(t) && k < |t| && t[k] < v
    ensures CountBeyond(t, v, Below) >= k + 1
  {
    assert t == t[..k + 1] + t[k + 1..];
    CountBeyondAppend(t[..k + 1], t[k + 1..], v, Below);
    CountAll(t[..k + 1], v, Below);
  }

  lemma {:induction false} CountAll(s: seq<int>, v: int, side: Side)
    requires forall i :: 0 <= i < |s| ==> Beyond(s[i], v, side)
    ensures CountBeyond(s, v, side) == |s|
  {
    if s != [] {
      CountAll(s[1..], v, side);
    }
  }

  /** `mid(array: [3, 5, 1, 2, 4])` is 3. */
  lemma MidExample()
    ensures Mid([3, 5, 1, 2, 4]) == Some(3)
  {
    var a := [3, 5, 1, 2, 4];
    assert a[0] == 3;
    assert CountBeyond(a, 3, Below) == 2;
    assert CountBeyond(a, 3, Above) == 2;
    MidRankUnique(a, 3);
  }

  // ---------------------------------------------------------------------
  // pairs(from:)
  // ---------------------------------------------------------------------

  /**
   * `pairs(from:)`: the entries of a dictionary as a sequence of
   * `(key, value)` tuples, one per key, in an order nothing promises.
   */
  ghost function Pairs<K, V>(d: map<K, V>): (r: seq<(K, V)>)
    ensures |r| == |d|
    ensures forall i | 0 <= i < |r| :: r[i].0 in d && r[i].1 == d[r[i].0]
    ensures forall k | k in d :: (k, d[k]) in r
    ensures forall i, j :: 0 <= i < j < |r| ==> r[i].0 != r[j].0
    decreases |d|
  {
    if |d| == 0 then []
    else
      var k :| k in d;
      var rest := d - {k};
      assert rest.Keys == d.Keys - {k};
      var tail := Pairs(rest);
      PairsStep(d, k, tail);
      [(k, d[k])] + tail
  }

  /** One step of `Pairs`: the entry for `k` in front of the entries of the rest. */
  lemma PairsStep<K, V>(d: map<K, V>, k: K, tail: seq<(K, V)>)
    requires k in d
    requires |tail| == |d - {k}|
    requires forall i | 0 <= i < |tail| :: tail[i].0 in d - {k} && tail[i].1 == (d - {k})[tail[i].0]
    requires forall k' | k' in d - {k} :: (k', (d - {k})[k']) in tail
    requires forall i, j :: 0 <= i < j < |tail| ==> tail[i].0 != tail[j].0
    ensures |[(k, d[k])] + tail| == |d|
    ensures forall i | 0 <= i < |[(k, d[k])] + tail| :: ([(k, d[k])] + tail)[i].0 in d && ([(k, d[k])] + tail)[i].1 == d[([(k, d[k])] + tail)[i].0]
    ensures forall k' | k' in d :: (k', d[k']) in [(k, d[k])] + tail
    ensures forall i, j :: 0 <= i < j < |[(k, d[k])] + tail| ==> ([(k, d[k])] + tail)[i].0 != ([(k, d[k])] + tail)[j].0
  {
    var rest := d - {k};
    assert rest.Keys == d.Keys - {k};
    var r := [(k, d[k])] + tail;
    forall i | 0 <= i < |r|
      ensures r[i].0 in d && r[i].1 == d[r[i].0]
    {
      if i > 0 {
        assert r[i] == tail[i - 1];
      }
    }
    forall k' | k' in d
      ensures (k', d[k']) in r
    {
      if k' != k {
        assert k' in rest;
      }
    }
    forall i, j | 0 <= i < j < |r|
      ensures r[i].0 != r[j].0
    {
      assert r[j] == tail[j - 1];
      if i > 0 {
        assert r[i] == tail[i - 1];
      }
    }
  }

  /** The set of output pairs is exactly the dictionary's set of entries. */
  lemma PairsAreItems<K, V>(d: map<K, V>)
    ensures (set i | 0 <= i < |Pairs(d)| :: Pairs(d)[i]) == d.Items
  {
    var r := Pairs(d);
    var s := set i | 0 <= i < |r| :: r[i];
    forall p | p in d.Items
      ensures p in s
    {
      assert (p.0, d[p.0]) in r;
    }
  }

  // ---------------------------------------------------------------------
  // add(x:y:) for Int and String
  // ---------------------------------------------------------------------

  /** Swift's `Int` on a 64-bit platform. */
  newtype Int64 = x: int | InInt64(x)

  /** The range of Swift's `Int`. */
  predicate InInt64(x: int) {
    -0x8000_0000_0000_0000 <= x < 0x8000_0000_0000_0000
  }

  /**
   * `add` at `Int`: the sum, or `None` where Swift's `+` traps on
   * overflow.
   */
  function AddInt(x: Int64, y: Int64): (r: Option<Int64>)
    ensures r.Some? <==> InInt64(x as int + y as int)
    ensures r.Some? ==> r.value as int == x as int + y as int
  {
    var s := x as int + y as int;
    if InInt64(s) then Some(s as Int64) else None
  }

  /** `add` at `String`: concatenation, `x` followed by `y`. */
  function AddString(x: string, y: string): (r: string)
    ensures |r| == |x| + |y|
    ensures r[..|x|] == x && r[|x|..] == y
  {
    x + y
  }

  /** `add(x: "Generics", y: " are Awesome!!! :]")`. */
  lemma AddStringExample()
    ensures AddString("Generics", " are Awesome!!! :]") == "Generics are Awesome!!! :]"
  {
  }
}
