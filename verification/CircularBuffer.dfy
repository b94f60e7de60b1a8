/** bbones/shared/circular_buffer.c: a ring that keeps one slot open.
    `Ring` is the struct as a value, with one function for each C routine; the
    class `CircularBuffer` updates the struct in place and is proved against it. */
module Rings {

  datatype Ring<T> = Ring(size: nat, start: nat, end: nat, elems: seq<T>) {

    ghost predicate Valid() {
      1 <= size == |elems| && start < size && end < size
    }

    /** `(i + 1) % size`, without the division; see NextIsRemainder. */
    function Next(i: nat): nat {
      if i + 1 == size then 0 else i + 1
    }

    predicate IsFull()
      requires Valid()
    {
      Next(end) == start
    }

    predicate IsEmpty() {
      end == start
    }

    /** cbWrite, including the branch that overwrites the oldest element. */
    function Write(x: T): (r: Ring<T>)
      requires Valid()
      ensures r.Valid() && r.size == size
    {
      var e := Next(end);
      Ring(size, if e == start then Next(start) else start, e, elems[end := x])
    }

    /** cbRead moves `start` whether or not there is anything to read. */
    function AfterRead(): (r: Ring<T>)
      requires Valid()
      ensures r.Valid() && r.size == size
    {
      this.(start := Next(start))
    }

    function ValueRead(): T
      requires Valid()
    {
      elems[start]
    }

    /** The stored elements, oldest first. */
    function Contents(): (c: seq<T>)
      requires Valid()
      ensures |c| < size
      ensures IsEmpty() <==> c == []
      ensures IsFull() <==> |c| == size - 1
    {
      if start <= end then elems[start..end] else elems[start..] + elems[..end]
    }
  }

  lemma NextIsRemainder<T>(r: Ring<T>, i: nat)
    requires r.Valid() && i < r.size
    ensures r.Next(i) == (i + 1) % r.size
  {
  }

  /** Where in the vector element i of the contents stands. */
  function Place<T>(r: Ring<T>, i: nat): int {
    if r.start + i < r.size then r.start + i else r.start + i - r.size
  }

  lemma ContentsAt<T>(r: Ring<T>, i: nat)
    requires r.Valid() && i < |r.Contents()|
    ensures 0 <= Place(r, i) < r.size && r.Contents()[i] == r.elems[Place(r, i)]
  {
  }

  /** The contents end in front of `end`, and reach it nowhere else. */
  lemma PlaceOfEnd<T>(r: Ring<T>, i: nat)
    requires r.Valid() && i <= |r.Contents()|
    ensures Place(r, i) == r.end <==> i == |r.Contents()|
  {
  }

  lemma PlaceAfterWrite<T>(r: Ring<T>, x: T, i: nat)
    requires r.Valid() && i < |r.Write(x).Contents()|
    ensures var drop := if r.IsFull() then 1 else 0;
            Place(r.Write(x), i) == Place(r, i + drop) && |r.Write(x).Contents()| == |r.Contents()| + 1 - drop
  {
  }

  lemma LengthAfterWrite<T>(r: Ring<T>, x: T)
    requires r.Valid()
    ensures |r.Write(x).Contents()| == if r.IsFull() then |r.Contents()| else |r.Contents()| + 1
  {
  }

  lemma WriteContentsAt<T>(r: Ring<T>, x: T, i: nat)
    requires r.Valid() && i < |r.Write(x).Contents()|
    ensures var j := if r.IsFull() then i + 1 else i;
            j <= |r.Contents()| && r.Write(x).Contents()[i] == (r.Contents() + [x])[j]
  {
    var j := if r.IsFull() then i + 1 else i;
    ContentsAt(r.Write(x), i);
    PlaceAfterWrite(r, x, i);
    PlaceOfEnd(r, j);
    if j < |r.Contents()| {
      ContentsAt(r, j);
    }
  }

  /** A write to a ring with room appends; a write to a full ring also loses the oldest element. */
  lemma WriteContents<T>(r: Ring<T>, x: T)
    requires r.Valid()
    ensures !r.IsFull() ==> r.Write(x).Contents() == r.Contents() + [x]
    ensures r.IsFull() ==> r.Write(x).Contents() == (r.Contents() + [x])[1..]
  {
    LengthAfterWrite(r, x);
    forall i | 0 <= i < |r.Write(x).Contents()|
      ensures r.Write(x).Contents()[i] == (r.Contents() + [x])[if r.IsFull() then i + 1 else i]
    {
      WriteContentsAt(r, x, i);
    }
  }

  /** A read from a non-empty ring returns and removes the oldest element. A read
      from an empty ring turns it into a full one, with stale elements. */
  lemma ReadContents<T>(r: Ring<T>)
    requires r.Valid()
    ensures !r.IsEmpty() ==> r.Contents() == [r.ValueRead()] + r.AfterRead().Contents()
    ensures r.IsEmpty() ==> r.AfterRead().IsFull()
  {
    var n := r.Next(r.start);
    if r.end < r.start && n == 0 {
      assert r.elems[r.start..] == [r.ValueRead()];
    } else if r.end < r.start {
      assert r.elems[r.start..] == [r.ValueRead()] + r.elems[n..];
    }
  }

  /** The newest `cap` elements of s. */
  function Newest<T>(s: seq<T>, cap: nat): seq<T> {
    if |s| <= cap then s else s[|s| - cap..]
  }

  function WriteAll<T>(r: Ring<T>, xs: seq<T>): (w: Ring<T>)
    requires r.Valid()
    ensures w.Valid() && w.size == r.size
    decreases |xs|
  {
    if xs == [] then r else WriteAll(r.Write(xs[0]), xs[1..])
  }

  lemma NewestAbsorbs<T>(s: seq<T>, xs: seq<T>, cap: nat)
    ensures Newest(Newest(s, cap) + xs, cap) == Newest(s + xs, cap)
  {
  }

  lemma NewestOfOneMore<T>(s: seq<T>, xs: seq<T>, cap: nat)
    requires xs != []
    ensures Newest(Newest(s + [xs[0]], cap) + xs[1..], cap) == Newest(s + xs, cap)
  {
    NewestAbsorbs(s + [xs[0]], xs[1..], cap);
    assert (s + [xs[0]]) + xs[1..] == s + xs;
  }

  lemma WriteKeepsNewest<T>(r: Ring<T>, x: T)
    requires r.Valid()
    ensures r.Write(x).Contents() == Newest(r.Contents() + [x], r.size - 1)
  {
    WriteContents(r, x);
  }

  /** After any number of writes the ring holds the newest elements that fit, in order. */
  lemma {:induction false} WriteAllKeepsNewest<T>(r: Ring<T>, xs: seq<T>)
    requires r.Valid()
    ensures WriteAll(r, xs).Contents() == Newest(r.Contents() + xs, r.size - 1)
    decreases |xs|
  {
    if xs == [] {
      assert r.Contents() + xs == r.Contents();
    } else {
      WriteKeepsNewest(r, xs[0]);
      WriteAllKeepsNewest(r.Write(xs[0]), xs[1..]);
      NewestOfOneMore(r.Contents(), xs, r.size - 1);
    }
  }

  class CircularBuffer<T(0)> {
    var size: nat
    var start: nat
    var end: nat
    var elems: array<T>

    ghost predicate Valid()
      reads this, elems
    {
      1 <= size == elems.Length && start < size && end < size
    }

    ghost function View(): (r: Ring<T>)
      requires Valid()
      reads this, elems
      ensures r.Valid()
    {
      Ring(size, start, end, elems[..])
    }

    /** cbInit */
    constructor (capacity: nat)
      ensures Valid() && fresh(elems)
      ensures size == capacity + 1 && View().Contents() == []
    {
      size := capacity + 1;
      start, end := 0, 0;
      elems := new T[capacity + 1];
    }

    /** cbIsFull */
    method IsFull() returns (full: bool)
      requires Valid()
      ensures full <==> |View().Contents()| == size - 1
    {
      full := (end + 1) % size == start;
    }

    /** cbIsEmpty */
    method IsEmpty() returns (empty: bool)
      requires Valid()
      ensures empty <==> View().Contents() == []
    {
      empty := end == start;
    }

    /** cbWrite */
    method Write(x: T)
      requires Valid()
      modifies this`start, this`end, elems
      ensures Valid() && View() == old(View()).Write(x)
    {
      NextIsRemainder(View(), end);
      NextIsRemainder(View(), start);
      elems[end] := x;
      end := (end + 1) % size;
      if end == start {
        start := (start + 1) % size;
      }
    }

    /** cbRead */
    method Read() returns (x: T)
      requires Valid()
      modifies this`start
      ensures Valid() && x == old(View()).ValueRead() && View() == old(View()).AfterRead()
    {
      NextIsRemainder(View(), start);
      x := elems[start];
      start := (start + 1) % size;
    }
  }
}
