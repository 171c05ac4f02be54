/**
 * The count-tracked ring buffer of Game/CircularBuffer.c. The record's Read,
 * Write, Count and Size fields are the class's fields and Buf is the byte
 * array it points to.
 */
module CircularBuffer {
  import opened Size

  /** An index below 2m folded back into [0, m): the buffer's wrap-around. */
  function Wrap(i: nat, m: nat): (r: nat)
    requires i < 2 * m
    ensures r < m && (r == i || r + m == i)
  {
    if i < m then i else i - m
  }

  /** The n elements of buf starting at index start, wrapping at the end. */
  function Window(buf: seq<U8>, start: nat, n: nat): (w: seq<U8>)
    requires start < |buf| && n <= |buf|
    ensures |w| == n
    ensures forall k :: 0 <= k < n ==> w[k] == buf[Wrap(start + k, |buf|)]
  {
    seq(n, k requires 0 <= k < n => buf[Wrap(start + k, |buf|)])
  }

  /**
   * Storing e just past the end of a window that is not the whole buffer
   * extends the window by e and leaves its other elements alone.
   */
  lemma {:induction false} WindowSnoc(buf: seq<U8>, start: nat, n: nat, e: U8)
    requires start < |buf| && n < |buf|
    ensures Window(buf[Wrap(start + n, |buf|) := e], start, n + 1) == Window(buf, start, n) + [e]
  {
    var m := |buf|;
    var nb := buf[Wrap(start + n, m) := e];
    var lhs := Window(nb, start, n + 1);
    var rhs := Window(buf, start, n) + [e];
    forall k | 0 <= k < n + 1
      ensures lhs[k] == rhs[k]
    {
      if k < n {
        assert Wrap(start + k, m) != Wrap(start + n, m);
      }
    }
  }

  /** Dropping the head of a window is the window one slot further on. */
  lemma {:induction false} WindowTail(buf: seq<U8>, start: nat, n: nat)
    requires start < |buf| && 0 < n <= |buf|
    ensures Window(buf, start, n)[1..] == Window(buf, Wrap(start + 1, |buf|), n - 1)
  {
    var m := |buf|;
    var lhs := Window(buf, start, n)[1..];
    var rhs := Window(buf, Wrap(start + 1, m), n - 1);
    forall k | 0 <= k < n - 1
      ensures lhs[k] == rhs[k]
    {
      assert lhs[k] == buf[Wrap(start + 1 + k, m)];
    }
  }

  class CircularBuffer {
    var Read: U8
    var Write: U8
    var Count: U8
    var Size: U8
    const Buf: array<U8>

    /** The shape every caller keeps: Size slots behind Buf, indices and count in range. */
    ghost predicate Valid()
      reads this
    {
      Buf.Length == Size && 1 <= Size && Read < Size && Write < Size && Count <= Size
    }

    /** Write sits Count slots past Read: true until a full write or an empty read. */
    ghost predicate Consistent()
      reads this
      requires Valid()
    {
      Write == Wrap(Read + Count, Size)
    }

    /** The queued elements, oldest first. */
    ghost function Contents(): (s: seq<U8>)
      reads this, Buf
      requires Valid()
      ensures |s| == Count
    {
      Window(Buf[..], Read, Count)
    }

    constructor (size: U8)
      requires 1 <= size
      ensures Valid() && Consistent() && fresh(Buf)
      ensures Size == size && Contents() == []
    {
      Buf := new U8[size](_ => 0);
      Size := size;
      Read, Write, Count := 0, 0, 0;
    }

    /** CircularBufferIsEmpty. */
    function IsEmpty(): (r: bool)
      reads this, Buf
      requires Valid()
      ensures r <==> Count == 0
      ensures r <==> Contents() == []
    {
      Count == 0
    }

    /** CircularBufferIsFull. */
    function IsFull(): (r: bool)
      reads this, Buf
      requires Valid()
      ensures r <==> Count == Size
      ensures r <==> |Contents()| == Buf.Length
    {
      Count == Size
    }

    /**
     * CircularBufferWrite: counts the element unless the buffer is full, stores
     * it at Write and advances Write, wrapping from Size-1 to 0.
     */
    method Put(elem: U8)
      requires Valid()
      modifies this`Count, this`Write, Buf
      ensures Valid()
      ensures Count == if old(Count) == Size then Size else old(Count) + 1
      ensures Write == Wrap(old(Write) + 1, Size) && Read == old(Read)
      ensures Buf[..] == old(Buf[..])[old(Write) := elem]
      ensures old(Consistent()) && old(Count) < Size ==>
        Consistent() && Contents() == old(Contents()) + [elem]
      ensures old(Consistent()) && old(Count) == Size ==> Buf[Read] == elem
    {
      ghost var before := Buf[..];
      if !IsFull() {
        Count := Count + 1;
      }
      Buf[Write] := elem;
      Write := if Write == Size - 1 then 0 else Write + 1;
      if old(Consistent()) && old(Count) < Size {
        WindowSnoc(before, Read, old(Count), elem);
      }
    }

    /**
     * CircularBufferRead: uncounts one element unless the buffer is empty, then
     * returns Buf[Read] and advances Read, wrapping from Size-1 to 0.
     */
    method Get() returns (b: U8)
      requires Valid()
      modifies this`Count, this`Read
      ensures Valid()
      ensures b == Buf[old(Read)]
      ensures Count == if old(Count) == 0 then 0 else old(Count) - 1
      ensures Read == Wrap(old(Read) + 1, Size) && Write == old(Write)
      ensures old(Consistent()) && old(Count) > 0 ==>
        Consistent() && b == old(Contents())[0] && Contents() == old(Contents())[1..]
    {
      if !IsEmpty() {
        Count := Count - 1;
      }
      b := Buf[Read];
      Read := if Read == Size - 1 then 0 else Read + 1;
      if old(Consistent()) && old(Count) > 0 {
        WindowTail(Buf[..], old(Read), old(Count));
      }
    }
  }

  /**
   * Elements come out in the order they went in: two elements put into a
   * new buffer with room for them come back first to last, and the buffer
   * is empty again.
   */
  method FifoOrder(size: U8, x: U8, y: U8) returns (a: U8, b: U8, empty: bool)
    requires 2 <= size
    ensures a == x && b == y && empty
  {
    var c := new CircularBuffer(size);
    c.Put(x);
    c.Put(y);
    a := c.Get();
    b := c.Get();
    empty := c.IsEmpty();
  }
}
