/**
  The byte ring of include/os/ring_buffer.h: `head` and `tail` chase each other around an array
  and one slot stays unused, so a ring of size n is a first-in first-out queue of capacity n - 1.
 */
module RingBuffer {
  import opened Arith

  const RING_BUFFER_SIZE: nat := 4095

  type Byte = bv8

  function Min(a: nat, b: nat): (m: nat)
    ensures m <= a && m <= b && (m == a || m == b)
  {
    if a < b then a else b
  }

  /** kmemcpy between two different arrays. */
  method Copy(dst: array<Byte>, d: nat, src: array<Byte>, s: nat, n: nat)
    requires dst != src && d + n <= dst.Length && s + n <= src.Length
    modifies dst
    ensures forall k :: 0 <= k < dst.Length ==> dst[k] == if d <= k < d + n then src[s + k - d] else old(dst[k])
  {
    for i := 0 to n
      invariant forall k :: 0 <= k < dst.Length ==> dst[k] == if d <= k < d + i then src[s + k - d] else old(dst[k])
    {
      dst[d + i] := src[s + i];
    }
  }

  /** How far `to` is ahead of `from`, going around the end. */
  function Ahead(size: nat, from: nat, to: nat): (n: nat)
    requires from < size && to < size
    ensures n < size
  {
    if from <= to then to - from else to - from + size
  }

  /** The position i places ahead of `from`. */
  function Pos(size: nat, from: nat, i: nat): (p: nat)
    requires from < size && i <= size
    ensures p < size
  {
    if from + i < size then from + i else from + i - size
  }

  /** The bytes from head up to, not including, tail. */
  ghost function Span(bytes: seq<Byte>, size: nat, head: nat, tail: nat): (c: seq<Byte>)
    requires head < size <= |bytes| && tail < size
    ensures |c| == Ahead(size, head, tail)
  {
    seq(Ahead(size, head, tail), i requires 0 <= i < size => bytes[Pos(size, head, i)])
  }

  /** x % n for the sums of ring positions. */
  function Wrap(x: nat, n: nat): (r: nat)
    requires x < n + n
    ensures r == if x < n then x else x - n
  {
    DivUnique(x, n, if x < n then 0 else 1, if x < n then x else x - n);
    x % n
  }

  /** Going forward by len from head leaves the bytes after the first len. */
  lemma SpanRead(bytes: seq<Byte>, size: nat, head: nat, tail: nat, len: nat)
    requires head < size <= |bytes| && tail < size && len <= Ahead(size, head, tail)
    ensures Span(bytes, size, Pos(size, head, len), tail) == Span(bytes, size, head, tail)[len..]
  {
  }

  /** Filling the bytes from tail on appends them. */
  lemma SpanWrite(bytes: seq<Byte>, bytes': seq<Byte>, size: nat, head: nat, tail: nat, data: seq<Byte>)
    requires head < size <= |bytes| == |bytes'| && tail < size
    requires Ahead(size, head, tail) + |data| < size
    requires forall k :: 0 <= k < size ==>
               bytes'[k] == var a := Ahead(size, tail, k); if a < |data| then data[a] else bytes[k]
    ensures Span(bytes', size, head, Pos(size, tail, |data|)) == Span(bytes, size, head, tail) + data
  {
    var n := Ahead(size, head, tail);
    forall i | 0 <= i < n + |data|
      ensures bytes'[Pos(size, head, i)] == (Span(bytes, size, head, tail) + data)[i]
    {
      assert Ahead(size, tail, Pos(size, head, i)) == if i < n then i - n + size else i - n;
    }
  }

  class Ring {
    const size: nat
    const buf: array<Byte>
    var head: nat
    var tail: nat

    ghost predicate Valid()
      reads this
    {
      1 < size <= buf.Length && head < size && tail < size
    }

    ghost function Contents(): seq<Byte>
      requires Valid()
      reads this, buf
    {
      Span(buf[..], size, head, tail)
    }

    /** init_ring_buffer, with the page that the pipe gives to it. */
    constructor (buf: array<Byte>)
      requires buf.Length > RING_BUFFER_SIZE
      ensures Valid() && Contents() == [] && size == RING_BUFFER_SIZE && this.buf == buf
    {
      this.buf := buf;
      size := RING_BUFFER_SIZE;
      head, tail := 0, 0;
    }

    function Used(): (n: nat)
      requires Valid()
      reads this, buf
      ensures n == |Contents()|
    {
      Wrap(tail - head + size, size)
    }

    function Free(): (n: nat)
      requires Valid()
      reads this, buf
      ensures n + |Contents()| + 1 == size
    {
      size - Used() - 1
    }

    /** read_ring_buffer: the first bytes in the queue, as many as there are and fit. */
    method Read(dst: array<Byte>, count: nat) returns (len: nat)
      requires Valid() && dst != buf && count <= dst.Length
      modifies this`head, dst
      ensures Valid() && len == Min(old(|Contents()|), count)
      ensures dst[..len] == old(Contents())[..len] && dst[len..] == old(dst[len..])
      ensures Contents() == old(Contents())[len..]
    {
      len := Min(Used(), count);
      SpanRead(buf[..], size, head, tail, len);
      if len > 0 {
        if head + len > size {
          var right := size - head;
          Copy(dst, 0, buf, head, right);
          Copy(dst, right, buf, 0, len - right);
        } else {
          Copy(dst, 0, buf, head, len);
        }
        head := Wrap(head + len, size);
      }
    }

    /** write_ring_buffer: the first bytes of the source that fit join the queue. */
    method Write(src: array<Byte>, count: nat) returns (len: nat)
      requires Valid() && src != buf && count <= src.Length
      modifies this`tail, buf
      ensures Valid() && len == Min(old(size - 1 - |Contents()|), count)
      ensures Contents() == old(Contents()) + src[..len]
    {
      len := Min(Free(), count);
      ghost var was := buf[..];
      if len > 0 {
        if tail + len > size {
          var right := size - tail;
          Copy(buf, tail, src, 0, right);
          if len - right > 0 {
            Copy(buf, 0, src, right, len - right);
          }
        } else {
          Copy(buf, tail, src, 0, len);
        }
        SpanWrite(was, buf[..], size, head, tail, src[..len]);
        tail := Wrap(tail + len, size);
      }
    }
  }
}
