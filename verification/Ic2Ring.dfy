/**
 The IC2 byte ring (kernel/ipc/ic2.c): index arithmetic and bulk copies of ringbuf_write
 and ringbuf_read, as sequential methods on a buffer.
 */
module Ic2Ring {
  import opened Modular

  type Byte = bv8

  function Min(a: nat, b: nat): nat {
    if a < b then a else b
  }

  /** Free bytes as ringbuf_write computes them; one cell always stays empty. */
  function FreeSpace(h: nat, t: nat, n: nat): nat
    requires h < n && t < n
  {
    if h >= t then n - (h - t) - 1 else (t - h) - 1
  }

  /** Stored bytes as ringbuf_read computes them. */
  function UsedSpace(h: nat, t: nat, n: nat): nat
    requires h < n && t < n
  {
    if h >= t then h - t else n - (t - h)
  }

  /** The cell j places after `start`, cyclically. */
  function Cell(start: nat, j: nat, n: nat): (c: nat)
    requires start < n && j <= n
    ensures c < n
  {
    if start + j < n then start + j else start + j - n
  }

  /** The index the code advances to. */
  lemma CellIsMod(start: nat, j: nat, n: nat)
    requires start < n && j <= n
    ensures (start + j) % n == Cell(start, j, n)
  {
    if start + j < n {
      ModUnique(start + j, n, 0, start + j);
    } else {
      ModUnique(start + j, n, 1, start + j - n);
    }
  }

  /** Where byte j of a copy of m bytes goes: the copy starts at cell `start` and continues
      at cell 0 after the last cell. */
  function CopyCell(start: nat, m: nat, n: nat, j: nat): nat
    requires start < n && j < m
  {
    var first := Min(n - start, m);
    if j < first then start + j else j - first
  }

  /** The split copy is the cyclic one. */
  lemma CopyCellCyclic(start: nat, m: nat, n: nat, j: nat)
    requires start < n && j < m <= n
    ensures CopyCell(start, m, n, j) == Cell(start, j, n)
  {
  }

  /** Head and tail as residues of running totals p and c: the two formulas give the true
      distances. */
  lemma SpaceExact(p: nat, c: nat, n: nat)
    requires c <= p < c + n
    ensures UsedSpace(p % n, c % n, n) == p - c
    ensures FreeSpace(p % n, c % n, n) == n - 1 - (p - c)
  {
    WrappedDistance(c, p, n);
    var h, t := p % n, c % n;
    if h >= t {
      ModUnique(h - t, n, 0, h - t);
    } else {
      ModUnique(h - t, n, -1, n - (t - h));
    }
  }

  /** The bytes between tail and head, oldest first. */
  function Contents(buf: seq<Byte>, h: nat, t: nat): (r: seq<Byte>)
    requires h < |buf| && t < |buf|
    ensures |r| == UsedSpace(h, t, |buf|)
  {
    seq(UsedSpace(h, t, |buf|), j requires 0 <= j <= |buf| => buf[Cell(t, j, |buf|)])
  }

  class RingBuffer {
    const data: array<Byte>
    var head: nat
    var tail: nat

    ghost predicate Valid()
      reads this
    {
      head < data.Length && tail < data.Length
    }

    ghost function Stored(): seq<Byte>
      requires Valid()
      reads this, data
    {
      Contents(data[..], head, tail)
    }

    /** ringbuf_init */
    constructor (capacity: nat)
      requires 1 <= capacity
      ensures Valid() && fresh(data) && data.Length == capacity && Stored() == []
    {
      data := new Byte[capacity](_ => 0);
      head, tail := 0, 0;
    }

    /** ringbuf_write: as many bytes as fit, appended in order. */
    method Write(src: seq<Byte>) returns (written: nat)
      requires Valid()
      modifies this`head, data
      ensures Valid()
      ensures written == Min(|src|, data.Length - 1 - |old(Stored())|)
      ensures Stored() == old(Stored()) + src[..written]
    {
      var h, t, n := head, tail, data.Length;
      var space := if h >= t then n - (h - t) - 1 else (t - h) - 1;
      written := if |src| < space then |src| else space;
      if written == 0 {
        return;
      }
      var first := n - h;
      if first > written {
        first := written;
      }
      var j := 0;
      while j < first
        invariant 0 <= j <= first && head == h
        invariant forall k: nat :: k < n ==> data[k] == if h <= k < h + j then src[k - h] else old(data[k])
      {
        data[h + j] := src[j];
        j := j + 1;
      }
      j := 0;
      while j < written - first
        invariant 0 <= j <= written - first && head == h
        invariant forall k: nat :: k < n ==>
          data[k] == if h <= k < h + first then src[k - h] else if k < j then src[first + k] else old(data[k])
      {
        data[j] := src[first + j];
        j := j + 1;
      }
      head := (h + written) % n;
      CellIsMod(h, written, n);
      WriteContents(old(data[..]), data[..], h, t, src[..written]);
    }

    /** ringbuf_read: the oldest bytes, at most `length`, removed in order. */
    method Read(length: nat) returns (dst: seq<Byte>)
      requires Valid()
      modifies this`tail
      ensures Valid()
      ensures |dst| == Min(length, |old(Stored())|)
      ensures dst == old(Stored())[..|dst|] && Stored() == old(Stored())[|dst|..]
    {
      var h, t, n := head, tail, data.Length;
      var available := if h >= t then h - t else n - (t - h);
      var count := if length < available then length else available;
      dst := [];
      if count == 0 {
        return;
      }
      var first := n - t;
      if first > count {
        first := count;
      }
      dst := data[t..t + first];
      if count > first {
        dst := dst + data[..count - first];
      }
      tail := (t + count) % n;
      CellIsMod(t, count, n);
      ReadContents(data[..], h, t, dst, first);
    }
  }

  /** Bytes copied to the cells behind the head become the end of the contents. */
  lemma WriteContents(buf: seq<Byte>, buf': seq<Byte>, h: nat, t: nat, src: seq<Byte>)
    requires h < |buf| == |buf'| && t < |buf| && 0 < |src| <= FreeSpace(h, t, |buf|)
    requires forall k: nat :: k < |buf| ==>
               buf'[k] == if h <= k < h + |src| then src[k - h]
                          else if k + |buf| < h + |src| then src[k + |buf| - h]
                          else buf[k]
    ensures Contents(buf', Cell(h, |src|, |buf|), t) == Contents(buf, h, t) + src
  {
  }

  lemma ReadContents(buf: seq<Byte>, h: nat, t: nat, dst: seq<Byte>, first: nat)
    requires h < |buf| && t < |buf| && 0 < |dst| <= UsedSpace(h, t, |buf|) && first == Min(|buf| - t, |dst|)
    requires dst == buf[t..t + first] + buf[..|dst| - first]
    ensures dst == Contents(buf, h, t)[..|dst|]
    ensures Contents(buf, h, Cell(t, |dst|, |buf|)) == Contents(buf, h, t)[|dst|..]
  {
  }
}
