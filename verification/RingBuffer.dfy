/** The byte ring buffers of a connection.

    `head` and `tail` are free-running 32-bit counters; only their low twelve bits
    index the 4096-byte array, and their difference modulo 2^32 is the fill level. */
module RingBuffers {
  import opened Wrappers
  import opened Words

  const SIZE: nat := 4096

  function Mask(x: Word): (m: nat)
    ensures m < SIZE
  {
    x % SIZE
  }

  /** The array cell at an offset from a counter. */
  function Cell(t: int, i: int): (c: nat)
    ensures c < SIZE
  {
    (t + i) % SIZE
  }

  /** Part of the array that a system call fills or drains. */
  datatype Iov = Iov(base: nat, len: nat)

  /** The n bytes that start at the counter t, in ring order. */
  ghost function Window(d: seq<Byte>, t: int, n: nat): (w: seq<Byte>)
    requires |d| == SIZE
    ensures |w| == n
  {
    seq(n, i requires 0 <= i < n => d[Cell(t, i)])
  }

  /** The cells at n consecutive offsets from the counter t. */
  ghost function CellRange(t: int, n: nat): (c: seq<nat>)
    ensures |c| == n && forall i :: 0 <= i < n ==> c[i] == Cell(t, i)
  {
    seq(n, i requires 0 <= i < n => Cell(t, i))
  }

  ghost function Segment(v: Iov): (c: seq<nat>)
    ensures |c| == v.len
  {
    seq(v.len, i requires 0 <= i < v.len => v.base + i)
  }

  /** The cells that the segments name, in order. */
  ghost function Cells(iov: seq<Iov>): (c: seq<nat>) {
    if iov == [] then [] else Segment(iov[0]) + Cells(iov[1..])
  }

  /** A range of cells is one segment or, around the end of the array, two. */
  lemma CellRangePieces(t: Word, n: nat)
    requires n <= SIZE
    ensures var h := t % SIZE;
            if h + n <= SIZE then CellRange(t, n) == Cells([Iov(h, n)])
            else CellRange(t, n) == Cells([Iov(h, SIZE - h), Iov(0, n - (SIZE - h))])
  {
    var h := t % SIZE;
    assert forall i :: 0 <= i < n ==> Cell(t, i) == if h + i < SIZE then h + i else h + i - SIZE;
    if h + n <= SIZE {
      CellsOf(Iov(h, n), []);
    } else {
      CellsOf(Iov(h, SIZE - h), [Iov(0, n - (SIZE - h))]);
      CellsOf(Iov(0, n - (SIZE - h)), []);
    }
  }

  lemma CellsOf(v: Iov, rest: seq<Iov>)
    ensures Cells([v] + rest) == Segment(v) + Cells(rest)
    ensures Cells([v]) == Segment(v)
  {
    assert ([v] + rest)[1..] == rest;
    assert [v] + [] == [v];
  }

  /** Head and tail differ by the fill level, also across the wrap at 2^32. */
  lemma FillLevel(head: Word, tail: Word)
    requires Wrap(head - tail) <= SIZE
    ensures var n, h, t := Wrap(head - tail), head % SIZE, tail % SIZE;
            h == if t + n < SIZE then t + n else t + n - SIZE
  {
  }

  /** Two offsets less than a full turn apart fall on different cells. */
  lemma CellsDistinct(t: int, a: nat, b: nat)
    requires a < b < SIZE
    ensures Cell(t, a) != Cell(t, b)
  {
  }

  /** The counter's wrap at 2^32 does not show in the cells. */
  lemma CellAfterWrap(t: Word, n: nat, i: int)
    requires n <= SIZE
    ensures Cell(Wrap(t + n), i) == Cell(t, n + i)
  {
  }

  /** Bytes written at the counter t + n follow the window that starts at t. */
  lemma WindowExtends(d: seq<Byte>, d': seq<Byte>, t: int, n: nat, src: seq<Byte>)
    requires |d| == |d'| == SIZE && n + |src| <= SIZE
    requires forall j :: 0 <= j < |src| ==> d'[Cell(t, n + j)] == src[j]
    requires forall i :: 0 <= i < n ==> d'[Cell(t, i)] == d[Cell(t, i)]
    ensures Window(d', t, n + |src|) == Window(d, t, n) + src
  {
    var w := Window(d', t, n + |src|);
    forall i | 0 <= i < n + |src| ensures w[i] == (Window(d, t, n) + src)[i] {
      if i >= n {
        assert d'[Cell(t, n + (i - n))] == src[i - n];
      }
    }
  }

  lemma WindowPieces(d: seq<Byte>, t: Word, n: nat)
    requires |d| == SIZE && n <= SIZE
    ensures var h := t % SIZE;
            Window(d, t, n) == if h + n <= SIZE then d[h..h + n] else d[h..SIZE] + d[..n - (SIZE - h)]
  {
    var h := t % SIZE;
    assert forall i :: 0 <= i < n ==> Cell(t, i) == if h + i < SIZE then h + i else h + i - SIZE;
  }

  /** The cells that follow the head follow the contents, seen from the tail. */
  lemma HeadCell(head: Word, tail: Word, j: nat)
    requires Wrap(head - tail) <= SIZE
    ensures Cell(head, j) == Cell(tail, Wrap(head - tail) + j)
  {
    var n := Wrap(head - tail);
    assert Wrap(tail + n) == head;
    CellAfterWrap(tail, n, j);
  }

  /** No cell of the contents is among the first free ones. */
  lemma LiveIsNotFree(head: Word, tail: Word, i: nat, k: nat)
    requires Wrap(head - tail) + k <= SIZE && i < Wrap(head - tail)
    ensures Cell(tail, i) !in CellRange(head, k)
  {
    var n := Wrap(head - tail);
    forall j | 0 <= j < k ensures CellRange(head, k)[j] != Cell(tail, i) {
      HeadCell(head, tail, j);
      CellsDistinct(tail, i, n + j);
    }
  }

  /** Bytes scattered over the first free cells follow the window before them. */
  lemma ScatterExtends(d: seq<Byte>, d': seq<Byte>, head: Word, tail: Word, src: seq<Byte>)
    requires |d| == |d'| == SIZE && Wrap(head - tail) + |src| <= SIZE
    requires forall j :: 0 <= j < |src| ==> d'[Cell(head, j)] == src[j]
    requires forall c :: 0 <= c < SIZE && c !in CellRange(head, |src|) ==> d'[c] == d[c]
    ensures Window(d', tail, Wrap(head - tail) + |src|) == Window(d, tail, Wrap(head - tail)) + src
  {
    var n := Wrap(head - tail);
    forall j | 0 <= j < |src| ensures d'[Cell(tail, n + j)] == src[j] {
      HeadCell(head, tail, j);
    }
    forall i | 0 <= i < n ensures d'[Cell(tail, i)] == d[Cell(tail, i)] {
      LiveIsNotFree(head, tail, i, |src|);
    }
    WindowExtends(d, d', tail, n, src);
  }

  /** Copies into an array, as memcpy does. */
  method CopyIn(a: array<Byte>, at: nat, src: seq<Byte>)
    requires at + |src| <= a.Length
    modifies a
    ensures forall i :: 0 <= i < a.Length ==> a[i] == if at <= i < at + |src| then src[i - at] else old(a[i])
  {
    forall i | at <= i < at + |src| {
      a[i] := src[i - at];
    }
  }

  /** d' is d with src written from cell h on, turning around at the end. */
  ghost predicate Placed(d: seq<Byte>, d': seq<Byte>, h: nat, src: seq<Byte>) {
    && |d| == |d'| == SIZE && h < SIZE && |src| <= SIZE
    && (forall j :: 0 <= j < |src| ==> d'[Cell(h, j)] == src[j])
    && (forall c :: 0 <= c < SIZE && !(h <= c < h + |src|) && !(c < h + |src| - SIZE) ==> d'[c] == d[c])
  }

  /** Offsets from a cell add up. */
  lemma CellFrom(t: int, n: nat, j: nat)
    ensures Cell(Cell(t, n), j) == Cell(t, n + j)
  {
  }

  /** A cell less than a full turn behind t + n lies outside what is placed from there. */
  lemma NotPlaced(t: Word, n: nat, i: nat, h: nat, k: nat)
    requires i < n && n + k <= SIZE && h == Cell(t, n)
    ensures var c := Cell(t, i); !(h <= c < h + k) && !(c < h + k - SIZE)
  {
    var c := Cell(t, i);
    if h <= c < h + k {
      CellFrom(t, n, c - h);
      CellsDistinct(t, i, n + (c - h));
    } else if c < h + k - SIZE {
      CellFrom(t, n, c + SIZE - h);
      CellsDistinct(t, i, n + (c + SIZE - h));
    }
  }

  lemma PlacedExtends(d: seq<Byte>, d': seq<Byte>, t: Word, n: nat, h: nat, src: seq<Byte>)
    requires Placed(d, d', h, src) && n + |src| <= SIZE && h == Cell(t, n)
    ensures Window(d', t, n + |src|) == Window(d, t, n) + src
  {
    forall j | 0 <= j < |src| ensures d'[Cell(t, n + j)] == src[j] {
      CellFrom(t, n, j);
    }
    forall i | 0 <= i < n ensures d'[Cell(t, i)] == d[Cell(t, i)] {
      NotPlaced(t, n, i, h, |src|);
    }
    WindowExtends(d, d', t, n, src);
  }

  /** Copies into the ring from cell h, in at most two pieces. */
  method CopyAround(a: array<Byte>, h: nat, src: seq<Byte>)
    requires a.Length == SIZE && h < SIZE && |src| <= SIZE
    modifies a
    ensures Placed(old(a[..]), a[..], h, src)
  {
    if h + |src| <= SIZE {
      CopyIn(a, h, src);
    } else {
      var k := SIZE - h;
      CopyIn(a, h, src[..k]);
      CopyIn(a, 0, src[k..]);
    }
    forall j | 0 <= j < |src| ensures a[..][Cell(h, j)] == src[j] {
      assert Cell(h, j) == if h + j < SIZE then h + j else h + j - SIZE;
    }
  }

  ghost predicate InRange(iov: seq<Iov>) {
    forall k :: 0 <= k < |iov| ==> iov[k].base + iov[k].len <= SIZE
  }

  /** What a send reads through its segments. */
  method GatherBytes(a: array<Byte>, iov: seq<Iov>) returns (bytes: seq<Byte>)
    requires a.Length == SIZE && InRange(iov)
    ensures |bytes| == |Cells(iov)|
    ensures forall i :: 0 <= i < |bytes| ==> Cells(iov)[i] < SIZE && bytes[i] == a[Cells(iov)[i]]
  {
    if iov == [] {
      return [];
    }
    var rest := GatherBytes(a, iov[1..]);
    bytes := a[iov[0].base..iov[0].base + iov[0].len] + rest;
  }

  /** What a receive writes through its segments: fills them in order until it runs out. */
  method ScatterBytes(a: array<Byte>, iov: seq<Iov>, bytes: seq<Byte>)
    requires a.Length == SIZE && InRange(iov) && |bytes| <= |Cells(iov)|
    requires forall i, j :: 0 <= i < j < |Cells(iov)| ==> Cells(iov)[i] != Cells(iov)[j]
    modifies a
    ensures forall i :: 0 <= i < |bytes| ==> Cells(iov)[i] < SIZE && a[Cells(iov)[i]] == bytes[i]
    ensures forall c :: 0 <= c < SIZE && c !in Cells(iov)[..|bytes|] ==> a[c] == old(a[c])
    decreases |iov|
  {
    if iov != [] {
      var k := if |bytes| < iov[0].len then |bytes| else iov[0].len;
      ghost var cells := Cells(iov);
      CopyIn(a, iov[0].base, bytes[..k]);
      assert forall i :: 0 <= i < k ==> cells[i] == iov[0].base + i;
      assert Cells(iov[1..]) == cells[iov[0].len..];
      if k == iov[0].len {
        ScatterBytes(a, iov[1..], bytes[k..]);
        assert cells[..|bytes|] == cells[..k] + Cells(iov[1..])[..|bytes| - k];
      }
    }
  }

  /** The head after k more bytes, seen from the tail. */
  lemma HeadMoves(head: Word, tail: Word, k: nat)
    requires Wrap(head - tail) + k <= SIZE
    ensures Wrap(Wrap(head + k) - tail) == Wrap(head - tail) + k
    ensures Mask(head) == Cell(tail, Wrap(head - tail))
  {
  }

  class RingBuffer {
    const data: array<Byte>
    var head: Word
    var tail: Word

    ghost predicate Valid()
      reads this, data
    {
      data.Length == SIZE && Wrap(head - tail) <= SIZE
    }

    function Size(): nat
      reads this
    {
      Wrap(head - tail)
    }

    /** The bytes put and not yet consumed, oldest first. */
    ghost function Contents(): (c: seq<Byte>)
      requires Valid()
      reads this, data
      ensures |c| == Size()
    {
      Window(data[..], tail, Size())
    }

    constructor ()
      ensures Valid() && fresh(data) && Contents() == [] && head == tail == 0
    {
      data := new Byte[SIZE](_ => 0);
      head, tail := 0, 0;
    }

    /** Appends bytes for which the caller made room; more than a whole buffer is refused. */
    method Put(src: seq<Byte>) returns (r: Result<()>)
      requires Valid() && (|src| > SIZE || Size() + |src| <= SIZE)
      modifies this, data
      ensures Valid() && tail == old(tail)
      ensures r == if |src| > SIZE then Err(E2BIG) else Ok(())
      ensures r.Ok? ==> Contents() == old(Contents()) + src && head == Wrap(old(head) + |src|)
      ensures r.Err? ==> Contents() == old(Contents()) && head == old(head)
    {
      if |src| > SIZE {
        return Err(E2BIG);
      }
      ghost var n := Size();
      var h := Mask(head);
      HeadMoves(head, tail, |src|);
      CopyAround(data, h, src);
      PlacedExtends(old(data[..]), data[..], tail, n, h, src);
      head := Wrap(head + |src|);
      return Ok(());
    }

    /** Reads bytes from the tail without consuming them. */
    method Copy(count: nat) returns (dst: seq<Byte>)
      requires Valid() && count <= SIZE
      ensures dst == Window(data[..], tail, count)
      ensures count <= Size() ==> dst == Contents()[..count]
    {
      var t := Mask(tail);
      if t + count <= SIZE {
        dst := data[t..t + count];
      } else {
        dst := data[t..SIZE] + data[..count - (SIZE - t)];
      }
      WindowPieces(data[..], tail, count);
    }

    /** The segments a receive may fill: the free cells, in ring order. */
    method PutIov() returns (iov: seq<Iov>)
      requires Valid() && Size() < SIZE
      ensures 1 <= |iov| <= 2 && InRange(iov) && Cells(iov) == CellRange(head, SIZE - Size())
    {
      var h, t := Mask(head), Mask(tail);
      FillLevel(head, tail);
      CellRangePieces(head, SIZE - Size());
      if h < t {
        iov := [Iov(h, t - h)];
      } else if t == 0 {
        iov := [Iov(h, SIZE - h)];
      } else {
        iov := [Iov(h, SIZE - h), Iov(0, t)];
      }
    }

    /** The segments a send may drain: the bytes put and not consumed, in order. */
    method GetIov() returns (iov: seq<Iov>)
      requires Valid() && Size() > 0
      ensures 1 <= |iov| <= 2 && InRange(iov) && Cells(iov) == CellRange(tail, Size())
    {
      var h, t := Mask(head), Mask(tail);
      FillLevel(head, tail);
      CellRangePieces(tail, Size());
      if t < h {
        iov := [Iov(t, h - t)];
      } else if h == 0 {
        iov := [Iov(t, SIZE - t)];
      } else {
        iov := [Iov(t, SIZE - t), Iov(0, h)];
      }
    }

    /** Drops bytes that were read. */
    method Consume(count: nat)
      requires Valid() && count <= Size()
      modifies this`tail
      ensures Valid() && Contents() == old(Contents())[count..]
    {
      ghost var n := Size();
      tail := Wrap(tail + count);
      assert Size() == n - count;
      forall i | 0 <= i < n - count ensures Cell(tail, i) == Cell(old(tail), count + i) {
        CellAfterWrap(old(tail), count, i);
      }
    }

    /** Counts in bytes that a receive placed in the first free cells. */
    method Produce(count: nat)
      requires Valid() && Size() + count <= SIZE
      modifies this`head
      ensures Valid() && head == Wrap(old(head) + count)
      ensures Contents() == Window(data[..], tail, old(Size()) + count)
    {
      head := Wrap(head + count);
    }
  }
}
