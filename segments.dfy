/** The partition of [0, size) into one window per thread that the
    threaded download computes: part = size // threads, window i starts at
    i * part and ends (inclusively) part - 1 bytes later, except the last
    window, which ends at size - 1 and so absorbs the remainder. */
module Segments {

  /** A window of the file, both ends inclusive, as in the Range header. */
  datatype Window = Window(start: int, end: int)

  /** The window of thread i. Python's // and Dafny's / agree here, the
      divisor being positive. */
  function WindowAt(size: int, threads: int, i: int): (w: Window)
    requires size > 0 && threads >= 1 && 0 <= i < threads
    ensures w.start >= 0
  {
    var part := size / threads;
    var start := i * part;
    Window(start, if i == threads - 1 then size - 1 else start + part - 1)
  }

  /** All windows, in thread order. */
  function Partition(size: int, threads: int): (ws: seq<Window>)
    requires size > 0 && threads >= 1
    ensures |ws| == threads
    ensures forall i :: 0 <= i < threads ==> ws[i] == WindowAt(size, threads, i)
  {
    seq(threads, i requires 0 <= i < threads => WindowAt(size, threads, i))
  }

  lemma MulLeq(a: int, b: int, p: nat)
    requires a <= b
    ensures a * p <= b * p
  {
  }

  /** The shape of the partition for every positive size and thread count:
      threads windows, window i at i * part, the non-last windows exactly
      part bytes long, and the last one running to size - 1, which makes
      it size % threads bytes longer than the others. */
  lemma PartitionShape(size: int, threads: int)
    requires size > 0 && threads >= 1
    ensures var ws, part := Partition(size, threads), size / threads;
      |ws| == threads
      && (forall i :: 0 <= i < threads ==> ws[i].start == i * part)
      && (forall i :: 0 <= i < threads - 1 ==> ws[i].end == ws[i].start + part - 1)
      && ws[threads - 1].end == size - 1
      && ws[threads - 1].end - ws[threads - 1].start + 1 == part + size % threads
  {
    var part := size / threads;
    assert (threads - 1) * part == threads * part - part;
  }

  /** The bounds of one window when there are at least as many bytes as
      threads: it is non-empty, inside the file, and the next window starts
      right after it. */
  lemma WindowBounds(size: int, threads: int, i: int)
    requires 1 <= threads <= size && 0 <= i < threads
    ensures var w, part := WindowAt(size, threads, i), size / threads;
      part >= 1
      && w.start == i * part
      && 0 <= w.start <= w.end < size
      && w.end + 1 == (if i == threads - 1 then size else (i + 1) * part)
  {
    var part := size / threads;
    assert part >= 1 by {
      assert size == threads * part + size % threads;
    }
    assert (i + 1) * part == i * part + part;
    MulLeq(i + 1, threads, part);
    assert threads * part <= size;
  }

  /** With size >= threads the windows tile [0, size): the first starts at
      0, each one ends right before the next, none is empty, and the last
      ends at size - 1. */
  lemma PartitionTiles(size: int, threads: int)
    requires 1 <= threads <= size
    ensures var ws := Partition(size, threads);
      ws[0].start == 0
      && (forall i :: 0 <= i < threads ==> 0 <= ws[i].start <= ws[i].end < size)
      && (forall i :: 0 <= i < threads - 1 ==> ws[i].end + 1 == ws[i + 1].start)
      && ws[threads - 1].end == size - 1
  {
    var ws := Partition(size, threads);
    forall i | 0 <= i < threads
      ensures 0 <= ws[i].start <= ws[i].end < size
    {
      WindowBounds(size, threads, i);
    }
    forall i | 0 <= i < threads - 1
      ensures ws[i].end + 1 == ws[i + 1].start
    {
      WindowBounds(size, threads, i);
      WindowBounds(size, threads, i + 1);
    }
  }

  /** With size >= threads any two distinct windows are disjoint, the
      earlier one lying wholly before the later. */
  lemma PartitionDisjoint(size: int, threads: int)
    requires 1 <= threads <= size
    ensures var ws := Partition(size, threads);
      forall i, j :: 0 <= i < j < threads ==> ws[i].end < ws[j].start
  {
    var ws, part := Partition(size, threads), size / threads;
    forall i, j | 0 <= i < j < threads
      ensures ws[i].end < ws[j].start
    {
      WindowBounds(size, threads, i);
      WindowBounds(size, threads, j);
      MulLeq(i + 1, j, part);
    }
  }

  /** The thread whose window holds byte k: k // part, or the last thread
      for the bytes of the remainder. */
  function Owner(size: int, threads: int, k: int): (i: int)
    requires 1 <= threads <= size && 0 <= k < size
    ensures 0 <= i < threads
  {
    var part := size / threads;
    WindowBounds(size, threads, 0);
    if k / part < threads then k / part else threads - 1
  }

  /** Byte k lies in its owner's window. */
  lemma OwnerWindow(size: int, threads: int, k: int)
    requires 1 <= threads <= size && 0 <= k < size
    ensures var w := WindowAt(size, threads, Owner(size, threads, k));
      w.start <= k <= w.end
  {
    var part := size / threads;
    var o := Owner(size, threads, k);
    WindowBounds(size, threads, o);
    var q, r := k / part, k % part;
    assert k == q * part + r && 0 <= r < part;
    if o == q {
      if o < threads - 1 {
        assert (q + 1) * part == q * part + part;
      }
    } else {
      MulLeq(o, q, part);
    }
  }

  /** With size >= threads every byte of [0, size) lies in exactly one
      window: the window of its owner. */
  lemma PartitionCovers(size: int, threads: int, k: int, i: int)
    requires 1 <= threads <= size && 0 <= k < size && 0 <= i < threads
    ensures var w := Partition(size, threads)[i];
      w.start <= k <= w.end <==> i == Owner(size, threads, k)
  {
    var ws := Partition(size, threads);
    var o := Owner(size, threads, k);
    OwnerWindow(size, threads, k);
    if i != o {
      PartitionDisjoint(size, threads);
      if i < o {
        assert ws[i].end < ws[o].start;
      } else {
        assert ws[o].end < ws[i].start;
      }
    }
  }

  /** With more threads than bytes part is 0: every window but the last is
      the empty window 0..-1, and the last covers the whole file. */
  lemma PartitionWithSurplusThreads(size: int, threads: int)
    requires 1 <= size < threads
    ensures var ws := Partition(size, threads);
      (forall i :: 0 <= i < threads - 1 ==> ws[i] == Window(0, -1))
      && ws[threads - 1] == Window(0, size - 1)
  {
    assert size / threads == 0;
  }

  /** A 1,000,000-byte file over 4 threads gives four windows of 250,000 bytes. */
  lemma PartitionOfAMillionOverFour()
    ensures Partition(1000000, 4) ==
      [Window(0, 249999), Window(250000, 499999), Window(500000, 749999), Window(750000, 999999)]
  {
    var ws := Partition(1000000, 4);
    assert ws[0] == Window(0, 249999);
    assert ws[1] == Window(250000, 499999);
    assert ws[2] == Window(500000, 749999);
    assert ws[3] == Window(750000, 999999);
  }
}
