/** The destination file as the download engine uses it: opened for
    writing (which empties it), truncated to a size (which zero-fills when
    it grows), opened for update, positioned, and written at the current
    position (which overwrites, extends, and zero-fills any gap left by a
    seek past the end). */
module Destination {
  import opened Types

  function Zeros(n: nat): (z: seq<byte>)
    ensures |z| == n && forall k :: 0 <= k < n ==> z[k] == 0
  {
    seq(n, _ => 0)
  }

  /** The contents after f.truncate(n). */
  function Resized(c: seq<byte>, n: nat): (r: seq<byte>)
    ensures |r| == n
    ensures forall k :: 0 <= k < n ==> r[k] == if k < |c| then c[k] else 0
  {
    if n <= |c| then c[..n] else c + Zeros(n - |c|)
  }

  function Max(a: int, b: int): int {
    if a < b then b else a
  }

  /** The contents after writing data at offset pos: writing nothing
      changes nothing, even past the end. */
  function Overwrite(c: seq<byte>, pos: nat, data: seq<byte>): (r: seq<byte>)
    ensures |r| == if data == [] then |c| else Max(|c|, pos + |data|)
    ensures forall k :: 0 <= k < |r| ==>
      r[k] == if pos <= k < pos + |data| then data[k - pos] else if k < |c| then c[k] else 0
  {
    if data == [] then c
    else
      var padded := if pos <= |c| then c else c + Zeros(pos - |c|);
      padded[..pos] + data + (if pos + |data| < |padded| then padded[pos + |data|..] else [])
  }

  /** Two writes back to back are one write of the two pieces joined. */
  lemma OverwriteAppend(c: seq<byte>, pos: nat, a: seq<byte>, b: seq<byte>)
    ensures Overwrite(Overwrite(c, pos, a), pos + |a|, b) == Overwrite(c, pos, a + b)
  {
    var lhs, rhs := Overwrite(Overwrite(c, pos, a), pos + |a|, b), Overwrite(c, pos, a + b);
    assert |lhs| == |rhs|;
    forall k | 0 <= k < |lhs|
      ensures lhs[k] == rhs[k]
    {
      if pos + |a| <= k < pos + |a| + |b| {
        assert (a + b)[k - pos] == b[k - pos - |a|];
      } else if pos <= k < pos + |a| {
        assert (a + b)[k - pos] == a[k - pos];
      }
    }
  }

  /** Writes to disjoint ranges give the same contents in either order. */
  lemma OverwriteCommutes(c: seq<byte>, p: nat, a: seq<byte>, q: nat, b: seq<byte>)
    requires p + |a| <= q || q + |b| <= p
    ensures Overwrite(Overwrite(c, p, a), q, b) == Overwrite(Overwrite(c, q, b), p, a)
  {
    var lhs, rhs := Overwrite(Overwrite(c, p, a), q, b), Overwrite(Overwrite(c, q, b), p, a);
    assert |lhs| == |rhs|;
    forall k | 0 <= k < |lhs|
      ensures lhs[k] == rhs[k]
    {
    }
  }

  /** A write that lands inside the file keeps its length, puts the data
      at pos and leaves every other byte alone. */
  lemma OverwriteInside(c: seq<byte>, pos: nat, data: seq<byte>)
    requires pos + |data| <= |c|
    ensures var r := Overwrite(c, pos, data);
      |r| == |c| && r[pos..pos + |data|] == data
      && forall k :: 0 <= k < |c| && !(pos <= k < pos + |data|) ==> r[k] == c[k]
  {
    var r := Overwrite(c, pos, data);
    var slice := r[pos..pos + |data|];
    assert forall k :: 0 <= k < |data| ==> slice[k] == r[pos + k];
  }

  /** Writing the whole body into an emptied file leaves exactly the body. */
  lemma OverwriteEmpty(data: seq<byte>)
    ensures Overwrite([], 0, data) == data
  {
    assert |Overwrite([], 0, data)| == |data|;
  }

  /** The file at the destination path, with the position of the handle
      through which it is being written. */
  class DestinationFile {
    var contents: seq<byte>
    var position: nat

    constructor (initial: seq<byte>)
      ensures contents == initial && position == 0
    {
      contents, position := initial, 0;
    }

    /** open(path, "wb") */
    method OpenForWriting()
      modifies this
      ensures contents == [] && position == 0
    {
      contents, position := [], 0;
    }

    /** open(path, "r+b") */
    method OpenForUpdate()
      modifies this
      ensures contents == old(contents) && position == 0
    {
      position := 0;
    }

    /** f.truncate(n): the position stays where it was. */
    method Truncate(n: nat)
      modifies this
      ensures contents == Resized(old(contents), n) && position == old(position)
    {
      contents := Resized(contents, n);
    }

    /** f.seek(offset) */
    method Seek(offset: nat)
      modifies this
      ensures contents == old(contents) && position == offset
    {
      position := offset;
    }

    /** f.write(data) */
    method Write(data: seq<byte>)
      modifies this
      ensures contents == Overwrite(old(contents), old(position), data)
      ensures position == old(position) + |data|
    {
      contents := Overwrite(contents, position, data);
      position := position + |data|;
    }
  }
}
