/**
  Upload streaming (Daemon/common_utils/http_transaction.cpp, CalculateUploadDataSize and
  Read): libcurl asks for the request body in buffers of any size. size_t arithmetic is
  modelled with its wrap-around.
*/
module Upload {
  import opened Common

  const SIZE_T := 0x1_0000_0000_0000_0000

  /** elements_count * element_size, as size_t computes it. */
  function Product(elementSize: nat, elementsCount: nat): (n: nat)
    ensures n < SIZE_T
    ensures elementSize * elementsCount < SIZE_T ==> n == elementSize * elementsCount
  {
    (elementSize * elementsCount) % SIZE_T
  }

  /** A product that does not fit comes out as what is left after whole turns of size_t. */
  lemma ProductWraps(elementSize: nat, elementsCount: nat)
    ensures exists turns: nat :: elementSize * elementsCount == Product(elementSize, elementsCount) + turns * SIZE_T
  {
    var exact: nat := elementSize * elementsCount;
    assert exact == exact % SIZE_T + exact / SIZE_T * SIZE_T;
  }

  function Min(a: nat, b: nat): nat { if a > b then b else a }

  /** What each request comes to in bytes. */
  function Sizes(requests: seq<(nat, nat)>): (sizes: seq<nat>)
    ensures |sizes| == |requests|
    ensures forall i :: 0 <= i < |requests| ==> sizes[i] == Product(requests[i].0, requests[i].1)
  {
    seq(|requests|, i requires 0 <= i < |requests| => Product(requests[i].0, requests[i].1))
  }

  /** The position after the requests: each takes what it asks for, as far as there is data. */
  function PositionAfter(data: seq<bv8>, start: nat, sizes: seq<nat>): (at: nat)
    requires start <= |data|
    ensures start <= at <= |data|
  {
    if sizes == [] then start else
    var at := PositionAfter(data, start, sizes[..|sizes| - 1]);
    at + Min(|data| - at, sizes[|sizes| - 1])
  }

  /** The chunks handed out: each the data between one position and the next. */
  function ChunksFrom(data: seq<bv8>, start: nat, sizes: seq<nat>): (chunks: seq<seq<bv8>>)
    requires start <= |data|
    ensures |chunks| == |sizes|
  {
    if sizes == [] then [] else
    var front := sizes[..|sizes| - 1];
    assert PositionAfter(data, start, front) <= PositionAfter(data, start, sizes);
    ChunksFrom(data, start, front) + [data[PositionAfter(data, start, front)..PositionAfter(data, start, sizes)]]
  }

  lemma OneMoreSize(data: seq<bv8>, start: nat, sizes: seq<nat>, i: nat)
    requires start <= |data| && i < |sizes|
    ensures var at, next := PositionAfter(data, start, sizes[..i]), PositionAfter(data, start, sizes[..i + 1]);
      && next == at + Min(|data| - at, sizes[i])
      && ChunksFrom(data, start, sizes[..i + 1]) == ChunksFrom(data, start, sizes[..i]) + [data[at..next]]
  {
    assert sizes[..i + 1][..i] == sizes[..i];
  }

  function Requested(sizes: seq<nat>): nat {
    if sizes == [] then 0 else Requested(sizes[..|sizes| - 1]) + sizes[|sizes| - 1]
  }

  lemma {:induction false} PositionIsRequested(data: seq<bv8>, start: nat, sizes: seq<nat>)
    requires start <= |data|
    ensures PositionAfter(data, start, sizes) == start + Min(|data| - start, Requested(sizes))
    decreases |sizes|
  {
    if sizes == [] {
    } else {
      PositionIsRequested(data, start, sizes[..|sizes| - 1]);
    }
  }

  lemma ConcatOneMore(chunks: seq<seq<bv8>>, chunk: seq<bv8>)
    ensures Concat(chunks + [chunk]) == Concat(chunks) + chunk
  {
    assert (chunks + [chunk])[..|chunks|] == chunks;
  }

  lemma JoinSlices(data: seq<bv8>, a: nat, b: nat, c: nat)
    requires a <= b <= c <= |data|
    ensures data[a..b] + data[b..c] == data[a..c]
  {
  }

  lemma {:induction false} ChunksJoin(data: seq<bv8>, start: nat, sizes: seq<nat>)
    requires start <= |data|
    ensures Concat(ChunksFrom(data, start, sizes)) == data[start..PositionAfter(data, start, sizes)]
    decreases |sizes|
  {
    if sizes == [] {
    } else {
      var front := sizes[..|sizes| - 1];
      var at, next := PositionAfter(data, start, front), PositionAfter(data, start, sizes);
      ChunksJoin(data, start, front);
      ConcatOneMore(ChunksFrom(data, start, front), data[at..next]);
      JoinSlices(data, start, at, next);
    }
  }

  /**
    For any requests: the chunks are, end to end, the data from the start on, exactly as far as
    the requested bytes reach.
  */
  lemma ReadSoFar(data: seq<bv8>, start: nat, sizes: seq<nat>)
    requires start <= |data|
    ensures Concat(ChunksFrom(data, start, sizes)) == data[start..start + Min(|data| - start, Requested(sizes))]
  {
    ChunksJoin(data, start, sizes);
    PositionIsRequested(data, start, sizes);
  }

  lemma {:induction false} NothingFollows(data: seq<bv8>, sizes: seq<nat>, later: seq<nat>)
    requires PositionAfter(data, 0, sizes) == |data|
    ensures PositionAfter(data, 0, sizes + later) == |data|
    ensures forall i :: |sizes| <= i < |sizes + later| ==> ChunksFrom(data, 0, sizes + later)[i] == []
    decreases |later|
  {
    if later == [] {
      assert sizes + later == sizes;
    } else {
      var n, all := |later| - 1, sizes + later;
      NothingFollows(data, sizes, later[..n]);
      assert all[..|all| - 1] == sizes + later[..n];
    }
  }

  /** The whole body goes out exactly when the requested bytes add up to it; nothing follows it. */
  lemma UploadCompletesExactly(data: seq<bv8>, sizes: seq<nat>, later: seq<nat>)
    ensures Concat(ChunksFrom(data, 0, sizes)) == data <==> Requested(sizes) >= |data|
    ensures Requested(sizes) >= |data| ==>
      forall i :: |sizes| <= i < |sizes + later| ==> ChunksFrom(data, 0, sizes + later)[i] == []
  {
    ReadSoFar(data, 0, sizes);
    if Requested(sizes) >= |data| {
      PositionIsRequested(data, 0, sizes);
      NothingFollows(data, sizes, later);
    }
  }

  class UploadTransaction {
    const data: seq<bv8>
    const uploadDataSize: nat
    /** tellg of the request stream. */
    var position: nat

    ghost predicate Valid()
      reads this
    {
      uploadDataSize == |data| && position <= |data| < SIZE_T
    }

    /** Seek to the end, note the position, seek back. */
    constructor (data: seq<bv8>)
      requires |data| < SIZE_T
      ensures Valid() && this.data == data && position == 0
    {
      this.data := data;
      position := |data|;
      uploadDataSize := |data|;
      position := 0;
    }

    method Read(elementSize: nat, elementsCount: nat) returns (chunk: seq<bv8>)
      requires Valid()
      modifies this
      ensures Valid() && position == old(position) + |chunk|
      ensures chunk == data[old(position)..position]
      ensures |chunk| == Min(|data| - old(position), Product(elementSize, elementsCount))
    {
      var maxDataSize := Product(elementSize, elementsCount);
      var bytesLeft := uploadDataSize - position;
      var readSize := if bytesLeft > maxDataSize then maxDataSize else bytesLeft;
      chunk := [];
      if readSize != 0 {
        chunk := data[position..position + readSize];
        position := position + readSize;
      }
    }

    /** The sequence of callbacks of one upload. */
    method ReadAll(requests: seq<(nat, nat)>) returns (chunks: seq<seq<bv8>>)
      requires Valid()
      modifies this
      ensures Valid() && chunks == ChunksFrom(data, old(position), Sizes(requests))
      ensures position == PositionAfter(data, old(position), Sizes(requests))
    {
      ghost var sizes := Sizes(requests);
      chunks := [];
      for i := 0 to |requests|
        invariant Valid() && chunks == ChunksFrom(data, old(position), sizes[..i])
        invariant position == PositionAfter(data, old(position), sizes[..i])
      {
        OneMoreSize(data, old(position), sizes, i);
        var chunk := Read(requests[i].0, requests[i].1);
        chunks := chunks + [chunk];
      }
      assert sizes[..|requests|] == sizes;
    }
  }
}
