/**
 * Batch sizing: the `chunk` helper that cuts the recipient list into lots,
 * and the clamp that turns the chunk-size input into the lot size used.
 */
module Chunking {
  import opened Common

  const DefaultChunkSize: int := 40
  const MaxChunkSize: int := 200

  /**
   * The lots of `xs` for lot size `size`: consecutive slices of `size`
   * elements, the last one holding what remains.
   */
  function Chunks<T>(xs: seq<T>, size: nat): seq<seq<T>>
    requires size >= 1
    decreases |xs|
  {
    if xs == [] then [] else
      var n := Min(size, |xs|);
      [xs[..n]] + Chunks(xs[n..], size)
  }

  /** `arr.slice(i, i + size)`: the slice end is clamped to the length. */
  function Slice<T>(xs: seq<T>, i: nat, j: nat): seq<T>
    requires i <= |xs| && i <= j
  {
    xs[i..Min(j, |xs|)]
  }

  /** `chunk(arr, size)`: the loop that pushes `arr.slice(i, i + size)` for `i = 0, size, 2*size, ...`. */
  method Chunk<T>(arr: seq<T>, size: nat) returns (res: seq<seq<T>>)
    requires size >= 1
    ensures res == Chunks(arr, size)
    ensures Flatten(res) == arr
  {
    res := [];
    var i := 0;
    while i < |arr|
      invariant res + Chunks(arr[Min(i, |arr|)..], size) == Chunks(arr, size)
      decreases |arr| - i
    {
      var lot := Slice(arr, i, i + size);
      ChunksStep(arr, i, size);
      res := res + [lot];
      i := i + size;
    }
    assert arr[Min(i, |arr|)..] == [];
    ChunksFlatten(arr, size);
  }

  /** The lots of a suffix: the slice at its start, then the lots of what follows that slice. */
  lemma ChunksStep<T>(xs: seq<T>, i: nat, size: nat)
    requires size >= 1 && i < |xs|
    ensures Chunks(xs[i..], size) == [Slice(xs, i, i + size)] + Chunks(xs[Min(i + size, |xs|)..], size)
  {
    var k := Min(size, |xs| - i);
    assert i + k == Min(i + size, |xs|);
    assert Slice(xs, i, i + size) == xs[i..][..k];
    assert xs[i..][k..] == xs[i + k..];
  }

  /** Concatenating the lots in order gives back the list: nothing is dropped, repeated or moved. */
  lemma {:induction false} ChunksFlatten<T>(xs: seq<T>, size: nat)
    requires size >= 1
    ensures Flatten(Chunks(xs, size)) == xs
    decreases |xs|
  {
    if xs != [] {
      var n := Min(size, |xs|);
      ChunksFlatten(xs[n..], size);
      assert xs[..n] + xs[n..] == xs;
    }
  }

  /**
   * Every lot is non-empty and at most `size` long, and every lot but the
   * last has exactly `size` elements.
   */
  lemma {:induction false} ChunksSizes<T>(xs: seq<T>, size: nat)
    requires size >= 1
    ensures forall k :: 0 <= k < |Chunks(xs, size)| ==> 1 <= |Chunks(xs, size)[k]| <= size
    ensures forall k :: 0 <= k < |Chunks(xs, size)| - 1 ==> |Chunks(xs, size)[k]| == size
    decreases |xs|
  {
    if xs != [] {
      var n := Min(size, |xs|);
      ChunksSizes(xs[n..], size);
      var rest := Chunks(xs[n..], size);
      assert Chunks(xs, size) == [xs[..n]] + rest;
      assert rest != [] ==> n == size;
    }
  }

  /** There are ceil(|xs| / size) lots. */
  lemma {:induction false} ChunksCount<T>(xs: seq<T>, size: nat)
    requires size >= 1
    ensures |Chunks(xs, size)| == (|xs| + size - 1) / size
    decreases |xs|
  {
    if xs != [] {
      var n := Min(size, |xs|);
      ChunksCount(xs[n..], size);
      if |xs| <= size {
        assert xs[n..] == [];
        assert size <= |xs| + size - 1 < 2 * size;
        DivIsOne(|xs| + size - 1, size);
      } else {
        assert |xs[n..]| == |xs| - size;
        DivShift(|xs| - 1, size);
      }
    }
  }

  lemma DivIsOne(a: int, d: int)
    requires d >= 1 && d <= a < 2 * d
    ensures a / d == 1
  {
  }

  lemma DivShift(a: int, d: int)
    requires d >= 1 && a >= 0
    ensures (a + d) / d == a / d + 1
  {
    var q, r := a / d, a % d;
    assert a == d * q + r;
    assert a + d == d * (q + 1) + r;
    DivUnique(a + d, d, q + 1, r);
  }

  /** Euclidean division has only one quotient. */
  lemma DivUnique(x: int, d: int, q: int, r: int)
    requires d >= 1 && 0 <= r < d && x == d * q + r
    ensures x / d == q
  {
    var q', r' := x / d, x % d;
    assert d * q' + r' == d * q + r;
    assert d * (q' - q) == r - r';
    if q' > q {
      MulAtLeast(d, q' - q);
    } else if q' < q {
      MulAtLeast(d, q - q');
    }
  }

  lemma MulAtLeast(d: int, k: int)
    requires d >= 1 && k >= 1
    ensures d * k >= d
  {
  }

  /** `Number(x) || 40`: an unparsable input (`NaN`, here `None`) and 0 are both falsy. */
  function OrDefault(input: Option<int>): int
  {
    match input
    case None => DefaultChunkSize
    case Some(n) => if n == 0 then DefaultChunkSize else n
  }

  /** `Math.max(1, Math.min(200, Number(batchChunkSize) || 40))`. */
  function EffectiveChunkSize(input: Option<int>): (size: int)
    ensures 1 <= size <= MaxChunkSize
    ensures input == None || input == Some(0) ==> size == DefaultChunkSize
    ensures input.Some? && input.value < 0 ==> size == 1
    ensures input.Some? && input.value >= MaxChunkSize ==> size == MaxChunkSize
    ensures input.Some? && 1 <= input.value <= MaxChunkSize ==> size == input.value
  {
    Max(1, Min(MaxChunkSize, OrDefault(input)))
  }

  /** The example of a 95-recipient batch with lot size 40: lots of 40, 40 and 15, in order. */
  lemma NinetyFiveByForty<T>(xs: seq<T>)
    requires |xs| == 95
    ensures Chunks(xs, 40) == [xs[..40], xs[40..80], xs[80..]]
  {
    assert Chunks(xs, 40) == [xs[..40]] + Chunks(xs[40..], 40);
    assert xs[40..][..40] == xs[40..80];
    assert xs[40..][40..] == xs[80..];
    assert Chunks(xs[40..], 40) == [xs[40..80]] + Chunks(xs[80..], 40);
    assert xs[80..][..15] == xs[80..];
    assert xs[80..][15..] == [];
    assert Chunks(xs[80..], 40) == [xs[80..]];
  }
}
