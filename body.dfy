/** The body of a PUT request: the chunks the request stream delivers,
    joined in arrival order (`Buffer.concat`). */
module Body {
  import opened Fs

  /** `Buffer.concat(chunks)`. */
  function Concat(chunks: seq<seq<byte>>): seq<byte> {
    if chunks == [] then [] else chunks[0] + Concat(chunks[1..])
  }

  /** Total number of bytes in the chunks. */
  function TotalLength(chunks: seq<seq<byte>>): nat {
    if chunks == [] then 0 else |chunks[0]| + TotalLength(chunks[1..])
  }

  lemma {:induction false} ConcatAppend(a: seq<seq<byte>>, b: seq<seq<byte>>)
    ensures Concat(a + b) == Concat(a) + Concat(b)
  {
    if a == [] {
      assert a + b == b;
    } else {
      assert (a + b)[1..] == a[1..] + b;
      ConcatAppend(a[1..], b);
    }
  }

  lemma {:induction false} ConcatLength(chunks: seq<seq<byte>>)
    ensures |Concat(chunks)| == TotalLength(chunks)
  {
    if chunks != [] {
      ConcatLength(chunks[1..]);
    }
  }

  /** Byte `j` of chunk `k` sits right after all bytes of the chunks that
      arrived before it: nothing is reordered, dropped or interleaved. */
  lemma ConcatAt(chunks: seq<seq<byte>>, k: nat, j: nat)
    requires k < |chunks| && j < |chunks[k]|
    ensures TotalLength(chunks[..k]) + j < |Concat(chunks)|
    ensures Concat(chunks)[TotalLength(chunks[..k]) + j] == chunks[k][j]
  {
    var before, after := chunks[..k], chunks[k + 1..];
    assert chunks == before + ([chunks[k]] + after);
    ConcatAppend(before, [chunks[k]] + after);
    assert Concat([chunks[k]] + after) == chunks[k] + Concat(after);
    ConcatLength(before);
  }

  /** Collect the stream's chunks in arrival order, then concatenate
      them. */
  method ReadRequestBody(stream: seq<seq<byte>>) returns (buffer: seq<byte>)
    ensures buffer == Concat(stream)
    ensures |buffer| == TotalLength(stream)
  {
    var chunks: seq<seq<byte>> := [];
    for i := 0 to |stream|
      invariant chunks == stream[..i]
    {
      chunks := chunks + [stream[i]];
    }
    assert chunks == stream;
    buffer := Concat(chunks);
    ConcatLength(stream);
  }
}
