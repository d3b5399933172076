/**
 * Byte streams as the chunks a file reader delivers, and `streamToString`
 * reduced to what it does with them: push every chunk, in order, onto a list
 * and concatenate the list once the stream ends.
 */
module Streams {

  type byte = x: int | 0 <= x < 256

  /** All chunks of a stream, concatenated in the order they were delivered. */
  function Flatten(chunks: seq<seq<byte>>): seq<byte>
  {
    if chunks == [] then []
    else Flatten(chunks[..|chunks| - 1]) + chunks[|chunks| - 1]
  }

  /** Delivering one more chunk appends exactly that chunk's bytes. */
  lemma FlattenPush(chunks: seq<seq<byte>>, chunk: seq<byte>)
    ensures Flatten(chunks + [chunk]) == Flatten(chunks) + chunk
  {
    assert (chunks + [chunk])[..|chunks|] == chunks;
  }

  /** Splitting a stream into two consecutive runs of chunks splits its bytes the same way. */
  lemma {:induction false} FlattenConcat(a: seq<seq<byte>>, b: seq<seq<byte>>)
    ensures Flatten(a + b) == Flatten(a) + Flatten(b)
    decreases |b|
  {
    if b == [] {
      assert a + b == a;
    } else {
      var init, last := b[..|b| - 1], b[|b| - 1];
      assert a + b == (a + init) + [last];
      assert b == init + [last];
      calc {
        Flatten(a + b);
        { FlattenPush(a + init, last); }
        Flatten(a + init) + last;
        { FlattenConcat(a, init); }
        Flatten(a) + Flatten(init) + last;
        { FlattenPush(init, last); }
        Flatten(a) + Flatten(b);
      }
    }
  }

  /**
   * Drains a stream: every 'data' chunk is pushed onto `acc`, and at 'end' the
   * accumulated chunks are concatenated.
   */
  method Drain(chunks: seq<seq<byte>>) returns (bytes: seq<byte>)
    ensures bytes == Flatten(chunks)
  {
    var acc: seq<seq<byte>> := [];
    var i := 0;
    while i < |chunks|
      invariant 0 <= i <= |chunks|
      invariant acc == chunks[..i]
    {
      acc := acc + [chunks[i]];
      i := i + 1;
    }
    assert acc == chunks;
    bytes := [];
    var j := 0;
    while j < |acc|
      invariant 0 <= j <= |acc|
      invariant bytes == Flatten(acc[..j])
    {
      FlattenPush(acc[..j], acc[j]);
      assert acc[..j + 1] == acc[..j] + [acc[j]];
      bytes := bytes + acc[j];
      j := j + 1;
    }
    assert acc[..j] == acc;
  }
}
