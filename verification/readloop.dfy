/**
 * The read loop of `scrapeRecipePage` (src/lib/scraper.ts), apart from what
 * it does with a buffer: after every chunk the buffer grows by that chunk,
 * an extraction `attempt` may end the loop with its result, and a buffer
 * past 500000 characters ends it with the `fallback`. A stream that runs
 * out also ends with the `fallback` of everything read.
 */
module ChunkedRead {
  import opened Optional

  /** Reading stops once the buffer holds more than this many characters. */
  const MaxBuffer := 500000

  /** All chunks, in order. */
  function Concat(chunks: seq<string>): string {
    if |chunks| == 0 then "" else Concat(chunks[..|chunks| - 1]) + chunks[|chunks| - 1]
  }

  /** Concatenation peels off from the front, too. */
  lemma {:induction false} ConcatSplit(chunks: seq<string>)
    requires |chunks| > 0
    ensures Concat(chunks) == chunks[0] + Concat(chunks[1..])
    decreases |chunks|
  {
    if |chunks| > 1 {
      var init := chunks[..|chunks| - 1];
      ConcatSplit(init);
      assert init[1..] == chunks[1..][..|chunks[1..]| - 1];
      assert chunks[1..][|chunks[1..]| - 1] == chunks[|chunks| - 1];
    } else {
      assert chunks[..0] == [];
      assert chunks[1..] == [];
    }
  }

  /** The loop from chunk `i` on, with `buffer` read so far. */
  function ReadFrom<R>(attempt: string -> Option<R>, fallback: string -> R, chunks: seq<string>, i: nat, buffer: string): R
    requires i <= |chunks|
    decreases |chunks| - i
  {
    if i == |chunks| then fallback(buffer)
    else
      var b := buffer + chunks[i];
      if attempt(b).Some? then attempt(b).value
      else if |b| > MaxBuffer then fallback(b)
      else ReadFrom(attempt, fallback, chunks, i + 1, b)
  }

  /** `r` is what the loop ends with on `buffer`: the fallback, or a successful attempt. */
  ghost predicate EndsOn<R>(attempt: string -> Option<R>, fallback: string -> R, buffer: string, r: R) {
    r == fallback(buffer) || (attempt(buffer).Some? && r == attempt(buffer).value)
  }

  /** The whole loop, from an empty buffer. */
  function Read<R>(attempt: string -> Option<R>, fallback: string -> R, chunks: seq<string>): (r: R)
    ensures exists j :: 0 <= j <= |chunks| && EndsOn(attempt, fallback, Concat(chunks[..j]), r)
  {
    ReadOutcome(attempt, fallback, chunks, 0, "");
    var r := ReadFrom(attempt, fallback, chunks, 0, "");
    assert forall j :: 0 <= j <= |chunks| ==> chunks[0..j] == chunks[..j] && "" + Concat(chunks[0..j]) == Concat(chunks[..j]);
    r
  }

  /** Nothing ended the loop at any of the buffers of the first `n` chunks. */
  predicate ReadOn<R>(attempt: string -> Option<R>, chunks: seq<string>, n: nat)
    requires n <= |chunks|
  {
    forall j :: 1 <= j <= n ==> attempt(Concat(chunks[..j])).None? && |Concat(chunks[..j])| <= MaxBuffer
  }

  /** After `n` undisturbed chunks the loop holds exactly their concatenation. */
  lemma {:induction false} ReadFromPrefix<R>(attempt: string -> Option<R>, fallback: string -> R, chunks: seq<string>, n: nat)
    requires n <= |chunks| && ReadOn(attempt, chunks, n)
    ensures Read(attempt, fallback, chunks) == ReadFrom(attempt, fallback, chunks, n, Concat(chunks[..n]))
  {
    if n > 0 {
      ReadFromPrefix(attempt, fallback, chunks, n - 1);
      assert chunks[..n][..n - 1] == chunks[..n - 1];
    } else {
      assert chunks[..0] == [];
    }
  }

  /** The first buffer an attempt succeeds on ends the loop with that attempt's result. */
  lemma ReadStopsAtHit<R>(attempt: string -> Option<R>, fallback: string -> R, chunks: seq<string>, n: nat)
    requires 0 < n <= |chunks| && ReadOn(attempt, chunks, n - 1)
    requires attempt(Concat(chunks[..n])).Some?
    ensures Read(attempt, fallback, chunks) == attempt(Concat(chunks[..n])).value
  {
    ReadFromPrefix(attempt, fallback, chunks, n - 1);
    assert chunks[..n][..n - 1] == chunks[..n - 1];
  }

  /** The first buffer past the cap ends the loop with the fallback of that buffer; later chunks are not read. */
  lemma ReadStopsAtCap<R>(attempt: string -> Option<R>, fallback: string -> R, chunks: seq<string>, n: nat)
    requires 0 < n <= |chunks| && ReadOn(attempt, chunks, n - 1)
    requires attempt(Concat(chunks[..n])).None? && |Concat(chunks[..n])| > MaxBuffer
    ensures Read(attempt, fallback, chunks) == fallback(Concat(chunks[..n]))
  {
    ReadFromPrefix(attempt, fallback, chunks, n - 1);
    assert chunks[..n][..n - 1] == chunks[..n - 1];
  }

  /** A stream that never ends the loop gives the fallback of everything it delivered. */
  lemma ReadToEnd<R>(attempt: string -> Option<R>, fallback: string -> R, chunks: seq<string>)
    requires ReadOn(attempt, chunks, |chunks|)
    ensures Read(attempt, fallback, chunks) == fallback(Concat(chunks))
  {
    ReadFromPrefix(attempt, fallback, chunks, |chunks|);
    assert chunks[..|chunks|] == chunks;
  }

  /** The loop's result is a successful attempt or a fallback, on some buffer it read. */
  lemma {:induction false} ReadOutcome<R>(attempt: string -> Option<R>, fallback: string -> R, chunks: seq<string>, i: nat, buffer: string)
    requires i <= |chunks|
    ensures var r := ReadFrom(attempt, fallback, chunks, i, buffer);
      exists j :: i <= j <= |chunks| && (r == fallback(buffer + Concat(chunks[i..j]))
        || (attempt(buffer + Concat(chunks[i..j])).Some? && r == attempt(buffer + Concat(chunks[i..j])).value))
    decreases |chunks| - i
  {
    var r := ReadFrom(attempt, fallback, chunks, i, buffer);
    if i == |chunks| {
      assert chunks[i..i] == [];
      assert buffer + Concat(chunks[i..i]) == buffer;
    } else {
      var b := buffer + chunks[i];
      assert b == buffer + Concat(chunks[i..i + 1]) by {
        assert chunks[i..i + 1][..0] == [];
      }
      if attempt(b).None? && |b| <= MaxBuffer {
        ReadOutcome(attempt, fallback, chunks, i + 1, b);
        var j :| i + 1 <= j <= |chunks| && (r == fallback(b + Concat(chunks[i + 1..j]))
          || (attempt(b + Concat(chunks[i + 1..j])).Some? && r == attempt(b + Concat(chunks[i + 1..j])).value));
        ConcatSplit(chunks[i..j]);
        assert chunks[i..j][1..] == chunks[i + 1..j];
        assert b + Concat(chunks[i + 1..j]) == buffer + Concat(chunks[i..j]);
      }
    }
  }

  /**
   * The loop as the program runs it, one chunk per iteration; `read` is the
   * number of chunks taken from the stream.
   */
  method ReadStream<R>(attempt: string -> Option<R>, fallback: string -> R, chunks: seq<string>) returns (r: R, read: nat)
    ensures r == Read(attempt, fallback, chunks)
    ensures read <= |chunks| && ReadOn(attempt, chunks, if read == 0 then 0 else read - 1)
    ensures read < |chunks| ==> 0 < read && (attempt(Concat(chunks[..read])).Some? || |Concat(chunks[..read])| > MaxBuffer)
  {
    var buffer := "";
    var i := 0;
    assert chunks[..0] == [];
    while i < |chunks|
      invariant i <= |chunks|
      invariant buffer == Concat(chunks[..i])
      invariant ReadOn(attempt, chunks, i)
      invariant ReadFrom(attempt, fallback, chunks, i, buffer) == Read(attempt, fallback, chunks)
      decreases |chunks| - i
    {
      buffer := buffer + chunks[i];
      assert chunks[..i + 1][..i] == chunks[..i];
      var result := attempt(buffer);
      if result.Some? {
        return result.value, i + 1;
      }
      if |buffer| > MaxBuffer {
        return fallback(buffer), i + 1;
      }
      i := i + 1;
    }
    return fallback(buffer), |chunks|;
  }
}
