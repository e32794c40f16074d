/** The worker log writers (internal/runtime/docker/artifacts.go:713-812). The
    destination may take fewer bytes than it is given, which is its error. */
module LogStreams {
  import opened Basics

  function Marker(): string {
    "\n[ci-runner: worker output truncated at configured diagnostics.maxFileSize]\n"
  }

  // ----- What truncation means --------------------------------------------

  // The content that leaves room for the marker.
  function ContentLimit(limit: nat): (c: nat)
    ensures c <= limit
  {
    if |Marker()| < limit then limit - |Marker()| else 0
  }

  // The input whole, or cut so that it and the marker fit, the marker itself
  // cut if it alone does not.
  function Kept(limit: nat, input: string): string {
    var c := ContentLimit(limit);
    if |input| <= c then input
    else input[..c] + Marker()[..Min(|Marker()|, limit - c)]
  }

  lemma KeptWithinLimit(limit: nat, input: string)
    ensures |Kept(limit, input)| <= limit
    ensures Kept(limit, input) == input <== |input| <= ContentLimit(limit)
    ensures |input| > ContentLimit(limit) ==> |Kept(limit, input)| == limit
    ensures |input| > ContentLimit(limit) && limit >= |Marker()| ==>
              Kept(limit, input)[limit - |Marker()|..] == Marker()
  {
  }

  function Concat(chunks: seq<string>): string {
    if chunks == [] then "" else Concat(chunks[..|chunks| - 1]) + chunks[|chunks| - 1]
  }

  // ----- The truncating writer --------------------------------------------

  datatype Writer = Writer(sink: string, truncated: bool)

  // One Write to a destination that takes everything.
  function WriteChunk(limit: nat, w: Writer, chunk: string): Writer
    requires |w.sink| <= limit
  {
    if w.truncated then w
    else
      var remaining := if |w.sink| < ContentLimit(limit) then ContentLimit(limit) - |w.sink| else 0;
      var count := Min(|chunk|, remaining);
      var sink := w.sink + chunk[..count];
      if count == |chunk| then Writer(sink, false)
      else Writer(sink + Marker()[..Min(|Marker()|, limit - |sink|)], true)
  }

  function WriteChunks(limit: nat, chunks: seq<string>): (w: Writer)
    ensures |w.sink| <= limit
  {
    if chunks == [] then Writer("", false)
    else WriteChunk(limit, WriteChunks(limit, chunks[..|chunks| - 1]), chunks[|chunks| - 1])
  }

  lemma WriteExtends(limit: nat, w: Writer, input: string, chunk: string)
    requires w.sink == Kept(limit, input) && (w.truncated <==> |input| > ContentLimit(limit)) && |w.sink| <= limit
    ensures var after := WriteChunk(limit, w, chunk);
            after.sink == Kept(limit, input + chunk) && (after.truncated <==> |input + chunk| > ContentLimit(limit))
  {
    hide Marker;
    var c := ContentLimit(limit);
    if |input| <= c {
      assert |input + chunk| > c ==> (input + chunk)[..c] == input + chunk[..c - |input|];
    } else {
      assert (input + chunk)[..c] == input[..c];
    }
  }

  /** However the input is cut into writes, the log holds what truncating the
      whole input keeps. */
  lemma {:induction false} ChunkIndependent(limit: nat, chunks: seq<string>)
    ensures WriteChunks(limit, chunks)
         == Writer(Kept(limit, Concat(chunks)), |Concat(chunks)| > ContentLimit(limit))
  {
    hide Marker;
    if chunks != [] {
      var n := |chunks| - 1;
      ChunkIndependent(limit, chunks[..n]);
      WriteExtends(limit, WriteChunks(limit, chunks[..n]), Concat(chunks[..n]), chunks[n]);
    }
  }

  class TruncatingWriter {
    const limit: nat
    var sink: string
    var written: nat
    var truncated: bool

    ghost predicate Valid()
      reads this
    {
      written == |sink| <= limit
    }

    ghost function State(): Writer
      reads this
    {
      Writer(sink, truncated)
    }

    constructor (limit: nat)
      ensures Valid() && this.limit == limit && State() == Writer("", false)
    {
      this.limit := limit;
      sink, written, truncated := "", 0, false;
    }

    // The destination takes at most this many of the bytes.
    method Send(bytes: string, takes: nat) returns (n: nat)
      requires Valid() && |sink| + |bytes| <= limit
      modifies `sink, `written
      ensures Valid() && n == Min(|bytes|, takes) && sink == old(sink) + bytes[..n]
    {
      n := Min(|bytes|, takes);
      sink := sink + bytes[..n];
      written := written + n;
    }

    /** content and mark are how many bytes of the two writes the destination
        takes. Nothing it does makes the log exceed the limit, and if it takes
        all it is given the write is WriteChunk. */
    method Write(value: string, content: nat, mark: nat) returns (accepted: nat, ok: bool)
      requires Valid()
      modifies this
      ensures Valid() && old(sink) <= sink && accepted <= |value|
      ensures ok ==> accepted == |value| && State() == WriteChunk(limit, old(State()), value)
      ensures content >= |value| && mark >= |Marker()| ==> ok
    {
      hide Marker;
      accepted, ok := |value|, true;
      if truncated { return; }
      var marker := Marker();
      var contentLimit := limit;
      if |marker| < contentLimit { contentLimit := contentLimit - |marker|; } else { contentLimit := 0; }
      assert contentLimit == ContentLimit(limit);
      hide ContentLimit;
      var remaining := 0;
      if written < contentLimit { remaining := contentLimit - written; }
      var writeCount := |value|;
      if writeCount > remaining { writeCount := remaining; }
      if writeCount > 0 {
        var n := Send(value[..writeCount], content);
        if n != writeCount { return n, false; }
      }
      if writeCount < |value| {
        marker := marker[..Min(|marker|, limit - written)];
        if |marker| > 0 {
          var n := Send(marker, mark);
          if n != |marker| { return writeCount, false; }
        }
        truncated := true;
      }
    }
  }

  // ----- The bounded writer -----------------------------------------------

  class BoundedWriter {
    const limit: nat
    var sink: string
    var written: nat

    ghost predicate Valid()
      reads this
    {
      written == |sink| <= limit
    }

    constructor (limit: nat)
      ensures Valid() && this.limit == limit && sink == ""
    {
      this.limit := limit;
      sink, written := "", 0;
    }

    /** Takes what fits and fails on the first byte that does not; takes is how
        many bytes the destination takes. */
    method Write(value: string, takes: nat) returns (n: nat, ok: bool)
      requires Valid()
      modifies this
      ensures Valid() && n <= |value| && sink == old(sink) + value[..n]
      ensures takes >= |value| ==> n == Min(|value|, limit - |old(sink)|)
      ensures takes >= |value| ==> (ok <==> |old(sink)| < limit && |old(sink)| + |value| <= limit)
    {
      if written >= limit { return 0, false; }
      var remaining := limit - written;
      if |value| > remaining {
        n := Min(remaining, takes);
        sink := sink + value[..n];
        written := written + n;
        return n, false;
      }
      n := Min(|value|, takes);
      sink := sink + value[..n];
      written := written + n;
      ok := n == |value|;
    }
  }
}
