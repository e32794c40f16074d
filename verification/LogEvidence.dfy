/** The resource-evidence observer on the log stream
    (internal/runtime/docker/log_evidence.go:9-93). */
module LogEvidence {
  import opened Basics
  import LogStreams

  const EVIDENCE_MARKER := "ci-runner-resource-evidence-v1:"
  const MAXIMUM_LINE := 32 * 1024 + |EVIDENCE_MARKER| + 64

  // ----- One line ---------------------------------------------------------

  // The parsers of a timestamp and of the evidence document are parameters.
  datatype Parser<!E> = Parser(isTimestamp: string -> bool, parse: string -> Option<E>)

  function IndexOf(s: string, c: char): (r: Option<nat>)
    ensures r.None? <==> c !in s
    ensures r.Some? ==> r.value < |s| && s[r.value] == c && c !in s[..r.value]
  {
    if s == [] then None
    else if s[0] == c then Some(0)
    else
      var r := IndexOf(s[1..], c);
      assert s == [s[0]] + s[1..];
      if r.None? then None
      else
        assert s[..r.value + 1] == [s[0]] + s[1..][..r.value];
        Some(r.value + 1)
  }

  function ParseLine<E>(p: Parser<E>, line: string): Option<E> {
    var bare := if line != [] && line[|line| - 1] == '\r' then line[..|line| - 1] else line;
    var separator := IndexOf(bare, ' ');
    var body := if separator.Some? && separator.value > 0 && p.isTimestamp(bare[..separator.value])
                then bare[separator.value + 1..] else bare;
    if EVIDENCE_MARKER <= body then p.parse(body[|EVIDENCE_MARKER|..]) else None
  }

  // ----- The stream as lines ----------------------------------------------

  // The complete lines of a stream and what follows the last newline.
  datatype Split = Split(lines: seq<string>, rest: string)

  function SplitLines(s: string): Split {
    if s == [] then Split([], "")
    else
      var before := SplitLines(s[..|s| - 1]);
      if s[|s| - 1] == '\n' then Split(before.lines + [before.rest], "")
      else Split(before.lines, before.rest + [s[|s| - 1]])
  }

  function JoinLines(lines: seq<string>): string {
    if lines == [] then "" else JoinLines(lines[..|lines| - 1]) + lines[|lines| - 1] + "\n"
  }

  // The split loses nothing, and there is no other newline in it.
  lemma {:induction false} SplitJoins(s: string)
    ensures JoinLines(SplitLines(s).lines) + SplitLines(s).rest == s
    ensures '\n' !in SplitLines(s).rest
    ensures forall line :: line in SplitLines(s).lines ==> '\n' !in line
  {
    if s != [] {
      SplitJoins(s[..|s| - 1]);
      assert s == s[..|s| - 1] + [s[|s| - 1]];
    }
  }

  // The last line that is short enough and parses.
  function LastEvidence<E>(p: Parser<E>, lines: seq<string>): Option<E> {
    if lines == [] then None
    else
      var last := lines[|lines| - 1];
      if |last| <= MAXIMUM_LINE && ParseLine(p, last).Some? then ParseLine(p, last)
      else LastEvidence(p, lines[..|lines| - 1])
  }

  ghost predicate Counts<E(!new)>(p: Parser<E>, line: string) {
    |line| <= MAXIMUM_LINE && ParseLine(p, line).Some?
  }

  lemma {:induction false} LastEvidenceIsLast<E(!new)>(p: Parser<E>, lines: seq<string>)
    ensures LastEvidence(p, lines).None? <==> forall i :: 0 <= i < |lines| ==> !Counts(p, lines[i])
    ensures LastEvidence(p, lines).Some? ==>
              exists i :: 0 <= i < |lines| && Counts(p, lines[i]) && ParseLine(p, lines[i]) == LastEvidence(p, lines)
                          && forall j :: i < j < |lines| ==> !Counts(p, lines[j])
  {
    hide ParseLine;
    if lines != [] {
      var n := |lines| - 1;
      if Counts(p, lines[n]) {
        assert LastEvidence(p, lines) == ParseLine(p, lines[n]);
      } else {
        LastEvidenceIsLast(p, lines[..n]);
        assert forall i :: 0 <= i < n ==> lines[..n][i] == lines[i];
      }
    }
  }

  // ----- The observer's state ---------------------------------------------

  datatype State<E> = State(line: string, discard: bool, evidence: Option<E>)

  function Append<E>(st: State<E>, content: string): State<E> {
    if st.discard then st
    else if |st.line| + |content| > MAXIMUM_LINE then st.(line := "", discard := true)
    else st.(line := st.line + content)
  }

  function Complete<E>(p: Parser<E>, st: State<E>): State<E> {
    State("", false, if !st.discard && ParseLine(p, st.line).Some? then ParseLine(p, st.line) else st.evidence)
  }

  // What the observer holds after a stream: a function of the stream alone.
  function Observed<E>(p: Parser<E>, stream: string): State<E> {
    var split := SplitLines(stream);
    State(if |split.rest| <= MAXIMUM_LINE then split.rest else "", |split.rest| > MAXIMUM_LINE,
          LastEvidence(p, split.lines))
  }

  lemma {:induction false} SplitAppend(s: string, t: string)
    requires '\n' !in t
    ensures SplitLines(s + t) == Split(SplitLines(s).lines, SplitLines(s).rest + t)
  {
    if t == [] {
      assert s + t == s;
    } else {
      var n := |t| - 1;
      SplitAppend(s, t[..n]);
      assert (s + t)[..|s + t| - 1] == s + t[..n];
      assert SplitLines(s).rest + t == SplitLines(s).rest + t[..n] + [t[n]];
    }
  }

  lemma SplitNewline(s: string)
    ensures SplitLines(s + "\n") == Split(SplitLines(s).lines + [SplitLines(s).rest], "")
  {
    assert (s + "\n")[..|s|] == s;
  }

  lemma CutAtNewline(s: string, k: nat)
    requires k < |s| && s[k] == '\n'
    ensures s == s[..k] + "\n" + s[k + 1..]
  {
  }

  lemma AppendObserves<E>(p: Parser<E>, s: string, t: string)
    requires '\n' !in t
    ensures Append(Observed(p, s), t) == Observed(p, s + t)
  {
    SplitAppend(s, t);
  }

  lemma CompleteObserves<E>(p: Parser<E>, s: string)
    ensures Complete(p, Observed(p, s)) == Observed(p, s + "\n")
  {
    hide ParseLine;
    SplitNewline(s);
    var split := SplitLines(s);
    assert (split.lines + [split.rest])[..|split.lines|] == split.lines;
  }

  // ----- The code ---------------------------------------------------------

  class Observer<E> {
    const parser: Parser<E>
    var line: string
    var discardLine: bool
    var evidence: Option<E>

    ghost function Abstract(): State<E>
      reads this
    {
      State(line, discardLine, evidence)
    }

    constructor (parser: Parser<E>)
      ensures this.parser == parser && Abstract() == Observed(parser, "")
    {
      this.parser := parser;
      line, discardLine, evidence := "", false, None;
    }

    method AppendLine(content: string)
      modifies this
      ensures Abstract() == Append(old(Abstract()), content)
    {
      if discardLine { return; }
      if |line| + |content| > MAXIMUM_LINE {
        line, discardLine := "", true;
        return;
      }
      line := line + content;
    }

    method CompleteLine()
      modifies this
      ensures Abstract() == Complete(parser, old(Abstract()))
    {
      if !discardLine {
        var parsed := ParseLine(parser, line);
        if parsed.Some? { evidence := parsed; }
      }
      line, discardLine := "", false;
    }

    // stream is everything observed before.
    method Observe(content: string, ghost stream: string)
      requires Abstract() == Observed(parser, stream)
      modifies this
      ensures Abstract() == Observed(parser, stream + content)
    {
      hide Observed, Append, Complete;
      var rest := content;
      ghost var seen := stream;
      while |rest| > 0
        invariant seen + rest == stream + content
        invariant Abstract() == Observed(parser, seen)
        decreases |rest|
      {
        var newline := IndexOf(rest, '\n');
        if newline.None? {
          AppendLine(rest);
          AppendObserves(parser, seen, rest);
          return;
        }
        var k := newline.value;
        AppendLine(rest[..k]);
        AppendObserves(parser, seen, rest[..k]);
        CompleteLine();
        CompleteObserves(parser, seen + rest[..k]);
        CutAtNewline(rest, k);
        seen, rest := seen + rest[..k] + "\n", rest[k + 1..];
      }
      assert seen == stream + content;
    }

    /** One write of the log stream, of which the destination takes some bytes:
        those are observed. */
    method Write(content: string, takes: nat, ghost stream: string) returns (written: nat)
      requires Abstract() == Observed(parser, stream)
      modifies this
      ensures written == Min(|content|, takes)
      ensures Abstract() == Observed(parser, stream + content[..written])
    {
      written := Min(|content|, takes);
      Observe(content[..written], stream);
    }

    /** The whole stream in any chunks. */
    method ObserveAll(chunks: seq<string>)
      requires Abstract() == Observed(parser, "")
      modifies this
      ensures Abstract() == Observed(parser, LogStreams.Concat(chunks))
    {
      for i := 0 to |chunks|
        invariant Abstract() == Observed(parser, LogStreams.Concat(chunks[..i]))
      {
        assert chunks[..i + 1][..i] == chunks[..i];
        Observe(chunks[i], LogStreams.Concat(chunks[..i]));
      }
      assert chunks[..|chunks|] == chunks;
    }
  }
}
