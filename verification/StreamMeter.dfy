// The usage splitter of g0dm0d3/src/app.js: a chunked stream is cut into lines, a line that
// grows too long is trimmed, and the last usage frame seen is what gets recorded.

module StreamMeter {
  import opened Wrappers
  import opened Lines
  import opened Strings

  const CAP := 65_536
  const KEEP := 4_096

  // ---- Splitting incrementally ----

  function IndexOfNewline(text: string): (at: int)
    ensures at == -1 || (0 <= at < |text| && text[at] == '\n')
    ensures forall i :: 0 <= i < |text| && (at == -1 || i < at) ==> text[i] != '\n'
  {
    if text == "" then -1
    else if text[0] == '\n' then 0
    else
      var at := IndexOfNewline(text[1..]);
      if at == -1 then -1 else at + 1
  }

  predicate OneLine(text: string) {
    '\n' !in text
  }

  function Last(lines: seq<string>): string
    requires lines != []
  {
    lines[|lines| - 1]
  }

  function Init(lines: seq<string>): seq<string>
    requires lines != []
  {
    lines[..|lines| - 1]
  }

  lemma {:induction false} SplitOneLine(u: string, v: string)
    requires OneLine(u)
    ensures Split(u + v) == [u + Split(v)[0]] + Split(v)[1..]
  {
    if u == "" {
      assert u + v == v && u + Split(v)[0] == Split(v)[0];
      assert Split(v) == [Split(v)[0]] + Split(v)[1..];
    } else {
      assert (u + v)[1..] == u[1..] + v;
      assert forall c :: c in u[1..] ==> c in u;
      SplitOneLine(u[1..], v);
      assert [u[0]] + (u[1..] + Split(v)[0]) == u + Split(v)[0];
      assert u[0] in u;
    }
  }

  lemma {:induction false} SplitLine(rest: string)
    ensures Split("\n" + rest) == [""] + Split(rest)
  {
    assert ("\n" + rest)[1..] == rest;
  }

  lemma {:induction false} SplitAtNewline(text: string)
    ensures var at := IndexOfNewline(text);
            Split(text) == if at == -1 then [text] else [text[..at]] + Split(text[at + 1..])
  {
    hide Split, IndexOfNewline;
    var at := IndexOfNewline(text);
    if at == -1 {
      SplitOneLine(text, "");
      SplitNothing();
      assert text + "" == text;
      assert [text + ""] + [""][1..] == [text];
    } else {
      var u, rest := text[..at], text[at + 1..];
      assert text == u + ("\n" + rest);
      SplitLine(rest);
      SplitOneLine(u, "\n" + rest);
      assert u + "" == u && ([""] + Split(rest))[1..] == Split(rest);
    }
  }

  // The pieces contain no newline themselves.
  lemma {:induction false} PiecesAreLines(text: string)
    ensures forall k :: 0 <= k < |Split(text)| ==> OneLine(Split(text)[k])
  {
    if text != "" {
      PiecesAreLines(text[1..]);
      var rest := Split(text[1..]);
      if text[0] != '\n' {
        assert OneLine([text[0]] + rest[0]);
      }
      forall k | 0 <= k < |Split(text)|
        ensures OneLine(Split(text)[k])
      {
        if text[0] == '\n' && k > 0 {
          assert OneLine(rest[k - 1]);
        } else if k > 0 {
          assert OneLine(rest[k]);
        }
      }
    }
  }

  // More text only extends the last piece and adds new ones.
  lemma {:induction false} SplitAppend(text: string, more: string)
    ensures Split(text + more) == Init(Split(text)) + Split(Last(Split(text)) + more)
  {
    hide OneLine;
    if text == "" {
      assert text + more == more && "" + more == more;
    } else {
      assert (text + more)[1..] == text[1..] + more && (text + more)[0] == text[0];
      SplitAppend(text[1..], more);
      var rest := Split(text[1..]);
      if text[0] == '\n' {
        AppendPieces([""], rest, more);
      } else if |rest| == 1 {
        SplitAppendWithin(text[0], rest[0], more);
      } else {
        var first := [text[0]] + rest[0];
        AppendPieces([first], rest[1..], more);
        assert rest == [rest[0]] + rest[1..];
        AppendPieces([rest[0]], rest[1..], more);
      }
    }
  }

  lemma {:induction false} AppendPieces(front: seq<string>, back: seq<string>, more: string)
    requires back != []
    ensures Init(front + back) + Split(Last(front + back) + more) == front + (Init(back) + Split(Last(back) + more))
  {
  }

  lemma {:induction false} SplitAppendWithin(c: char, line: string, more: string)
    requires c != '\n'
    ensures Split(([c] + line) + more) == [[c] + Split(line + more)[0]] + Split(line + more)[1..]
  {
    assert (([c] + line) + more)[1..] == line + more;
  }

  // ---- What was seen of each line ----

  predicate IsSuffix(part: string, whole: string) {
    |part| <= |whole| && part == whole[|whole| - |part|..]
  }

  // A line is seen whole unless it is longer than the cap; even then an end of it is seen,
  // no shorter than what a trimming keeps.
  predicate SeenAs(part: string, line: string) {
    part == line || (|line| > CAP && |part| >= KEEP && IsSuffix(part, line))
  }

  function Trimmed(line: string): string {
    if |line| > CAP then line[|line| - KEEP..] else line
  }

  ghost predicate AllSeen(seen: seq<string>, lines: seq<string>) {
    |seen| == |lines| && forall k :: 0 <= k < |lines| ==> SeenAs(seen[k], lines[k])
  }

  lemma {:induction false} SeenExtends(part: string, line: string, more: string)
    requires SeenAs(part, line)
    ensures SeenAs(part + more, line + more)
  {
    assert (line + more)[|line| - |part|..] == line[|line| - |part|..] + more;
  }

  // Splitting what was kept sees the new pieces as well as splitting the whole line would.
  lemma {:induction false} SplitSeen(part: string, line: string, more: string)
    requires SeenAs(part, line) && OneLine(line)
    ensures AllSeen(Split(part + more), Split(line + more))
  {
    assert forall i :: 0 <= i < |part| ==> part[i] == line[|line| - |part| + i];
    SplitOneLine(part, more);
    SplitOneLine(line, more);
    SeenExtends(part, line, Split(more)[0]);
    forall k | 1 <= k < |Split(more)|
      ensures SeenAs(Split(part + more)[k], Split(line + more)[k])
    {
      assert Split(part + more)[k] == Split(more)[k] == Split(line + more)[k];
    }
  }

  // The usage of the last line that reports any.
  function LastUsage<U>(lines: seq<string>, usageOf: string -> Option<U>): Option<U> {
    if lines == [] then None
    else
      var u := usageOf(lines[|lines| - 1]);
      if u.Some? then u else LastUsage(lines[..|lines| - 1], usageOf)
  }

  // It is what line `k` reports, and no later line reports any.
  ghost predicate ReportsLast<U>(lines: seq<string>, usageOf: string -> Option<U>, k: nat)
    requires k < |lines|
  {
    usageOf(lines[k]).Some? && forall j :: k < j < |lines| ==> usageOf(lines[j]) == None
  }

  lemma {:induction false} LastUsageIsLast<U>(lines: seq<string>, usageOf: string -> Option<U>)
    ensures LastUsage(lines, usageOf) == None <==> forall k :: 0 <= k < |lines| ==> usageOf(lines[k]) == None
    ensures forall k :: 0 <= k < |lines| && ReportsLast(lines, usageOf, k) ==>
              LastUsage(lines, usageOf) == usageOf(lines[k])
    ensures LastUsage(lines, usageOf).Some? ==> exists k :: 0 <= k < |lines| && ReportsLast(lines, usageOf, k)
  {
    if lines != [] {
      var n := |lines| - 1;
      var front := lines[..n];
      LastUsageIsLast(front, usageOf);
      if usageOf(lines[n]).Some? {
        assert ReportsLast(lines, usageOf, n);
      } else {
        forall k | 0 <= k < n
          ensures ReportsLast(lines, usageOf, k) <==> ReportsLast(front, usageOf, k)
        {
        }
      }
    }
  }

  // What a reader of the whole stream would have inspected: every complete line, and the
  // unfinished one at the end if the stream did not die and it is not empty.
  function LinesOf(text: string, tail: string, died: bool): seq<string> {
    var lines := Split(text);
    var end := Last(lines) + tail;
    Init(lines) + if died || end == "" then [] else [end]
  }

  // A stream that ends well is inspected as the split of all of its text, but for an empty
  // last piece; one that dies loses the piece it died in.
  lemma {:induction false} LinesOfWhole(text: string, tail: string)
    requires OneLine(tail)
    ensures var all := Split(text + tail);
            && LinesOf(text, tail, false) == (if Last(all) == "" then Init(all) else all)
            && LinesOf(text, tail, true) == Init(Split(text))
  {
    SplitAppend(text, tail);
    PiecesAreLines(text);
    var last := Last(Split(text));
    SplitOneLine(last + tail, "");
    SplitNothing();
    assert last + tail + "" == last + tail;
    hide Split;
    assert Split(last + tail) == [last + tail];
  }

  // ---- The loops ----

  // Take the complete lines off the front.
  method Drain(pending: string) returns (lines: seq<string>, rest: string)
    ensures lines + [rest] == Split(pending)
  {
    lines, rest := [], pending;
    var at := IndexOfNewline(rest);
    while at >= 0
      invariant at == IndexOfNewline(rest)
      invariant lines + Split(rest) == Split(pending)
      decreases |rest|
    {
      SplitAtNewline(rest);
      lines := lines + [rest[..at]];
      rest := rest[at + 1..];
      at := IndexOfNewline(rest);
    }
    SplitAtNewline(rest);
  }

  // One chunk: drain it, then trim what is left if it has grown past the cap.
  method TakeChunk(pending: string, chunk: string, ghost line: string)
      returns (lines: seq<string>, rest: string)
    requires SeenAs(pending, line) && OneLine(line)
    ensures AllSeen(lines + [rest], Split(line + chunk))
    ensures lines == Init(Split(pending + chunk)) && rest == Trimmed(Last(Split(pending + chunk)))
    ensures |rest| <= CAP
  {
    hide Split, SeenAs, AllSeen;
    SplitSeen(pending, line, chunk);
    lines, rest := Drain(pending + chunk);
    TrimmedStillSeen(lines, rest, Split(line + chunk));
    assert Init(lines + [rest]) == lines && Last(lines + [rest]) == rest;
    if |rest| > CAP {
      rest := rest[|rest| - KEEP..];
    }
  }

  // Trimming the piece in progress loses none of what was seen before it.
  lemma {:induction false} TrimmedStillSeen(lines: seq<string>, rest: string, whole: seq<string>)
    requires AllSeen(lines + [rest], whole)
    ensures AllSeen(lines + [Trimmed(rest)], whole) && |Trimmed(rest)| <= CAP
  {
    var before, n := lines + [rest], |lines|;
    assert SeenAs(before[n], whole[n]);
    forall k | 0 <= k < |whole|
      ensures SeenAs((lines + [Trimmed(rest)])[k], whole[k])
    {
      assert SeenAs(before[k], whole[k]);
    }
  }

  // What is held back after these chunks.
  function BufferAfter(chunks: seq<string>): string {
    if chunks == [] then ""
    else Trimmed(Last(Split(BufferAfter(chunks[..|chunks| - 1]) + chunks[|chunks| - 1])))
  }

  // One chunk's worth of progress in what was inspected so far.
  method MeterChunk<U>(usage: Option<U>, pending: string, chunk: string, usageOf: string -> Option<U>,
                       ghost text: string, ghost inspected: seq<string>)
      returns (u: Option<U>, rest: string, ghost seen: seq<string>)
    requires AllSeen(inspected + [pending], Split(text)) && usage == LastUsage(inspected, usageOf)
    ensures AllSeen(seen + [rest], Split(text + chunk)) && u == LastUsage(seen, usageOf)
    ensures rest == Trimmed(Last(Split(pending + chunk))) && |rest| <= CAP
  {
    hide SeenAs, LastUsage;
    ghost var pieces := Split(text);
    PiecesAreLines(text);
    assert SeenAs((inspected + [pending])[|inspected|], pieces[|inspected|]);
    var lines;
    lines, rest := TakeChunk(pending, chunk, Last(pieces));
    SplitAppend(text, chunk);
    SeenJoins(inspected, pending, pieces, lines, rest, Split(Last(pieces) + chunk));
    u, seen := InspectAll(usage, inspected, lines, usageOf);
  }

  // The whole stream, as text chunks and the decoder's last word; it may die before that.
  method Meter<U>(chunks: seq<string>, tail: string, died: bool, usageOf: string -> Option<U>)
      returns (usage: Option<U>, ghost inspected: seq<string>, ghost buffers: seq<string>)
    ensures usage == LastUsage(inspected, usageOf)
    ensures var lines := LinesOf(Concat(chunks), tail, died);
            && (forall k :: 0 <= k < |Split(Concat(chunks))| - 1 ==> k < |inspected| && SeenAs(inspected[k], lines[k]))
            && (Short(Split(Concat(chunks))) ==> inspected == lines)
    ensures Short(Split(Concat(chunks))) ==> usage == LastUsage(LinesOf(Concat(chunks), tail, died), usageOf)
    ensures |buffers| == |chunks|
    ensures forall n :: 0 <= n < |chunks| ==> buffers[n] == BufferAfter(chunks[..n + 1]) && |buffers[n]| <= CAP
  {
    hide SeenAs, LastUsage, Trimmed, Last;
    var pending := "";
    usage, inspected, buffers := None, [], [];
    NothingSeen(usageOf);
    for n := 0 to |chunks|
      invariant AllSeen(inspected + [pending], Split(Concat(chunks[..n])))
      invariant usage == LastUsage(inspected, usageOf)
      invariant pending == BufferAfter(chunks[..n]) && |buffers| == n
      invariant forall k :: 0 <= k < n ==> buffers[k] == BufferAfter(chunks[..k + 1]) && |buffers[k]| <= CAP
    {
      assert chunks[..n + 1][..n] == chunks[..n];
      usage, pending, inspected := MeterChunk(usage, pending, chunks[n], usageOf, Concat(chunks[..n]), inspected);
      buffers := buffers + [pending];
    }
    assert chunks[..|chunks|] == chunks;
    ghost var complete, text := inspected, Concat(chunks);
    ghost var kept := pending;
    if !died {
      pending := pending + tail;
      if pending != "" {
        usage, inspected := Inspect(usage, inspected, pending, usageOf);
      }
    }
    AllLines(complete, kept, text, tail, died);
  }

  ghost predicate Short(lines: seq<string>) {
    forall k :: 0 <= k < |lines| ==> |lines[k]| <= CAP
  }

  lemma {:induction false} NothingSeen<U>(usageOf: string -> Option<U>)
    ensures AllSeen([] + [""], Split("")) && LastUsage([], usageOf) == None && Concat([]) == ""
  {
  }

  lemma {:induction false} AllLines(complete: seq<string>, pending: string, text: string, tail: string, died: bool)
    requires AllSeen(complete + [pending], Split(text))
    ensures var lines := LinesOf(text, tail, died);
            var end := if died || pending + tail == "" then [] else [pending + tail];
            && (forall k :: 0 <= k < |Split(text)| - 1 ==>
                  k < |complete + end| && SeenAs((complete + end)[k], lines[k]))
            && (Short(Split(text)) ==> complete + end == lines)
  {
    var pieces := Split(text);
    var all := complete + [pending];
    forall k | 0 <= k < |pieces|
      ensures SeenAs(all[k], pieces[k])
    {
    }
    if Short(pieces) {
      forall k | 0 <= k < |pieces|
        ensures all[k] == pieces[k]
      {
        assert SeenAs(all[k], pieces[k]);
      }
      assert all == pieces;
      assert complete == Init(pieces) && pending == Last(pieces);
    } else {
      assert forall k :: 0 <= k < |complete| ==> all[k] == complete[k];
    }
  }

  method InspectAll<U>(usage: Option<U>, ghost inspected: seq<string>, lines: seq<string>, usageOf: string -> Option<U>)
      returns (u: Option<U>, ghost seen: seq<string>)
    requires usage == LastUsage(inspected, usageOf)
    ensures seen == inspected + lines && u == LastUsage(seen, usageOf)
  {
    u, seen := usage, inspected;
    for k := 0 to |lines|
      invariant seen == inspected + lines[..k]
      invariant u == LastUsage(seen, usageOf)
    {
      u, seen := Inspect(u, seen, lines[k], usageOf);
    }
  }

  method Inspect<U>(usage: Option<U>, ghost inspected: seq<string>, line: string, usageOf: string -> Option<U>)
      returns (u: Option<U>, ghost seen: seq<string>)
    requires usage == LastUsage(inspected, usageOf)
    ensures seen == inspected + [line] && u == LastUsage(seen, usageOf)
  {
    seen := inspected + [line];
    assert seen[..|inspected|] == inspected;
    var mine := usageOf(line);
    u := if mine.Some? then mine else usage;
  }

  lemma {:induction false} SeenJoins(soFar: seq<string>, pending: string, pieces: seq<string>,
                                     lines: seq<string>, rest: string, whole: seq<string>)
    requires AllSeen(soFar + [pending], pieces) && AllSeen(lines + [rest], whole) && pieces != []
    ensures AllSeen(soFar + lines + [rest], Init(pieces) + whole)
  {
    var all := soFar + lines + [rest];
    forall k | 0 <= k < |all|
      ensures SeenAs(all[k], (Init(pieces) + whole)[k])
    {
      if k < |soFar| {
        assert SeenAs((soFar + [pending])[k], pieces[k]);
      } else {
        assert all[k] == (lines + [rest])[k - |soFar|];
        assert SeenAs((lines + [rest])[k - |soFar|], whole[k - |soFar|]);
      }
    }
  }
}
