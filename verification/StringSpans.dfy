// The string-literal scanner of scripts/secret-scan.py, against the one-character-at-a-time
// reading of quotes and escapes it stands for.

module StringSpans {

  // ---- The reading, one character at a time ----

  datatype State = Outside | Inside(quote: char) | Escaped(quote: char)

  predicate IsQuote(c: char) {
    c == '"' || c == '\''
  }

  function Read(s: State, c: char): State {
    match s
    case Outside => if IsQuote(c) then Inside(c) else Outside
    case Inside(q) => if c == '\\' then Escaped(q) else if c == q then Outside else s
    case Escaped(q) => Inside(q)
  }

  // The state before position `p` is read.
  function StateAt(line: string, p: nat): State
    requires p <= |line|
  {
    if p == 0 then Outside else Read(StateAt(line, p - 1), line[p - 1])
  }

  // What ends a literal: with `n` backslashes in front of it, its own quote does if `n` is
  // even, and no other character does.
  lemma {:induction false} OnlyEvenBackslashesClose(line: string, p: nat, n: nat, q: char)
    requires p + n < |line| && StateAt(line, p) == Inside(q) && IsQuote(q)
    requires forall i :: p <= i < p + n ==> line[i] == '\\'
    requires line[p + n] != '\\'
    ensures StateAt(line, p + n + 1).Outside? <==> line[p + n] == q && n % 2 == 0
    ensures !StateAt(line, p + n + 1).Outside? ==> StateAt(line, p + n + 1) == Inside(q)
    decreases n
  {
    if n >= 2 {
      assert StateAt(line, p + 1) == Escaped(q);
      assert StateAt(line, p + 2) == Inside(q);
      OnlyEvenBackslashesClose(line, p + 2, n - 2, q);
    } else if n == 1 {
      assert StateAt(line, p + 1) == Escaped(q);
    }
  }

  // Outside, a quote opens a literal of its own kind, and nothing else changes anything.
  lemma {:induction false} OnlyQuotesOpen(line: string, p: nat)
    requires p < |line| && StateAt(line, p).Outside?
    ensures StateAt(line, p + 1) == if line[p] == '"' || line[p] == '\'' then Inside(line[p]) else Outside
    ensures StateAt(line, 0).Outside?
  {
  }

  // ---- The spans ----

  // A span may end one past the line, after a trailing backslash.
  datatype Span = Span(start: nat, end: nat)

  ghost predicate InsideSpans(position: nat, spans: seq<Span>) {
    exists i :: 0 <= i < |spans| && spans[i].start < position < spans[i].end
  }

  ghost predicate WellPlaced(line: string, spans: seq<Span>) {
    && (forall i :: 0 <= i < |spans| ==>
          spans[i].start < |line| && IsQuote(line[spans[i].start]) && spans[i].start < spans[i].end <= |line| + 1)
    && (forall i, j :: 0 <= i < j < |spans| ==> spans[i].end <= spans[j].start)
  }

  // The spans found so far say the right thing about every position below `upto`.
  ghost predicate Agrees(line: string, spans: seq<Span>, upto: nat) {
    forall p :: 0 <= p < upto && p < |line| ==> (InsideSpans(p, spans) <==> !StateAt(line, p).Outside?)
  }

  lemma {:induction false} InsideAppend(p: nat, spans: seq<Span>, span: Span)
    ensures InsideSpans(p, spans + [span]) <==> InsideSpans(p, spans) || span.start < p < span.end
  {
    var more := spans + [span];
    assert more[|spans|] == span;
    if InsideSpans(p, spans) {
      var i :| 0 <= i < |spans| && spans[i].start < p < spans[i].end;
      assert more[i] == spans[i];
    }
  }

  lemma {:induction false} BeyondSpans(line: string, spans: seq<Span>, p: nat)
    requires forall i :: 0 <= i < |spans| ==> spans[i].end <= p
    ensures !InsideSpans(p, spans)
  {
  }

  // A whole literal scanned from its opening quote keeps the spans right.
  lemma {:induction false} AgreesAppend(line: string, spans: seq<Span>, start: nat, end: nat)
    requires Agrees(line, spans, start) && start < |line| && StateAt(line, start).Outside?
    requires forall i :: 0 <= i < |spans| ==> spans[i].end <= start
    requires forall p :: start < p < end && p <= |line| ==> !StateAt(line, p).Outside?
    ensures Agrees(line, spans + [Span(start, end)], end)
  {
    forall p | 0 <= p < end && p < |line|
      ensures InsideSpans(p, spans + [Span(start, end)]) <==> !StateAt(line, p).Outside?
    {
      InsideAppend(p, spans, Span(start, end));
      if p >= start {
        BeyondSpans(line, spans, p);
      }
    }
  }

  // Jump over the body of a literal; the index may land one past the line.
  method SkipLiteral(line: string, start: nat) returns (end: nat)
    requires start < |line| && IsQuote(line[start]) && StateAt(line, start).Outside?
    ensures start < end <= |line| + 1
    ensures forall p :: start < p < end && p <= |line| ==> !StateAt(line, p).Outside?
    ensures end < |line| ==> StateAt(line, end).Outside?
    ensures end == |line| + 1 <==>
            StateAt(line, |line|).Escaped? && forall p :: start < p <= |line| ==> !StateAt(line, p).Outside?
    ensures end == |line| ==> !StateAt(line, |line|).Escaped?
  {
    var quote := line[start];
    var index := start + 1;
    while index < |line|
      invariant start < index <= |line| + 1
      invariant forall p :: start < p < index && p <= |line| ==> !StateAt(line, p).Outside?
      invariant index <= |line| ==> StateAt(line, index) == Inside(quote)
      invariant index == |line| + 1 ==> StateAt(line, |line|).Escaped?
    {
      if line[index] == '\\' {
        assert StateAt(line, index + 1) == Escaped(quote);
        index := index + 2;
        continue;
      }
      if line[index] == quote {
        index := index + 1;
        return index;
      }
      index := index + 1;
    }
    end := index;
  }

  // The spans cover exactly the positions that the reading finds inside a literal. At the
  // very end of the line they part: an unterminated literal covers that position only if
  // a trailing backslash was jumped over.
  method FindSpans(line: string) returns (spans: seq<Span>)
    ensures WellPlaced(line, spans)
    ensures forall p :: 0 <= p < |line| ==> (InsideSpans(p, spans) <==> !StateAt(line, p).Outside?)
    ensures InsideSpans(|line|, spans) <==> StateAt(line, |line|).Escaped?
  {
    spans := [];
    var index := 0;
    while index < |line|
      invariant index <= |line| + 1 && WellPlaced(line, spans)
      invariant index < |line| ==> StateAt(line, index).Outside?
      invariant forall i :: 0 <= i < |spans| ==> spans[i].end <= index
      invariant Agrees(line, spans, index)
      invariant index == |line| ==> !StateAt(line, |line|).Escaped?
      invariant index == |line| + 1 ==> StateAt(line, |line|).Escaped? && InsideSpans(|line|, spans)
      decreases |line| - index
    {
      if !IsQuote(line[index]) {
        BeyondSpans(line, spans, index);
        index := index + 1;
        continue;
      }
      var end := SkipLiteral(line, index);
      AgreesAppend(line, spans, index, end);
      InsideAppend(|line|, spans, Span(index, end));
      spans := spans + [Span(index, end)];
      index := end;
    }
    if index == |line| {
      BeyondSpans(line, spans, |line|);
    }
  }
}
