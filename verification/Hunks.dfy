// Grouping the numbered lines into hunks (ontrak-genie/src/diff.ts), and what a hunk list
// means: a patch that can be checked against the old file and applied.

module Hunks {
  import opened EditScript
  import opened LineDiff
  import opened Wrappers
  import Lines

  const CONTEXT := 3
  const MAX_DIFF_LINES := 2_000

  datatype Hunk = Hunk(oldStart: nat, newStart: nat, lines: seq<DiffLine>)

  // ---- Applying a hunk list ----

  // Copy what lies before each hunk, check that the hunk's old side is really there, put
  // its new side in place; `pos` old lines are already dealt with.
  function Apply(file: seq<string>, pos: nat, hunks: seq<Hunk>): Option<seq<string>>
    requires pos <= |file|
    decreases |hunks|
  {
    if hunks == [] then Some(file[pos..])
    else
      var h := hunks[0];
      var mine := Old(Edits(h.lines));
      var at := h.oldStart - 1;
      if at < pos || at + |mine| > |file| || file[at..at + |mine|] != mine then None
      else
        match Apply(file, at + |mine|, hunks[1..])
        case None => None
        case Some(rest) => Some(file[pos..at] + New(Edits(h.lines)) + rest)
  }

  function Flip(k: Kind): Kind {
    match k case Add => Del case Del => Add case Ctx => Ctx
  }

  // The same hunks read in the other direction.
  function InvertLine(line: DiffLine): DiffLine {
    DiffLine(Edit(Flip(line.edit.kind), line.edit.text), line.newLine, line.oldLine)
  }

  function InvertLines(ops: seq<DiffLine>): seq<DiffLine> {
    seq(|ops|, i requires 0 <= i < |ops| => InvertLine(ops[i]))
  }

  function Invert(hunks: seq<Hunk>): seq<Hunk> {
    seq(|hunks|, i requires 0 <= i < |hunks| =>
      Hunk(hunks[i].newStart, hunks[i].oldStart, InvertLines(hunks[i].lines)))
  }

  // ---- Which stretches of the script become hunks ----

  // One hunk: it is ops[start..stop], its changed lines lie in first..last.
  datatype Range = Range(start: nat, first: nat, last: nat, stop: nat)

  predicate Changed(ops: seq<DiffLine>, i: nat)
    requires i < |ops|
  {
    ops[i].edit.kind != Ctx
  }

  // One of the seven lines from `i` on is a change.
  ghost predicate ChangeNear(ops: seq<DiffLine>, i: nat) {
    exists j :: i <= j <= i + 2 * CONTEXT && j < |ops| && Changed(ops, j)
  }

  // No seven context lines in a row from lo up to hi.
  ghost predicate Close(ops: seq<DiffLine>, lo: nat, hi: nat) {
    forall i: nat :: lo <= i && i + 2 * CONTEXT < hi ==> ChangeNear(ops, i)
  }

  // Three lines of context in front and, as the code counts, four behind.
  ghost predicate IsRange(ops: seq<DiffLine>, r: Range) {
    && r.first <= r.last < |ops| && Changed(ops, r.first) && Changed(ops, r.last)
    && r.start == (if r.first < CONTEXT then 0 else r.first - CONTEXT)
    && r.stop == (if r.last + CONTEXT + 2 <= |ops| then r.last + CONTEXT + 2 else |ops|)
    && Close(ops, r.first, r.last + 1)
  }

  ghost predicate InSome(ranges: seq<Range>, i: nat) {
    exists k :: 0 <= k < |ranges| && ranges[k].first <= i <= ranges[k].last
  }

  // Every change below `upto` is in some group.
  ghost predicate Covered(ops: seq<DiffLine>, ranges: seq<Range>, upto: nat) {
    forall i: nat :: i < upto && i < |ops| && Changed(ops, i) ==> InSome(ranges, i)
  }

  // The groups follow one another without overlap, seven context lines or more apart.
  predicate Before(r: Range, s: Range) {
    r.stop <= s.start && r.last + 2 * CONTEXT + 1 < s.first
  }

  ghost predicate Ordered(ranges: seq<Range>) {
    forall i, k :: 0 <= i < k < |ranges| ==> Before(ranges[i], ranges[k])
  }

  ghost predicate AllRanges(ops: seq<DiffLine>, ranges: seq<Range>) {
    forall k :: 0 <= k < |ranges| ==> IsRange(ops, ranges[k])
  }

  // The grouping of the first `upto` lines.
  ghost predicate Grouping(ops: seq<DiffLine>, ranges: seq<Range>, upto: nat) {
    && AllRanges(ops, ranges)
    && Ordered(ranges)
    && (ranges != [] ==> ranges[|ranges| - 1].stop <= upto)
    && Covered(ops, ranges, upto)
  }

  function HunkOf(ops: seq<DiffLine>, r: Range): Hunk
    requires r.start < r.stop <= |ops|
  {
    Hunk(ops[r.start].oldLine.GetOr(1), ops[r.start].newLine.GetOr(1), ops[r.start..r.stop])
  }

  ghost predicate HunksOf(ops: seq<DiffLine>, ranges: seq<Range>, hunks: seq<Hunk>) {
    && |hunks| == |ranges|
    && forall k :: 0 <= k < |hunks| ==>
         ranges[k].start < ranges[k].stop <= |ops| && hunks[k] == HunkOf(ops, ranges[k])
  }

  // ---- The loops ----

  // How many context lines start at `from`.
  method ContextRun(ops: seq<DiffLine>, from: nat) returns (run: nat)
    requires from <= |ops|
    ensures from + run <= |ops|
    ensures forall i :: from <= i < from + run ==> !Changed(ops, i)
    ensures from + run < |ops| ==> Changed(ops, from + run)
  {
    run := 0;
    while from + run < |ops| && !Changed(ops, from + run)
      invariant from + run <= |ops|
      invariant forall i :: from <= i < from + run ==> !Changed(ops, i)
    {
      run := run + 1;
    }
  }

  lemma {:induction false} CloseAcross(ops: seq<DiffLine>, lo: nat, mid: nat, hi: nat)
    requires lo < mid <= hi <= |ops| && hi <= mid + 2 * CONTEXT
    requires Close(ops, lo, mid) && Changed(ops, mid - 1)
    ensures Close(ops, lo, hi)
  {
    forall i: nat | lo <= i && i + 2 * CONTEXT < hi
      ensures ChangeNear(ops, i)
    {
      if i + 2 * CONTEXT >= mid {
        assert i <= mid - 1 <= i + 2 * CONTEXT;
      }
    }
  }

  // Extend from a changed line while changes stay near each other.
  method Extend(ops: seq<DiffLine>, index: nat) returns (end: nat)
    requires index < |ops| && Changed(ops, index)
    ensures index < end <= |ops| && Changed(ops, end - 1) && Close(ops, index, end)
    ensures forall i :: end <= i < |ops| && i <= end + 2 * CONTEXT ==> !Changed(ops, i)
  {
    end := index;
    while end < |ops|
      invariant index <= end <= |ops| && Close(ops, index, end)
      invariant (end < |ops| && Changed(ops, end)) || (end > index && Changed(ops, end - 1))
      decreases |ops| - end
    {
      if !Changed(ops, end) {
        var run := ContextRun(ops, end);
        if end + run >= |ops| || run > CONTEXT * 2 {
          break;
        }
        CloseAcross(ops, index, end, end + run);
        end := end + run;
      } else {
        CloseStep(ops, index, end);
        end := end + 1;
      }
    }
  }

  lemma {:induction false} CloseStep(ops: seq<DiffLine>, lo: nat, hi: nat)
    requires hi < |ops| && Close(ops, lo, hi) && Changed(ops, hi)
    ensures Close(ops, lo, hi + 1)
  {
    forall i: nat | lo <= i && i + 2 * CONTEXT < hi + 1
      ensures ChangeNear(ops, i)
    {
      if i + 2 * CONTEXT == hi {
        assert i <= hi <= i + 2 * CONTEXT;
      }
    }
  }

  // Nothing changes close behind the last group.
  ghost predicate Settled(ops: seq<DiffLine>, ranges: seq<Range>) {
    ranges != [] ==>
      var last := ranges[|ranges| - 1].last;
      forall i :: last < i <= last + 2 * CONTEXT + 1 && i < |ops| ==> !Changed(ops, i)
  }

  method BuildHunks(ops: seq<DiffLine>) returns (hunks: seq<Hunk>, ghost ranges: seq<Range>)
    ensures Grouping(ops, ranges, |ops|)
    ensures HunksOf(ops, ranges, hunks)
    ensures forall s: Script :: ops == Number(s) ==>
              Apply(Old(s), 0, hunks) == Some(New(s)) && Apply(New(s), 0, Invert(hunks)) == Some(Old(s))
  {
    hunks, ranges := [], [];
    var index := 0;
    while index < |ops|
      invariant index <= |ops|
      invariant Grouping(ops, ranges, index) && Settled(ops, ranges)
      invariant HunksOf(ops, ranges, hunks)
    {
      if !Changed(ops, index) {
        index := index + 1;
        continue;
      }
      var end := Extend(ops, index);
      var h;
      ghost var r;
      h, r := OneHunk(ops, index, end);
      GroupingStep(ops, ranges, index, r);
      HunksOfAppend(ops, ranges, hunks, r);
      hunks, ranges := hunks + [h], ranges + [r];
      index := if |ops| - 1 <= end + CONTEXT then |ops| else end + CONTEXT + 1;
    }
    forall s: Script | ops == Number(s)
      ensures Apply(Old(s), 0, hunks) == Some(New(s)) && Apply(New(s), 0, Invert(hunks)) == Some(Old(s))
    {
      HunksPatch(s, ranges, hunks);
      HunksPatchBack(s, ranges, hunks);
    }
  }

  // The hunk around the changes found from `index` up to `end`.
  method OneHunk(ops: seq<DiffLine>, index: nat, end: nat) returns (h: Hunk, ghost r: Range)
    requires index < end <= |ops| && Changed(ops, index) && Changed(ops, end - 1) && Close(ops, index, end)
    requires forall i :: end <= i < |ops| && i <= end + 2 * CONTEXT ==> !Changed(ops, i)
    ensures IsRange(ops, r) && r.first == index && Settled(ops, [r]) && r.start < r.stop
    ensures r.stop == if |ops| - 1 <= end + CONTEXT then |ops| else end + CONTEXT + 1
    ensures h == HunkOf(ops, r)
  {
    var start := if index < CONTEXT then 0 else index - CONTEXT;
    var last := if |ops| - 1 <= end + CONTEXT then |ops| - 1 else end + CONTEXT;
    var lines := ops[start..last + 1];
    r := Range(start, index, end - 1, last + 1);
    h := Hunk(lines[0].oldLine.GetOr(1), lines[0].newLine.GetOr(1), lines);
  }

  lemma {:induction false} HunksOfAppend(ops: seq<DiffLine>, ranges: seq<Range>, hunks: seq<Hunk>, r: Range)
    requires HunksOf(ops, ranges, hunks) && r.start < r.stop <= |ops|
    ensures HunksOf(ops, ranges + [r], hunks + [HunkOf(ops, r)])
  {
  }

  lemma {:induction false} FarBehind(ops: seq<DiffLine>, last: Range, r: Range)
    requires IsRange(ops, last) && IsRange(ops, r) && last.stop <= r.first < |ops|
    requires forall i :: last.last < i <= last.last + 2 * CONTEXT + 1 && i < |ops| ==> !Changed(ops, i)
    ensures Before(last, r)
  {
    hide Close;
    assert Changed(ops, r.first) && last.last < r.first;
  }

  lemma {:induction false} OrderedStep(ops: seq<DiffLine>, ranges: seq<Range>, index: nat, r: Range)
    requires index < |ops| && Grouping(ops, ranges, index) && Settled(ops, ranges)
    requires IsRange(ops, r) && r.first == index
    ensures Ordered(ranges + [r])
  {
    hide Covered, Close, Changed, IsRange;
    var all, n := ranges + [r], |ranges|;
    if n > 0 {
      assert IsRange(ops, ranges[n - 1]);
      FarBehind(ops, ranges[n - 1], r);
      RangeShape(ops, ranges[n - 1]);
    }
    forall i, k | 0 <= i < k < |all|
      ensures Before(all[i], all[k])
    {
      if k == n && i < n - 1 {
        assert Before(ranges[i], ranges[n - 1]);
      } else if k < n {
        assert Before(ranges[i], ranges[k]);
      }
    }
  }

  lemma {:induction false} RangeShape(ops: seq<DiffLine>, r: Range)
    requires IsRange(ops, r)
    ensures r.start <= r.first <= r.last < r.stop <= |ops|
  {
    hide Close;
  }

  lemma {:induction false} CoveredStep(ops: seq<DiffLine>, ranges: seq<Range>, index: nat, r: Range)
    requires index < |ops| && Covered(ops, ranges, index)
    requires IsRange(ops, r) && r.first == index
    requires forall i :: r.last < i < r.stop && i < |ops| ==> !Changed(ops, i)
    ensures Covered(ops, ranges + [r], r.stop)
  {
    hide Close, IsRange, Changed;
    var all := ranges + [r];
    forall i: nat | i < r.stop && i < |ops| && Changed(ops, i)
      ensures InSome(all, i)
    {
      if i < index {
        assert InSome(ranges, i);
        var k :| 0 <= k < |ranges| && ranges[k].first <= i <= ranges[k].last;
        assert all[k] == ranges[k];
      } else {
        assert i <= r.last && all[|ranges|] == r;
      }
    }
  }

  lemma {:induction false} SettledRange(ops: seq<DiffLine>, ranges: seq<Range>, r: Range)
    requires IsRange(ops, r) && Settled(ops, [r])
    ensures Settled(ops, ranges + [r])
    ensures forall i :: r.last < i < r.stop && i < |ops| ==> !Changed(ops, i)
  {
    hide Close, Changed;
    assert [r][0] == r;
  }

  lemma {:induction false} GroupingStep(ops: seq<DiffLine>, ranges: seq<Range>, index: nat, r: Range)
    requires index < |ops| && Grouping(ops, ranges, index) && Settled(ops, ranges)
    requires IsRange(ops, r) && r.first == index && Settled(ops, [r])
    ensures Grouping(ops, ranges + [r], r.stop) && Settled(ops, ranges + [r])
  {
    hide IsRange, Ordered, Covered, Settled, Close, Changed;
    OrderedStep(ops, ranges, index, r);
    SettledRange(ops, ranges, r);
    CoveredStep(ops, ranges, index, r);
  }

  // ---- What the hunks are worth ----

  lemma {:induction false} EditsOfNumber(s: Script, i: nat, j: nat)
    requires i <= j <= |s|
    ensures Edits(Number(s)[i..j]) == s[i..j]
  {
    hide Old, New, Edits;
    var ops := Number(s)[i..j];
    assert forall k :: 0 <= k < |ops| ==> ops[k] == NumberedAt(s, i + k);
  }

  // A slice of a script is a slice of its old side.
  lemma {:induction false} OldSlice(s: Script, i: nat, j: nat)
    requires i <= j <= |s|
    ensures |Old(s[..j])| == |Old(s[..i])| + |Old(s[i..j])| <= |Old(s)|
    ensures Old(s)[|Old(s[..i])|..|Old(s[..j])|] == Old(s[i..j])
  {
    assert s[..j] == s[..i] + s[i..j];
    assert s == s[..j] + s[j..];
    ConcatSides(s[..i], s[i..j]);
    ConcatSides(s[..j], s[j..]);
  }

  ghost predicate ContextOnly(s: Script, lo: nat, hi: nat)
    requires hi <= |s|
  {
    forall i :: lo <= i < hi ==> s[i].kind == Ctx
  }

  lemma {:induction false} ContextSides(s: Script)
    requires ContextOnly(s, 0, |s|)
    ensures Old(s) == New(s)
  {
    if s != [] {
      ContextSides(s[1..]);
    }
  }

  // Where the k-th gap starts.
  function GapStart(ranges: seq<Range>, k: nat): nat
    requires k <= |ranges|
  {
    if k == 0 then 0 else ranges[k - 1].stop
  }

  function GapEnd(ops: seq<DiffLine>, ranges: seq<Range>, k: nat): nat
    requires k <= |ranges|
  {
    if k == |ranges| then |ops| else ranges[k].first
  }

  lemma {:induction false} GroupMissesGap(ops: seq<DiffLine>, ranges: seq<Range>, k: nat, i: nat, m: nat)
    requires AllRanges(ops, ranges) && Ordered(ranges) && k <= |ranges| && m < |ranges|
    requires GapStart(ranges, k) <= i < GapEnd(ops, ranges, k)
    ensures !(ranges[m].first <= i <= ranges[m].last)
  {
    var r := ranges[m];
    assert IsRange(ops, r);
    if m < k {
      var prev := ranges[k - 1];
      assert IsRange(ops, prev);
      assert m < k - 1 ==> Before(r, prev);
      assert r.last < prev.stop;
    } else if k < m {
      assert IsRange(ops, ranges[k]);
      assert Before(ranges[k], r);
    }
  }

  lemma {:induction false} GapIsContext(ops: seq<DiffLine>, ranges: seq<Range>, k: nat, i: nat)
    requires Grouping(ops, ranges, |ops|) && k <= |ranges|
    requires GapStart(ranges, k) <= i < GapEnd(ops, ranges, k) && i < |ops|
    ensures !Changed(ops, i)
  {
    forall m | 0 <= m < |ranges|
      ensures !(ranges[m].first <= i <= ranges[m].last)
    {
      GroupMissesGap(ops, ranges, k, i, m);
    }
    assert !InSome(ranges, i);
  }

  // A hunk carries the true line numbers of its first line on both sides: the fallback
  // to 1 is reached only by a change at the very first line, where 1 is right.
  lemma {:induction false} HunkStarts(s: Script, r: Range)
    requires IsRange(Number(s), r) && ContextOnly(s, r.start, r.first)
    ensures HunkOf(Number(s), r).oldStart == 1 + |Old(s[..r.start])|
    ensures HunkOf(Number(s), r).newStart == 1 + |New(s[..r.start])|
  {
    assert Number(s)[r.start] == NumberedAt(s, r.start);
    if r.start == r.first {
      assert r.start == 0;
    }
  }

  lemma {:induction false} ApplyStep(file: seq<string>, pos: nat, hunks: seq<Hunk>, at: nat, end: nat,
                                     rest: seq<string>)
    requires hunks != [] && pos <= at <= end <= |file|
    requires hunks[0].oldStart == 1 + at && file[at..end] == Old(Edits(hunks[0].lines))
    requires Apply(file, end, hunks[1..]) == Some(rest)
    ensures Apply(file, pos, hunks) == Some(file[pos..at] + New(Edits(hunks[0].lines)) + rest)
  {
    assert |Old(Edits(hunks[0].lines))| == end - at;
  }

  // What a group says about the script around it.
  lemma {:induction false} GroupFits(s: Script, ranges: seq<Range>, k: nat)
    requires Grouping(Number(s), ranges, |s|) && k < |ranges|
    ensures var r, p := ranges[k], GapStart(ranges, k);
            && IsRange(Number(s), r) && p <= r.start <= r.first && r.start < r.stop <= |s|
            && ContextOnly(s, p, r.first)
  {
    var r, p := ranges[k], GapStart(ranges, k);
    assert IsRange(Number(s), r);
    assert k > 0 ==> Before(ranges[k - 1], r);
    forall i | p <= i < r.first
      ensures s[i].kind == Ctx
    {
      GapIsContext(Number(s), ranges, k, i);
    }
  }

  lemma {:induction false} PatchEnd(s: Script, p: nat)
    requires p <= |s| && ContextOnly(s, p, |s|)
    ensures |Old(s[..p])| <= |Old(s)| && Old(s)[|Old(s[..p])|..] == New(s[p..])
  {
    OldSlice(s, p, |s|);
    assert s[..|s|] == s && s[p..|s|] == s[p..];
    ContextSides(s[p..]);
  }

  // One hunk: the gap before it is copied, the hunk is found in place, the rest follows.
  lemma {:induction false} PatchStep(s: Script, p: nat, r: Range, hunks: seq<Hunk>)
    requires IsRange(Number(s), r) && p <= r.start < r.stop <= |s| && ContextOnly(s, p, r.first)
    requires hunks != [] && hunks[0] == HunkOf(Number(s), r)
    requires |Old(s[..r.stop])| <= |Old(s)|
    requires Apply(Old(s), |Old(s[..r.stop])|, hunks[1..]) == Some(New(s[r.stop..]))
    ensures |Old(s[..p])| <= |Old(s)|
    ensures Apply(Old(s), |Old(s[..p])|, hunks) == Some(New(s[p..]))
  {
    var h, at, end := hunks[0], |Old(s[..r.start])|, |Old(s[..r.stop])|;
    assert h.oldStart == 1 + at by { HunkStarts(s, r); }
    assert Edits(h.lines) == s[r.start..r.stop] by { EditsOfNumber(s, r.start, r.stop); }
    OldSlice(s, r.start, r.stop);
    OldSlice(s, p, r.start);
    ContextSides(s[p..r.start]);
    ApplyStep(Old(s), |Old(s[..p])|, hunks, at, end, New(s[r.stop..]));
    NewThirds(s, p, r.start, r.stop);
  }

  lemma {:induction false} TailIsContext(s: Script, ranges: seq<Range>)
    requires Grouping(Number(s), ranges, |s|)
    ensures ContextOnly(s, GapStart(ranges, |ranges|), |s|)
  {
    var p := GapStart(ranges, |ranges|);
    forall i | p <= i < |s|
      ensures s[i].kind == Ctx
    {
      GapIsContext(Number(s), ranges, |ranges|, i);
    }
  }

  // A group reached from line `p` over context only.
  ghost predicate Follows(s: Script, p: nat, r: Range) {
    IsRange(Number(s), r) && p <= r.start < r.stop <= |s| && ContextOnly(s, p, r.first)
  }

  // From line `p` on: context, a group, context, ..., context.
  ghost predicate Chain(s: Script, p: nat, ranges: seq<Range>)
    decreases |ranges|
  {
    if ranges == [] then p <= |s| && ContextOnly(s, p, |s|)
    else Follows(s, p, ranges[0]) && Chain(s, ranges[0].stop, ranges[1..])
  }

  lemma {:induction false} ChainFrom(s: Script, ranges: seq<Range>, k: nat)
    requires k <= |ranges|
    requires forall j :: k <= j < |ranges| ==> Follows(s, GapStart(ranges, j), ranges[j])
    requires GapStart(ranges, |ranges|) <= |s| && ContextOnly(s, GapStart(ranges, |ranges|), |s|)
    ensures Chain(s, GapStart(ranges, k), ranges[k..])
    decreases |ranges| - k
  {
    if k < |ranges| {
      ChainFrom(s, ranges, k + 1);
      assert ranges[k..][1..] == ranges[k + 1..];
    }
  }

  lemma {:induction false} GroupingIsChain(s: Script, ranges: seq<Range>)
    requires Grouping(Number(s), ranges, |s|)
    ensures Chain(s, 0, ranges)
  {
    forall j | 0 <= j < |ranges|
      ensures Follows(s, GapStart(ranges, j), ranges[j])
    {
      GroupFits(s, ranges, j);
    }
    TailIsContext(s, ranges);
    ChainFrom(s, ranges, 0);
    assert ranges[0..] == ranges;
  }

  lemma {:induction false} PatchFrom(s: Script, p: nat, ranges: seq<Range>, hunks: seq<Hunk>)
    requires Chain(s, p, ranges) && HunksOf(Number(s), ranges, hunks)
    ensures p <= |s| && |Old(s[..p])| <= |Old(s)|
    ensures Apply(Old(s), |Old(s[..p])|, hunks) == Some(New(s[p..]))
    decreases |ranges|
  {
    if ranges == [] {
      PatchEnd(s, p);
    } else {
      PatchFrom(s, ranges[0].stop, ranges[1..], hunks[1..]);
      PatchStep(s, p, ranges[0], hunks);
    }
  }

  lemma {:induction false} NewThirds(s: Script, p: nat, i: nat, j: nat)
    requires p <= i <= j <= |s|
    ensures New(s[p..]) == New(s[p..i]) + New(s[i..j]) + New(s[j..])
  {
    assert s[p..] == s[p..j] + s[j..];
    assert s[p..j] == s[p..i] + s[i..j];
    ConcatSides(s[p..j], s[j..]);
    ConcatSides(s[p..i], s[i..j]);
  }

  // The headline: copying the gaps and applying the hunks in order, each checked against
  // the file, turns the old lines into exactly the new lines.
  lemma {:induction false} HunksPatch(s: Script, ranges: seq<Range>, hunks: seq<Hunk>)
    requires Grouping(Number(s), ranges, |s|) && HunksOf(Number(s), ranges, hunks)
    ensures Apply(Old(s), 0, hunks) == Some(New(s))
  {
    GroupingIsChain(s, ranges);
    assert s[0..] == s;
    PatchFrom(s, 0, ranges, hunks);
  }

  // ---- The other direction ----

  function InvertScript(s: Script): (t: Script)
    ensures |t| == |s|
    ensures forall i :: 0 <= i < |s| ==> t[i] == Edit(Flip(s[i].kind), s[i].text)
  {
    if s == [] then [] else [Edit(Flip(s[0].kind), s[0].text)] + InvertScript(s[1..])
  }

  lemma {:induction false} InvertSides(s: Script)
    ensures Old(InvertScript(s)) == New(s) && New(InvertScript(s)) == Old(s)
  {
    if s != [] {
      InvertSides(s[1..]);
    }
  }

  lemma {:induction false} InvertNumber(s: Script)
    ensures Number(InvertScript(s)) == InvertLines(Number(s))
  {
    var t := InvertScript(s);
    forall i | 0 <= i < |s|
      ensures NumberedAt(t, i) == InvertLine(NumberedAt(s, i))
    {
      assert t[..i] == InvertScript(s[..i]);
      InvertSides(s[..i]);
    }
  }

  lemma {:induction false} InvertGrouping(ops: seq<DiffLine>, ranges: seq<Range>)
    requires Grouping(ops, ranges, |ops|)
    ensures Grouping(InvertLines(ops), ranges, |ops|)
  {
    var other := InvertLines(ops);
    assert forall i: nat :: i < |ops| ==> Changed(other, i) == Changed(ops, i);
    forall k | 0 <= k < |ranges|
      ensures IsRange(other, ranges[k])
    {
      assert IsRange(ops, ranges[k]);
      forall i: nat | ranges[k].first <= i && i + 2 * CONTEXT < ranges[k].last + 1
        ensures ChangeNear(other, i)
      {
        assert ChangeNear(ops, i);
        var j :| i <= j <= i + 2 * CONTEXT && j < |ops| && Changed(ops, j);
        assert Changed(other, j);
      }
    }
  }

  lemma {:induction false} InvertHunk(s: Script, r: Range, h: Hunk)
    requires IsRange(Number(s), r) && r.start < r.stop <= |s| && ContextOnly(s, r.start, r.first)
    requires IsRange(Number(InvertScript(s)), r)
    requires h == HunkOf(Number(s), r)
    ensures Hunk(h.newStart, h.oldStart, InvertLines(h.lines)) == HunkOf(Number(InvertScript(s)), r)
  {
    var t := InvertScript(s);
    var other := HunkOf(Number(t), r);
    assert t[..r.start] == InvertScript(s[..r.start]);
    InvertSides(s[..r.start]);
    assert h.newStart == other.oldStart && h.oldStart == other.newStart by {
      HunkStarts(s, r);
      HunkStarts(t, r);
    }
    assert InvertLines(h.lines) == other.lines by {
      InvertNumber(s);
      InvertSlice(Number(s), r.start, r.stop);
    }
  }

  lemma {:induction false} InvertSlice(ops: seq<DiffLine>, i: nat, j: nat)
    requires i <= j <= |ops|
    ensures InvertLines(ops[i..j]) == InvertLines(ops)[i..j]
  {
  }

  // Read backwards, with newStart in the role of oldStart, they turn new into old.
  lemma {:induction false} HunksPatchBack(s: Script, ranges: seq<Range>, hunks: seq<Hunk>)
    requires Grouping(Number(s), ranges, |s|) && HunksOf(Number(s), ranges, hunks)
    ensures Apply(New(s), 0, Invert(hunks)) == Some(Old(s))
  {
    var t := InvertScript(s);
    InvertNumber(s);
    InvertGrouping(Number(s), ranges);
    forall k | 0 <= k < |hunks|
      ensures Invert(hunks)[k] == HunkOf(Number(t), ranges[k])
    {
      GroupFits(s, ranges, k);
      assert IsRange(Number(t), ranges[k]);
      InvertHunk(s, ranges[k], hunks[k]);
    }
    HunksPatch(t, ranges, Invert(hunks));
    InvertSides(s);
  }

  // ---- The file diff ----

  datatype FileDiff = FileDiff(path: string, created: bool, added: nat, removed: nat,
                               hunks: seq<Hunk>, truncated: bool)

  method BuildFileDiff(path: string, before: string, after: string, created: bool)
      returns (diff: FileDiff, ghost ranges: seq<Range>)
    ensures var o, n := Lines.ToLines(before), Lines.ToLines(after);
            && diff.path == path && diff.created == created
            && diff.removed == |o| - Kept(o, n)
            && diff.added == |n| - Kept(o, n)
            && (diff.truncated <==> |o| + |n| - Kept(o, n) > MAX_DIFF_LINES)
            && (diff.truncated ==> diff.hunks == [])
            && (!diff.truncated ==>
                  Apply(o, 0, diff.hunks) == Some(n) && Apply(n, 0, Invert(diff.hunks)) == Some(o))
    ensures !diff.truncated ==>
              var ops := Number(Diff(Lines.ToLines(before), Lines.ToLines(after)));
              Grouping(ops, ranges, |ops|) && HunksOf(ops, ranges, diff.hunks)
    ensures diff.truncated <==> |Lines.ToLines(before)| + diff.added > MAX_DIFF_LINES
    ensures diff.added + diff.removed == 0 <==> Lines.SameButFinalNewline(before, after)
    ensures !diff.truncated ==> (diff.hunks == [] <==> Lines.SameButFinalNewline(before, after))
  {
    var oldLines, newLines := Lines.ToLines(before), Lines.ToLines(after);
    var ops := BuildOps(oldLines, newLines);
    ghost var s := Diff(oldLines, newLines);
    var added, removed := CountChanges(ops, s);
    DiffIsValid(oldLines, newLines);
    NoChangesMeansEqual(oldLines, newLines);
    Lines.ToLinesIdentifies(before, after);
    var tooLarge := |ops| > MAX_DIFF_LINES;
    var hunks := [];
    ranges := [];
    if !tooLarge {
      hunks, ranges := BuildHunks(ops);
      NoHunksMeansNoChanges(s, ranges);
    }
    diff := FileDiff(path, created, added, removed, hunks, tooLarge);
  }

  method CountChanges(ops: seq<DiffLine>, ghost s: Script) returns (added: nat, removed: nat)
    requires ops == Number(s)
    ensures added == Count(Add, s) && removed == Count(Del, s)
  {
    added, removed := 0, 0;
    for k := 0 to |ops|
      invariant added + Count(Add, s[k..]) == Count(Add, s)
      invariant removed + Count(Del, s[k..]) == Count(Del, s)
    {
      assert s[k..][1..] == s[k + 1..];
      match ops[k].edit.kind {
        case Add => added := added + 1;
        case Del => removed := removed + 1;
        case Ctx =>
      }
    }
  }

  lemma {:induction false} NoHunksMeansNoChanges(s: Script, ranges: seq<Range>)
    requires Grouping(Number(s), ranges, |s|)
    ensures ranges == [] <==> Changes(s) == 0
  {
    if ranges == [] {
      forall i | 0 <= i < |s|
        ensures s[i].kind == Ctx
      {
        GapIsContext(Number(s), ranges, 0, i);
      }
      NoChange(s);
    } else {
      GroupFits(s, ranges, 0);
      CountChanged(s, ranges[0].first);
    }
  }

  lemma {:induction false} NoChange(s: Script)
    requires ContextOnly(s, 0, |s|)
    ensures Changes(s) == 0
  {
    if s != [] {
      NoChange(s[1..]);
    }
  }

  lemma {:induction false} CountChanged(s: Script, i: nat)
    requires i < |s| && s[i].kind != Ctx
    ensures Changes(s) > 0
  {
    if i > 0 {
      CountChanged(s[1..], i - 1);
    }
  }

  // What `truncated` is decided on, and what the ceiling is described as counting.
  predicate TooLong(before: seq<string>, after: seq<string>) {
    |Diff(before, after)| > MAX_DIFF_LINES
  }

  predicate TooManyChanges(before: seq<string>, after: seq<string>) {
    Changes(Diff(before, after)) > MAX_DIFF_LINES
  }

  ghost predicate ReadingsPart(p: nat, q: nat) {
    exists before, after ::
      |before| == p && |after| == q && TooLong(before, after) != TooManyChanges(before, after)
  }

  function Fill(line: string, n: nat): (lines: seq<string>)
    ensures |lines| == n && forall i :: 0 <= i < n ==> lines[i] == line
  {
    seq(n, i => line)
  }

  // Files that begin alike and share no line after that keep exactly the beginning, in
  // either branch of the diff.
  lemma {:induction false} KeepsTheHead(head: seq<string>, a: seq<string>, b: seq<string>)
    requires forall x :: x in a ==> x !in b
    ensures Kept(head + a, head + b) == |head|
  {
    var before, after := head + a, head + b;
    LcsSharedHead(head, a, b);
    LcsZeroMeansDisjoint(a, b);
    LcsTrim(before, after);
    HeadIsLongest(before, after, 0);
    assert forall i :: 0 <= i < |head| ==> before[i] == head[i] == after[i];
  }

  // The ceiling is described as a number of changed lines but counts context too. Files of
  // two given lengths exist on which the two readings part exactly when the lengths add up
  // to more than one past the ceiling and differ by no more than it.
  lemma {:induction false} TruncationCountsContext(p: nat, q: nat)
    ensures ReadingsPart(p, q) <==>
            p + q >= MAX_DIFF_LINES + 2 && p <= q + MAX_DIFF_LINES && q <= p + MAX_DIFF_LINES
  {
    if ReadingsPart(p, q) {
      var before, after :|
        |before| == p && |after| == q && TooLong(before, after) != TooManyChanges(before, after);
      DiffIsValid(before, after);
    }
    if p + q >= MAX_DIFF_LINES + 2 && p <= q + MAX_DIFF_LINES && q <= p + MAX_DIFF_LINES {
      var k := (p + q - MAX_DIFF_LINES + 1) / 2;
      var head, a, b := Fill("same", k), Fill("old", p - k), Fill("new", q - k);
      var before, after := head + a, head + b;
      KeepsTheHead(head, a, b);
      DiffIsValid(before, after);
      assert |before| == p && |after| == q && TooLong(before, after) != TooManyChanges(before, after);
    }
  }

  // An unchanged file of 2001 lines is reported as too large to show.
  lemma {:induction false} UnchangedFileTruncated(file: seq<string>)
    requires |file| == 2_001
    ensures Changes(Diff(file, file)) == 0 && |Diff(file, file)| > MAX_DIFF_LINES
  {
    DiffIsValid(file, file);
    NoChangesMeansEqual(file, file);
  }
}
