// The loops of ontrak-genie/src/diff.ts: trimming, the flat LCS table, the walk, and the
// numbering of the lines, each proved against the script defined in EditScript.

module LineDiff {
  import opened EditOrder
  import opened EditScript
  import opened Wrappers

  // One rendered line; the two numbers are 1-based, and absent on the side the line is not on.
  datatype DiffLine = DiffLine(edit: Edit, oldLine: Option<nat>, newLine: Option<nat>)

  newtype Int32 = x: int | -0x8000_0000 <= x < 0x8000_0000

  // ---- Numbering ----

  // The number a line must carry is one more than the lines its side has before it.
  function NumberedAt(s: Script, i: nat): DiffLine
    requires i < |s|
  {
    DiffLine(s[i],
             if s[i].kind == Add then None else Some(1 + |Old(s[..i])|),
             if s[i].kind == Del then None else Some(1 + |New(s[..i])|))
  }

  function Number(s: Script): seq<DiffLine> {
    seq(|s|, i requires 0 <= i < |s| => NumberedAt(s, i))
  }

  function Edits(ops: seq<DiffLine>): (s: Script)
    ensures |s| == |ops|
    ensures forall i :: 0 <= i < |s| ==> s[i] == ops[i].edit
  {
    if ops == [] then [] else [ops[0].edit] + Edits(ops[1..])
  }

  lemma {:induction false} NumberAppend(s: Script, e: Edit)
    ensures var line := DiffLine(e, if e.kind == Add then None else Some(1 + |Old(s)|),
                                    if e.kind == Del then None else Some(1 + |New(s)|));
            Number(s + [e]) == Number(s) + [line]
  {
    var t := s + [e];
    assert t[..|s|] == s;
    forall i | 0 <= i < |s|
      ensures NumberedAt(t, i) == NumberedAt(s, i)
    {
      assert t[..i] == s[..i];
    }
  }

  // The two counters and the growing list that `push` closes over.
  class Recorder {
    var ops: seq<DiffLine>
    var oldNo: nat
    var newNo: nat
    ghost var script: Script

    ghost predicate Valid()
      reads this
    {
      && ops == Number(script)
      && oldNo == 1 + |Old(script)|
      && newNo == 1 + |New(script)|
    }

    constructor ()
      ensures Valid() && script == []
    {
      ops, oldNo, newNo, script := [], 1, 1, [];
    }

    method Push(kind: Kind, text: string)
      requires Valid()
      modifies this
      ensures Valid() && script == old(script) + [Edit(kind, text)]
    {
      ghost var e := Edit(kind, text);
      NumberAppend(script, e);
      ConcatSides(script, [e]);
      match kind {
        case Add =>
          ops := ops + [DiffLine(Edit(kind, text), None, Some(newNo))];
          newNo := newNo + 1;
        case Del =>
          ops := ops + [DiffLine(Edit(kind, text), Some(oldNo), None)];
          oldNo := oldNo + 1;
        case Ctx =>
          ops := ops + [DiffLine(Edit(kind, text), Some(oldNo), Some(newNo))];
          oldNo := oldNo + 1;
          newNo := newNo + 1;
      }
      script := script + [e];
    }

    method PushAll(kind: Kind, lines: seq<string>)
      requires Valid()
      modifies this
      ensures Valid() && script == old(script) + All(kind, lines)
    {
      NothingPushed(kind, lines, script);
      hide All, Number, Old, New;
      for k := 0 to |lines|
        invariant Valid()
        invariant script == old(script) + All(kind, lines[..k])
      {
        AllStep(kind, lines, k);
        Associative(old(script), All(kind, lines[..k]), [Edit(kind, lines[k])]);
        Push(kind, lines[k]);
      }
      assert lines[..|lines|] == lines;
    }
  }

  lemma {:induction false} NothingPushed(kind: Kind, lines: seq<string>, s: Script)
    ensures s + All(kind, lines[..0]) == s
  {
  }

  lemma {:induction false} AllStep(kind: Kind, lines: seq<string>, k: nat)
    requires k < |lines|
    ensures All(kind, lines[..k + 1]) == All(kind, lines[..k]) + [Edit(kind, lines[k])]
    decreases lines
  {
    if k > 0 {
      AllStep(kind, lines[1..], k - 1);
      assert lines[..k + 1][1..] == lines[1..][..k] && lines[..k][1..] == lines[1..][..k - 1];
    }
  }

  // ---- The flat table ----

  // Where cell (i, j) lives in the flat array.
  function Flat(i: nat, j: nat, width: nat): nat {
    i * width + j
  }

  lemma {:induction false} FlatMonotone(i: nat, j: nat, i': nat, j': nat, width: nat)
    requires i < i' && j < width
    ensures Flat(i, j, width) < Flat(i', j', width)
  {
    assert (i + 1) * width <= i' * width;
    assert (i + 1) * width == i * width + width;
  }

  // Every cell has its own index, and every index used is inside the array.
  lemma {:induction false} FlatInRange(i: nat, j: nat, rows: nat, width: nat)
    requires i < rows && j < width
    ensures Flat(i, j, width) < rows * width
  {
    FlatMonotone(i, j, rows, 0, width);
  }

  lemma {:induction false} FlatInjective(i: nat, j: nat, i': nat, j': nat, width: nat)
    requires j < width && j' < width
    requires Flat(i, j, width) == Flat(i', j', width)
    ensures i == i' && j == j'
  {
    if i < i' {
      FlatMonotone(i, j, i', j', width);
    } else if i' < i {
      FlatMonotone(i', j', i, j, width);
    }
  }

  // The rows below `i`, and the cells of row `i` right of `j`, hold the recurrence; the
  // others are still zero.
  ghost function Wanted(a: seq<string>, b: seq<string>, i: int, j: int, r: nat, c: nat): nat
    requires r <= |a| && c <= |b|
  {
    if r > i || (r == i && c > j) then Lcs(a[r..], b[c..]) else 0
  }

  ghost predicate CellOk(a: seq<string>, b: seq<string>, dp: array<Int32>, i: int, j: int, r: nat, c: nat)
    requires r <= |a| && c <= |b|
    reads dp
  {
    && Flat(r, c, |b| + 1) < dp.Length
    && dp[Flat(r, c, |b| + 1)] as int == Wanted(a, b, i, j, r, c)
  }

  ghost predicate Filled(a: seq<string>, b: seq<string>, dp: array<Int32>, i: int, j: int)
    reads dp
  {
    && dp.Length == (|a| + 1) * (|b| + 1)
    && forall r: nat, c: nat :: r <= |a| && c <= |b| ==> CellOk(a, b, dp, i, j, r, c)
  }

  method FillTable(a: seq<string>, b: seq<string>) returns (dp: array<Int32>)
    requires |a| * |b| <= MAX_MATRIX
    ensures fresh(dp) && Filled(a, b, dp, -1, |b|)
  {
    var width := |b| + 1;
    dp := new Int32[(|a| + 1) * width](_ => 0);
    EmptyTable(a, b, dp);
    var i := |a| - 1;
    while i >= 0
      invariant -1 <= i < |a|
      invariant fresh(dp) && Filled(a, b, dp, i, |b|)
    {
      var j := |b| - 1;
      LastColumn(a, b, dp, i);
      while j >= 0
        invariant -1 <= j < |b|
        invariant fresh(dp) && Filled(a, b, dp, i, j)
      {
        FillCell(a, b, dp, i, j);
        j := j - 1;
      }
      NextRow(a, b, dp, i);
      i := i - 1;
    }
  }

  method FillCell(a: seq<string>, b: seq<string>, dp: array<Int32>, i: nat, j: nat)
    requires i < |a| && j < |b| && |a| * |b| <= MAX_MATRIX
    requires Filled(a, b, dp, i, j)
    modifies dp
    ensures Filled(a, b, dp, i, j - 1)
  {
    var width := |b| + 1;
    var here := Flat(i, j, width);
    assert a[i..][1..] == a[i + 1..] && b[j..][1..] == b[j + 1..];
    assert CellOk(a, b, dp, i, j, i, j) && CellOk(a, b, dp, i, j, i + 1, j + 1);
    assert CellOk(a, b, dp, i, j, i + 1, j) && CellOk(a, b, dp, i, j, i, j + 1);
    LcsFits(a, b, i + 1, j + 1);
    var cell: Int32;
    if a[i] == b[j] {
      cell := dp[Flat(i + 1, j + 1, width)] + 1;
    } else {
      var down, right := dp[Flat(i + 1, j, width)], dp[Flat(i, j + 1, width)];
      cell := if down >= right then down else right;
    }
    assert cell as int == Lcs(a[i..], b[j..]);
    dp[here] := cell;
    ghost var left := j - 1;
    forall r: nat, c: nat | r <= |a| && c <= |b|
      ensures CellOk(a, b, dp, i, left, r, c)
    {
      assert old(CellOk(a, b, dp, i, j, r, c));
      if Flat(r, c, width) == here {
        FlatInjective(r, c, i, j, width);
      }
    }
  }

  lemma {:induction false} NextRow(a: seq<string>, b: seq<string>, dp: array<Int32>, i: nat)
    requires i < |a| && Filled(a, b, dp, i, -1)
    ensures Filled(a, b, dp, i - 1, |b|)
  {
    var above := i - 1;
    forall r: nat, c: nat | r <= |a| && c <= |b|
      ensures CellOk(a, b, dp, above, |b|, r, c)
    {
      assert CellOk(a, b, dp, i, -1, r, c);
    }
  }

  // The freshly allocated table is right about its last row, which is all zeros.
  lemma {:induction false} EmptyTable(a: seq<string>, b: seq<string>, dp: array<Int32>)
    requires dp.Length == (|a| + 1) * (|b| + 1)
    requires forall k :: 0 <= k < dp.Length ==> dp[k] == 0
    ensures Filled(a, b, dp, |a| - 1, |b|)
  {
    var last := |a| - 1;
    forall r: nat, c: nat | r <= |a| && c <= |b|
      ensures CellOk(a, b, dp, last, |b|, r, c)
    {
      FlatInRange(r, c, |a| + 1, |b| + 1);
    }
  }

  // The last column is zero before it is ever visited, and that is what it should be.
  lemma {:induction false} LastColumn(a: seq<string>, b: seq<string>, dp: array<Int32>, i: nat)
    requires i < |a| && Filled(a, b, dp, i, |b|)
    ensures Filled(a, b, dp, i, |b| - 1)
  {
    var last := |b| - 1;
    forall r: nat, c: nat | r <= |a| && c <= |b|
      ensures CellOk(a, b, dp, i, last, r, c)
    {
      assert CellOk(a, b, dp, i, |b|, r, c);
    }
  }

  // A table that passed the size check cannot overflow its 32-bit cells.
  lemma {:induction false} LcsFits(a: seq<string>, b: seq<string>, i: nat, j: nat)
    requires 0 < |a| && 0 < |b| && |a| * |b| <= MAX_MATRIX && i <= |a| && j <= |b|
    ensures Lcs(a[i..], b[j..]) <= MAX_MATRIX
  {
    LcsBound(a[i..], b[j..]);
    assert |a| <= |a| * |b|;
  }

  // ---- The whole script ----

  // Walk the table from the top left corner, keeping, deleting or adding one line a step.
  method Walk(a: seq<string>, b: seq<string>, dp: array<Int32>, out: Recorder)
    requires Filled(a, b, dp, -1, |b|) && out.Valid()
    modifies out
    ensures out.Valid() && out.script == old(out.script) + Align(a, b)
  {
    ghost var start := out.script;
    var i, j := 0, 0;
    assert a[0..] == a && b[0..] == b;
    while i < |a| && j < |b|
      invariant 0 <= i <= |a| && 0 <= j <= |b|
      invariant out.Valid()
      invariant out.script + Align(a[i..], b[j..]) == start + Align(a, b)
      decreases |a| - i + |b| - j
    {
      i, j := WalkStep(a, b, dp, out, i, j);
    }
    ghost var soFar := out.script;
    OnlyOneLeft(a[i..], b[j..]);
    out.PushAll(Del, a[i..]);
    out.PushAll(Add, b[j..]);
    Associative(soFar, All(Del, a[i..]), All(Add, b[j..]));
  }

  method WalkStep(a: seq<string>, b: seq<string>, dp: array<Int32>, out: Recorder, i: nat, j: nat)
      returns (i': nat, j': nat)
    requires Filled(a, b, dp, -1, |b|) && out.Valid() && i < |a| && j < |b|
    modifies out
    ensures out.Valid() && i <= i' <= |a| && j <= j' <= |b| && i + j < i' + j'
    ensures out.script + Align(a[i'..], b[j'..]) == old(out.script) + Align(a[i..], b[j..])
  {
    var width := |b| + 1;
    assert a[i..][1..] == a[i + 1..] && b[j..][1..] == b[j + 1..];
    assert CellOk(a, b, dp, -1, |b|, i + 1, j) && CellOk(a, b, dp, -1, |b|, i, j + 1);
    ghost var e;
    if a[i] == b[j] {
      e := Edit(Ctx, a[i]);
      out.Push(Ctx, a[i]);
      i', j' := i + 1, j + 1;
    } else if dp[Flat(i + 1, j, width)] >= dp[Flat(i, j + 1, width)] {
      e := Edit(Del, a[i]);
      out.Push(Del, a[i]);
      i', j' := i + 1, j;
    } else {
      e := Edit(Add, b[j]);
      out.Push(Add, b[j]);
      i', j' := i, j + 1;
    }
    Associative(old(out.script), [e], Align(a[i'..], b[j'..]));
  }

  lemma {:induction false} OnlyOneLeft(a: seq<string>, b: seq<string>)
    requires a == [] || b == []
    ensures Align(a, b) == All(Del, a) + All(Add, b)
  {
  }

  method SkipHead(before: seq<string>, after: seq<string>) returns (head: nat)
    ensures head == HeadFrom(before, after, 0)
  {
    head := 0;
    while head < |before| && head < |after| && before[head] == after[head]
      invariant head <= |before| && head <= |after|
      invariant HeadFrom(before, after, 0) == HeadFrom(before, after, head)
    {
      head := head + 1;
    }
  }

  method SkipTail(before: seq<string>, after: seq<string>, head: nat) returns (tailBefore: nat, tailAfter: nat)
    requires head <= |before| && head <= |after|
    ensures tailBefore == |before| - TailFrom(before, after, head, 0)
    ensures tailAfter == |after| - TailFrom(before, after, head, 0)
  {
    tailBefore, tailAfter := |before|, |after|;
    while tailBefore > head && tailAfter > head && before[tailBefore - 1] == after[tailAfter - 1]
      invariant head <= tailBefore <= |before| && head <= tailAfter <= |after|
      invariant |before| - tailBefore == |after| - tailAfter
      invariant TailFrom(before, after, head, 0) == TailFrom(before, after, head, |before| - tailBefore)
    {
      tailBefore, tailAfter := tailBefore - 1, tailAfter - 1;
    }
  }

  // The size check, and the branch it picks.
  method PushMiddle(a: seq<string>, b: seq<string>, out: Recorder)
    requires out.Valid()
    modifies out
    ensures out.Valid() && out.script == old(out.script) + Middle(a, b)
  {
    if |a| * |b| > MAX_MATRIX {
      out.PushAll(Del, a);
      out.PushAll(Add, b);
      Associative(old(out.script), All(Del, a), All(Add, b));
    } else {
      var dp := FillTable(a, b);
      Walk(a, b, dp, out);
    }
  }

  // The numbers in the old column, and in the new one, from top to bottom.
  function OldNumbers(ops: seq<DiffLine>): seq<nat> {
    if ops == [] then []
    else
      OldNumbers(ops[..|ops| - 1]) +
      if ops[|ops| - 1].oldLine.Some? then [ops[|ops| - 1].oldLine.value] else []
  }

  function NewNumbers(ops: seq<DiffLine>): seq<nat> {
    if ops == [] then []
    else
      NewNumbers(ops[..|ops| - 1]) +
      if ops[|ops| - 1].newLine.Some? then [ops[|ops| - 1].newLine.value] else []
  }

  // One, two, three and so on.
  ghost predicate CountsUp(numbers: seq<nat>, n: nat) {
    |numbers| == n && forall i :: 0 <= i < n ==> numbers[i] == i + 1
  }

  lemma {:induction false} NumbersCountUp(s: Script)
    ensures CountsUp(OldNumbers(Number(s)), |Old(s)|) && CountsUp(NewNumbers(Number(s)), |New(s)|)
    ensures forall i :: 0 <= i < |s| ==>
              && Number(s)[i].edit == s[i]
              && (Number(s)[i].oldLine.None? <==> s[i].kind == Add)
              && (Number(s)[i].newLine.None? <==> s[i].kind == Del)
  {
    if s != [] {
      var n := |s| - 1;
      var front, last := s[..n], s[n];
      NumbersCountUp(front);
      NumberAppend(front, last);
      assert s == front + [last];
      ConcatSides(front, [last]);
      assert Number(s)[..n] == Number(front);
      assert Old([last]) == (if last.kind == Add then [] else [last.text]) by { assert [last][1..] == []; }
      assert New([last]) == (if last.kind == Del then [] else [last.text]) by { assert [last][1..] == []; }
    }
  }

  // What the numbered lines of a diff look like.
  ghost predicate WellNumbered(ops: seq<DiffLine>, before: seq<string>, after: seq<string>) {
    && CountsUp(OldNumbers(ops), |before|) && CountsUp(NewNumbers(ops), |after|)
    && (forall i :: 0 <= i < |ops| ==>
          (ops[i].oldLine.None? <==> ops[i].edit.kind == Add) && (ops[i].newLine.None? <==> ops[i].edit.kind == Del))
    && DeletesFirst(Edits(ops))
  }

  lemma {:induction false} DiffWellNumbered(before: seq<string>, after: seq<string>)
    ensures WellNumbered(Number(Diff(before, after)), before, after)
  {
    var s := Diff(before, after);
    NumbersCountUp(s);
    DiffIsValid(before, after);
    DiffDeletesFirst(before, after);
    hide Diff, OldNumbers, NewNumbers, Number, Old, New, CountsUp;
    assert |Number(s)| == |s| by { NumberLength(s); }
    assert Edits(Number(s)) == s;
  }

  lemma {:induction false} NumberLength(s: Script)
    ensures |Number(s)| == |s|
  {
  }

  lemma {:induction false} NothingBefore(s: Script)
    ensures [] + s == s
  {
  }

  method BuildOps(before: seq<string>, after: seq<string>) returns (ops: seq<DiffLine>)
    ensures ops == Number(Diff(before, after)) && WellNumbered(ops, before, after)
  {
    DiffWellNumbered(before, after);
    hide WellNumbered, HeadFrom, TailFrom, All, Middle, Number;
    var out := new Recorder();
    var head := SkipHead(before, after);
    var tailBefore, tailAfter := SkipTail(before, after, head);
    ghost var t := Trim(before, after);
    out.PushAll(Ctx, before[..head]);
    assert out.script == All(Ctx, t.head) by {
      NothingBefore(All(Ctx, t.head));
    }
    PushMiddle(before[head..tailBefore], after[head..tailAfter], out);
    out.PushAll(Ctx, before[tailBefore..]);
    Associative(All(Ctx, t.head), Middle(t.a, t.b), All(Ctx, t.tail));
    ops := out.ops;
  }
}
