// The order of a diff's lines: the deletions of a change stand in front of its additions.
module EditOrder {
  import opened EditScript

  predicate AddThenDel(s: Script, i: nat)
    requires i + 1 < |s|
  {
    s[i].kind == Add && s[i + 1].kind == Del
  }

  // No addition stands directly in front of a deletion.
  ghost predicate DeletesFirst(s: Script) {
    forall i: nat :: i + 1 < |s| ==> !AddThenDel(s, i)
  }

  lemma {:induction false} DeletesFirstConcat(s: Script, t: Script)
    requires DeletesFirst(s) && DeletesFirst(t)
    requires s != [] && t != [] ==> !(s[|s| - 1].kind == Add && t[0].kind == Del)
    ensures DeletesFirst(s + t)
  {
    forall i: nat | i + 1 < |s + t|
      ensures !AddThenDel(s + t, i)
    {
      if i + 1 < |s| {
        assert !AddThenDel(s, i);
      } else if i >= |s| {
        assert !AddThenDel(t, i - |s|);
      }
    }
  }

  lemma {:induction false} AllDeletesFirst(kind: Kind, lines: seq<string>)
    ensures |All(kind, lines)| == |lines| && forall i :: 0 <= i < |lines| ==> All(kind, lines)[i].kind == kind
    ensures DeletesFirst(All(kind, lines))
  {
    if lines != [] {
      AllDeletesFirst(kind, lines[1..]);
    }
  }

  // On a tie the walk deletes, so it never turns from adding to deleting.
  lemma {:induction false} AlignDeletesFirst(a: seq<string>, b: seq<string>)
    ensures DeletesFirst(Align(a, b))
    ensures a != [] && b != [] && a[0] != b[0] && Lcs(a[1..], b) < Lcs(a, b[1..]) ==>
              Align(a, b[1..]) == [] || Align(a, b[1..])[0].kind != Del
    decreases |a| + |b|
  {
    if a == [] {
      AllDeletesFirst(Add, b);
    } else if b == [] {
      AllDeletesFirst(Del, a);
    } else if a[0] == b[0] {
      AlignDeletesFirst(a[1..], b[1..]);
      DeletesFirstConcat([Edit(Ctx, a[0])], Align(a[1..], b[1..]));
    } else if Lcs(a[1..], b) >= Lcs(a, b[1..]) {
      AlignDeletesFirst(a[1..], b);
      DeletesFirstConcat([Edit(Del, a[0])], Align(a[1..], b));
    } else {
      LcsDropOneRight(a[1..], b);
      AlignDeletesFirst(a, b[1..]);
      DeletesFirstConcat([Edit(Add, b[0])], Align(a, b[1..]));
    }
  }

  // In both branches of the diff the deletions of a change stand in front of its additions.
  lemma {:induction false} DiffDeletesFirst(before: seq<string>, after: seq<string>)
    ensures DeletesFirst(Diff(before, after))
  {
    var t := Trim(before, after);
    AllDeletesFirst(Ctx, t.head);
    AllDeletesFirst(Ctx, t.tail);
    if |t.a| * |t.b| > MAX_MATRIX {
      AllDeletesFirst(Del, t.a);
      AllDeletesFirst(Add, t.b);
      DeletesFirstConcat(All(Del, t.a), All(Add, t.b));
    } else {
      AlignDeletesFirst(t.a, t.b);
    }
    hide DeletesFirst, Middle;
    DeletesFirstConcat(Middle(t.a, t.b), All(Ctx, t.tail));
    DeletesFirstConcat(All(Ctx, t.head), Middle(t.a, t.b) + All(Ctx, t.tail));
  }
}
