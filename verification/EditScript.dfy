// The mathematics behind the line diff of ontrak-genie/src/diff.ts: edit scripts over
// lines, their two sides, the longest-common-subsequence recurrence, and the exact script
// the diff produces. Nothing here mutates anything; LineDiff.dfy holds the loops.

module EditScript {
  datatype Kind = Add | Del | Ctx
  datatype Edit = Edit(kind: Kind, text: string)
  type Script = seq<Edit>

  // The table of the aligned middle may hold at most this many cells.
  const MAX_MATRIX := 4_000_000

  // ---- The two sides of a script ----

  // What the script says the old file was: everything but the additions.
  function Old(s: Script): seq<string> {
    if s == [] then []
    else if s[0].kind == Add then Old(s[1..])
    else [s[0].text] + Old(s[1..])
  }

  // What the script says the new file is: everything but the deletions.
  function New(s: Script): seq<string> {
    if s == [] then []
    else if s[0].kind == Del then New(s[1..])
    else [s[0].text] + New(s[1..])
  }

  function Count(kind: Kind, s: Script): nat {
    if s == [] then 0 else (if s[0].kind == kind then 1 else 0) + Count(kind, s[1..])
  }

  function Changes(s: Script): nat {
    Count(Del, s) + Count(Add, s)
  }

  // `s` really turns `before` into `after`.
  predicate Transforms(s: Script, before: seq<string>, after: seq<string>) {
    Old(s) == before && New(s) == after
  }

  function All(kind: Kind, lines: seq<string>): Script {
    if lines == [] then [] else [Edit(kind, lines[0])] + All(kind, lines[1..])
  }

  lemma {:induction false} Associative<T>(x: seq<T>, y: seq<T>, z: seq<T>)
    ensures (x + y) + z == x + (y + z)
  {
  }

  lemma {:induction false} ConcatOld(s: Script, t: Script)
    ensures Old(s + t) == Old(s) + Old(t)
  {
    if s == [] {
      assert s + t == t;
    } else {
      var u := s + t;
      assert u[0] == s[0] && u[1..] == s[1..] + t;
      ConcatOld(s[1..], t);
      if s[0].kind != Add {
        Associative([s[0].text], Old(s[1..]), Old(t));
      }
    }
  }

  lemma {:induction false} ConcatNew(s: Script, t: Script)
    ensures New(s + t) == New(s) + New(t)
  {
    if s == [] {
      assert s + t == t;
    } else {
      var u := s + t;
      assert u[0] == s[0] && u[1..] == s[1..] + t;
      ConcatNew(s[1..], t);
      if s[0].kind != Del {
        Associative([s[0].text], New(s[1..]), New(t));
      }
    }
  }

  lemma {:induction false} ConcatSides(s: Script, t: Script)
    ensures Old(s + t) == Old(s) + Old(t)
    ensures New(s + t) == New(s) + New(t)
  {
    ConcatOld(s, t);
    ConcatNew(s, t);
  }

  lemma {:induction false} ConcatCount(kind: Kind, s: Script, t: Script)
    ensures Count(kind, s + t) == Count(kind, s) + Count(kind, t)
  {
    if s == [] {
      assert s + t == t;
    } else {
      ConcatCount(kind, s[1..], t);
      assert (s + t)[1..] == s[1..] + t;
    }
  }

  lemma {:induction false} AllSides(kind: Kind, lines: seq<string>)
    ensures Old(All(kind, lines)) == if kind == Add then [] else lines
    ensures New(All(kind, lines)) == if kind == Del then [] else lines
    ensures forall k :: Count(k, All(kind, lines)) == if k == kind then |lines| else 0
  {
    if lines != [] {
      AllSides(kind, lines[1..]);
    }
  }

  // The counts are tied to the lengths: this is where added - removed = |after| - |before|.
  lemma {:induction false} SideLengths(s: Script)
    ensures |Old(s)| == Count(Ctx, s) + Count(Del, s)
    ensures |New(s)| == Count(Ctx, s) + Count(Add, s)
    ensures |s| == Count(Ctx, s) + Changes(s)
  {
    if s != [] {
      SideLengths(s[1..]);
    }
  }

  // ---- The recurrence the table is filled with ----

  function Max(x: nat, y: nat): nat {
    if x >= y then x else y
  }

  function Lcs(a: seq<string>, b: seq<string>): nat
    decreases |a| + |b|
  {
    if a == [] || b == [] then 0
    else if a[0] == b[0] then 1 + Lcs(a[1..], b[1..])
    else Max(Lcs(a[1..], b), Lcs(a, b[1..]))
  }

  // Dropping one leading line loses at most one from the answer, and never gains.
  lemma {:induction false} LcsDropOne(a: seq<string>, b: seq<string>)
    requires a != []
    ensures Lcs(a[1..], b) <= Lcs(a, b) <= 1 + Lcs(a[1..], b)
    decreases |a| + |b|
  {
    if b != [] {
      LcsDropOne(a, b[1..]);
      LcsDropOneRight(a[1..], b);
      if a[0] == b[0] {
        assert Lcs(a, b) == 1 + Lcs(a[1..], b[1..]);
      }
    }
  }

  lemma {:induction false} LcsDropOneRight(a: seq<string>, b: seq<string>)
    requires b != []
    ensures Lcs(a, b[1..]) <= Lcs(a, b) <= 1 + Lcs(a, b[1..])
    decreases |a| + |b|
  {
    if a != [] {
      LcsDropOneRight(a[1..], b);
      LcsDropOne(a, b[1..]);
      if a[0] == b[0] {
        assert Lcs(a, b) == 1 + Lcs(a[1..], b[1..]);
      }
    }
  }

  lemma {:induction false} LcsSymmetric(a: seq<string>, b: seq<string>)
    ensures Lcs(a, b) == Lcs(b, a)
    decreases |a| + |b|
  {
    if a != [] && b != [] {
      LcsSymmetric(a[1..], b[1..]);
      LcsSymmetric(a[1..], b);
      LcsSymmetric(a, b[1..]);
    }
  }

  // Every cell of the table fits the 32-bit integers it is stored in.
  lemma {:induction false} LcsBound(a: seq<string>, b: seq<string>)
    ensures Lcs(a, b) <= |a| && Lcs(a, b) <= |b|
    decreases |a| + |b|
  {
    if a != [] && b != [] {
      LcsBound(a[1..], b[1..]);
      LcsBound(a[1..], b);
      LcsBound(a, b[1..]);
    }
  }

  // Independent meaning of the recurrence: no script keeps more lines than Lcs.
  lemma {:induction false} NoScriptKeepsMore(s: Script)
    ensures Count(Ctx, s) <= Lcs(Old(s), New(s))
  {
    if s != [] {
      NoScriptKeepsMore(s[1..]);
      match s[0].kind {
        case Del =>
          assert Old(s)[1..] == Old(s[1..]);
          LcsDropOne(Old(s), New(s));
        case Add =>
          assert New(s)[1..] == New(s[1..]);
          LcsDropOneRight(Old(s), New(s));
        case Ctx =>
          assert Old(s) == [s[0].text] + Old(s[1..]) && New(s) == [s[0].text] + New(s[1..]);
      }
    }
  }

  // A shared head or tail is worth exactly its length, so trimming it loses nothing.
  lemma {:induction false} LcsSharedHead(p: seq<string>, a: seq<string>, b: seq<string>)
    ensures Lcs(p + a, p + b) == |p| + Lcs(a, b)
  {
    if p == [] {
      assert p + a == a && p + b == b;
    } else {
      LcsSharedHead(p[1..], a, b);
      assert (p + a)[1..] == p[1..] + a && (p + b)[1..] == p[1..] + b;
    }
  }

  lemma {:induction false} LcsSharedLast(a: seq<string>, b: seq<string>, x: string)
    ensures Lcs(a + [x], b + [x]) == 1 + Lcs(a, b)
    decreases |a| + |b|
  {
    if a != [] {
      assert (a + [x])[1..] == a[1..] + [x];
      LcsSharedLast(a[1..], b, x);
    }
    if b != [] {
      assert (b + [x])[1..] == b[1..] + [x];
      LcsSharedLast(a, b[1..], x);
    }
    if a != [] && b != [] {
      LcsSharedLast(a[1..], b[1..], x);
    }
  }

  lemma {:induction false} LcsSharedTail(a: seq<string>, b: seq<string>, t: seq<string>)
    ensures Lcs(a + t, b + t) == Lcs(a, b) + |t|
    decreases t
  {
    if t == [] {
      assert a + t == a && b + t == b;
    } else {
      LcsSharedLast(a, b, t[0]);
      LcsSharedTail(a + [t[0]], b + [t[0]], t[1..]);
      assert a + t == (a + [t[0]]) + t[1..] && b + t == (b + [t[0]]) + t[1..];
    }
  }

  // ---- The script the diff produces ----

  // The walk over the table: keep on a match, otherwise delete when that is no worse.
  function Align(a: seq<string>, b: seq<string>): Script
    decreases |a| + |b|
  {
    if a == [] then All(Add, b)
    else if b == [] then All(Del, a)
    else if a[0] == b[0] then [Edit(Ctx, a[0])] + Align(a[1..], b[1..])
    else if Lcs(a[1..], b) >= Lcs(a, b[1..]) then [Edit(Del, a[0])] + Align(a[1..], b)
    else [Edit(Add, b[0])] + Align(a, b[1..])
  }

  lemma {:induction false} ConsSides(e: Edit, s: Script)
    ensures Old([e] + s) == if e.kind == Add then Old(s) else [e.text] + Old(s)
    ensures New([e] + s) == if e.kind == Del then New(s) else [e.text] + New(s)
    ensures Count(Ctx, [e] + s) == Count(Ctx, s) + if e.kind == Ctx then 1 else 0
  {
    var t := [e] + s;
    assert t[0] == e && t[1..] == s;
  }

  lemma {:induction false} AlignKeepsLcs(a: seq<string>, b: seq<string>)
    ensures Transforms(Align(a, b), a, b)
    ensures Count(Ctx, Align(a, b)) == Lcs(a, b)
    decreases |a| + |b|
  {
    if a == [] {
      AllSides(Add, b);
    } else if b == [] {
      AllSides(Del, a);
    } else if a[0] == b[0] {
      AlignKeepsLcs(a[1..], b[1..]);
      ConsSides(Edit(Ctx, a[0]), Align(a[1..], b[1..]));
    } else if Lcs(a[1..], b) >= Lcs(a, b[1..]) {
      AlignKeepsLcs(a[1..], b);
      ConsSides(Edit(Del, a[0]), Align(a[1..], b));
    } else {
      AlignKeepsLcs(a, b[1..]);
      ConsSides(Edit(Add, b[0]), Align(a, b[1..]));
    }
  }

  // How many leading lines the files share, given that they share the first `h`.
  function HeadFrom(before: seq<string>, after: seq<string>, h: nat): (n: nat)
    requires h <= |before| && h <= |after|
    ensures h <= n <= |before| && n <= |after|
    decreases |before| - h
  {
    if h == |before| || h == |after| || before[h] != after[h] then h
    else HeadFrom(before, after, h + 1)
  }

  // How many trailing lines they share beyond the first `h`, given that they share the last `n`.
  function TailFrom(before: seq<string>, after: seq<string>, h: nat, n: nat): (m: nat)
    requires h + n <= |before| && h + n <= |after|
    ensures n <= m && h + m <= |before| && h + m <= |after|
    decreases |before| - h - n
  {
    if h + n == |before| || h + n == |after| || before[|before| - 1 - n] != after[|after| - 1 - n] then n
    else TailFrom(before, after, h, n + 1)
  }

  // The shared head is a common prefix, and the longest one.
  lemma {:induction false} HeadIsLongest(before: seq<string>, after: seq<string>, h: nat)
    requires h <= |before| && h <= |after| && before[..h] == after[..h]
    ensures var n := HeadFrom(before, after, h);
            before[..n] == after[..n] && (n < |before| && n < |after| ==> before[n] != after[n])
    decreases |before| - h
  {
    if h < |before| && h < |after| && before[h] == after[h] {
      assert before[..h + 1] == before[..h] + [before[h]] && after[..h + 1] == after[..h] + [after[h]];
      HeadIsLongest(before, after, h + 1);
    }
  }

  // The shared tail of the rest is a common suffix, and the longest one.
  lemma {:induction false} TailIsLongest(before: seq<string>, after: seq<string>, h: nat, n: nat)
    requires h + n <= |before| && h + n <= |after|
    requires before[|before| - n..] == after[|after| - n..]
    ensures var m := TailFrom(before, after, h, n);
            before[|before| - m..] == after[|after| - m..] &&
            (h + m < |before| && h + m < |after| ==> before[|before| - 1 - m] != after[|after| - 1 - m])
    decreases |before| - h - n
  {
    var x, y := |before| - 1 - n, |after| - 1 - n;
    if h + n < |before| && h + n < |after| && before[x] == after[y] {
      assert before[x..] == [before[x]] + before[x + 1..] && after[y..] == [after[y]] + after[y + 1..];
      TailIsLongest(before, after, h, n + 1);
    }
  }

  // Both files cut at the shared head, and the rest cut at the shared tail.
  datatype Trimmed = Trimmed(head: seq<string>, a: seq<string>, b: seq<string>, tail: seq<string>) {
    function Before(): seq<string> { head + (a + tail) }
    function After(): seq<string> { head + (b + tail) }
  }

  function CutAt(before: seq<string>, after: seq<string>, h: nat, n: nat): Trimmed
    requires h + n <= |before| && h + n <= |after|
  {
    Trimmed(before[..h], before[h..|before| - n], after[h..|after| - n], before[|before| - n..])
  }

  function Trim(before: seq<string>, after: seq<string>): Trimmed {
    var h := HeadFrom(before, after, 0);
    CutAt(before, after, h, TailFrom(before, after, h, 0))
  }

  lemma {:induction false} CutParts(before: seq<string>, after: seq<string>, h: nat, n: nat)
    requires h + n <= |before| && h + n <= |after|
    requires before[..h] == after[..h] && before[|before| - n..] == after[|after| - n..]
    ensures CutAt(before, after, h, n).Before() == before
    ensures CutAt(before, after, h, n).After() == after
  {
    var i, j := |before| - n, |after| - n;
    assert before[h..i] + before[i..] == before[h..];
    assert after[h..j] + after[j..] == after[h..];
    assert before[..h] + before[h..] == before && after[..h] + after[h..] == after;
  }

  lemma {:induction false} TrimParts(before: seq<string>, after: seq<string>)
    ensures Trim(before, after).Before() == before && Trim(before, after).After() == after
  {
    var h := HeadFrom(before, after, 0);
    HeadIsLongest(before, after, 0);
    TailIsLongest(before, after, h, 0);
    CutParts(before, after, h, TailFrom(before, after, h, 0));
  }

  predicate Fits(before: seq<string>, after: seq<string>) {
    var t := Trim(before, after);
    |t.a| * |t.b| <= MAX_MATRIX
  }

  function Middle(a: seq<string>, b: seq<string>): Script {
    if |a| * |b| > MAX_MATRIX then All(Del, a) + All(Add, b) else Align(a, b)
  }

  function Diff(before: seq<string>, after: seq<string>): Script {
    var t := Trim(before, after);
    All(Ctx, t.head) + (Middle(t.a, t.b) + All(Ctx, t.tail))
  }

  // How many lines the diff keeps as context.
  function Kept(before: seq<string>, after: seq<string>): nat {
    if Fits(before, after) then Lcs(before, after)
    else var t := Trim(before, after); |t.head| + |t.tail|
  }

  lemma {:induction false} LcsTrim(before: seq<string>, after: seq<string>)
    ensures var t := Trim(before, after);
            Lcs(before, after) == |t.head| + Lcs(t.a, t.b) + |t.tail|
  {
    var t := Trim(before, after);
    TrimParts(before, after);
    LcsSharedTail(t.a, t.b, t.tail);
    LcsSharedHead(t.head, t.a + t.tail, t.b + t.tail);
  }

  lemma {:induction false} MiddleIsValid(a: seq<string>, b: seq<string>)
    ensures Transforms(Middle(a, b), a, b)
    ensures Count(Ctx, Middle(a, b)) == if |a| * |b| > MAX_MATRIX then 0 else Lcs(a, b)
  {
    if |a| * |b| > MAX_MATRIX {
      AllSides(Del, a);
      AllSides(Add, b);
      ConcatSides(All(Del, a), All(Add, b));
      ConcatCount(Ctx, All(Del, a), All(Add, b));
    } else {
      AlignKeepsLcs(a, b);
    }
  }

  // In both branches the script turns `before` into `after`, and its counts are exact.
  lemma {:induction false} DiffIsValid(before: seq<string>, after: seq<string>)
    ensures Transforms(Diff(before, after), before, after)
    ensures Count(Ctx, Diff(before, after)) == Kept(before, after)
    ensures Count(Del, Diff(before, after)) == |before| - Kept(before, after)
    ensures Count(Add, Diff(before, after)) == |after| - Kept(before, after)
    ensures |Diff(before, after)| == |before| + |after| - Kept(before, after)
  {
    var t := Trim(before, after);
    DiffPieces(t);
    TrimParts(before, after);
    LcsTrim(before, after);
    SideLengths(Diff(before, after));
  }

  lemma {:induction false} DiffPieces(t: Trimmed)
    ensures var s := All(Ctx, t.head) + (Middle(t.a, t.b) + All(Ctx, t.tail));
            && Transforms(s, t.Before(), t.After())
            && Count(Ctx, s) == |t.head| + |t.tail| + if |t.a| * |t.b| > MAX_MATRIX then 0 else Lcs(t.a, t.b)
  {
    var head, m, tail := All(Ctx, t.head), Middle(t.a, t.b), All(Ctx, t.tail);
    MiddleIsValid(t.a, t.b);
    AllSides(Ctx, t.head);
    AllSides(Ctx, t.tail);
    ConcatSides(m, tail);
    ConcatSides(head, m + tail);
    ConcatCount(Ctx, m, tail);
    ConcatCount(Ctx, head, m + tail);
  }

  ghost predicate Minimal(s: Script) {
    forall other: Script ::
      Old(other) == Old(s) && New(other) == New(s) ==> Changes(s) <= Changes(other)
  }

  // Keeping Lcs lines is what being minimal means.
  lemma {:induction false} MinimalMeansLcs(s: Script)
    ensures Minimal(s) <==> Count(Ctx, s) == Lcs(Old(s), New(s))
  {
    SideLengths(s);
    NoScriptKeepsMore(s);
    AlignKeepsLcs(Old(s), New(s));
    SideLengths(Align(Old(s), New(s)));
    if Count(Ctx, s) == Lcs(Old(s), New(s)) {
      forall other: Script | Old(other) == Old(s) && New(other) == New(s)
        ensures Changes(s) <= Changes(other)
      {
        SideLengths(other);
        NoScriptKeepsMore(other);
      }
    }
  }

  lemma {:induction false} LcsZeroMeansDisjoint(a: seq<string>, b: seq<string>)
    ensures Lcs(a, b) == 0 <==> forall x :: x in a ==> x !in b
    decreases |a| + |b|
  {
    if a != [] && b != [] {
      if a[0] == b[0] {
        assert a[0] in b;
      } else {
        LcsZeroMeansDisjoint(a[1..], b);
        LcsZeroMeansDisjoint(a, b[1..]);
        assert a == [a[0]] + a[1..] && b == [b[0]] + b[1..];
      }
    }
  }

  // The headline: the diff is a shortest edit script of the untrimmed files exactly when
  // the trimmed middles fit the table or have no line in common.
  lemma {:induction false} DiffIsMinimalIff(before: seq<string>, after: seq<string>)
    ensures var t := Trim(before, after);
            Minimal(Diff(before, after)) <==>
            (|t.a| * |t.b| <= MAX_MATRIX || forall x :: x in t.a ==> x !in t.b)
  {
    var t := Trim(before, after);
    DiffIsValid(before, after);
    MinimalMeansLcs(Diff(before, after));
    LcsTrim(before, after);
    LcsZeroMeansDisjoint(t.a, t.b);
  }

  // An input past the ceiling: 2001 equal lines between different first and last lines are
  // reported as 4006 changes where 4 would do.
  lemma {:induction false} FallbackCanBeFar(line: string)
    ensures var same := seq(2_001, i => line);
            var before, after := ["a"] + same + ["b"], ["c"] + same + ["d"];
            var short := [Edit(Del, "a"), Edit(Add, "c")] + All(Ctx, same) + [Edit(Del, "b"), Edit(Add, "d")];
            && Trim(before, after) == Trimmed([], before, after, [])
            && Transforms(short, before, after) && Changes(short) == 4
            && Changes(Diff(before, after)) == 4_006 && !Minimal(Diff(before, after))
  {
    var same := seq(2_001, i => line);
    var before, after := ["a"] + same + ["b"], ["c"] + same + ["d"];
    var first, last := [Edit(Del, "a"), Edit(Add, "c")], [Edit(Del, "b"), Edit(Add, "d")];
    assert before[0] == "a" && after[0] == "c" && before[2_002] == "b" && after[2_002] == "d";
    assert Trim(before, after) == Trimmed([], before, after, []);
    assert 2_003 * 2_003 > MAX_MATRIX;
    DiffIsValid(before, after);
    ShortScript(same, first, last);
  }

  lemma {:induction false} ShortScript(same: seq<string>, first: Script, last: Script)
    requires first == [Edit(Del, "a"), Edit(Add, "c")] && last == [Edit(Del, "b"), Edit(Add, "d")]
    ensures var short := first + All(Ctx, same) + last;
            Transforms(short, ["a"] + same + ["b"], ["c"] + same + ["d"]) && Changes(short) == 4
  {
    AllSides(Ctx, same);
    ConcatSides(first, All(Ctx, same));
    ConcatSides(first + All(Ctx, same), last);
    ConcatCount(Del, first, All(Ctx, same));
    ConcatCount(Del, first + All(Ctx, same), last);
    ConcatCount(Add, first, All(Ctx, same));
    ConcatCount(Add, first + All(Ctx, same), last);
    Replacement("a", "c");
    Replacement("b", "d");
  }

  lemma {:induction false} OneLine(kind: Kind, x: string)
    ensures All(kind, [x]) == [Edit(kind, x)]
  {
    var lines := [x];
    assert lines[1..] == [];
    assert All(kind, lines) == [Edit(kind, lines[0])] + All(kind, lines[1..]);
  }

  lemma {:induction false} Replacement(x: string, y: string)
    ensures var s := [Edit(Del, x), Edit(Add, y)];
            Old(s) == [x] && New(s) == [y] && Count(Del, s) == 1 && Count(Add, s) == 1
  {
    var gone, come := All(Del, [x]), All(Add, [y]);
    OneLine(Del, x);
    OneLine(Add, y);
    assert gone + come == [Edit(Del, x), Edit(Add, y)];
    AllSides(Del, [x]);
    AllSides(Add, [y]);
    ConcatSides(gone, come);
    ConcatCount(Del, gone, come);
    ConcatCount(Add, gone, come);
  }

  lemma {:induction false} HeadSymmetric(before: seq<string>, after: seq<string>, h: nat)
    requires h <= |before| && h <= |after|
    ensures HeadFrom(before, after, h) == HeadFrom(after, before, h)
    decreases |before| - h
  {
    if h < |before| && h < |after| && before[h] == after[h] {
      HeadSymmetric(before, after, h + 1);
    }
  }

  lemma {:induction false} TailSymmetric(before: seq<string>, after: seq<string>, h: nat, n: nat)
    requires h + n <= |before| && h + n <= |after|
    ensures TailFrom(before, after, h, n) == TailFrom(after, before, h, n)
    decreases |before| - h - n
  {
    if h + n < |before| && h + n < |after| && before[|before| - 1 - n] == after[|after| - 1 - n] {
      TailSymmetric(before, after, h, n + 1);
    }
  }

  lemma {:induction false} TrimSymmetric(before: seq<string>, after: seq<string>)
    ensures var t, u := Trim(before, after), Trim(after, before);
            u.a == t.b && u.b == t.a && |u.head| == |t.head| && |u.tail| == |t.tail|
  {
    HeadSymmetric(before, after, 0);
    TailSymmetric(before, after, HeadFrom(before, after, 0), 0);
  }

  // Swapping the files swaps what is added and what is removed, in either branch.
  lemma {:induction false} SwapSwapsCounts(before: seq<string>, after: seq<string>)
    ensures Count(Add, Diff(before, after)) == Count(Del, Diff(after, before))
    ensures Count(Del, Diff(before, after)) == Count(Add, Diff(after, before))
  {
    DiffIsValid(before, after);
    DiffIsValid(after, before);
    TrimSymmetric(before, after);
    LcsSymmetric(before, after);
    var t := Trim(before, after);
    assert |t.a| * |t.b| == |t.b| * |t.a|;
  }

  // No change is reported exactly for equal files.
  lemma {:induction false} NoChangesMeansEqual(before: seq<string>, after: seq<string>)
    ensures Changes(Diff(before, after)) == 0 <==> before == after
  {
    DiffIsValid(before, after);
    var d := Diff(before, after);
    if before == after {
      HeadSame(before, 0);
      assert Fits(before, after);
      LcsSharedHead(before, [], []);
      assert before + [] == before;
    } else if Changes(d) == 0 {
      OnlyContext(d);
    }
  }

  lemma {:induction false} HeadSame(file: seq<string>, h: nat)
    requires h <= |file|
    ensures HeadFrom(file, file, h) == |file|
    decreases |file| - h
  {
    if h < |file| {
      HeadSame(file, h + 1);
    }
  }

  lemma {:induction false} OnlyContext(s: Script)
    requires Changes(s) == 0
    ensures Old(s) == New(s)
  {
    if s != [] {
      OnlyContext(s[1..]);
    }
  }
}
