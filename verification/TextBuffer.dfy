// How ontrak-genie/src/agent.ts shows a streamed reply: prose goes out at once, a possible
// text-mode tool call is held back, and one that names a tool is never shown.

module TextBuffer {
  import opened Strings

  const HOLD_LIMIT := 400

  // JavaScript's white space and line terminators, which trim and trimStart remove.
  predicate IsSpace(c: char) {
    var n := c as int;
    || 9 <= n <= 13 || n == 32 || n == 0xA0 || n == 0x1680 || 0x2000 <= n <= 0x200A
    || n == 0x2028 || n == 0x2029 || n == 0x202F || n == 0x205F || n == 0x3000 || n == 0xFEFF
  }

  function Leading(text: string): (n: nat)
    ensures n <= |text|
    ensures n < |text| ==> !IsSpace(text[n])
  {
    if text == "" || !IsSpace(text[0]) then 0 else 1 + Leading(text[1..])
  }

  predicate IsBlank(text: string) {
    Leading(text) == |text|
  }

  lemma {:induction false} LeadingIsSpace(text: string)
    ensures forall i :: 0 <= i < Leading(text) ==> IsSpace(text[i])
  {
    if text != "" && IsSpace(text[0]) {
      LeadingIsSpace(text[1..]);
    }
  }

  // Blank text has nothing but white space in it.
  lemma {:induction false} BlankMeans(text: string)
    ensures IsBlank(text) <==> forall c :: c in text ==> IsSpace(c)
  {
    LeadingIsSpace(text);
  }

  // Does the text open with a JSON object or array?
  predicate OpensJson(text: string) {
    var n := Leading(text);
    n < |text| && (text[n] == '{' || text[n] == '[')
  }

  predicate FenceAt(text: string, i: nat) {
    i + 3 <= |text| && text[i] == '`' && text[i + 1] == '`' && text[i + 2] == '`'
  }

  // The first code fence at or after `from`, or -1.
  function IndexOfFence(text: string, from: nat): (r: int)
    requires from <= |text|
    ensures r == -1 || (from <= r < |text| && FenceAt(text, r))
    ensures forall i :: from <= i < |text| && (r == -1 || i < r) ==> !FenceAt(text, i)
    decreases |text| - from
  {
    if from == |text| then -1
    else if FenceAt(text, from) then from
    else IndexOfFence(text, from + 1)
  }

  // Where a text-mode tool call could begin, or -1.
  function Marker(text: string): int {
    if OpensJson(text) then Leading(text) else IndexOfFence(text, 0)
  }

  // An opening brace or bracket behind nothing but white space.
  ghost predicate OpensAt(text: string, n: nat) {
    n < |text| && (text[n] == '{' || text[n] == '[') && forall i :: 0 <= i < n ==> IsSpace(text[i])
  }

  ghost predicate FirstFenceAt(text: string, n: nat) {
    FenceAt(text, n) && forall i :: 0 <= i < n ==> !FenceAt(text, i)
  }

  // The marker is where the text opens with JSON, or else the first fence.
  lemma {:induction false} MarkerMeans(text: string)
    ensures forall n: nat :: OpensAt(text, n) ==> Marker(text) == n
    ensures (forall n: nat :: !OpensAt(text, n)) ==> forall n: nat :: FirstFenceAt(text, n) <==> Marker(text) == n
  {
    LeadingIsSpace(text);
    forall n: nat | OpensAt(text, n)
      ensures Leading(text) == n
    {
      assert !IsSpace(text[n]);
    }
    assert OpensJson(text) ==> OpensAt(text, Leading(text));
  }

  // How many characters it takes to recognise the marker.
  function MarkerLength(text: string): nat {
    if OpensJson(text) then 1 else 3
  }

  lemma {:induction false} LeadingStable(t: string, u: string)
    requires Leading(t) < |t|
    ensures Leading(t + u) == Leading(t)
  {
    if IsSpace(t[0]) {
      assert (t + u)[1..] == t[1..] + u;
      LeadingStable(t[1..], u);
    }
  }

  lemma {:induction false} LeadingGrows(t: string, u: string)
    ensures Leading(t) <= Leading(t + u)
  {
    if t != "" && IsSpace(t[0]) {
      assert (t + u)[1..] == t[1..] + u;
      LeadingGrows(t[1..], u);
    }
  }

  // A fence is not white space, so text that holds one has been decided.
  lemma {:induction false} FenceDecides(t: string, i: nat)
    requires FenceAt(t, i)
    ensures Leading(t) <= i
  {
    if i > 0 && IsSpace(t[0]) {
      FenceDecides(t[1..], i - 1);
    }
  }

  // Once there is a marker, more text never moves it.
  lemma {:induction false} MarkerStable(t: string, u: string)
    requires Marker(t) >= 0
    ensures Marker(t + u) == Marker(t) && MarkerLength(t + u) == MarkerLength(t)
    ensures Marker(t) + MarkerLength(t) <= |t|
  {
    if OpensJson(t) {
      LeadingStable(t, u);
    } else {
      var m := Marker(t);
      FenceDecides(t, m);
      LeadingStable(t, u);
      assert FenceAt(t + u, m);
      forall i | 0 <= i < m
        ensures !FenceAt(t + u, i)
      {
        assert !FenceAt(t, i);
        assert i + 2 < |t|;
      }
    }
  }

  // A marker that lies whole in the earlier text was there before the later text came.
  lemma {:induction false} MarkerWasThere(t: string, u: string)
    requires Marker(t + u) >= 0 && Marker(t + u) + MarkerLength(t + u) <= |t|
    ensures Marker(t) >= 0
  {
    if OpensJson(t + u) {
      LeadingGrows(t, u);
      LeadingStable(t, u);
    } else {
      assert FenceAt(t, Marker(t + u));
    }
  }

  // ---- The buffer ----

  datatype Mode = Streaming | Holding | Suppressing

  // `emitted` characters of `held` were shown, as `shown`; `holds` counts the holds.
  datatype Buffer = Buffer(held: string, emitted: nat, mode: Mode, shown: string, holds: nat)

  const EMPTY := Buffer("", 0, Streaming, "", 0)

  function Feed(b: Buffer, chunk: string, looksLikeCall: string -> bool): Buffer
    requires b.emitted <= |b.held|
  {
    var held := b.held + chunk;
    match b.mode
    case Streaming =>
      var marker := Marker(held);
      if marker != -1 && marker >= b.emitted then
        Buffer(held, marker, Holding, b.shown + held[b.emitted..marker], b.holds + 1)
      else
        Buffer(held, |held|, Streaming, b.shown + chunk, b.holds)
    case Holding =>
      if looksLikeCall(held) then b.(held := held, mode := Suppressing)
      else if |held| - b.emitted > HOLD_LIMIT then
        Buffer(held, |held|, Streaming, b.shown + held[b.emitted..], b.holds)
      else b.(held := held)
    case Suppressing =>
      b.(held := held)
  }

  // A chunk ends after `p` characters.
  ghost predicate Boundary(chunks: seq<string>, p: nat) {
    exists k :: 0 <= k <= |chunks| && |Concat(chunks[..k])| == p
  }

  // A chunk boundary falls inside the marker.
  ghost predicate MarkerSplit(chunks: seq<string>) {
    var text := Concat(chunks);
    exists p: nat :: Marker(text) < p < Marker(text) + MarkerLength(text) && Boundary(chunks, p)
  }

  // What the buffer holds after `chunks`, in terms of the text alone.
  ghost predicate Settled(b: Buffer, chunks: seq<string>) {
    var text := Concat(chunks);
    && b.held == text && b.emitted <= |text| && b.shown == text[..b.emitted]
    && (Marker(text) < 0 || MarkerSplit(chunks) ==>
          b.mode == Streaming && b.holds == 0 && b.emitted == |text|)
    && (Marker(text) >= 0 && !MarkerSplit(chunks) ==>
          && b.holds == 1
          && (b.mode != Streaming ==> b.emitted == Marker(text))
          && (b.mode == Streaming ==> b.emitted == |text| && |text| - Marker(text) > HOLD_LIMIT))
  }

  function FeedAll(chunks: seq<string>, looksLikeCall: string -> bool): (b: Buffer)
    ensures b.emitted <= |b.held|
  {
    if chunks == [] then EMPTY
    else Feed(FeedAll(chunks[..|chunks| - 1], looksLikeCall), chunks[|chunks| - 1], looksLikeCall)
  }

  lemma {:induction false} BoundaryStep(chunks: seq<string>, p: nat)
    requires chunks != []
    ensures Boundary(chunks, p) <==>
            Boundary(chunks[..|chunks| - 1], p) || p == |Concat(chunks)|
  {
    var n := |chunks| - 1;
    var front := chunks[..n];
    assert chunks[..n + 1] == chunks;
    if Boundary(chunks, p) {
      var k :| 0 <= k <= |chunks| && |Concat(chunks[..k])| == p;
      if k <= n {
        assert front[..k] == chunks[..k];
      }
    }
    if Boundary(front, p) {
      var k :| 0 <= k <= |front| && |Concat(front[..k])| == p;
      assert front[..k] == chunks[..k];
    }
    if p == |Concat(chunks)| {
      assert |Concat(chunks[..n + 1])| == p;
    }
  }

  lemma {:induction false} EndIsBoundary(chunks: seq<string>)
    ensures Boundary(chunks, |Concat(chunks)|)
  {
    assert chunks[..|chunks|] == chunks;
  }

  lemma {:induction false} BoundaryInside(chunks: seq<string>, p: nat)
    requires Boundary(chunks, p)
    ensures p <= |Concat(chunks)|
  {
    if chunks != [] {
      BoundaryStep(chunks, p);
      if p != |Concat(chunks)| {
        BoundaryInside(chunks[..|chunks| - 1], p);
      }
    }
  }

  // No boundary of the earlier chunks can fall inside a marker they already contain, and
  // the new boundary at the end lies behind it.
  lemma {:induction false} SplitStable(front: seq<string>, chunk: string)
    requires Marker(Concat(front)) >= 0
    ensures MarkerSplit(front + [chunk]) <==> MarkerSplit(front)
  {
    var chunks := front + [chunk];
    var t, text := Concat(front), Concat(front) + chunk;
    assert chunks[..|chunks| - 1] == front && Concat(chunks) == text;
    MarkerStable(t, chunk);
    forall p: nat | Marker(t) < p < Marker(t) + MarkerLength(t)
      ensures Boundary(chunks, p) <==> Boundary(front, p)
    {
      BoundaryStep(chunks, p);
      if p == |text| {
        EndIsBoundary(front);
      }
    }
  }

  // When the marker appears with this chunk, it is split exactly when it starts before it.
  lemma {:induction false} SplitAppears(front: seq<string>, chunk: string)
    requires Marker(Concat(front)) < 0 && Marker(Concat(front) + chunk) >= 0
    ensures MarkerSplit(front + [chunk]) <==> Marker(Concat(front) + chunk) < |Concat(front)|
  {
    var chunks := front + [chunk];
    var t, text := Concat(front), Concat(front) + chunk;
    var m, len := Marker(text), MarkerLength(text);
    assert chunks[..|chunks| - 1] == front && Concat(chunks) == text;
    MarkerStable(text, "");
    if m < |t| {
      if m + len <= |t| {
        MarkerWasThere(t, chunk);
      }
      EndIsBoundary(front);
      BoundaryStep(chunks, |t|);
    } else {
      forall p: nat | m < p < m + len
        ensures !Boundary(chunks, p)
      {
        BoundaryStep(chunks, p);
        if Boundary(front, p) {
          BoundaryInside(front, p);
        }
      }
    }
  }

  // Before the marker: everything was shown, and the hold starts here or not at all.
  lemma {:induction false} SettledBefore(b: Buffer, front: seq<string>, chunk: string, looksLikeCall: string -> bool)
    requires Settled(b, front) && Marker(Concat(front)) < 0
    ensures Settled(Feed(b, chunk, looksLikeCall), front + [chunk])
  {
    var chunks := front + [chunk];
    var t, text := Concat(front), Concat(front) + chunk;
    assert chunks[..|chunks| - 1] == front && Concat(chunks) == text;
    assert b.mode == Streaming && b.holds == 0 && b.shown == t && b.emitted == |t|;
    if Marker(text) >= 0 {
      SplitAppears(front, chunk);
      MarkerStable(text, "");
      ShownUpTo(t, chunk, Marker(text));
    }
  }

  lemma {:induction false} ShownUpTo(t: string, chunk: string, m: int)
    ensures |t| <= m <= |t + chunk| ==> t + (t + chunk)[|t|..m] == (t + chunk)[..m]
  {
  }

  // After the marker: it is settled whether the reply is held, and where its marker is.
  lemma {:induction false} SettledAfter(b: Buffer, front: seq<string>, chunk: string, looksLikeCall: string -> bool)
    requires Settled(b, front) && Marker(Concat(front)) >= 0
    ensures Settled(Feed(b, chunk, looksLikeCall), front + [chunk])
  {
    var chunks := front + [chunk];
    var t, text := Concat(front), Concat(front) + chunk;
    assert chunks[..|chunks| - 1] == front && Concat(chunks) == text;
    MarkerStable(t, chunk);
    SplitStable(front, chunk);
    assert text[..b.emitted] == t[..b.emitted];
    if b.mode == Streaming {
      assert b.emitted == |t| && Marker(text) < |t|;
    } else {
      assert text[..b.emitted] + text[b.emitted..] == text;
    }
  }

  // The headline for streaming: for every chunking, what was shown is a prefix of the
  // reply; a reply is held at most once, and exactly when it has a marker that no chunk
  // boundary splits; while it is held or suppressed nothing behind the marker was shown.
  lemma {:induction false} StreamSettles(chunks: seq<string>, looksLikeCall: string -> bool)
    ensures Settled(FeedAll(chunks, looksLikeCall), chunks)
  {
    if chunks != [] {
      var front := chunks[..|chunks| - 1];
      StreamSettles(front, looksLikeCall);
      if Marker(Concat(front)) < 0 {
        SettledBefore(FeedAll(front, looksLikeCall), front, chunks[|chunks| - 1], looksLikeCall);
      } else {
        SettledAfter(FeedAll(front, looksLikeCall), front, chunks[|chunks| - 1], looksLikeCall);
      }
      assert front + [chunks[|chunks| - 1]] == chunks;
    } else {
      assert Concat(chunks) == "";
    }
  }

  // ---- What becomes of a held reply ----

  // The k-th chunk arrives while the reply is held, and settles it: the text so far names a
  // tool, or has grown too long to wait for one.
  ghost predicate DecidesAt(chunks: seq<string>, k: nat, looksLikeCall: string -> bool)
    requires k <= |chunks|
  {
    && k > 0 && Marker(Concat(chunks[..k - 1])) >= 0
    && (looksLikeCall(Concat(chunks[..k])) || |Concat(chunks[..k])| - Marker(Concat(chunks[..k])) > HOLD_LIMIT)
  }

  ghost predicate FirstDecidesAt(chunks: seq<string>, k: nat, looksLikeCall: string -> bool)
    requires k <= |chunks|
  {
    DecidesAt(chunks, k, looksLikeCall) && forall j :: 0 <= j < k ==> !DecidesAt(chunks, j, looksLikeCall)
  }

  // Suppressed if the first chunk that settles it shows it to name a tool, released if that
  // chunk only makes it too long, and held until then.
  ghost predicate Decided(b: Buffer, chunks: seq<string>, looksLikeCall: string -> bool) {
    && (b.mode == Holding ==> forall k :: 0 <= k <= |chunks| ==> !DecidesAt(chunks, k, looksLikeCall))
    && (b.mode == Suppressing ==>
          exists k :: 0 <= k <= |chunks| &&
                      FirstDecidesAt(chunks, k, looksLikeCall) && looksLikeCall(Concat(chunks[..k])))
    && (b.mode == Streaming ==>
          exists k :: 0 <= k <= |chunks| &&
                      FirstDecidesAt(chunks, k, looksLikeCall) && !looksLikeCall(Concat(chunks[..k])))
  }

  lemma {:induction false} DecidesBefore(front: seq<string>, chunk: string, looksLikeCall: string -> bool)
    ensures forall k :: 0 <= k <= |front| ==>
              && (DecidesAt(front + [chunk], k, looksLikeCall) <==> DecidesAt(front, k, looksLikeCall))
              && (FirstDecidesAt(front + [chunk], k, looksLikeCall) <==> FirstDecidesAt(front, k, looksLikeCall))
              && (front + [chunk])[..k] == front[..k]
  {
    hide Marker;
    forall k | 0 <= k <= |front|
      ensures (front + [chunk])[..k] == front[..k]
      ensures DecidesAt(front + [chunk], k, looksLikeCall) <==> DecidesAt(front, k, looksLikeCall)
    {
      assert (front + [chunk])[..k] == front[..k];
      assert k > 0 ==> (front + [chunk])[..k - 1] == front[..k - 1];
    }
  }

  lemma {:induction false} NoMarkerBefore(chunks: seq<string>, k: nat)
    requires k <= |chunks| && Marker(Concat(chunks)) < 0
    ensures Marker(Concat(chunks[..k])) < 0
    decreases |chunks| - k
  {
    hide Marker;
    if k == |chunks| {
      assert chunks[..k] == chunks;
    } else {
      NoMarkerBefore(chunks, k + 1);
      var more := chunks[..k + 1];
      assert more[..k] == chunks[..k] && Concat(more) == Concat(chunks[..k]) + chunks[k];
      if Marker(Concat(chunks[..k])) >= 0 {
        MarkerStable(Concat(chunks[..k]), chunks[k]);
      }
    }
  }

  lemma {:induction false} NothingDecides(chunks: seq<string>, looksLikeCall: string -> bool)
    requires chunks != [] && Marker(Concat(chunks[..|chunks| - 1])) < 0
    ensures forall k :: 0 <= k <= |chunks| ==> !DecidesAt(chunks, k, looksLikeCall)
  {
    hide Marker;
    var front := chunks[..|chunks| - 1];
    forall j | 0 <= j <= |front|
      ensures Marker(Concat(chunks[..j])) < 0
    {
      NoMarkerBefore(front, j);
      assert front[..j] == chunks[..j];
    }
  }

  // One more chunk while the reply is held, or after it was settled.
  lemma {:induction false} DecidedAfter(b: Buffer, front: seq<string>, chunk: string, looksLikeCall: string -> bool)
    requires Settled(b, front) && Marker(Concat(front)) >= 0 && !MarkerSplit(front)
    requires Decided(b, front, looksLikeCall)
    ensures Decided(Feed(b, chunk, looksLikeCall), front + [chunk], looksLikeCall)
  {
    var chunks, text := front + [chunk], Concat(front) + chunk;
    var n := |chunks|;
    assert chunks[..n] == chunks && chunks[..n - 1] == front && Concat(chunks) == text;
    MarkerStable(Concat(front), chunk);
    DecidesBefore(front, chunk, looksLikeCall);
    hide Settled, MarkerSplit, Concat;
    assert DecidesAt(chunks, n, looksLikeCall) <==> looksLikeCall(text) || |text| - Marker(text) > HOLD_LIMIT;
    HeldMeans(b, front);
    if b.mode == Holding {
      HoldingFeeds(b, chunk, looksLikeCall);
      hide Marker, Feed, DecidesAt;
      if DecidesAt(chunks, n, looksLikeCall) {
        assert FirstDecidesAt(chunks, n, looksLikeCall);
      }
    } else {
      AfterDecision(b, front, chunk, looksLikeCall);
      hide Marker, Feed, DecidesAt;
      var k :| 0 <= k <= |front| && FirstDecidesAt(front, k, looksLikeCall) &&
        (looksLikeCall(Concat(front[..k])) <==> b.mode == Suppressing);
      assert FirstDecidesAt(chunks, k, looksLikeCall);
    }
  }

  lemma {:induction false} HoldingFeeds(b: Buffer, chunk: string, looksLikeCall: string -> bool)
    requires b.mode == Holding && b.emitted <= |b.held|
    ensures Feed(b, chunk, looksLikeCall).mode ==
            if looksLikeCall(b.held + chunk) then Suppressing
            else if |b.held + chunk| - b.emitted > HOLD_LIMIT then Streaming else Holding
  {
  }

  lemma {:induction false} HeldMeans(b: Buffer, front: seq<string>)
    requires Settled(b, front) && Marker(Concat(front)) >= 0 && !MarkerSplit(front)
    ensures b.held == Concat(front) && (b.mode != Streaming ==> b.emitted == Marker(Concat(front)))
    ensures b.mode == Streaming ==> b.emitted == |b.held| && Marker(b.held) < b.emitted
  {
    hide Marker, MarkerSplit, Concat;
  }

  // A settled reply stays what it is: its marker lies below what was shown.
  lemma {:induction false} AfterDecision(b: Buffer, front: seq<string>, chunk: string, looksLikeCall: string -> bool)
    requires Settled(b, front) && Marker(Concat(front)) >= 0 && !MarkerSplit(front) && b.mode != Holding
    ensures Feed(b, chunk, looksLikeCall).mode == b.mode
  {
    MarkerStable(Concat(front), chunk);
    HeldMeans(b, front);
    hide Marker, MarkerSplit, Concat;
  }

  // For every chunking, what became of a reply that was held.
  lemma {:induction false} HeldIsDecided(chunks: seq<string>, looksLikeCall: string -> bool)
    requires Marker(Concat(chunks)) >= 0 && !MarkerSplit(chunks)
    ensures Decided(FeedAll(chunks, looksLikeCall), chunks, looksLikeCall)
  {
    if chunks != [] {
      var front, chunk := chunks[..|chunks| - 1], chunks[|chunks| - 1];
      var b := FeedAll(front, looksLikeCall);
      assert front + [chunk] == chunks;
      StreamSettles(front, looksLikeCall);
      if Marker(Concat(front)) >= 0 {
        SplitStable(front, chunk);
        HeldIsDecided(front, looksLikeCall);
        DecidedAfter(b, front, chunk, looksLikeCall);
      } else {
        SplitAppears(front, chunk);
        NothingDecides(chunks, looksLikeCall);
        StartsHolding(b, front, chunk, looksLikeCall);
      }
    }
  }

  lemma {:induction false} StartsHolding(b: Buffer, front: seq<string>, chunk: string, looksLikeCall: string -> bool)
    requires Settled(b, front) && Marker(Concat(front)) < 0 && Marker(Concat(front) + chunk) >= |Concat(front)|
    ensures Feed(b, chunk, looksLikeCall).mode == Holding
  {
    hide Marker, MarkerSplit, Concat;
  }

  // A reply that opens with JSON is always held, however it is cut into chunks.
  lemma {:induction false} JsonAlwaysHeld(chunks: seq<string>, looksLikeCall: string -> bool)
    requires OpensJson(Concat(chunks))
    ensures FeedAll(chunks, looksLikeCall).holds == 1
  {
    StreamSettles(chunks, looksLikeCall);
  }

  // A fence cut in two is shown as ordinary prose, whatever it fences: with the backticks
  // split two and one, nothing of the reply is ever held.
  lemma {:induction false} SplitFenceIsShown(rest: string, looksLikeCall: string -> bool)
    ensures var b := FeedAll(["``"] + ["`" + rest], looksLikeCall);
            b.holds == 0 && b.shown == "``" + ("`" + rest)
  {
    var front, chunk := ["``"], "`" + rest;
    var text := "``" + chunk;
    assert front[..0] == [] && Concat([]) == "";
    assert Concat(front) == "``";
    assert (front + [chunk])[..1] == front;
    assert text[0] == '`' && text[1] == '`' && text[2] == '`';
    assert FenceAt(text, 0) && Leading(text) == 0 && Marker(text) == 0;
    assert Marker("``") < 0;
    SplitAppears(front, chunk);
    StreamSettles(front + [chunk], looksLikeCall);
  }

  // The loop that consumes the stream, emitting pieces of text as it goes.
  method StreamReply(chunks: seq<string>, looksLikeCall: string -> bool)
      returns (texts: seq<string>, emitted: nat)
    ensures Settled(FeedAll(chunks, looksLikeCall), chunks)
    ensures Concat(texts) == FeedAll(chunks, looksLikeCall).shown
    ensures emitted == FeedAll(chunks, looksLikeCall).emitted
  {
    texts, emitted := [], 0;
    var mode, held := Streaming, "";
    ghost var b := EMPTY;
    for k := 0 to |chunks|
      invariant b == FeedAll(chunks[..k], looksLikeCall)
      invariant emitted == b.emitted && mode == b.mode && held == b.held
      invariant Concat(texts) == b.shown
    {
      var chunk := chunks[k];
      assert chunks[..k + 1][..k] == chunks[..k] && chunks[..k + 1][k] == chunk;
      b := Feed(b, chunk, looksLikeCall);
      held := held + chunk;
      match mode {
        case Streaming =>
          var marker := Marker(held);
          if marker != -1 && marker >= emitted {
            var prose := held[emitted..marker];
            if prose != "" {
              texts := Emit(texts, prose);
            }
            emitted := marker;
            mode := Holding;
          } else {
            texts := Emit(texts, chunk);
            emitted := |held|;
          }
        case Holding =>
          if looksLikeCall(held) {
            mode := Suppressing;
          } else if |held| - emitted > HOLD_LIMIT {
            mode := Streaming;
            texts := Emit(texts, held[emitted..]);
            emitted := |held|;
          }
        case Suppressing =>
      }
    }
    assert chunks[..|chunks|] == chunks;
    StreamSettles(chunks, looksLikeCall);
  }

  function Emit(texts: seq<string>, text: string): (r: seq<string>)
    ensures Concat(r) == Concat(texts) + text
  {
    var r := texts + [text];
    assert r[..|r| - 1] == texts;
    r
  }
}
