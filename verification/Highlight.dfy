// The highlighter of ontrak-genie/public/highlight.js: for any matcher, the HTML it writes
// shows the text it was given.

module Highlight {
  import opened Wrappers

  // What the sticky pattern found: how long the match is, and which group took part.
  datatype Match = Match(length: nat, kind: Option<nat>)

  type Matcher = (string, nat) -> Option<Match>

  // A match lies inside the text and names a group of the rule set.
  ghost predicate Fits(matcher: Matcher, text: string, classes: seq<string>) {
    forall i: nat :: i < |text| ==>
      var m := matcher(text, i);
      m.Some? ==> i + m.value.length <= |text| && (m.value.kind.Some? ==> m.value.kind.value < |classes|)
  }

  // ---- Escaping ----

  function EscapeChar(c: char): string {
    if c == '&' then "&amp;"
    else if c == '<' then "&lt;"
    else if c == '>' then "&gt;"
    else if c == '"' then "&quot;"
    else if c == '\'' then "&#39;"
    else [c]
  }

  function Escape(text: string): string {
    if text == "" then "" else EscapeChar(text[0]) + Escape(text[1..])
  }

  lemma {:induction false} EscapeConcat(a: string, b: string)
    ensures Escape(a + b) == Escape(a) + Escape(b)
  {
    if a == "" {
      assert a + b == b;
    } else {
      assert (a + b)[1..] == a[1..] + b && (a + b)[0] == a[0];
      EscapeConcat(a[1..], b);
      Associative(EscapeChar(a[0]), Escape(a[1..]), Escape(b));
    }
  }

  lemma {:induction false} Associative(x: string, y: string, z: string)
    ensures (x + y) + z == x + (y + z)
  {
  }

  // Escaped text holds no markup of its own.
  lemma {:induction false} EscapeIsClean(text: string)
    ensures forall c :: c in Escape(text) ==> c != '<' && c != '>' && c != '"' && c != '\''
  {
    if text != "" {
      EscapeIsClean(text[1..]);
    }
  }

  // ---- What a browser shows ----

  function After(html: string, c: char): (rest: string)
    ensures |rest| <= |html|
    ensures html != "" ==> |rest| < |html|
  {
    if html == "" then ""
    else if html[0] == c then html[1..]
    else After(html[1..], c)
  }

  // Tags are skipped, the five entities are decoded, everything else is shown.
  function Visible(html: string): string
    decreases |html|
  {
    if html == "" then ""
    else if html[0] == '<' then Visible(After(html, '>'))
    else if html[0] != '&' then [html[0]] + Visible(html[1..])
    else if "&amp;" <= html then "&" + Visible(html[5..])
    else if "&lt;" <= html then "<" + Visible(html[4..])
    else if "&gt;" <= html then ">" + Visible(html[4..])
    else if "&quot;" <= html then "\"" + Visible(html[6..])
    else if "&#39;" <= html then "'" + Visible(html[5..])
    else "&" + Visible(html[1..])
  }

  lemma {:induction false} CharIsShown(c: char, rest: string)
    ensures Visible(EscapeChar(c) + rest) == [c] + Visible(rest)
  {
    var html := EscapeChar(c) + rest;
    assert html[|EscapeChar(c)|..] == rest;
    assert EscapeChar(c) <= html;
    if c == '&' || c == '<' || c == '>' || c == '"' || c == '\'' {
      assert html[1] == EscapeChar(c)[1] && html[2] == EscapeChar(c)[2];
    }
  }

  lemma {:induction false} EscapedIsShown(text: string, rest: string)
    ensures Visible(Escape(text) + rest) == text + Visible(rest)
  {
    hide Visible, EscapeChar;
    if text == "" {
      assert Escape(text) + rest == rest;
    } else {
      Associative(EscapeChar(text[0]), Escape(text[1..]), rest);
      CharIsShown(text[0], Escape(text[1..]) + rest);
      EscapedIsShown(text[1..], rest);
      assert text == [text[0]] + text[1..];
    }
  }

  lemma {:induction false} TagIsSkipped(inside: string, rest: string)
    requires '>' !in inside
    ensures Visible("<" + inside + ">" + rest) == Visible(rest)
  {
    var html := "<" + inside + ">" + rest;
    assert html[0] == '<';
    assert html[1..] == inside + ">" + rest;
    AfterTag(inside, rest);
  }

  lemma {:induction false} AfterTag(inside: string, rest: string)
    requires '>' !in inside
    ensures After(inside + ">" + rest, '>') == rest
  {
    var html := inside + ">" + rest;
    if inside == "" {
      assert html[0] == '>' && html[1..] == rest;
    } else {
      assert inside[0] in inside;
      assert html[0] == inside[0] && html[1..] == inside[1..] + ">" + rest;
      AfterTag(inside[1..], rest);
    }
  }

  // ---- What the scan finds ----

  datatype Piece = Piece(kind: Option<nat>, text: string)

  // Position by position: an unmatched character is plain, a match without a group or
  // without a character is plain too, and an empty match still costs one character.
  function Scan(matcher: Matcher, text: string, index: nat): seq<Piece>
    requires index <= |text|
    decreases |text| - index
  {
    if index == |text| then []
    else
      match matcher(text, index)
      case None => [Piece(None, [text[index]])] + Scan(matcher, text, index + 1)
      case Some(Match(length, kind)) =>
        if index + length > |text| then []
        else if length == 0 then [Piece(None, "")] + Scan(matcher, text, index + 1)
        else [Piece(kind, text[index..index + length])] + Scan(matcher, text, index + length)
  }

  function OpenTag(class_: string): string {
    "span class=\"" + class_ + "\""
  }

  function RenderPiece(classes: seq<string>, p: Piece): string {
    if p.kind.Some? && p.kind.value < |classes| then
      "<" + OpenTag(classes[p.kind.value]) + ">" + Escape(p.text) + ("<" + "/span" + ">")
    else Escape(p.text)
  }

  // A coloured piece is a span of its group's class around the escaped text, a plain one the
  // escaped text alone.
  lemma {:induction false} SpanMeans(classes: seq<string>, kind: nat, text: string)
    requires kind < |classes|
    ensures RenderPiece(classes, Piece(Some(kind), text)) ==
            "<span class=\"" + classes[kind] + "\">" + Escape(text) + "</span>"
    ensures RenderPiece(classes, Piece(None, text)) == Escape(text)
  {
    var name, inside := classes[kind], Escape(text);
    assert "<" + ("span class=\"" + name + "\"") + ">" == "<span class=\"" + name + "\">";
    assert "<" + "/span" + ">" == "</span>";
  }

  function Render(classes: seq<string>, pieces: seq<Piece>): string {
    if pieces == [] then "" else RenderPiece(classes, pieces[0]) + Render(classes, pieces[1..])
  }

  function TextOf(pieces: seq<Piece>): string {
    if pieces == [] then "" else pieces[0].text + TextOf(pieces[1..])
  }

  // The class names of the rule sets are plain words.
  predicate PlainNames(classes: seq<string>) {
    forall k :: 0 <= k < |classes| ==> '<' !in classes[k] && '>' !in classes[k]
  }

  lemma {:induction false} PieceIsShown(classes: seq<string>, p: Piece, rest: string)
    requires PlainNames(classes)
    ensures Visible(RenderPiece(classes, p) + rest) == p.text + Visible(rest)
  {
    hide Visible, Escape;
    if p.kind.Some? && p.kind.value < |classes| {
      var name := OpenTag(classes[p.kind.value]);
      var close := "<" + "/span" + ">" + rest;
      TagIsSkipped("/span", rest);
      EscapedIsShown(p.text, close);
      TagIsSkipped(name, Escape(p.text) + close);
      assert RenderPiece(classes, p) + rest == "<" + name + ">" + (Escape(p.text) + close);
    } else {
      EscapedIsShown(p.text, rest);
    }
  }

  // What the browser shows is the text of the pieces.
  lemma {:induction false} PiecesAreShown(classes: seq<string>, pieces: seq<Piece>)
    requires PlainNames(classes)
    ensures Visible(Render(classes, pieces)) == TextOf(pieces)
  {
    hide Visible;
    if pieces == [] {
      NothingShown();
    } else {
      PieceIsShown(classes, pieces[0], Render(classes, pieces[1..]));
      PiecesAreShown(classes, pieces[1..]);
    }
  }

  lemma {:induction false} NothingShown()
    ensures Visible("") == ""
  {
  }

  // ---- The tags ----

  function CountOf(c: char, html: string): nat {
    if html == "" then 0 else (if html[0] == c then 1 else 0) + CountOf(c, html[1..])
  }

  function Coloured(classes: seq<string>, pieces: seq<Piece>): nat {
    if pieces == [] then 0
    else (if pieces[0].kind.Some? && pieces[0].kind.value < |classes| then 1 else 0) + Coloured(classes, pieces[1..])
  }

  lemma {:induction false} CountConcat(c: char, a: string, b: string)
    ensures CountOf(c, a + b) == CountOf(c, a) + CountOf(c, b)
  {
    if a == "" {
      assert a + b == b;
    } else {
      assert (a + b)[1..] == a[1..] + b && (a + b)[0] == a[0];
      CountConcat(c, a[1..], b);
    }
  }

  lemma {:induction false} CountAbsent(c: char, text: string)
    requires c !in text
    ensures CountOf(c, text) == 0
  {
    if text != "" {
      assert text[0] in text && forall x :: x in text[1..] ==> x in text;
      CountAbsent(c, text[1..]);
    }
  }

  lemma {:induction false} TagBrackets(inside: string)
    requires '<' !in inside && '>' !in inside
    ensures CountOf('<', "<" + inside + ">") == 1 && CountOf('>', "<" + inside + ">") == 1
  {
    CountAbsent('<', inside);
    CountAbsent('>', inside);
    CountConcat('<', "<", inside);
    CountConcat('<', "<" + inside, ">");
    CountConcat('>', "<", inside);
    CountConcat('>', "<" + inside, ">");
    assert "<"[1..] == "" && ">"[1..] == "";
  }

  lemma {:induction false} PieceBrackets(classes: seq<string>, p: Piece, c: char)
    requires PlainNames(classes) && (c == '<' || c == '>')
    ensures CountOf(c, RenderPiece(classes, p)) == if p.kind.Some? && p.kind.value < |classes| then 2 else 0
  {
    hide CountOf, Escape;
    EscapeIsClean(p.text);
    CountAbsent(c, Escape(p.text));
    if p.kind.Some? && p.kind.value < |classes| {
      var open, close := "<" + OpenTag(classes[p.kind.value]) + ">", "<" + "/span" + ">";
      TagBrackets(OpenTag(classes[p.kind.value]));
      TagBrackets("/span");
      CountConcat(c, open, Escape(p.text));
      CountConcat(c, open + Escape(p.text), close);
    }
  }

  // The raw angle brackets of the output are those of its spans, two of each for a
  // coloured piece: whatever the text holds, it adds none.
  lemma {:induction false} BracketsAreSpans(classes: seq<string>, pieces: seq<Piece>, c: char)
    requires PlainNames(classes) && (c == '<' || c == '>')
    ensures CountOf(c, Render(classes, pieces)) == 2 * Coloured(classes, pieces)
  {
    hide CountOf, RenderPiece;
    if pieces == [] {
      CountAbsent(c, "");
    } else {
      PieceBrackets(classes, pieces[0], c);
      BracketsAreSpans(classes, pieces[1..], c);
      CountConcat(c, RenderPiece(classes, pieces[0]), Render(classes, pieces[1..]));
    }
  }

  // ---- What gets lost ----

  // How many characters the scan loses to empty matches.
  function Lost(matcher: Matcher, text: string, index: nat): nat
    requires index <= |text|
    decreases |text| - index
  {
    if index == |text| then 0
    else
      match matcher(text, index)
      case None => Lost(matcher, text, index + 1)
      case Some(Match(length, _)) =>
        if index + length > |text| then |text| - index
        else if length == 0 then 1 + Lost(matcher, text, index + 1)
        else Lost(matcher, text, index + length)
  }

  lemma {:induction false} TextOfFirst(p: Piece, rest: seq<Piece>)
    ensures TextOf([p] + rest) == p.text + TextOf(rest)
  {
    assert ([p] + rest)[1..] == rest;
  }

  // The next piece: the text up to where the scan goes on, or nothing for an empty match.
  lemma {:induction false} NextPiece(matcher: Matcher, text: string, index: nat) returns (p: Piece, next: nat)
    requires index < |text|
    requires var m := matcher(text, index); m.Some? ==> index + m.value.length <= |text|
    ensures index < next <= |text| && (p.text == text[index..next] || (p.text == "" && next == index + 1))
    ensures Scan(matcher, text, index) == [p] + Scan(matcher, text, next)
    ensures Lost(matcher, text, index) == next - index - |p.text| + Lost(matcher, text, next)
    ensures match matcher(text, index)
            case None => p == Piece(None, [text[index]])
            case Some(m) => m.length > 0 ==> p == Piece(m.kind, text[index..index + m.length])
  {
    match matcher(text, index) {
      case None =>
        p, next := Piece(None, [text[index]]), index + 1;
      case Some(Match(length, kind)) =>
        if length == 0 {
          p, next := Piece(None, ""), index + 1;
        } else {
          p, next := Piece(kind, text[index..index + length]), index + length;
        }
    }
  }

  lemma {:induction false} ScanLength(matcher: Matcher, text: string, index: nat)
    requires index <= |text|
    ensures |TextOf(Scan(matcher, text, index))| + Lost(matcher, text, index) == |text| - index
    ensures Lost(matcher, text, index) == 0 ==> TextOf(Scan(matcher, text, index)) == text[index..]
    decreases |text| - index
  {
    if index < |text| {
      var m := matcher(text, index);
      if m.None? || index + m.value.length <= |text| {
        var p, next := NextPiece(matcher, text, index);
        ScanLength(matcher, text, next);
        hide TextOf, Scan, Lost;
        TextOfFirst(p, Scan(matcher, text, next));
        assert text[index..] == text[index..next] + text[next..];
      }
    }
  }

  // Where no text is lost, piece by piece: the text before a piece says where the matcher was
  // asked for it, and the piece is what the matcher answered there, with its group.
  lemma {:induction false} PiecesFollowMatcher(matcher: Matcher, text: string, index: nat, k: nat)
    requires index <= |text| && Lost(matcher, text, index) == 0 && k < |Scan(matcher, text, index)|
    ensures var pieces := Scan(matcher, text, index);
            var at, p := index + |TextOf(pieces[..k])|, pieces[k];
            && at < |text|
            && match matcher(text, at)
               case None => p == Piece(None, [text[at]])
               case Some(m) => m.length > 0 && at + m.length <= |text| && p == Piece(m.kind, text[at..at + m.length])
    decreases |text| - index
  {
    hide Scan, Lost, TextOf;
    LosesNothingHere(matcher, text, index);
    var p, next := NextPiece(matcher, text, index);
    var pieces, rest := Scan(matcher, text, index), Scan(matcher, text, next);
    if k > 0 {
      PiecesFollowMatcher(matcher, text, next, k - 1);
      assert pieces[..k] == [p] + rest[..k - 1] && pieces[k] == rest[k - 1];
      TextOfFirst(p, rest[..k - 1]);
    } else {
      assert pieces[..0] == [];
      NoText();
    }
  }

  lemma {:induction false} NoText()
    ensures TextOf([]) == ""
  {
  }

  lemma {:induction false} LosesNothingHere(matcher: Matcher, text: string, index: nat)
    requires index <= |text| && Lost(matcher, text, index) == 0 && Scan(matcher, text, index) != []
    ensures index < |text|
    ensures var m := matcher(text, index); m.Some? ==> m.value.length > 0 && index + m.value.length <= |text|
  {
  }

  // The promise that the output shows exactly the input's characters holds exactly when
  // the scan meets no empty match.
  lemma {:induction false} ShowsTheTextIff(matcher: Matcher, text: string, classes: seq<string>)
    requires PlainNames(classes)
    ensures Visible(Render(classes, Scan(matcher, text, 0))) == text <==> Lost(matcher, text, 0) == 0
  {
    PiecesAreShown(classes, Scan(matcher, text, 0));
    ScanLength(matcher, text, 0);
    assert text[0..] == text;
  }

  lemma {:induction false} NeverEmptyLosesNothing(matcher: Matcher, text: string, classes: seq<string>, index: nat)
    requires Fits(matcher, text, classes) && index <= |text|
    requires forall i: nat :: i < |text| && matcher(text, i).Some? ==> matcher(text, i).value.length > 0
    ensures Lost(matcher, text, index) == 0
    decreases |text| - index
  {
    if index < |text| {
      match matcher(text, index) {
        case None => NeverEmptyLosesNothing(matcher, text, classes, index + 1);
        case Some(Match(length, _)) => NeverEmptyLosesNothing(matcher, text, classes, index + length);
      }
    }
  }

  // ---- The loop ----

  // What the page holds when the span output, the waiting plain text and the rest of the
  // pieces are put together.
  function Page(classes: seq<string>, out: string, plain: string, pieces: seq<Piece>): string {
    out + Escape(plain) + Render(classes, pieces)
  }

  // A plain piece waits with the plain text before it.
  lemma {:induction false} Waits(classes: seq<string>, out: string, plain: string, p: Piece, rest: seq<Piece>)
    requires p.kind.None?
    ensures Page(classes, out, plain + p.text, rest) == Page(classes, out, plain, [p] + rest)
  {
    assert ([p] + rest)[1..] == rest;
    EscapeConcat(plain, p.text);
    Associative(out, Escape(plain), Escape(p.text));
    Associative(out + Escape(plain), Escape(p.text), Render(classes, rest));
  }

  // A coloured piece is written behind the plain text before it.
  lemma {:induction false} Flushed(classes: seq<string>, out: string, plain: string, p: Piece, rest: seq<Piece>)
    ensures Page(classes, out + Escape(plain) + RenderPiece(classes, p), "", rest) ==
            Page(classes, out, plain, [p] + rest)
  {
    hide RenderPiece;
    assert ([p] + rest)[1..] == rest;
    Associative(out + Escape(plain), RenderPiece(classes, p), Render(classes, rest));
    var written := out + Escape(plain) + RenderPiece(classes, p);
    assert written + Escape("") == written;
  }

  lemma {:induction false} Finished(classes: seq<string>, out: string, plain: string)
    ensures Page(classes, out, plain, []) == out + Escape(plain)
    ensures out + Escape("") == out
  {
  }

  lemma {:induction false} StartsEmpty(classes: seq<string>, pieces: seq<Piece>)
    ensures Page(classes, "", "", pieces) == Render(classes, pieces)
  {
    hide Render;
    assert "" + Escape("") == "";
  }

  lemma {:induction false} ScanStep(matcher: Matcher, text: string, classes: seq<string>, index: nat)
    requires Fits(matcher, text, classes) && index < |text|
    ensures var m := matcher(text, index);
            Scan(matcher, text, index) ==
            if m.None? then [Piece(None, [text[index]])] + Scan(matcher, text, index + 1)
            else if m.value.length == 0 then [Piece(None, "")] + Scan(matcher, text, index + 1)
            else [Piece(m.value.kind, text[index..index + m.value.length])] +
                 Scan(matcher, text, index + m.value.length)
  {
  }

  lemma {:induction false} SpanOf(classes: seq<string>, kind: nat, text: string)
    requires kind < |classes|
    ensures RenderPiece(classes, Piece(Some(kind), text)) ==
            "<" + OpenTag(classes[kind]) + ">" + Escape(text) + ("<" + "/span" + ">")
  {
  }

  // Plain characters pile up and are escaped together, in front of the next span.
  method HighlightCode(text: string, classes: Option<seq<string>>, matcher: Matcher) returns (html: Option<string>)
    requires classes.Some? ==> Fits(matcher, text, classes.value)
    ensures html.None? <==> text == "" || classes.None?
    ensures html.Some? ==> html.value == Render(classes.value, Scan(matcher, text, 0))
    ensures html.Some? && PlainNames(classes.value) ==>
              && (Visible(html.value) == text <==> Lost(matcher, text, 0) == 0)
              && CountOf('<', html.value) == CountOf('>', html.value)
              && CountOf('<', html.value) == 2 * Coloured(classes.value, Scan(matcher, text, 0))
  {
    hide Escape, Render, RenderPiece, Page, OpenTag, Scan, Visible, Lost, CountOf, Coloured, PlainNames;
    if text == "" || classes.None? {
      return None;
    }
    var names := classes.value;
    var out, plain, index := "", "", 0;
    StartsEmpty(names, Scan(matcher, text, 0));
    while index < |text|
      invariant index <= |text|
      invariant Page(names, out, plain, Scan(matcher, text, index)) == Render(names, Scan(matcher, text, 0))
      decreases |text| - index
    {
      ScanStep(matcher, text, names, index);
      match matcher(text, index) {
        case None =>
          Waits(names, out, plain, Piece(None, [text[index]]), Scan(matcher, text, index + 1));
          plain := plain + [text[index]];
          index := index + 1;
        case Some(Match(length, kind)) =>
          assert index + length <= |text|;
          var found := text[index..index + length];
          if kind.None? || length == 0 {
            assert kind.None? ==> kind == None;
            assert length == 0 ==> found == "";
            var next := if length > 1 then index + length else index + 1;
            Waits(names, out, plain, Piece(None, found), Scan(matcher, text, next));
            plain := plain + found;
            index := next;
          } else {
            Flushed(names, out, plain, Piece(kind, found), Scan(matcher, text, index + length));
            SpanOf(names, kind.value, found);
            assert kind == Some(kind.value);
            Finished(names, out, plain);
            if plain != "" {
              out := out + Escape(plain);
              plain := "";
            }
            out := out + ("<" + OpenTag(names[kind.value]) + ">" + Escape(found) + ("<" + "/span" + ">"));
            index := index + length;
          }
      }
    }
    Finished(names, out, plain);
    assert Scan(matcher, text, index) == [] by {
      NothingLeft(matcher, text);
    }
    if plain != "" {
      out := out + Escape(plain);
    }
    html := Some(out);
    if PlainNames(names) {
      ShowsTheTextIff(matcher, text, names);
      BracketsAreSpans(names, Scan(matcher, text, 0), '<');
      BracketsAreSpans(names, Scan(matcher, text, 0), '>');
    }
  }

  lemma {:induction false} NothingLeft(matcher: Matcher, text: string)
    ensures Scan(matcher, text, |text|) == []
  {
  }
}
