// How ontrak-genie/src/diff.ts turns a file's text into lines.

module Lines {
  // JavaScript's text.split("\n"): one more piece than there are newlines.
  function Split(text: string): (lines: seq<string>)
    ensures |lines| >= 1
  {
    if text == "" then [""]
    else
      var rest := Split(text[1..]);
      if text[0] == '\n' then [""] + rest else [[text[0]] + rest[0]] + rest[1..]
  }

  function Join(lines: seq<string>): string {
    if lines == [] then ""
    else if |lines| == 1 then lines[0]
    else lines[0] + "\n" + Join(lines[1..])
  }

  // Split, then drop the phantom empty entry a trailing newline produces.
  function ToLines(text: string): seq<string> {
    if text == "" then []
    else
      var lines := Split(text);
      if lines[|lines| - 1] == "" then lines[..|lines| - 1] else lines
  }

  predicate EndsInNewline(text: string) {
    text != "" && text[|text| - 1] == '\n'
  }

  // The one difference the line view cannot see.
  predicate SameButFinalNewline(s: string, t: string) {
    || s == t
    || (s != "" && !EndsInNewline(s) && t == s + "\n")
    || (t != "" && !EndsInNewline(t) && s == t + "\n")
  }

  // Prefixing the first line by a character prefixes the text by it.
  lemma {:induction false} JoinFirst(c: char, lines: seq<string>)
    requires lines != []
    ensures Join([[c] + lines[0]] + lines[1..]) == [c] + Join(lines)
  {
    var longer := [[c] + lines[0]] + lines[1..];
    assert longer[1..] == lines[1..];
    if |lines| > 1 {
      assert [c] + (lines[0] + "\n" + Join(lines[1..])) == ([c] + lines[0]) + "\n" + Join(lines[1..]);
    }
  }

  lemma {:induction false} JoinEmptyFirst(lines: seq<string>)
    requires lines != []
    ensures Join([""] + lines) == "\n" + Join(lines)
  {
    assert ([""] + lines)[1..] == lines;
  }

  lemma {:induction false} JoinSplit(text: string)
    ensures Join(Split(text)) == text
  {
    if text != "" {
      var rest := Split(text[1..]);
      JoinSplit(text[1..]);
      assert Split(text) == if text[0] == '\n' then [""] + rest else [[text[0]] + rest[0]] + rest[1..];
      hide Join, Split;
      assert text == [text[0]] + text[1..];
      if text[0] == '\n' {
        JoinEmptyFirst(rest);
      } else {
        JoinFirst(text[0], rest);
      }
    }
  }

  lemma {:induction false} SplitNewline()
    ensures Split("\n") == ["", ""]
  {
    assert "\n"[1..] == "";
  }

  lemma {:induction false} SplitFirst(c: char, rest: string)
    ensures var lines := Split(rest);
            Split([c] + rest) == if c == '\n' then [""] + lines else [[c] + lines[0]] + lines[1..]
  {
    assert ([c] + rest)[1..] == rest;
  }

  lemma {:induction false} SplitFinalNewline(text: string)
    ensures Split(text + "\n") == Split(text) + [""]
  {
    hide Split;
    SplitNewline();
    if text == "" {
      SplitNothing();
      assert text + "\n" == "\n";
    } else {
      var rest := Split(text[1..]);
      SplitFinalNewline(text[1..]);
      SplitFirst(text[0], text[1..]);
      SplitFirst(text[0], text[1..] + "\n");
      assert text == [text[0]] + text[1..] && text + "\n" == [text[0]] + (text[1..] + "\n");
      assert (rest + [""])[1..] == rest[1..] + [""];
    }
  }

  lemma {:induction false} SplitNothing()
    ensures Split("") == [""]
  {
  }

  lemma {:induction false} SplitLastEmpty(text: string)
    ensures var lines := Split(text);
            lines[|lines| - 1] == "" <==> text == "" || EndsInNewline(text)
  {
    if text != "" {
      SplitLastEmpty(text[1..]);
      if |text| > 1 {
        assert text[1..][|text| - 2] == text[|text| - 1];
      }
    }
  }

  // The text without one final newline: what the lines are the lines of.
  function Core(text: string): string {
    if EndsInNewline(text) then text[..|text| - 1] else text
  }

  lemma {:induction false} ToLinesOfCore(text: string)
    requires text != ""
    ensures ToLines(text) == Split(Core(text))
  {
    SplitLastEmpty(text);
    hide Split;
    if EndsInNewline(text) {
      var core := Core(text);
      assert text == core + "\n";
      SplitFinalNewline(core);
      assert (Split(core) + [""])[..|Split(core)|] == Split(core);
    }
  }

  lemma {:induction false} SplitIntoLines(text: string)
    ensures forall k :: 0 <= k < |Split(text)| ==> '\n' !in Split(text)[k]
  {
    if text != "" {
      SplitIntoLines(text[1..]);
      var rest := Split(text[1..]);
      assert text[0] == '\n' ==> Split(text)[0] == "";
    }
  }

  // The empty text has no lines. Any other text has lines without a newline in them, which
  // joined are the text but for one final newline.
  lemma {:induction false} ToLinesMeans(text: string)
    ensures ToLines("") == []
    ensures forall k :: 0 <= k < |ToLines(text)| ==> '\n' !in ToLines(text)[k]
    ensures text != "" ==>
              && ToLines(text) != []
              && Join(ToLines(text)) == if EndsInNewline(text) then text[..|text| - 1] else text
  {
    if text != "" {
      ToLinesOfCore(text);
      JoinSplit(Core(text));
      SplitIntoLines(Core(text));
    }
  }

  // Two texts have the same lines exactly when they differ by at most a final newline on
  // a non-empty text that does not already end in one.
  lemma {:induction false} ToLinesIdentifies(s: string, t: string)
    ensures ToLines(s) == ToLines(t) <==> SameButFinalNewline(s, t)
  {
    if s != "" && t != "" {
      ToLinesOfCore(s);
      ToLinesOfCore(t);
      JoinSplit(Core(s));
      JoinSplit(Core(t));
      SameCore(s, t);
    } else {
      if s != "" { ToLinesOfCore(s); }
      if t != "" { ToLinesOfCore(t); }
    }
  }

  lemma {:induction false} CoreOfLine(s: string)
    ensures Core(s + "\n") == s
  {
    assert (s + "\n")[..|s|] == s;
  }

  lemma {:induction false} SameCore(s: string, t: string)
    requires s != "" && t != ""
    ensures Core(s) == Core(t) <==> SameButFinalNewline(s, t)
  {
    CoreOfLine(s);
    CoreOfLine(t);
    if EndsInNewline(s) {
      assert s == Core(s) + "\n";
    }
    if EndsInNewline(t) {
      assert t == Core(t) + "\n";
    }
  }
}
