// The visual inspector of ontrak-bolt/public/inspector-script.js: one selected element, an
// undo history whose records can be filtered out of its middle, and edits in place.

module Inspector {
  import opened Wrappers

  // An inline declaration; an absent property has no value and no priority.
  datatype Decl = Decl(value: string, priority: string)

  type Style = map<string, Decl>

  const TRACKED: set<string> := {
    "color", "background-color", "font-size", "font-weight", "text-align", "padding", "margin", "border-radius",
    "width", "height"
  }

  function Lookup(style: Style, property: string): Option<Decl> {
    if property in style then Some(style[property]) else None
  }

  function Put(style: Style, property: string, decl: Option<Decl>): Style {
    match decl
    case None => style - {property}
    case Some(d) => style[property := d]
  }

  class Element {
    var style: Style
    var html: string
    var connected: bool
  }

  datatype Edit =
    | StyleEdit(element: Element, property: string, previous: Option<Decl>)
    | TextEdit(element: Element, previousHtml: string)

  predicate Touches(e: Edit, property: string) {
    e.StyleEdit? && e.property == property
  }

  // What a property goes back to when the whole history is undone, `now` being its value.
  function Base(history: seq<Edit>, property: string, now: Option<Decl>): Option<Decl> {
    if history == [] then now
    else if Touches(history[0], property) then history[0].previous
    else Base(history[1..], property, now)
  }

  function TextBase(history: seq<Edit>, now: string): string {
    if history == [] then now
    else if history[0].TextEdit? then history[0].previousHtml
    else TextBase(history[1..], now)
  }

  // Keep the records that do not touch the property, or that are not about text.
  function WithoutStyle(history: seq<Edit>, property: string): seq<Edit> {
    if history == [] then []
    else (if Touches(history[0], property) then [] else [history[0]]) + WithoutStyle(history[1..], property)
  }

  function WithoutText(history: seq<Edit>): seq<Edit> {
    if history == [] then []
    else (if history[0].TextEdit? then [] else [history[0]]) + WithoutText(history[1..])
  }

  // ---- What the operations on the history do to the bases ----

  lemma {:induction false} BaseAppend(history: seq<Edit>, e: Edit, property: string, now: Option<Decl>)
    ensures Base(history + [e], property, now) ==
            Base(history, property, if Touches(e, property) then e.previous else now)
  {
    if history == [] {
      assert [] + [e] == [e];
    } else {
      assert (history + [e])[1..] == history[1..] + [e];
      BaseAppend(history[1..], e, property, now);
    }
  }

  lemma {:induction false} TextBaseAppend(history: seq<Edit>, e: Edit, now: string)
    ensures TextBase(history + [e], now) == TextBase(history, if e.TextEdit? then e.previousHtml else now)
  {
    if history == [] {
      assert [] + [e] == [e];
    } else {
      assert (history + [e])[1..] == history[1..] + [e];
      TextBaseAppend(history[1..], e, now);
    }
  }

  lemma {:induction false} WithoutStyleBases(history: seq<Edit>, property: string, other: string, now: Option<Decl>,
                                             html: string)
    ensures Base(WithoutStyle(history, property), other, now) ==
            if other == property then now else Base(history, other, now)
    ensures TextBase(WithoutStyle(history, property), html) == TextBase(history, html)
    ensures forall e :: e in WithoutStyle(history, property) ==> e in history
  {
    if history != [] {
      WithoutStyleBases(history[1..], property, other, now, html);
      var rest := WithoutStyle(history[1..], property);
      assert ([history[0]] + rest)[1..] == rest && [] + rest == rest;
    }
  }

  lemma {:induction false} WithoutTextBases(history: seq<Edit>, other: string, now: Option<Decl>, html: string)
    ensures Base(WithoutText(history), other, now) == Base(history, other, now)
    ensures TextBase(WithoutText(history), html) == html
    ensures forall e :: e in WithoutText(history) ==> e in history
  {
    if history != [] {
      WithoutTextBases(history[1..], other, now, html);
      var rest := WithoutText(history[1..]);
      assert ([history[0]] + rest)[1..] == rest && [] + rest == rest;
    }
  }

  // `from` lists where the records of `kept` stand in the history, in order, and every
  // record of the history that is to stay is listed.
  ghost predicate Filters(history: seq<Edit>, kept: seq<Edit>, from: seq<nat>, stays: Edit -> bool) {
    && |from| == |kept|
    && (forall k :: 0 <= k < |from| ==> from[k] < |history| && history[from[k]] == kept[k] && stays(kept[k]))
    && (forall j, k :: 0 <= j < k < |from| ==> from[j] < from[k])
    && (forall i :: 0 <= i < |history| && stays(history[i]) ==> i in from)
  }

  lemma {:induction false} FiltersStep(front: seq<Edit>, last: Edit, kept: seq<Edit>, from: seq<nat>,
                                       stays: Edit -> bool)
    requires Filters(front, kept, from, stays)
    ensures if stays(last) then Filters(front + [last], kept + [last], from + [|front|], stays)
            else Filters(front + [last], kept, from, stays)
  {
    var history := front + [last];
    assert forall i :: 0 <= i < |front| ==> history[i] == front[i];
    assert forall i :: i in from ==> i in from + [|front|];
    assert (from + [|front|])[|from|] == |front|;
  }

  lemma {:induction false} WithoutFirst(e: Edit, rest: seq<Edit>, property: string)
    ensures WithoutStyle([e] + rest, property) ==
            (if Touches(e, property) then [] else [e]) + WithoutStyle(rest, property)
    ensures WithoutText([e] + rest) == (if e.TextEdit? then [] else [e]) + WithoutText(rest)
  {
    assert ([e] + rest)[1..] == rest;
  }

  lemma {:induction false} WithoutNone(property: string)
    ensures WithoutStyle([], property) == [] && WithoutText([]) == []
  {
  }

  lemma {:induction false} WithoutStyleAppend(history: seq<Edit>, e: Edit, property: string)
    ensures WithoutStyle(history + [e], property) ==
            WithoutStyle(history, property) + if Touches(e, property) then [] else [e]
  {
    hide *;
    if history == [] {
      WithoutNone(property);
      WithoutFirst(e, [], property);
      assert history + [e] == [e] + [];
    } else {
      WithoutStyleAppend(history[1..], e, property);
      WithoutFirst(history[0], history[1..] + [e], property);
      WithoutFirst(history[0], history[1..], property);
      assert history == [history[0]] + history[1..] && history + [e] == [history[0]] + (history[1..] + [e]);
    }
  }

  lemma {:induction false} WithoutTextAppend(history: seq<Edit>, e: Edit)
    ensures WithoutText(history + [e]) == WithoutText(history) + if e.TextEdit? then [] else [e]
  {
    hide *;
    if history == [] {
      WithoutNone("");
      WithoutFirst(e, [], "");
      assert history + [e] == [e] + [];
    } else {
      WithoutTextAppend(history[1..], e);
      WithoutFirst(history[0], history[1..] + [e], "");
      WithoutFirst(history[0], history[1..], "");
      assert history == [history[0]] + history[1..] && history + [e] == [history[0]] + (history[1..] + [e]);
    }
  }

  // Exactly the property's records go, and the others keep their order.
  lemma {:induction false} WithoutStyleFilters(history: seq<Edit>, property: string) returns (from: seq<nat>)
    ensures Filters(history, WithoutStyle(history, property), from, e => !Touches(e, property))
  {
    from := [];
    if history != [] {
      var n := |history| - 1;
      from := WithoutStyleFilters(history[..n], property);
      assert history == history[..n] + [history[n]];
      WithoutStyleAppend(history[..n], history[n], property);
      FiltersStep(history[..n], history[n], WithoutStyle(history[..n], property), from, e => !Touches(e, property));
      hide WithoutStyle, Filters;
      if !Touches(history[n], property) {
        from := from + [n];
      }
    }
  }

  // Exactly the text records go.
  lemma {:induction false} WithoutTextFilters(history: seq<Edit>) returns (from: seq<nat>)
    ensures Filters(history, WithoutText(history), from, (e: Edit) => !e.TextEdit?)
  {
    from := [];
    if history != [] {
      var n := |history| - 1;
      from := WithoutTextFilters(history[..n]);
      assert history == history[..n] + [history[n]];
      WithoutTextAppend(history[..n], history[n]);
      FiltersStep(history[..n], history[n], WithoutText(history[..n]), from, (e: Edit) => !e.TextEdit?);
      hide WithoutText, Filters;
      if !history[n].TextEdit? {
        from := from + [n];
      }
    }
  }

  // Taking the last record back leaves every base as it was.
  lemma {:induction false} PopKeeps(front: seq<Edit>, e: Edit, style: Style, html: string)
    ensures var style' := if e.StyleEdit? then Put(style, e.property, e.previous) else style;
            var html' := if e.TextEdit? then e.previousHtml else html;
            && (forall p :: Base(front, p, Lookup(style', p)) == Base(front + [e], p, Lookup(style, p)))
            && TextBase(front, html') == TextBase(front + [e], html)
  {
    TextBaseAppend(front, e, html);
    forall p
      ensures Base(front + [e], p, Lookup(style, p)) ==
              Base(front, p, if Touches(e, p) then e.previous else Lookup(style, p))
    {
      BaseAppend(front, e, p, Lookup(style, p));
    }
  }

  // An edit that changes one property only leaves every base as it was; filtering out the
  // property's records makes its present value the base.
  lemma {:induction false} EditKeeps(was: seq<Edit>, e: Edit, property: string, style: Style, style': Style,
                                     html: string)
    requires e.StyleEdit? && e.property == property && e.previous == Lookup(style, property)
    requires forall p :: p != property ==> Lookup(style', p) == Lookup(style, p)
    ensures forall p :: Base(was + [e], p, Lookup(style', p)) == Base(was, p, Lookup(style, p))
    ensures forall p :: Base(WithoutStyle(was + [e], property), p, Lookup(style', p)) ==
                        if p == property then Lookup(style', p) else Base(was, p, Lookup(style, p))
    ensures TextBase(was + [e], html) == TextBase(was, html) == TextBase(WithoutStyle(was + [e], property), html)
    ensures forall x :: x in WithoutStyle(was + [e], property) ==> x in was + [e]
  {
    TextBaseAppend(was, e, html);
    WithoutStyleBases(was + [e], property, property, Lookup(style', property), html);
    forall p
      ensures Base(was + [e], p, Lookup(style', p)) == Base(was, p, Lookup(style, p))
      ensures Base(WithoutStyle(was + [e], property), p, Lookup(style', p)) ==
              if p == property then Lookup(style', p) else Base(was, p, Lookup(style, p))
    {
      BaseAppend(was, e, p, Lookup(style', p));
      WithoutStyleBases(was + [e], property, p, Lookup(style', p), html);
    }
  }

  lemma {:induction false} NothingToUndo(style: Style, html: string)
    ensures (forall p :: Base([], p, Lookup(style, p)) == Lookup(style, p)) && TextBase([], html) == html
  {
  }

  // An element's state: its inline style and its inner HTML.
  datatype Snapshot = Snapshot(style: Style, html: string)

  // The same ten properties and the same content.
  ghost predicate Alike(a: Snapshot, b: Snapshot) {
    a.html == b.html && forall p :: p in TRACKED ==> Lookup(a.style, p) == Lookup(b.style, p)
  }

  // What the browser makes of a value: nothing if it does not parse, else its own spelling
  // of it, which is empty for a removal. A text's HTML is what assigning textContent leaves.
  datatype Browser = Browser(parse: (string, string) -> Option<string>, htmlOf: string -> string)

  function SetProperty(browser: Browser, style: Style, property: string, value: string): Style {
    match browser.parse(property, value)
    case None => style
    case Some("") => style - {property}
    case Some(v) => style[property := Decl(v, "")]
  }

  // Whatever the browser makes of a value, putting the old declaration back undoes it.
  lemma {:induction false} SetAndPut(browser: Browser, style: Style, property: string, value: string)
    ensures Put(SetProperty(browser, style, property, value), property, Lookup(style, property)) == style
  {
  }

  class Inspector {
    const browser: Browser
    const page: set<Element>
    var active: bool
    var selected: Element?
    var history: seq<Edit>
    var originalStyles: Style
    var originalHtml: string
    ghost var atLoad: map<Element, Snapshot>

    ghost function Now(e: Element): Snapshot
      reads e
    {
      Snapshot(e.style, e.html)
    }

    // What the selected element goes back to.
    ghost function BaseNow(property: string): Option<Decl>
      requires selected != null
      reads this, selected
    {
      Base(history, property, Lookup(selected.style, property))
    }

    ghost predicate OthersAsLoaded()
      requires atLoad.Keys == page
      reads this, page
    {
      forall e :: e in page && e != selected ==> Alike(Now(e), atLoad[e])
    }

    ghost predicate SelectedGoesBack()
      requires selected != null && selected in atLoad
      reads this, selected
    {
      && (forall p :: p in TRACKED ==> BaseNow(p) == Lookup(atLoad[selected].style, p))
      && TextBase(history, selected.html) == atLoad[selected].html
    }

    // Nothing but the selected element differs from the page as it was loaded; that element
    // goes back to it by undoing; every record belongs to it; and the snapshots taken when
    // it was selected agree.
    ghost predicate Valid()
      reads this, page
    {
      && atLoad.Keys == page && OthersAsLoaded()
      && (selected == null ==> history == [])
      && (selected != null ==>
            && selected in page && SelectedGoesBack()
            && (forall e :: e in history ==> e.element == selected)
            && (forall p :: p in TRACKED ==> Lookup(originalStyles, p) == Lookup(atLoad[selected].style, p))
            && (forall p :: p !in TRACKED ==> Lookup(originalStyles, p) == None)
            && originalHtml == atLoad[selected].html)
    }

    // The selected element, if any, is no longer in the document: no message does anything.
    ghost predicate Detached()
      reads this, selected
    {
      selected == null || !selected.connected
    }

    // Such an element with edits pending: they can neither be taken back nor left behind.
    ghost predicate Locked()
      reads this, selected
    {
      selected != null && !selected.connected && history != []
    }

    constructor (browser: Browser, page: set<Element>)
      ensures Valid() && this.page == page && this.browser == browser && selected == null
      ensures forall e :: e in page ==> e in atLoad && atLoad[e] == Now(e)
    {
      this.browser, this.page := browser, page;
      active, selected, history, originalStyles, originalHtml := false, null, [], map[], "";
      atLoad := map e | e in page :: Snapshot(e.style, e.html);
    }

    // A click selects an element, unless another one has edits pending.
    method Click(target: Element, root: bool) returns (pending: bool)
      requires Valid() && target in page
      modifies this`selected, this`history, this`originalStyles, this`originalHtml
      ensures Valid()
      ensures !active || root ==> selected == old(selected) && history == old(history) && !pending
      ensures active && !root ==>
                && (pending <==> old(selected) != null && old(selected) != target && old(history) != [])
                && selected == (if pending then old(selected) else target)
                && history == (if old(selected) == target || pending then old(history) else [])
    {
      pending := false;
      if !active || root {
        return;
      }
      if selected != null && selected != target && |history| > 0 {
        return true;
      }
      if selected == target {
        return;
      }
      NothingEdited();
      Select(target);
    }

    // With no edit pending the whole page is as it was loaded.
    lemma {:induction false} NothingEdited()
      requires Valid() && (selected == null || history == [])
      ensures forall e :: e in page ==> Alike(Now(e), atLoad[e])
    {
    }

    method Select(target: Element)
      requires target in page && atLoad.Keys == page && forall e :: e in page ==> Alike(Now(e), atLoad[e])
      modifies this`selected, this`history, this`originalStyles, this`originalHtml
      ensures Valid() && selected == target && history == []
    {
      hide TRACKED, Base, TextBase;
      selected := target;
      history := [];
      originalStyles := map p | p in TRACKED && p in target.style :: target.style[p];
      originalHtml := target.html;
      NothingToUndo(target.style, target.html);
      assert Alike(Now(target), atLoad[target]);
    }

    // Restoring writes back what was read from the same property, which the browser takes.
    method RestoreEdit(e: Edit)
      modifies e.element
      ensures e.element.connected == old(e.element.connected)
      ensures !e.element.connected ==> Now(e.element) == old(Now(e.element))
      ensures e.element.connected ==>
                && e.element.style == (if e.StyleEdit? then Put(old(e.element.style), e.property, e.previous)
                                       else old(e.element.style))
                && e.element.html == (if e.TextEdit? then e.previousHtml else old(e.element.html))
    {
      if !e.element.connected {
        return;
      }
      match e {
        case StyleEdit(element, property, previous) =>
          element.style := Put(element.style, property, previous);
        case TextEdit(element, previousHtml) =>
          element.html := previousHtml;
      }
    }

    // Every property and the text keep what they go back to, except that a property declared
    // back at its original goes back to what was recorded for it: nothing, if it is not tracked.
    method EditStyle(property: string, value: string, isOriginal: bool)
      requires Valid()
      modifies this`history, selected
      ensures Valid() && selected == old(selected)
      ensures old(Detached()) ==>
                Detached() && history == old(history) && (selected != null ==> Now(selected) == old(Now(selected)))
      ensures selected != null && old(selected.connected) ==>
                && (forall p :: BaseNow(p) ==
                                if isOriginal && p == property then Lookup(originalStyles, p) else old(BaseNow(p)))
                && (isOriginal ==> Lookup(selected.style, property) == Lookup(originalStyles, property))
                && (!isOriginal ==> selected.style == SetProperty(browser, old(selected.style), property, value))
                && selected.html == old(selected.html)
      ensures selected != null && old(selected.connected) ==>
                && selected.connected
                && (!isOriginal ==>
                      history == old(history) + [StyleEdit(selected, property, old(Lookup(selected.style, property)))])
                && (isOriginal ==>
                      && history == WithoutStyle(old(history), property)
                      && selected.style == Put(old(selected.style), property, Lookup(originalStyles, property)))
    {
      if selected == null || !selected.connected {
        return;
      }
      var e := StyleEdit(selected, property, Lookup(selected.style, property));
      if isOriginal {
        DeclareBack(e);
      } else {
        Declare(e, SetProperty(browser, selected.style, property, value));
      }
    }

    // Record the edit and write the new value.
    method Declare(e: Edit, style: Style)
      requires Valid() && selected != null && e.StyleEdit? && e.element == selected
      requires e.previous == Lookup(selected.style, e.property)
      requires forall p :: p != e.property ==> Lookup(style, p) == Lookup(selected.style, p)
      modifies this`history, selected
      ensures Valid() && selected == old(selected) && selected.style == style && selected.html == old(selected.html)
      ensures history == old(history) + [e] && selected.connected == old(selected.connected)
      ensures forall p :: BaseNow(p) == old(BaseNow(p))
    {
      hide Alike, Base, TextBase, WithoutStyle, Lookup;
      EditKeeps(history, e, e.property, selected.style, style, selected.html);
      history := history + [e];
      selected.style := style;
    }

    // Record the edit, drop every record of the property, and write the recorded original.
    method DeclareBack(e: Edit)
      requires Valid() && selected != null && e.StyleEdit? && e.element == selected
      requires e.previous == Lookup(selected.style, e.property)
      modifies this`history, selected
      ensures Valid() && selected == old(selected) && selected.html == old(selected.html)
      ensures Lookup(selected.style, e.property) == Lookup(originalStyles, e.property)
      ensures selected.style == Put(old(selected.style), e.property, Lookup(originalStyles, e.property))
      ensures history == WithoutStyle(old(history), e.property) && selected.connected == old(selected.connected)
      ensures forall p :: BaseNow(p) == if p == e.property then Lookup(originalStyles, p) else old(BaseNow(p))
    {
      hide Alike, Base, TextBase, WithoutStyle;
      var style := Put(selected.style, e.property, Lookup(originalStyles, e.property));
      EditKeeps(history, e, e.property, selected.style, style, selected.html);
      WithoutStyleAppend(history, e, e.property);
      history := WithoutStyle(history + [e], e.property);
      selected.style := style;
    }

    method EditText(value: string, isOriginal: bool)
      requires Valid()
      modifies this`history, selected
      ensures Valid() && selected == old(selected)
      ensures old(Detached()) ==>
                Detached() && history == old(history) && (selected != null ==> Now(selected) == old(Now(selected)))
      ensures selected != null && old(selected.connected) ==>
                && (forall p :: BaseNow(p) == old(BaseNow(p))) && selected.style == old(selected.style)
                && selected.html == (if isOriginal then originalHtml else browser.htmlOf(value))
                && selected.connected
                && (isOriginal ==> history == WithoutText(old(history)))
                && (!isOriginal ==> history == old(history) + [TextEdit(selected, old(selected.html))])
    {
      if selected == null || !selected.connected {
        return;
      }
      ghost var was, html := history, selected.html;
      var e := TextEdit(selected, selected.html);
      history := history + [e];
      if isOriginal {
        history := WithoutText(history);
        selected.html := originalHtml;
      } else {
        selected.html := browser.htmlOf(value);
      }
      WithoutTextAppend(was, e);
      WithoutTextBases(was + [e], "", None, selected.html);
      forall p
        ensures BaseNow(p) == Base(was, p, Lookup(selected.style, p))
        ensures TextBase(history, selected.html) == if isOriginal then originalHtml else TextBase(was, html)
      {
        BaseAppend(was, e, p, Lookup(selected.style, p));
        TextBaseAppend(was, e, selected.html);
        WithoutTextBases(was + [e], p, Lookup(selected.style, p), selected.html);
      }
    }

    // Undo takes back the last edit; with none to take back it throws.
    method Undo() returns (threw: bool)
      requires Valid()
      modifies this`history, selected
      ensures Valid() && selected == old(selected)
      ensures old(Detached()) ==>
                Detached() && history == old(history) && (selected != null ==> Now(selected) == old(Now(selected)))
      ensures old(Detached()) ==> !threw
      ensures selected != null && old(selected.connected) ==>
                && selected.connected && (threw <==> old(history) == [])
                && (!threw ==> history == old(history)[..|old(history)| - 1])
                && (threw ==> history == [] && Now(selected) == old(Now(selected)))
                && (!threw ==>
                      var e := old(history)[|old(history)| - 1];
                      && selected.style == (if e.StyleEdit? then Put(old(selected.style), e.property, e.previous)
                                            else old(selected.style))
                      && selected.html == (if e.TextEdit? then e.previousHtml else old(selected.html)))
                && (forall p :: BaseNow(p) == old(BaseNow(p)))
                && TextBase(history, selected.html) == old(TextBase(history, selected.html))
    {
      if selected == null || !selected.connected {
        return false;
      }
      if history == [] {
        return true;
      }
      hide Alike, Base, TextBase, Lookup, Put, TRACKED;
      var e := history[|history| - 1];
      assert history == history[..|history| - 1] + [e];
      PopKeeps(history[..|history| - 1], e, selected.style, selected.html);
      history := history[..|history| - 1];
      RestoreEdit(e);
      threw := false;
    }

    // An edit and an undo leave the element and the history exactly as they were.
    method EditAndUndo(property: string, value: string)
      requires Valid() && selected != null && selected.connected
      modifies this`history, selected
      ensures Valid() && selected == old(selected) && history == old(history) && Now(selected) == old(Now(selected))
    {
      hide Base, TextBase, Lookup, Put, SetProperty, TRACKED;
      EditStyle(property, value, false);
      SetAndPut(browser, old(selected.style), property, value);
      assert (old(history) + [StyleEdit(selected, property, old(Lookup(selected.style, property)))])[..|old(history)|]
             == old(history);
      var threw := Undo();
    }

    method TypeAndUndo(value: string)
      requires Valid() && selected != null && selected.connected
      modifies this`history, selected
      ensures Valid() && selected == old(selected) && history == old(history) && Now(selected) == old(Now(selected))
    {
      hide Base, TextBase, Lookup, Put, TRACKED;
      EditText(value, false);
      assert (old(history) + [TextEdit(selected, old(selected.html))])[..|old(history)|] == old(history);
      var threw := Undo();
    }

    // Draining the history puts the selected element back as it was loaded.
    method Reset()
      requires Valid()
      modifies this`history, selected
      ensures Valid() && selected == old(selected)
      ensures old(Detached()) ==>
                Detached() && history == old(history) && (selected != null ==> Now(selected) == old(Now(selected)))
      ensures selected != null && old(selected.connected) ==>
                && history == [] && selected.connected && Alike(Now(selected), atLoad[selected])
                && forall p :: Lookup(selected.style, p) == old(BaseNow(p))
    {
      if selected == null || !selected.connected {
        return;
      }
      while history != []
        invariant Valid() && selected == old(selected) && selected != null && selected.connected
        invariant forall p :: BaseNow(p) == old(BaseNow(p))
        decreases |history|
      {
        var threw := Undo();
      }
    }

    // Deselecting leaves no edit anywhere on the page.
    method Deselect()
      requires Valid()
      modifies this, selected
      ensures Valid()
      ensures old(selected) != null && old(selected.connected) ==>
                selected == null && forall e :: e in page ==> Alike(Now(e), atLoad[e])
      ensures old(Detached()) ==>
                && selected == old(selected) && Detached() && history == old(history)
                && (selected != null ==> Now(selected) == old(Now(selected)))
      ensures atLoad == old(atLoad)
    {
      if selected == null || !selected.connected {
        return;
      }
      hide Alike;
      Reset();
      selected := null;
      originalStyles, originalHtml := map[], "";
    }

    method SetActive(on: bool)
      requires Valid()
      modifies this`active
      ensures Valid() && active == on
    {
      active := on;
    }

    // One click or message.
    method Handle(input: Input)
      requires Valid() && (input.ClickOn? ==> input.target in page)
      modifies this, selected
      ensures Valid()
      ensures old(Locked()) ==>
                && Locked() && selected == old(selected) && history == old(history)
                && Now(selected) == old(Now(selected))
    {
      match input {
        case ClickOn(target, root) =>
          var pending := Click(target, root);
        case Activate(on) => SetActive(on);
        case StyleTo(property, value, isOriginal) => EditStyle(property, value, isOriginal);
        case TextTo(value, isOriginal) => EditText(value, isOriginal);
        case UndoOne =>
          var threw := Undo();
        case ResetAll => Reset();
        case Leave => Deselect();
      }
    }

    // A selected element that has left the document with edits pending locks the inspector:
    // no click and no message, in whatever number and order, selects anything else or takes
    // an edit back.
    method HandleAll(inputs: seq<Input>)
      requires Valid() && Locked() && forall i :: 0 <= i < |inputs| && inputs[i].ClickOn? ==> inputs[i].target in page
      modifies this, selected
      ensures Valid() && Locked() && selected == old(selected) && history == old(history)
      ensures Now(selected) == old(Now(selected))
    {
      for i := 0 to |inputs|
        invariant Valid() && Locked() && selected == old(selected) && history == old(history)
        invariant Now(selected) == old(Now(selected))
      {
        Handle(inputs[i]);
      }
    }

    // The selection can move on exactly when it is not locked: a reset and a click do it.
    method MoveOn(target: Element)
      requires Valid() && target in page && active
      modifies this`selected, this`history, this`originalStyles, this`originalHtml, selected
      ensures Valid()
      ensures selected == target <==> !old(Locked()) || old(selected) == target
    {
      Reset();
      var pending := Click(target, false);
    }
  }

  datatype Input =
    | ClickOn(target: Element, root: bool)
    | Activate(on: bool)
    | StyleTo(property: string, value: string, isOriginal: bool)
    | TextTo(value: string, isOriginal: bool)
    | UndoOne
    | ResetAll
    | Leave
}
