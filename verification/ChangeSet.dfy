// The change set of ontrak-genie/src/change-set.ts and the two operations of
// ontrak-genie/src/proposals.ts that use it: staging a proposal and applying the set.
module ChangeSet {

  datatype EntryKind = Create | Overwrite | Edit

  datatype Entry = Entry(path: string, kind: EntryKind, content: string, added: nat, removed: nat)

  // ---- Staging ----

  function FindIndex(entries: seq<Entry>, path: string): (i: nat)
    ensures i <= |entries|
  {
    if entries == [] then 0
    else if entries[0].path == path then 0
    else 1 + FindIndex(entries[1..], path)
  }

  function AddEntry(entries: seq<Entry>, entry: Entry): seq<Entry> {
    var index := FindIndex(entries, entry.path);
    if index == |entries| then entries + [entry] else entries[index := entry]
  }

  // The set after a turn's proposals.
  function Staged(proposals: seq<Entry>): seq<Entry> {
    if proposals == [] then []
    else AddEntry(Staged(proposals[..|proposals| - 1]), proposals[|proposals| - 1])
  }

  predicate Mentions(entries: seq<Entry>, path: string) {
    exists i :: 0 <= i < |entries| && entries[i].path == path
  }

  predicate OnePerPath(entries: seq<Entry>) {
    forall i, j :: 0 <= i < j < |entries| ==> entries[i].path != entries[j].path
  }

  lemma {:induction false} FindIndexFinds(entries: seq<Entry>, path: string)
    ensures var i := FindIndex(entries, path);
            if i < |entries| then entries[i].path == path else !Mentions(entries, path)
    ensures forall k :: 0 <= k < FindIndex(entries, path) ==> entries[k].path != path
  {
    if entries != [] && entries[0].path != path {
      FindIndexFinds(entries[1..], path);
      forall k | 0 <= k < FindIndex(entries, path) ensures entries[k].path != path {
        if k > 0 {
          assert entries[k] == entries[1..][k - 1];
        }
      }
      if FindIndex(entries, path) == |entries| {
        forall k | 0 <= k < |entries| ensures entries[k].path != path {
        }
      }
    }
  }

  // Where a path is proposed first, and what is proposed for it last.
  function FirstAt(proposals: seq<Entry>, path: string): nat {
    FindIndex(proposals, path)
  }

  function LastContent(proposals: seq<Entry>, path: string): Entry
    requires Mentions(proposals, path)
  {
    var last := proposals[|proposals| - 1];
    if last.path == path then last else
      assert Mentions(proposals[..|proposals| - 1], path) by {
        var i :| 0 <= i < |proposals| && proposals[i].path == path;
        assert proposals[..|proposals| - 1][i] == proposals[i];
      }
      LastContent(proposals[..|proposals| - 1], path)
  }

  lemma {:induction false} LastContentIsLast(proposals: seq<Entry>, path: string, i: nat)
    requires i < |proposals| && proposals[i].path == path
    requires forall k :: i < k < |proposals| ==> proposals[k].path != path
    ensures Mentions(proposals, path) && LastContent(proposals, path) == proposals[i]
  {
    assert proposals[i].path == path;
    if i < |proposals| - 1 {
      LastContentIsLast(proposals[..|proposals| - 1], path, i);
    }
  }

  // A longer list of proposals leaves the place of a path's first proposal alone.
  lemma {:induction false} FirstAtGrows(before: seq<Entry>, entry: Entry, path: string)
    ensures FirstAt(before, path) < |before| ==> FirstAt(before + [entry], path) == FirstAt(before, path)
    ensures FirstAt(before, path) == |before| && entry.path == path ==> FirstAt(before + [entry], path) == |before|
  {
    if before == [] {
      assert before + [entry] == [entry];
    } else {
      assert (before + [entry])[1..] == before[1..] + [entry];
      FirstAtGrows(before[1..], entry, path);
    }
  }

  // The set stands for the proposals: it names the same paths, each once, in the order in
  // which they were first proposed, and each with what was proposed for it last.
  ghost predicate StandsFor(entries: seq<Entry>, proposals: seq<Entry>) {
    && OnePerPath(entries)
    && (forall path :: Mentions(entries, path) <==> Mentions(proposals, path))
    && (forall i :: 0 <= i < |entries| ==>
          Mentions(proposals, entries[i].path) && entries[i] == LastContent(proposals, entries[i].path))
    && (forall i, j :: 0 <= i < j < |entries| ==>
          FirstAt(proposals, entries[i].path) < FirstAt(proposals, entries[j].path))
  }

  lemma {:induction false} MentionsGrows(before: seq<Entry>, entry: Entry, path: string)
    ensures Mentions(before + [entry], path) <==> Mentions(before, path) || entry.path == path
    ensures path != entry.path && Mentions(before, path) ==>
            LastContent(before + [entry], path) == LastContent(before, path)
    ensures path == entry.path ==> Mentions(before + [entry], path) && LastContent(before + [entry], path) == entry
  {
    var all := before + [entry];
    assert all[..|all| - 1] == before && all[|before|] == entry;
    if Mentions(before, path) {
      var i :| 0 <= i < |before| && before[i].path == path;
      assert all[i].path == path;
    }
    if Mentions(all, path) && entry.path != path {
      var i :| 0 <= i < |all| && all[i].path == path;
      assert before[i].path == path;
    }
  }

  lemma {:induction false} FirstAtOrder(before: seq<Entry>, path: string)
    ensures Mentions(before, path) <==> FirstAt(before, path) < |before|
  {
    FindIndexFinds(before, path);
  }

  lemma {:induction false} AddMentions(entries: seq<Entry>, entry: Entry, path: string)
    ensures Mentions(AddEntry(entries, entry), path) <==> Mentions(entries, path) || entry.path == path
  {
    var index := FindIndex(entries, entry.path);
    FindIndexFinds(entries, entry.path);
    var next := AddEntry(entries, entry);
    if Mentions(entries, path) {
      var i :| 0 <= i < |entries| && entries[i].path == path;
      assert next[i].path == path;
    }
    if entry.path == path {
      assert next[index].path == path;
    }
    if Mentions(next, path) && entry.path != path {
      var i :| 0 <= i < |next| && next[i].path == path;
      assert entries[i].path == path;
    }
  }

  lemma {:induction false} Mentioned(entries: seq<Entry>, i: nat)
    requires i < |entries|
    ensures Mentions(entries, entries[i].path)
  {
  }

  // Where an entry's path stands in the set, before and after one more proposal.
  lemma {:induction false} AddAt(entries: seq<Entry>, entry: Entry)
    ensures var index, next := FindIndex(entries, entry.path), AddEntry(entries, entry);
            && next[..index] == entries[..index]
            && |next| == (if index < |entries| then |entries| else |entries| + 1)
            && next[index] == entry
            && (forall i :: 0 <= i < |entries| ==> next[i].path == entries[i].path)
            && (forall i :: 0 <= i < |entries| && i != index ==> next[i] == entries[i])
            && (forall i :: 0 <= i < |entries| && i != index && OnePerPath(entries) ==> entries[i].path != entry.path)
            && (index == |entries| <==> !Mentions(entries, entry.path))
  {
    FindIndexFinds(entries, entry.path);
    var index := FindIndex(entries, entry.path);
    if index < |entries| {
      Mentioned(entries, index);
    }
  }

  lemma {:induction false} AddLatest(entries: seq<Entry>, before: seq<Entry>, entry: Entry, i: nat)
    requires StandsFor(entries, before) && i < |AddEntry(entries, entry)|
    ensures var next, all := AddEntry(entries, entry), before + [entry];
            Mentions(all, next[i].path) && next[i] == LastContent(all, next[i].path)
  {
    AddAt(entries, entry);
    var path := AddEntry(entries, entry)[i].path;
    hide AddEntry, Mentions, LastContent, FirstAt;
    MentionsGrows(before, entry, path);
  }

  lemma {:induction false} AddFirst(entries: seq<Entry>, before: seq<Entry>, entry: Entry, i: nat)
    requires StandsFor(entries, before) && i < |AddEntry(entries, entry)|
    ensures var next, all := AddEntry(entries, entry), before + [entry];
            FirstAt(all, next[i].path) ==
            if i < |entries| then FirstAt(before, entries[i].path) else |before|
    ensures i < |entries| ==> FirstAt(before, entries[i].path) < |before|
  {
    AddAt(entries, entry);
    var path := AddEntry(entries, entry)[i].path;
    hide AddEntry, Mentions, LastContent, FirstAt;
    FirstAtGrows(before, entry, path);
    FirstAtOrder(before, path);
    FirstAtLimit(before, path);
  }

  lemma {:induction false} FirstAtLimit(before: seq<Entry>, path: string)
    ensures FirstAt(before, path) <= |before|
  {
  }

  // One more proposal keeps the correspondence.
  lemma {:induction false} AddKeeps(entries: seq<Entry>, before: seq<Entry>, entry: Entry)
    requires StandsFor(entries, before)
    ensures StandsFor(AddEntry(entries, entry), before + [entry])
  {
    hide AddEntry, FirstAt, LastContent, Mentions;
    var next, all := AddEntry(entries, entry), before + [entry];
    AddAt(entries, entry);
    forall path ensures Mentions(next, path) <==> Mentions(all, path) {
      AddMentions(entries, entry, path);
      MentionsGrows(before, entry, path);
    }
    forall i | 0 <= i < |next|
      ensures Mentions(all, next[i].path) && next[i] == LastContent(all, next[i].path) {
      AddLatest(entries, before, entry, i);
    }
    forall i, j | 0 <= i < j < |next|
      ensures next[i].path != next[j].path && FirstAt(all, next[i].path) < FirstAt(all, next[j].path) {
      AddFirst(entries, before, entry, i);
      AddFirst(entries, before, entry, j);
    }
  }

  lemma {:induction false} StagedStandsFor(proposals: seq<Entry>)
    ensures StandsFor(Staged(proposals), proposals)
  {
    if proposals != [] {
      var before, last := proposals[..|proposals| - 1], proposals[|proposals| - 1];
      StagedStandsFor(before);
      AddKeeps(Staged(before), before, last);
      assert before + [last] == proposals;
    }
  }

  // ---- Writing ----

  type Files = map<string, string>

  // Writing entries one after the other.
  function Write(files: Files, entries: seq<Entry>): Files
  {
    if entries == [] then files
    else
      var last := entries[|entries| - 1];
      Write(files, entries[..|entries| - 1])[last.path := last.content]
  }

  lemma {:induction false} WriteConcat(files: Files, a: seq<Entry>, b: seq<Entry>)
    ensures Write(files, a + b) == Write(Write(files, a), b)
  {
    if b == [] {
      assert a + b == a;
    } else {
      assert (a + b)[..|a + b| - 1] == a + b[..|b| - 1] && (a + b)[|a + b| - 1] == b[|b| - 1];
      WriteConcat(files, a, b[..|b| - 1]);
    }
  }

  // A written path holds the content written last, every other path is as it was.
  lemma {:induction false} WriteMeans(files: Files, entries: seq<Entry>, path: string)
    ensures path in Write(files, entries) <==> path in files || Mentions(entries, path)
    ensures Mentions(entries, path) ==> Write(files, entries)[path] == LastContent(entries, path).content
    ensures path in files && !Mentions(entries, path) ==> Write(files, entries)[path] == files[path]
  {
    if entries != [] {
      var before, last := entries[..|entries| - 1], entries[|entries| - 1];
      WriteMeans(files, before, path);
      MentionsGrows(before, last, path);
      assert before + [last] == entries;
    }
  }

  // Two lists that mention the same paths with the same last content write the same files.
  lemma {:induction false} SameWrite(files: Files, a: seq<Entry>, b: seq<Entry>)
    requires forall path :: Mentions(a, path) <==> Mentions(b, path)
    requires forall path :: Mentions(a, path) && Mentions(b, path) ==>
                              LastContent(a, path).content == LastContent(b, path).content
    ensures Write(files, a) == Write(files, b)
  {
    hide Mentions, LastContent, Write;
    forall path
      ensures path in Write(files, a) <==> path in Write(files, b)
      ensures path in Write(files, a) && path in Write(files, b) ==> Write(files, a)[path] == Write(files, b)[path] {
      WriteMeans(files, a, path);
      WriteMeans(files, b, path);
    }
  }

  // An entry that alone mentions its path is the last one for it.
  lemma {:induction false} OnlyIsLast(entries: seq<Entry>, entry: Entry)
    requires OnePerPath(entries) && entry in entries
    ensures Mentions(entries, entry.path) && LastContent(entries, entry.path) == entry
  {
    var i :| 0 <= i < |entries| && entries[i] == entry;
    LastContentIsLast(entries, entry.path, i);
  }

  // The set writes what the proposals would have written, one by one.
  lemma {:induction false} StagedWritesTheSame(files: Files, proposals: seq<Entry>)
    ensures Write(files, Staged(proposals)) == Write(files, proposals)
  {
    var entries := Staged(proposals);
    StagedStandsFor(proposals);
    hide Staged;
    forall path | Mentions(entries, path) && Mentions(proposals, path)
      ensures LastContent(entries, path) == LastContent(proposals, path) {
      var i :| 0 <= i < |entries| && entries[i].path == path;
      OnlyIsLast(entries, entries[i]);
    }
    SameWrite(files, entries, proposals);
  }

  // ---- The order of application ----

  type Order = (string, string) -> bool

  ghost predicate TotalPreorder(le: Order) {
    && (forall a, b :: le(a, b) || le(b, a))
    && (forall a, b, c :: le(a, b) && le(b, c) ==> le(a, c))
  }

  // Behind every entry that does not come after it.
  function Insert(le: Order, entries: seq<Entry>, entry: Entry): seq<Entry> {
    if entries == [] then [entry]
    else
      var last := entries[|entries| - 1];
      if le(last.path, entry.path) then entries + [entry]
      else Insert(le, entries[..|entries| - 1], entry) + [last]
  }

  function SortForApply(le: Order, entries: seq<Entry>): seq<Entry> {
    if entries == [] then []
    else Insert(le, SortForApply(le, entries[..|entries| - 1]), entries[|entries| - 1])
  }

  predicate InOrder(le: Order, entries: seq<Entry>) {
    forall i, j :: 0 <= i < j < |entries| ==> le(entries[i].path, entries[j].path)
  }

  lemma {:induction false} InsertKeeps(le: Order, entries: seq<Entry>, entry: Entry)
    ensures multiset(Insert(le, entries, entry)) == multiset(entries) + multiset{entry}
  {
    if entries != [] {
      var before, last := entries[..|entries| - 1], entries[|entries| - 1];
      assert entries == before + [last];
      if !le(last.path, entry.path) {
        InsertKeeps(le, before, entry);
      }
    }
  }

  lemma {:induction false} InsertOrders(le: Order, entries: seq<Entry>, entry: Entry)
    requires TotalPreorder(le) && InOrder(le, entries)
    ensures InOrder(le, Insert(le, entries, entry))
  {
    if entries != [] {
      var before, last := entries[..|entries| - 1], entries[|entries| - 1];
      if le(last.path, entry.path) {
        forall i | 0 <= i < |entries| ensures le(entries[i].path, entry.path) {
        }
      } else {
        InsertOrders(le, before, entry);
        InsertKeeps(le, before, entry);
        var inner := Insert(le, before, entry);
        forall i | 0 <= i < |inner| ensures le(inner[i].path, last.path) {
          assert inner[i] in multiset(inner);
          assert inner[i] == entry || inner[i] in before;
        }
      }
    }
  }

  lemma {:induction false} SortStep(le: Order, before: seq<Entry>, last: Entry)
    ensures SortForApply(le, []) == []
    ensures SortForApply(le, before + [last]) == Insert(le, SortForApply(le, before), last)
  {
    assert (before + [last])[..|before|] == before;
  }

  lemma {:induction false} SortKeeps(le: Order, entries: seq<Entry>)
    ensures multiset(SortForApply(le, entries)) == multiset(entries)
  {
    hide *;
    if entries == [] {
      SortStep(le, [], Entry("", Create, "", 0, 0));
    } else {
      var before, last := entries[..|entries| - 1], entries[|entries| - 1];
      assert entries == before + [last];
      SortStep(le, before, last);
      SortKeeps(le, before);
      InsertKeeps(le, SortForApply(le, before), last);
    }
  }

  lemma {:induction false} SortOrders(le: Order, entries: seq<Entry>)
    requires TotalPreorder(le)
    ensures InOrder(le, SortForApply(le, entries))
  {
    if entries != [] {
      SortOrders(le, entries[..|entries| - 1]);
      InsertOrders(le, SortForApply(le, entries[..|entries| - 1]), entries[|entries| - 1]);
    }
  }

  function IfAlike(le: Order, e: Entry, path: string): seq<Entry> {
    if le(e.path, path) && le(path, e.path) then [e] else []
  }

  // The entries whose path the order does not tell apart from this one.
  function Alike(le: Order, entries: seq<Entry>, path: string): seq<Entry> {
    if entries == [] then []
    else Alike(le, entries[..|entries| - 1], path) + IfAlike(le, entries[|entries| - 1], path)
  }

  lemma {:induction false} AlikeLast(le: Order, before: seq<Entry>, last: Entry, path: string)
    ensures Alike(le, before + [last], path) == Alike(le, before, path) + IfAlike(le, last, path)
  {
    assert (before + [last])[..|before|] == before;
  }

  // Two entries that are told apart are not both like a third.
  lemma {:induction false} NotBothAlike(le: Order, x: Entry, y: Entry, path: string)
    requires TotalPreorder(le) && !le(x.path, y.path)
    ensures IfAlike(le, x, path) == [] || IfAlike(le, y, path) == []
  {
    assert le(x.path, path) && le(path, y.path) ==> le(x.path, y.path);
  }

  lemma {:induction false} Commute(front: seq<Entry>, x: seq<Entry>, y: seq<Entry>)
    requires x == [] || y == []
    ensures front + x + y == front + y + x
  {
  }

  lemma {:induction false} InsertStep(le: Order, before: seq<Entry>, last: Entry, entry: Entry)
    ensures Insert(le, before + [last], entry) ==
            if le(last.path, entry.path) then before + [last] + [entry] else Insert(le, before, entry) + [last]
  {
    assert (before + [last])[..|before|] == before;
  }

  lemma {:induction false} InsertIsStable(le: Order, entries: seq<Entry>, entry: Entry, path: string)
    requires TotalPreorder(le)
    ensures Alike(le, Insert(le, entries, entry), path) == Alike(le, entries + [entry], path)
  {
    if entries != [] {
      var before, last := entries[..|entries| - 1], entries[|entries| - 1];
      assert before + [last] == entries;
      hide *;
      InsertStep(le, before, last, entry);
      if !le(last.path, entry.path) {
        InsertIsStable(le, before, entry, path);
        AlikeLast(le, Insert(le, before, entry), last, path);
        AlikeLast(le, before, entry, path);
        AlikeLast(le, before, last, path);
        AlikeLast(le, entries, entry, path);
        NotBothAlike(le, last, entry, path);
        Commute(Alike(le, before, path), IfAlike(le, entry, path), IfAlike(le, last, path));
      }
    }
  }

  // Entries the order does not tell apart are applied in the order of the set.
  lemma {:induction false} SortIsStable(le: Order, entries: seq<Entry>, path: string)
    requires TotalPreorder(le)
    ensures Alike(le, SortForApply(le, entries), path) == Alike(le, entries, path)
  {
    if entries != [] {
      var before, last := entries[..|entries| - 1], entries[|entries| - 1];
      assert before + [last] == entries;
      SortIsStable(le, before, path);
      InsertIsStable(le, SortForApply(le, before), last, path);
      hide Insert, Alike;
      AlikeLast(le, SortForApply(le, before), last, path);
      AlikeLast(le, before, last, path);
    }
  }

  // Sorting a set changes no path and no content.
  lemma {:induction false} SortWritesTheSame(le: Order, files: Files, entries: seq<Entry>)
    requires OnePerPath(entries)
    ensures OnePerPath(SortForApply(le, entries))
    ensures Write(files, SortForApply(le, entries)) == Write(files, entries)
  {
    var sorted := SortForApply(le, entries);
    SortKeeps(le, entries);
    hide SortForApply;
    assert forall e :: e in sorted <==> e in entries by {
      forall e ensures e in sorted <==> e in entries {
        assert e in multiset(sorted) <==> e in multiset(entries);
      }
    }
    SortedOnePerPath(entries, sorted);
    forall path ensures Mentions(sorted, path) <==> Mentions(entries, path) {
      SameMention(sorted, entries, path);
    }
    forall path | Mentions(sorted, path) && Mentions(entries, path)
      ensures LastContent(sorted, path) == LastContent(entries, path) {
      var i :| 0 <= i < |sorted| && sorted[i].path == path;
      OnlyIsLast(sorted, sorted[i]);
      OnlyIsLast(entries, sorted[i]);
    }
    SameWrite(files, sorted, entries);
  }

  lemma {:induction false} SameMention(a: seq<Entry>, b: seq<Entry>, path: string)
    requires forall e :: e in a <==> e in b
    ensures Mentions(a, path) <==> Mentions(b, path)
  {
    if Mentions(a, path) {
      var i :| 0 <= i < |a| && a[i].path == path;
      assert a[i] in b;
    }
    if Mentions(b, path) {
      var i :| 0 <= i < |b| && b[i].path == path;
      assert b[i] in a;
    }
  }

  lemma {:induction false} SortedOnePerPath(a: seq<Entry>, b: seq<Entry>)
    requires OnePerPath(a) && multiset(a) == multiset(b)
    ensures OnePerPath(b)
  {
    forall i, j | 0 <= i < j < |b| ensures b[i].path != b[j].path {
      if b[i].path == b[j].path {
        assert b[i] in multiset(b) && b[j] in multiset(b);
        assert b[i] in a && b[j] in a;
        assert b[i] == b[j];
        Twice(b, i, j);
        Once(a, b[i]);
      }
    }
  }

  lemma {:induction false} Twice(s: seq<Entry>, i: nat, j: nat)
    requires i < j < |s| && s[i] == s[j]
    ensures multiset(s)[s[i]] >= 2
  {
    assert s == s[..j] + s[j..];
    assert s[i] in s[..j] && s[..j][i] == s[i];
    assert s[j] in s[j..] && s[j..][0] == s[j];
    assert multiset(s) == multiset(s[..j]) + multiset(s[j..]);
  }

  lemma {:induction false} Once(s: seq<Entry>, e: Entry)
    requires OnePerPath(s)
    ensures multiset(s)[e] <= 1
  {
    if s != [] {
      var before, last := s[..|s| - 1], s[|s| - 1];
      assert s == before + [last];
      Once(before, e);
    }
  }

  // Applying the sorted set is writing every proposal in the order it was made.
  lemma {:induction false} ApplyIsReplay(le: Order, files: Files, proposals: seq<Entry>)
    ensures Write(files, SortForApply(le, Staged(proposals))) == Write(files, proposals)
  {
    StagedStandsFor(proposals);
    SortWritesTheSame(le, files, Staged(proposals));
    StagedWritesTheSame(files, proposals);
  }

  // A run after one that stopped partway ends where one whole run would have.
  lemma {:induction false} RetryCompletes(files: Files, entries: seq<Entry>, k: nat)
    requires k <= |entries|
    ensures Write(Write(files, entries[..k]), entries) == Write(files, entries)
  {
    var twice := entries[..k] + entries;
    WriteConcat(files, entries[..k], entries);
    hide Write;
    forall path
      ensures Mentions(twice, path) <==> Mentions(entries, path)
      ensures Mentions(entries, path) && Mentions(twice, path) ==>
                LastContent(twice, path) == LastContent(entries, path) {
      LatterDecides(entries[..k], entries, path);
      if Mentions(entries[..k], path) {
        var i :| 0 <= i < k && entries[..k][i].path == path;
        assert entries[i].path == path;
      }
    }
    SameWrite(files, twice, entries);
  }

  lemma {:induction false} LatterDecides(a: seq<Entry>, b: seq<Entry>, path: string)
    ensures Mentions(a + b, path) <==> Mentions(a, path) || Mentions(b, path)
    ensures Mentions(b, path) && Mentions(a + b, path) ==> LastContent(a + b, path) == LastContent(b, path)
  {
    if b == [] {
      assert a + b == a;
    } else {
      var before, last := b[..|b| - 1], b[|b| - 1];
      LatterDecides(a, before, path);
      MentionsGrows(before, last, path);
      MentionsGrows(a + before, last, path);
      assert before + [last] == b && (a + before) + [last] == a + b;
    }
  }

  // ---- The pending set of one account ----

  function Paths(entries: seq<Entry>): seq<string> {
    seq(|entries|, i requires 0 <= i < |entries| => entries[i].path)
  }

  // What may reach the account's set while a write is awaited.
  datatype Meanwhile = Proposed(entry: Entry) | Discarded

  // What stands proposed after these events.
  function Since(proposals: seq<Entry>, events: seq<Meanwhile>): seq<Entry> {
    if events == [] then proposals
    else
      match events[|events| - 1]
      case Proposed(entry) => Since(proposals, events[..|events| - 1]) + [entry]
      case Discarded => []
  }

  lemma {:induction false} SinceConcat(proposals: seq<Entry>, a: seq<Meanwhile>, b: seq<Meanwhile>)
    ensures Since(proposals, a + b) == Since(Since(proposals, a), b)
  {
    if b == [] {
      assert a + b == a;
    } else {
      var n := |b| - 1;
      assert (a + b)[..|a + b| - 1] == a + b[..n] && (a + b)[|a + b| - 1] == b[n];
      SinceConcat(proposals, a, b[..n]);
    }
  }

  // Everything that happened during the first `n` writes.
  function During(events: nat -> seq<Meanwhile>, n: nat): seq<Meanwhile> {
    if n == 0 then [] else During(events, n - 1) + events(n - 1)
  }

  // The later proposals ask for nothing the earlier ones had not asked for.
  ghost predicate AsksNothingNew(proposals: seq<Entry>, late: seq<Entry>) {
    forall path :: Mentions(late, path) ==>
      Mentions(proposals, path) && LastContent(late, path).content == LastContent(proposals, path).content
  }

  // An apply forgets what is proposed while it runs. That does no harm, whatever is on
  // disk, if and only if it was all proposed before, with the same contents.
  lemma {:induction false} LateProposalsLostIff(proposals: seq<Entry>, late: seq<Entry>)
    ensures (forall files: Files :: Write(files, proposals) == Write(files, proposals + late)) <==>
            AsksNothingNew(proposals, late)
  {
    hide Write, AsksNothingNew;
    if AsksNothingNew(proposals, late) {
      forall files: Files ensures Write(files, proposals) == Write(files, proposals + late) {
        NothingNewIsHarmless(files, proposals, late);
      }
    } else {
      SomethingNewShows(proposals, late);
    }
  }

  lemma {:induction false} NothingNewIsHarmless(files: Files, proposals: seq<Entry>, late: seq<Entry>)
    requires AsksNothingNew(proposals, late)
    ensures Write(files, proposals) == Write(files, proposals + late)
  {
    var all := proposals + late;
    hide Write, Mentions, LastContent;
    forall path
      ensures Mentions(all, path) <==> Mentions(proposals, path)
      ensures Mentions(proposals, path) && Mentions(all, path) ==>
                LastContent(all, path).content == LastContent(proposals, path).content
    {
      LatterDecides(proposals, late, path);
      FormerStays(proposals, late, path);
    }
    SameWrite(files, proposals, all);
  }

  // On an empty disk the difference shows.
  lemma {:induction false} SomethingNewShows(proposals: seq<Entry>, late: seq<Entry>)
    requires !AsksNothingNew(proposals, late)
    ensures Write(map[], proposals) != Write(map[], proposals + late)
  {
    hide Write, Mentions, LastContent;
    var path :| Mentions(late, path) &&
      !(Mentions(proposals, path) && LastContent(late, path).content == LastContent(proposals, path).content);
    LatterDecides(proposals, late, path);
    WriteMeans(map[], proposals, path);
    WriteMeans(map[], proposals + late, path);
  }

  lemma {:induction false} FormerStays(a: seq<Entry>, b: seq<Entry>, path: string)
    ensures !Mentions(b, path) && Mentions(a, path) && Mentions(a + b, path) ==>
              LastContent(a + b, path) == LastContent(a, path)
  {
    if b == [] {
      assert a + b == a;
    } else {
      var before, last := b[..|b| - 1], b[|b| - 1];
      FormerStays(a, before, path);
      LatterDecides(a, before, path);
      MentionsGrows(before, last, path);
      MentionsGrows(a + before, last, path);
      assert before + [last] == b && (a + before) + [last] == a + b;
    }
  }

  datatype Outcome = NothingToApply | StoppedAt(path: string) | Applied

  class Workspace {
    var files: Files
    var pending: seq<Entry>
    ghost var proposals: seq<Entry>  // what was proposed since the set was last closed

    ghost predicate Valid()
      reads this
    {
      pending == Staged(proposals)
    }

    constructor (onDisk: Files)
      ensures Valid() && files == onDisk && pending == [] && proposals == []
    {
      files, pending, proposals := onDisk, [], [];
    }

    method Stage(entry: Entry)
      requires Valid()
      modifies this`pending, this`proposals
      ensures Valid()
      ensures proposals == old(proposals) + [entry]
      ensures pending != [] && StandsFor(pending, proposals)
    {
      pending := AddEntry(pending, entry);
      proposals := proposals + [entry];
      assert proposals[..|proposals| - 1] == old(proposals);
      StagedStandsFor(proposals);
      AddAt(old(pending), entry);
    }

    method Discard() returns (dropped: bool)
      requires Valid()
      modifies this`pending, this`proposals
      ensures Valid() && pending == []
      ensures dropped <==> old(proposals) != []
    {
      dropped := pending != [];
      if proposals != [] {
        AddAt(Staged(proposals[..|proposals| - 1]), proposals[|proposals| - 1]);
      }
      pending, proposals := [], [];
    }

    // Proposals and discards that arrive while a write is awaited.
    method Happen(events: seq<Meanwhile>)
      requires Valid()
      modifies this`pending, this`proposals
      ensures Valid() && proposals == Since(old(proposals), events)
    {
      hide Staged;
      for i := 0 to |events|
        invariant Valid() && proposals == Since(old(proposals), events[..i])
      {
        assert events[..i + 1][..i] == events[..i];
        match events[i] {
          case Proposed(entry) => Stage(entry);
          case Discarded =>
            var dropped := Discard();
            DiscardedAll(proposals);
        }
      }
      assert events[..|events|] == events;
    }

    // `fails` says of which position the write fails, if any does; `events` what arrives
    // while each write is awaited. The set that was read at the start is written whatever
    // arrives, and a finished apply closes whatever set is pending by then.
    method Apply(le: Order, fails: nat, events: nat -> seq<Meanwhile>) returns (applied: seq<string>, outcome: Outcome)
      requires Valid() && TotalPreorder(le)
      modifies this
      ensures Valid()
      ensures outcome == NothingToApply <==> old(proposals) == []
      ensures var entries := SortForApply(le, old(pending));
              && InOrder(le, entries)
              && |applied| <= |entries|
              && applied == Paths(entries[..|applied|])
              && files == Write(old(files), entries[..|applied|])
              && (outcome.StoppedAt? ==> |applied| < |entries| && outcome.path == entries[|applied|].path)
              && (outcome == Applied ==> |applied| == |entries|)
      ensures outcome == Applied ==> files == Write(old(files), old(proposals)) && pending == [] && proposals == []
      ensures outcome == NothingToApply ==> pending == old(pending) && proposals == old(proposals)
      ensures outcome.StoppedAt? ==>
                && |applied| == fails
                && proposals == Since(old(proposals), During(events, fails + 1))
                && Write(files, old(proposals)) == Write(old(files), old(proposals))
    {
      hide Write, Paths, SortForApply, InOrder, Staged, TotalPreorder, OnePerPath, Since;
      applied := [];
      StagedSome(proposals);
      Prepared(le, files, proposals);
      NoneWritten(files, SortForApply(le, pending));
      if pending == [] {
        return applied, NothingToApply;
      }
      var entries := SortForApply(le, pending);
      NothingSince(proposals);
      for i := 0 to |entries|
        invariant |applied| == i && applied == Paths(entries[..i])
        invariant files == Write(old(files), entries[..i])
        invariant Valid() && proposals == Since(old(proposals), During(events, i))
        invariant i <= fails
      {
        SinceConcat(old(proposals), During(events, i), events(i));
        Happen(events(i));
        if i == fails {
          StoppedRetries(le, old(files), old(proposals), i);
          return applied, StoppedAt(entries[i].path);
        }
        OneMoreWritten(old(files), entries, i);
        files := files[entries[i].path := entries[i].content];
        applied := applied + [entries[i].path];
      }
      assert entries[..|entries|] == entries;
      StagedSome([]);
      pending, proposals := [], [];
      outcome := Applied;
    }
  }

  lemma {:induction false} DiscardedAll(proposals: seq<Entry>)
    ensures Staged(proposals) == [] ==> proposals == []
  {
    StagedSome(proposals);
  }

  lemma {:induction false} NothingSince(proposals: seq<Entry>)
    ensures Since(proposals, []) == proposals
  {
  }

  lemma {:induction false} StagedSome(proposals: seq<Entry>)
    ensures Staged(proposals) == [] <==> proposals == []
  {
    if proposals != [] {
      AddAt(Staged(proposals[..|proposals| - 1]), proposals[|proposals| - 1]);
    }
  }

  lemma {:induction false} Prepared(le: Order, files: Files, proposals: seq<Entry>)
    requires TotalPreorder(le)
    ensures InOrder(le, SortForApply(le, Staged(proposals)))
    ensures Write(files, SortForApply(le, Staged(proposals))) == Write(files, proposals)
  {
    SortOrders(le, Staged(proposals));
    ApplyIsReplay(le, files, proposals);
  }

  lemma {:induction false} NoneWritten(files: Files, entries: seq<Entry>)
    ensures Write(files, entries[..0]) == files && Paths(entries[..0]) == []
  {
  }

  lemma {:induction false} OneMoreWritten(files: Files, entries: seq<Entry>, i: nat)
    requires i < |entries|
    ensures Write(files, entries[..i + 1]) == Write(files, entries[..i])[entries[i].path := entries[i].content]
    ensures Paths(entries[..i + 1]) == Paths(entries[..i]) + [entries[i].path]
  {
    assert entries[..i + 1][..i] == entries[..i];
  }

  // Applying the same set again after a stop leaves what the proposals asked for.
  lemma {:induction false} StoppedRetries(le: Order, files: Files, proposals: seq<Entry>, k: nat)
    requires k <= |SortForApply(le, Staged(proposals))|
    ensures var entries := SortForApply(le, Staged(proposals));
            Write(Write(files, entries[..k]), proposals) == Write(files, proposals)
  {
    var entries := SortForApply(le, Staged(proposals));
    RetryCompletes(files, entries, k);
    ApplyIsReplay(le, files, proposals);
    ApplyIsReplay(le, Write(files, entries[..k]), proposals);
  }
}
