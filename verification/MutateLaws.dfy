/** Mutate keeps nesting. */
module MutateLaws {
  import opened GoBytes
  import opened GoStrings
  import opened Keywords
  import opened Entries
  import opened Manifest
  import opened Spec
  import opened Printing
  import opened PrintingLaws
  import opened Mutate
  import Paths
  import SpecLaws

  // ---------- what is left of a manifest when only the entries at some positions are kept ----------

  function Positions(entries: seq<Entry>): set<nat> {
    set i | 0 <= i < |entries| :: entries[i].pos
  }

  /** How many kept positions come before this one. */
  function Rank(keep: set<nat>, pos: nat): nat {
    if pos == 0 then 0 else Rank(keep, pos - 1) + if pos - 1 in keep then 1 else 0
  }

  /** The kept entry, in the manifest of the kept entries: renumbered, below the nearest of its
      directories that was kept, with the same /set line in force. */
  function Moved(keep: set<nat>, e: Entry): Entry {
    e.(pos := Rank(keep, e.pos),
       parent := NearestKept(keep, e.parent),
       setLine := match e.setLine case None => None case Some(s) => Some(Moved(keep, s)))
  }

  function NearestKept(keep: set<nat>, dir: Option<Entry>): Option<Entry> {
    match dir
    case None => None
    case Some(d) => if d.pos in keep then Some(Moved(keep, d)) else NearestKept(keep, d.parent)
  }

  function MovedSet(keep: set<nat>, setLine: Option<Entry>): Option<Entry> {
    match setLine case None => None case Some(s) => Some(Moved(keep, s))
  }

  /** The entries at kept positions, moved, in order. */
  function Kept(keep: set<nat>, entries: seq<Entry>): seq<Entry> {
    if entries == [] then []
    else
      var last := entries[|entries| - 1];
      Kept(keep, entries[..|entries| - 1]) + if last.pos in keep then [Moved(keep, last)] else []
  }

  function KeptItems(keep: set<nat>, items: seq<Item>): seq<Item> {
    if items == [] then []
    else
      var n := |items| - 1;
      KeptItems(keep, items[..n]) + if n in keep then [items[n]] else []
  }

  // ---------- one step of the sweep ----------

  predicate SameButParent(a: Entry, b: Entry) {
    a == b.(parent := a.parent)
  }

  /** A "..", dropped with the directory it closes. */
  predicate ClosesDropped(s: Sweep, e: Entry) {
    e.kind == DotDotType && e.parent.Some? && e.parent.value.pos in s.dropped
  }

  lemma VisitOutcome(o: Options, s: Sweep, e: Entry)
    requires e.kind != FullType && Visit(o, s, e).Ok?
    ensures var t := Visit(o, s, e).value;
      || (t == s.(dropped := s.dropped + {e.pos}) && e.kind != SpecialType && e.kind != DotDotType)
      || t == s.(kept := s.kept + [e])
  {
    hide Path, StripEach;
    if e.kind == RelativeType {
      StripDropsAncestors(Path(e).value, o.prefixes, e);
    }
  }

  /** An entry is dropped with its directory's "..", dropped on its own account, or kept as it is
      but for its parent; "/set" lines are always kept. */
  lemma SweepOneOutcome(o: Options, s: Sweep, e: Entry)
    requires e.kind != FullType && SweepOne(o, s, e).Ok?
    requires e.parent.Some? ==> e.kind == DotDotType || (e.kind == RelativeType && e.raw == "")
    ensures var t := SweepOne(o, s, e).value;
      if ClosesDropped(s, e) then t == s
      else
        || (t == s.(dropped := s.dropped + {e.pos}) && e.kind != SpecialType && e.kind != DotDotType)
        || (t.dropped == s.dropped && |t.kept| == |s.kept| + 1 && t.kept[..|s.kept|] == s.kept
            && SameButParent(t.kept[|s.kept|], e))
  {
    hide Visit;
    if ClosesDropped(s, e) {
    } else if e.parent.Some? && e.parent.value.pos in s.dropped {
      VisitOutcome(o, s, Reparented(e));
    } else {
      VisitOutcome(o, s, e);
    }
  }

  lemma PrintsUnderAnyParent(c: Cursor, item: Item, e: Entry)
    requires SameButParent(e, EntryAt(c, item)) && !(item.Named? && item.full)
    requires !item.Named? && !item.DotDot? ==> e.parent == None
    ensures Prints(e, item)
  {
  }

  /** What the sweep knows of an open directory: it was dropped or it is kept. */
  predicate Decided(keep: set<nat>, dropped: set<nat>, n: nat, dir: Option<Entry>) {
    dir.Some? ==>
      && dir.value.pos < n
      && (dir.value.pos in keep <==> dir.value.pos !in dropped)
      && Decided(keep, dropped, n, dir.value.parent)
  }

  lemma {:induction false} DecidedOnward(keep: set<nat>, dropped: set<nat>, n: nat, dir: Option<Entry>)
    requires Decided(keep, dropped, n, dir)
    ensures Decided(keep, dropped, n + 1, dir) && Decided(keep, dropped + {n}, n + 1, dir)
    decreases dir
  {
    if dir.Some? {
      DecidedOnward(keep, dropped, n, dir.value.parent);
    }
  }

  /** The state after some statements: the manifest of the kept ones is the kept part of the manifest. */
  predicate Mirrored(items: seq<Item>, keep: set<nat>, s: Sweep, dir: Option<Entry>, setLine: Option<Entry>) {
    var kept := KeptItems(keep, items);
    && Tracks(items, dir, setLine)
    && Tracks(kept, NearestKept(keep, dir), MovedSet(keep, setLine))
    && Link(kept).entries == Kept(keep, Link(items).entries)
    && |kept| == Rank(keep, |items|)
    && AllPrint(s.kept, kept)
    && Decided(keep, s.dropped, |items|, dir)
    && (setLine.Some? ==> setLine.value.pos in keep)
  }

  function NextSet(e: Entry, item: Item, setLine: Option<Entry>): Option<Entry> {
    if item.Special? && item.name == "/set" then Some(e)
    else if item.Special? && item.name == "/unset" then None
    else setLine
  }

  lemma KeptSnoc(keep: set<nat>, items: seq<Item>, item: Item)
    ensures KeptItems(keep, items + [item]) == KeptItems(keep, items) + if |items| in keep then [item] else []
    ensures Rank(keep, |items| + 1) == Rank(keep, |items|) + if |items| in keep then 1 else 0
  {
    assert (items + [item])[..|items|] == items;
  }

  lemma KeptEntriesSnoc(keep: set<nat>, entries: seq<Entry>, e: Entry)
    ensures Kept(keep, entries + [e]) == Kept(keep, entries) + if e.pos in keep then [Moved(keep, e)] else []
  {
    assert (entries + [e])[..|entries|] == entries;
  }

  /** A statement whose entry is dropped leaves the manifest of the kept ones as it is. */
  lemma {:induction false} MirroredDropped(items: seq<Item>, keep: set<nat>, s: Sweep, dir: Option<Entry>, setLine: Option<Entry>,
                        item: Item, t: Sweep)
    requires Mirrored(items, keep, s, dir, setLine) && |items| !in keep
    requires !item.Special?
    requires t == if item.DotDot? then s else s.(dropped := s.dropped + {|items|})
    requires item.DotDot? ==> dir.Some? && dir.value.pos in s.dropped
    ensures var e := EntryAt(Link(items), item);
      Mirrored(items + [item], keep, t, NextOpen(e, item, dir), setLine)
  {
    hide Link, Tracks, AllPrint;
    var e := EntryAt(Link(items), item);
    TracksNext(items, dir, setLine, item);
    KeptSnoc(keep, items, item);
    KeptEntriesSnoc(keep, Link(items).entries, e);
    DecidedOnward(keep, s.dropped, |items|, dir);
    var next := NextOpen(e, item, dir);
    assert Tracks(items + [item], next, setLine);
    assert NearestKept(keep, next) == NearestKept(keep, dir);
    assert Decided(keep, t.dropped, |items| + 1, next);
    assert KeptItems(keep, items) + [] == KeptItems(keep, items);
    assert Kept(keep, Link(items).entries) + [] == Kept(keep, Link(items).entries);
  }

  /** A statement whose entry is kept is placed in both manifests alike. */
  lemma {:induction false} MirroredKept(items: seq<Item>, keep: set<nat>, s: Sweep, dir: Option<Entry>, setLine: Option<Entry>,
                     item: Item, t: Sweep)
    requires Mirrored(items, keep, s, dir, setLine) && |items| in keep && |items| !in s.dropped
    requires t.dropped == s.dropped && |t.kept| == |s.kept| + 1 && t.kept[..|s.kept|] == s.kept
    requires Prints(t.kept[|s.kept|], item)
    requires item.DotDot? ==> dir.None? || dir.value.pos !in s.dropped
    requires !(item.Named? && item.full)
    ensures var e := EntryAt(Link(items), item);
      Mirrored(items + [item], keep, t, NextOpen(e, item, dir), NextSet(e, item, setLine))
  {
    hide Link, Tracks, Prints;
    var e := EntryAt(Link(items), item);
    var kept := KeptItems(keep, items);
    TracksNext(items, dir, setLine, item);
    TracksNext(kept, NearestKept(keep, dir), MovedSet(keep, setLine), item);
    KeptSnoc(keep, items, item);
    KeptEntriesSnoc(keep, Link(items).entries, e);
    DecidedOnward(keep, s.dropped, |items|, dir);
    assert EntryAt(Link(kept), item) == Moved(keep, e);
    assert NearestKept(keep, NextOpen(e, item, dir)) == NextOpen(Moved(keep, e), item, NearestKept(keep, dir));
    assert MovedSet(keep, NextSet(e, item, setLine)) == NextSet(Moved(keep, e), item, MovedSet(keep, setLine));
    assert Decided(keep, t.dropped, |items| + 1, NextOpen(e, item, dir));
    assert AllPrint(t.kept, kept + [item]);
  }

  /** The sweep so far has decided positions before n, and nothing else. */
  predicate Within(s: Sweep, n: nat) {
    && (forall p :: p in s.dropped ==> p < n)
    && (forall p :: p in Positions(s.kept) ==> p < n)
  }

  lemma PositionsSnoc(kept: seq<Entry>, t: seq<Entry>)
    requires |t| == |kept| + 1 && t[..|kept|] == kept
    ensures Positions(t) == Positions(kept) + {t[|kept|].pos}
  {
    assert forall i :: 0 <= i < |kept| ==> t[i] == kept[i];
    forall p | p in Positions(kept)
      ensures p in Positions(t)
    {
      var i :| 0 <= i < |kept| && kept[i].pos == p;
      assert t[i].pos == p;
    }
  }

  lemma EntryAtFacts(items: seq<Item>, dir: Option<Entry>, setLine: Option<Entry>, item: Item)
    requires Tracks(items, dir, setLine) && !(item.Named? && item.full)
    ensures var e := EntryAt(Link(items), item);
      && e.pos == |items| && e.kind != FullType
      && (item.DotDot? <==> e.kind == DotDotType) && (item.Special? <==> e.kind == SpecialType)
      && (e.kind == DotDotType ==> e.parent == dir)
      && (e.parent.Some? ==> e.parent == dir && (e.kind == DotDotType || (e.kind == RelativeType && e.raw == "")))
      && (!item.Named? && !item.DotDot? ==> e.parent == None)
  {
    TracksNext(items, dir, setLine, item);
  }

  lemma {:induction false} StepPositions(o: Options, s: Sweep, e: Entry, t: Sweep)
    requires e.kind != FullType && SweepOne(o, s, e) == Ok(t)
    requires e.parent.Some? ==> e.kind == DotDotType || (e.kind == RelativeType && e.raw == "")
    ensures Positions(t.kept) == Positions(s.kept) || Positions(t.kept) == Positions(s.kept) + {e.pos}
    ensures t.dropped == s.dropped || t.dropped == s.dropped + {e.pos}
  {
    hide SweepOne, Positions;
    SweepOneOutcome(o, s, e);
    if t.kept != s.kept {
      PositionsSnoc(s.kept, t.kept);
    }
  }

  lemma {:induction false} SweepStep(o: Options, items: seq<Item>, keep: set<nat>, s: Sweep, dir: Option<Entry>, setLine: Option<Entry>,
                  item: Item, t: Sweep)
    requires Mirrored(items, keep, s, dir, setLine) && !(item.Named? && item.full)
    requires |items| !in s.dropped && |items| !in Positions(s.kept)
    requires SweepOne(o, s, EntryAt(Link(items), item)) == Ok(t)
    requires |items| in keep <==> |items| in Positions(t.kept)
    ensures var e := EntryAt(Link(items), item);
      Mirrored(items + [item], keep, t, NextOpen(e, item, dir), NextSet(e, item, setLine))
  {
    assert Tracks(items, dir, setLine);
    hide Link, EntryAt, Mirrored, Prints, SweepOne, Positions, Tracks, NextOpen, NextSet;
    var e := EntryAt(Link(items), item);
    EntryAtFacts(items, dir, setLine, item);
    SweepOneOutcome(o, s, e);
    if t.kept == s.kept {
      NextSetUnless(e, item, setLine);
      MirroredDropped(items, keep, s, dir, setLine, item, t);
    } else {
      PositionsSnoc(s.kept, t.kept);
      PrintsUnderAnyParent(Link(items), item, t.kept[|s.kept|]);
      MirroredKept(items, keep, s, dir, setLine, item, t);
    }
  }

  lemma NextSetUnless(e: Entry, item: Item, setLine: Option<Entry>)
    ensures !item.Special? ==> NextSet(e, item, setLine) == setLine
  {
  }

  /** keep says of the first n positions what the sweep decided. */
  predicate Agrees(keep: set<nat>, s: Sweep, n: nat) {
    forall p: nat :: p < n ==> (p in keep <==> p in Positions(s.kept))
  }

  lemma {:induction false} SweepMirrors(o: Options, items: seq<Item>, keep: set<nat>)
    returns (dir: Option<Entry>, setLine: Option<Entry>)
    requires AllRelative(items) && SweepAll(o, Link(items).entries).Ok?
    requires Agrees(keep, SweepAll(o, Link(items).entries).value, |items|)
    ensures var s := SweepAll(o, Link(items).entries).value;
      Mirrored(items, keep, s, dir, setLine) && Within(s, |items|)
  {
    if items == [] {
      dir, setLine := None, None;
      assert KeptItems(keep, items) == [];
    } else {
      hide Link, Tracks, Mirrored, Prints, EntryAt, SweepOne, Positions, SweepAll, Kept, KeptItems, Agrees, Within, NextOpen, NextSet;
      var n := |items| - 1;
      var before, item := items[..n], items[n];
      assert items == before + [item];
      SweepSplits(o, before, item);
      var s, t := SweepAll(o, Link(before).entries).value, SweepAll(o, Link(items).entries).value;
      var e := EntryAt(Link(before), item);
      StepDecides(o, s, e, t, keep, n);
      dir, setLine := SweepMirrors(o, before, keep);
      NotYetDecided(s, keep, t, n);
      SweepStep(o, before, keep, s, dir, setLine, item, t);
      dir, setLine := NextOpen(e, item, dir), NextSet(e, item, setLine);
    }
  }

  lemma NotYetDecided(s: Sweep, keep: set<nat>, t: Sweep, n: nat)
    requires Within(s, n) && Agrees(keep, t, n + 1)
    ensures n !in s.dropped && n !in Positions(s.kept)
    ensures n in keep <==> n in Positions(t.kept)
  {
  }

  lemma {:induction false} StepDecides(o: Options, s: Sweep, e: Entry, t: Sweep, keep: set<nat>, n: nat)
    requires e.kind != FullType && SweepOne(o, s, e) == Ok(t) && e.pos == n
    requires e.parent.Some? ==> e.kind == DotDotType || (e.kind == RelativeType && e.raw == "")
    ensures Agrees(keep, t, n + 1) ==> Agrees(keep, s, n)
    ensures Within(s, n) ==> Within(t, n + 1)
  {
    hide SweepOne, Positions;
    StepPositions(o, s, e, t);
  }

  /** The sweep of one more statement is one more step. */
  lemma {:induction false} SweepSplits(o: Options, before: seq<Item>, item: Item)
    requires !(item.Named? && item.full) && SweepAll(o, Link(before + [item]).entries).Ok?
    ensures var e, all := EntryAt(Link(before), item), SweepAll(o, Link(before + [item]).entries);
      && e.pos == |before| && e.kind != FullType
      && (e.parent.Some? ==> e.kind == DotDotType || (e.kind == RelativeType && e.raw == ""))
      && SweepAll(o, Link(before).entries).Ok?
      && SweepOne(o, SweepAll(o, Link(before).entries).value, e) == all
  {
    hide SweepOne, Kept, KeptItems, Link;
    LinkSnoc(before, item);
    var e := EntryAt(Link(before), item);
    assert (Link(before).entries + [e])[..|before|] == Link(before).entries;
  }

  lemma {:induction false} AgreesBefore(o: Options, items: seq<Item>, keep: set<nat>, i: nat)
    requires AllRelative(items) && SweepAll(o, Link(items).entries).Ok? && i <= |items|
    requires Agrees(keep, SweepAll(o, Link(items).entries).value, |items|)
    ensures SweepAll(o, Link(items[..i]).entries).Ok?
    ensures Agrees(keep, SweepAll(o, Link(items[..i]).entries).value, i)
  {
    hide Link, EntryAt, SweepOne, SweepAll, Agrees, Within;
    if i == |items| {
      assert items[..i] == items;
    } else {
      var n := |items| - 1;
      var before, item := items[..n], items[n];
      assert items == before + [item];
      SweepSplits(o, before, item);
      StepDecides(o, SweepAll(o, Link(before).entries).value, EntryAt(Link(before), item), SweepAll(o, Link(items).entries).value, keep, n);
      AgreesBefore(o, before, keep, i);
      assert before[..i] == items[..i];
    }
  }

  // ---------- what is dropped ----------

  /** The entry as the visitors see it: below its directory's parent when the directory is gone. */
  function Seen(keep: set<nat>, e: Entry): Entry {
    if e.parent.Some? && e.parent.value.pos !in keep then Reparented(e) else e
  }

  predicate Hit(prefixes: seq<Bytes>, path: Bytes) {
    exists k :: 0 <= k < |prefixes| && Covered(Split(path, '/'), Split(prefixes[k], '/'))
  }

  /** Whether an entry is kept, given which of the earlier ones are. */
  predicate Keeps(o: Options, keep: set<nat>, e: Entry) {
    match e.kind
    case CommentType => o.keepComments
    case BlankType => o.keepBlank
    case DotDotType => e.parent.None? || e.parent.value.pos in keep
    case RelativeType => Path(Seen(keep, e)).Ok? && !Hit(o.prefixes, Path(Seen(keep, e)).value)
    case _ => true
  }

  lemma {:induction false} VisitKeeps(o: Options, s: Sweep, e: Entry, seen: Entry)
    requires e.kind != FullType && Visit(o, s, seen).Ok? && seen == e.(parent := seen.parent)
    ensures e.kind == RelativeType ==> Path(seen).Ok?
    ensures Visit(o, s, seen).value.kept == s.kept <==>
      match e.kind
        case CommentType => !o.keepComments
        case BlankType => !o.keepBlank
        case RelativeType => Hit(o.prefixes, Path(seen).value)
        case _ => false
  {
    hide Path, Covered, Split, StripEach;
    if e.kind == RelativeType {
      StripDropsAncestors(Path(seen).value, o.prefixes, seen);
    }
  }

  lemma {:induction false} StepKeeps(o: Options, keep: set<nat>, s: Sweep, e: Entry, t: Sweep)
    requires e.kind != FullType && SweepOne(o, s, e) == Ok(t)
    requires e.parent.Some? ==> e.kind == DotDotType || (e.kind == RelativeType && e.raw == "")
    requires e.parent.Some? ==> (e.parent.value.pos in keep <==> e.parent.value.pos !in s.dropped)
    ensures t.kept == s.kept <==> !Keeps(o, keep, e)
  {
    hide Path, Visit, Hit;
    if !ClosesDropped(s, e) {
      VisitKeeps(o, s, e, Seen(keep, e));
    }
  }

  /** An entry is kept exactly when its kind is, no prefix goes through its path, and, if it is a "..",
      the directory it closes is kept: a directory and its ".." go together. */
  lemma {:induction false} KeptExactly(o: Options, items: seq<Item>, i: nat)
    requires AllRelative(items) && SweepAll(o, Link(items).entries).Ok? && i < |items|
    ensures |Link(items).entries| == |items|
    ensures var keep := Positions(SweepAll(o, Link(items).entries).value.kept);
      i in keep <==> Keeps(o, keep, Link(items).entries[i])
  {
    hide Link, EntryAt, SweepOne, SweepAll, Keeps, Positions, Tracks, KeptItems, Kept;
    var keep := Positions(SweepAll(o, Link(items).entries).value.kept);
    LinkAt(items, i);
    AgreesBefore(o, items, keep, i + 1);
    var before, item := items[..i], items[i];
    assert items[..i + 1] == before + [item];
    assert (before + [item])[..i] == before;
    AgreesBefore(o, before + [item], keep, i);
    SweepSplits(o, before, item);
    var s, t := SweepAll(o, Link(before).entries).value, SweepAll(o, Link(before + [item]).entries).value;
    var e := EntryAt(Link(before), item);
    var dir, setLine := SweepMirrors(o, before, keep);
    EntryAtFacts(before, dir, setLine, item);
    StepKeeps(o, keep, s, e, t);
    NotYetDecided(s, keep, t, i);
    SweepOneOutcome(o, s, e);
    if t.kept != s.kept {
      PositionsSnoc(s.kept, t.kept);
    }
  }

  // ---------- reading the rest back ----------

  lemma {:induction false} SweepInOrder(o: Options, items: seq<Item>)
    requires AllRelative(items) && SweepAll(o, Link(items).entries).Ok?
    ensures var s := SweepAll(o, Link(items).entries).value;
      Ascending(s.kept) && forall i :: 0 <= i < |s.kept| ==> s.kept[i].pos < |items|
  {
    if items != [] {
      hide Link, EntryAt, SweepOne, SweepAll;
      var n := |items| - 1;
      assert items == items[..n] + [items[n]];
      SweepSplits(o, items[..n], items[n]);
      SweepInOrder(o, items[..n]);
      SweepOneOutcome(o, SweepAll(o, Link(items[..n]).entries).value, EntryAt(Link(items[..n]), items[n]));
    }
  }

  lemma SlashFreeName(word: Bytes)
    requires IsWord(word) && '/' !in word
    ensures var name := Paths.Clean(word);
      IsWord(name) && '/' !in name && Paths.Clean(name) == name
  {
    Paths.CleanIdempotent(word);
    SplitWithout(word, '/');
    var kept := Paths.Push([], word, false);
    assert Paths.Collapse([word], false, []) == Paths.Collapse([word][1..], false, kept);
    assert [word][1..] == [];
    assert [] + [word] == [word];
  }

  lemma ReadSpecialWordy(str: Bytes, rest: seq<Bytes>)
    requires HasPrefix(str, "/") && Fields(Unfold(str, rest).0) != []
    ensures var f := Fields(Unfold(str, rest).0); Wordy(Special(f[0], f[1..]))
  {
    hide Unfold;
    assert str[0] == str[..1][0];
    SpecLaws.SlashStays(str, rest);
    var joined := Unfold(str, rest).0;
    assert Fields(joined)[0] == joined[..WordLength(joined)];
    FieldsAreWords(joined);
  }

  lemma {:induction false} NamedWordy(f: seq<Bytes>)
    requires f != [] && '/' !in f[0] && forall i :: 0 <= i < |f| ==> IsWord(f[i])
    ensures Wordy(NamedItem(f[0], f[1..]))
  {
    hide SaysDir, Paths.Clean;
    SlashFreeName(f[0]);
    var name := Paths.Clean(f[0]);
    assert name[0] in name;
  }

  /** What is read is of the form the parser makes. */
  lemma {:induction false} ReadWordy(lines: seq<Bytes>)
    requires lines != [] && ReadOne(lines).Read?
    requires !(ReadOne(lines).item.Named? && ReadOne(lines).item.full)
    ensures Wordy(ReadOne(lines).item)
  {
    hide Unfold, SaysDir, Paths.Clean, Fields, TrimBlanks, HasPrefix;
    var str, rest := lines[0], lines[1..];
    if ReadOne(lines).item.Special? {
      ReadSpecialWordy(str, rest);
    } else if ReadOne(lines).item.Named? {
      FieldsAreWords(Unfold(str, rest).0);
      NamedWordy(Fields(Unfold(str, rest).0));
    }
  }

  lemma {:induction false} StatementsWordy(lines: seq<Bytes>)
    requires Statements(lines).Ok? && AllRelative(Statements(lines).value)
    ensures AllWordy(Statements(lines).value)
    decreases |lines|
  {
    hide ReadOne, Wordy;
    if lines != [] && !ReadOne(lines).Crash? {
      var r := ReadOne(lines);
      var tail := r.rest;
      if r.Read? {
        var items, more := Statements(lines).value, Statements(tail).value;
        assert items == [r.item] + more && items[0] == r.item;
        assert forall i :: 0 <= i < |more| ==> more[i] == items[i + 1];
        StatementsWordy(tail);
        ReadWordy(lines);
      } else {
        StatementsWordy(tail);
      }
    }
  }

  lemma {:induction false} KeptItemsAre(keep: set<nat>, items: seq<Item>)
    ensures forall i :: 0 <= i < |KeptItems(keep, items)| ==> KeptItems(keep, items)[i] in items
  {
    if items != [] {
      KeptItemsAre(keep, items[..|items| - 1]);
    }
  }

  /** Mutating a manifest with no full-path entries and reading the result back gives the kept entries,
      in order and unchanged, with the same /set line in force, each below the nearest of its
      directories that was kept: if and only if each kept statement survives in its line. */
  lemma {:induction false} MutateKeepsNesting(o: Options, input: Bytes, items: seq<Item>, keep: set<nat>)
    requires Statements(ScanLines(input)) == Ok(items) && AllRelative(items)
    requires Mutated(o, input).Ok? && keep == Positions(SweepAll(o, Link(items).entries).value.kept)
    ensures Parse(Mutated(o, input).value) == Ok(Kept(keep, Link(items).entries)) <==> AllReprintable(KeptItems(keep, items))
  {
    hide Link, Statements, ScanLines, SweepAll, Wordy, AllReprintable, Prints, Text, Lines, SortByPos, Kept, KeptItems, Tracks, Positions;
    var s := SweepAll(o, Link(items).entries).value;
    var kept := KeptItems(keep, items);
    var dir, setLine := SweepMirrors(o, items, keep);
    SweepInOrder(o, items);
    SortedAlready(s.kept);
    StatementsWordy(ScanLines(input));
    KeptItemsAre(keep, items);
    forall i | 0 <= i < |kept|
      ensures Wordy(kept[i])
    {
      assert kept[i] in items;
    }
    ParseLines(input, items);
    PrintParseExactly(kept, s.kept);
  }

  lemma ParseLines(input: Bytes, items: seq<Item>)
    requires Statements(ScanLines(input)) == Ok(items)
    ensures Parse(input) == Ok(Link(items).entries)
  {
  }

  const TRAILING_BLANK: Bytes := "a \\ "
  const ITS_STATEMENT := Named(false, "a", ["\\"], false)

  lemma TrailingBlankFields()
    ensures Fields(TRAILING_BLANK) == ["a"] + ["\\"] && TrimBlanks(TRAILING_BLANK) == TRAILING_BLANK
    ensures !HasSuffix(TRAILING_BLANK, "\\") && TRAILING_BLANK[0] == 'a' && '\n' !in TRAILING_BLANK && DropCR(TRAILING_BLANK) == TRAILING_BLANK
  {
    hide Fields;
    var line := TRAILING_BLANK;
    assert line == "a" + [' '] + ("\\" + [' '] + "") && line[3] == ' ';
    FieldsOfWordThen("\\", "");
    FieldsOfWordThen("a", "\\" + [' '] + "");
    NoFields();
  }

  lemma NoFields()
    ensures Fields("") == []
  {
  }

  lemma NameA()
    ensures ITS_STATEMENT == NamedItem("a", ["\\"])
  {
    hide Paths.Clean;
    Paths.SegmentsOfRender(false, ["a"]);
    assert KeywordOf("\\") != "type";
  }

  lemma ReadTrailingBlank()
    ensures Statements(ScanLines(TRAILING_BLANK)) == Ok([ITS_STATEMENT])
  {
    hide Fields, NamedItem, TrimBlanks, HasSuffix, ReadOne;
    var line := TRAILING_BLANK;
    TrailingBlankFields();
    NameA();
    ReadOneNamed(line, [], ITS_STATEMENT);
    var lines: seq<Bytes> := [line];
    assert lines + [] == lines;
    assert ScanLines(line) == lines;
    assert Statements([]) == Ok([]);
    assert [ITS_STATEMENT] + [] == [ITS_STATEMENT];
  }

  lemma KeepsWhole(o: Options, e: Entry)
    requires o.prefixes == [] && e.kind == RelativeType && e.parent == None && Path(e).Ok?
    ensures SweepAll(o, [e]) == Ok(Sweep({}, [e]))
  {
    hide Path;
    var one: seq<Entry> := [e];
    var none: seq<Entry> := [];
    assert one[..|one| - 1] == none && one[|one| - 1] == e;
    assert SweepAll(o, none) == Ok(Sweep({}, []));
    assert SweepOne(o, Sweep({}, []), e) == Ok(Sweep({}, none + one));
    assert none + one == one;
    assert SweepAll(o, one) == SweepOne(o, Sweep({}, []), e);
  }

  /** A backslash before trailing blanks is lost: mutate keeps every entry of this manifest and prints
      one that reads otherwise. */
  lemma {:induction false} TrailingBlankLost(o: Options)
    requires o.prefixes == []
    ensures var entries := Link([ITS_STATEMENT]).entries;
      && Parse(TRAILING_BLANK) == Ok(entries) && SweepAll(o, entries) == Ok(Sweep({}, entries))
      && Mutated(o, TRAILING_BLANK).Ok? && Parse(Mutated(o, TRAILING_BLANK).value) != Parse(TRAILING_BLANK)
  {
    hide Path, Parse, SweepAll, Link, Lines, Text, EntryAt, Wordy;
    var items, e := [ITS_STATEMENT], EntryAt(START, ITS_STATEMENT);
    OneStatement();
    SortedAlready([e]);
    KeepsWhole(o, e);
    PrintParseExactly(items, [e]);
    assert !Reprintable(items[0]);
  }

  lemma OneStatement()
    ensures var items, e := [ITS_STATEMENT], EntryAt(START, ITS_STATEMENT);
      && Link(items).entries == [e] && Parse(TRAILING_BLANK) == Ok([e]) && AllWordy(items) && AllPrint([e], items)
      && e.kind == RelativeType && e.parent == None && Path(e).Ok?
  {
    hide Statements, ScanLines, Fields;
    ReadTrailingBlank();
    assert Link([ITS_STATEMENT]) == LinkFrom(Place(START, ITS_STATEMENT), []);
    NameA();
    NamedWordy(["a"] + ["\\"]);
    assert (["a"] + ["\\"])[1..] == ["\\"];
  }
}
