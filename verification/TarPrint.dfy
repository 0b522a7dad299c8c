/** Flattening a tar tree, printing it and parsing it gives the tree back. */
module TarPrint {
  import opened GoBytes
  import opened GoStrings
  import opened Govis
  import opened Keywords
  import opened Entries
  import opened Manifest
  import opened Spec
  import opened Printing
  import opened PrintingLaws
  import opened TarTree
  import opened TarFlatten
  import opened WalkLaws
  import Walk
  import Paths

  // ---------- what the entries record ----------

  /** The entry records the stop: its name, its keywords as factored, its set and its path. */
  predicate RecordsStop(e: Entry, s: Stop) {
    && e.kind == RelativeType
    && e.name == Encoded(Walk.BaseName(s.path))
    && e.keywords == Factored(s.keywords, s.base)
    && SetKeyVals(e.setLine) == s.base
    && Path(e) == Ok(Walk.PathText(s.path))
  }

  predicate AllStopsRecorded(entries: seq<Entry>, stops: seq<Stop>) {
    |entries| == |stops| && forall i :: 0 <= i < |stops| ==> RecordsStop(entries[i], stops[i])
  }

  /** From a cursor, the layout records its stops, leaves its set in force, and the open directories as they were. */
  ghost predicate LaysOut(c: Cursor, l: Layout) {
    && AllStopsRecorded(Relatives(Added(c, l.items)), l.stops)
    && SetKeyVals(LinkFrom(c, l.items).setLine) == l.cur
  }

  lemma {:induction false} LaysOutThen(c: Cursor, a: Layout, b: Layout)
    requires LaysOut(c, a) && LaysOut(LinkFrom(c, a.items), b)
    ensures LaysOut(c, TarFlatten.Then(a, b))
    ensures LinkFrom(c, TarFlatten.Then(a, b).items).stack == LinkFrom(LinkFrom(c, a.items), b.items).stack
  {
    hide RecordsStop, LinkFrom, Added, Relatives;
    AddedConcat(c, a.items, b.items);
    RelativesConcat(Added(c, a.items), Added(LinkFrom(c, a.items), b.items));
  }

  lemma LaysOutNothing(c: Cursor, cur: Option<seq<KeyVal>>)
    requires SetKeyVals(c.setLine) == cur
    ensures LaysOut(c, Layout([], [], cur)) && LinkFrom(c, []).stack == c.stack
  {
  }

  lemma {:induction false} LaysOutNode(c: Cursor, p: Segs, info: Info, cur: Option<seq<KeyVal>>)
    requires Walk.Holds(Top(c.stack), p) && Paths.AllPlain(p) && SetKeyVals(c.setLine) == cur
    ensures var l := Layout([NodeItem(p, info, cur)], [Stop(p, info.isDir, info.keywords, cur)], cur);
      var e := EntryAt(c, NodeItem(p, info, cur));
      && LaysOut(c, l) && Path(e) == Ok(Walk.PathText(p))
      && LinkFrom(c, l.items).stack == if info.isDir then c.stack + [e] else c.stack
  {
    hide Walk.Holds, Path, Factored;
    var item := NodeItem(p, info, cur);
    var e := EntryAt(c, item);
    AddedOne(c, item);
    Walk.PathOfEntry(e, p);
    assert Relatives([e]) == [e] + Relatives([]);
  }

  /** Statements that name nothing. */
  lemma LaysOutUnnamed(c: Cursor, items: seq<Item>, cur: Option<seq<KeyVal>>)
    requires forall i :: 0 <= i < |items| ==> !items[i].Named?
    requires SetKeyVals(LinkFrom(c, items).setLine) == cur
    ensures LaysOut(c, Layout(items, [], cur))
  {
    NoneNamed(c, items);
    NoRelatives(Added(c, items));
  }

  lemma {:induction false} NoneNamed(c: Cursor, items: seq<Item>)
    requires forall i :: 0 <= i < |items| ==> !items[i].Named?
    ensures forall i :: 0 <= i < |Added(c, items)| ==> Added(c, items)[i].kind != RelativeType
    decreases items
  {
    if items != [] {
      assert items == [items[0]] + items[1..];
      AddedOne(c, items[0]);
      AddedConcat(c, [items[0]], items[1..]);
      NoneNamed(Place(c, items[0]), items[1..]);
    }
  }

  lemma HeadLays(c: Cursor, p: Segs, base: Option<seq<KeyVal>>, cur: Option<seq<KeyVal>>, keywords: seq<Keyword>)
    requires SetKeyVals(c.setLine) == cur
    ensures var head, after := [Blank, Heading(p)] + TarFlatten.SetItems(base, cur, keywords),
                               LinkFrom(c, [Blank, Heading(p)] + TarFlatten.SetItems(base, cur, keywords));
      && after.stack == c.stack && SetKeyVals(after.setLine) == SetFor(base, cur, keywords)
      && forall i :: 0 <= i < |head| ==> !head[i].Named?
  {
    hide Selected;
    var sets := TarFlatten.SetItems(base, cur, keywords);
    var c1 := Place(c, Blank);
    var c2 := Place(c1, Heading(p));
    AddedOne(c, Blank);
    AddedOne(c1, Heading(p));
    AddedConcat(c, [Blank], [Heading(p)]);
    AddedConcat(c, [Blank] + [Heading(p)], sets);
    assert [Blank] + [Heading(p)] == [Blank, Heading(p)];
    if sets != [] {
      assert sets == [sets[0]];
      AddedOne(c2, sets[0]);
    }
  }

  lemma {:induction false} OpeningLays(c: Cursor, p: Segs, info: Info, cur: Option<seq<KeyVal>>, keywords: seq<Keyword>)
    requires Walk.Holds(Top(c.stack), p) && Paths.AllPlain(p) && SetKeyVals(c.setLine) == cur
    ensures var o, after := TarFlatten.Opening(p, info, cur, keywords), LinkFrom(c, TarFlatten.Opening(p, info, cur, keywords).items);
      && LaysOut(c, o)
      && if info.isDir then
           |after.stack| == |c.stack| + 1 && after.stack[..|c.stack|] == c.stack && Path(after.stack[|c.stack|]) == Ok(Walk.PathText(p))
         else after.stack == c.stack
  {
    hide Walk.Holds, Path, SetFor, TarFlatten.SetItems, LaysOut, NodeItem, LinkFrom, EntryAt;
    var o := TarFlatten.Opening(p, info, cur, keywords);
    if info.isDir {
      var head := [Blank, Heading(p)] + TarFlatten.SetItems(info.base, cur, keywords);
      var node := Layout([NodeItem(p, info, o.cur)], [Stop(p, info.isDir, info.keywords, o.cur)], o.cur);
      HeadLays(c, p, info.base, cur, keywords);
      LaysOutUnnamed(c, head, o.cur);
      LaysOutNode(LinkFrom(c, head), p, info, o.cur);
      LaysOutThen(c, Layout(head, [], o.cur), node);
      assert [] + node.stops == node.stops;
    } else {
      LaysOutNode(c, p, info, cur);
      assert [] + [NodeItem(p, info, cur)] == [NodeItem(p, info, cur)];
    }
  }

  lemma {:induction false} ClosingLays(c: Cursor, p: Segs, info: Info, cur: Option<seq<KeyVal>>)
    requires SetKeyVals(c.setLine) == cur
    ensures LaysOut(c, TarFlatten.Closing(p, info, cur))
    ensures LinkFrom(c, TarFlatten.Closing(p, info, cur).items).stack == if info.isDir then Pop(c.stack) else c.stack
  {
    if info.isDir {
      var c1 := Place(c, Heading(p));
      AddedOne(c, Heading(p));
      AddedOne(c1, DotDot(".."));
      AddedConcat(c, [Heading(p)], [DotDot("..")]);
      assert [Heading(p)] + [DotDot("..")] == [Heading(p), DotDot("..")];
      LaysOutUnnamed(c, [Heading(p), DotDot("..")], cur);
    } else {
      LaysOutNothing(c, cur);
    }
  }

  lemma LaidSet(c: Cursor, l: Layout)
    requires LaysOut(c, l)
    ensures SetKeyVals(LinkFrom(c, l.items).setLine) == l.cur
  {
  }

  /** A subtree laid out below the directory that holds it records its stops and closes what it opens. */
  lemma {:induction false} FlatLays(m: Contents, p: Segs, cur: Option<seq<KeyVal>>, keywords: seq<Keyword>, c: Cursor)
    requires WellShaped(m) && p in m && Walk.Holds(Top(c.stack), p) && SetKeyVals(c.setLine) == cur
    ensures LaysOut(c, FlatTree(m, p, cur, keywords)) && LinkFrom(c, FlatTree(m, p, cur, keywords).items).stack == c.stack
    decreases Below(m, p), 1
  {
    PlainAt(m, p);
    hide WellShaped, LaysOut, Walk.Holds, TarFlatten.Opening, TarFlatten.Closing, FlatList, LinkFrom, Path;
    var opening := TarFlatten.Opening(p, m[p], cur, keywords);
    var kids := FlatList(m, p, m[p].kids, opening.cur, keywords);
    var closing := TarFlatten.Closing(p, m[p], kids.cur);
    var c1 := LinkFrom(c, opening.items);
    var c2 := LinkFrom(c1, kids.items);
    OpeningLays(c, p, m[p], cur, keywords);
    LaidSet(c, opening);
    ListLaysOut(m, p, m[p].kids, opening.cur, keywords, c1);
    LaidSet(c1, kids);
    ClosingLays(c2, p, m[p], kids.cur);
    LaysOutThen(c1, kids, closing);
    LaysOutThen(c, opening, TarFlatten.Then(kids, closing));
  }

  lemma PlainAt(m: Contents, p: Segs)
    requires WellShaped(m) && p in m
    ensures ShapedAt(m, p) && Paths.AllPlain(p) && (m[p].kids != [] ==> m[p].isDir)
    ensures forall i :: 0 <= i < |m[p].kids| ==> p + [m[p].kids[i]] in m
  {
  }

  lemma {:induction false} ListLaysOut(m: Contents, p: Segs, names: seq<Bytes>, cur: Option<seq<KeyVal>>, keywords: seq<Keyword>, c: Cursor)
    requires WellShaped(m) && p in m && forall i :: 0 <= i < |names| ==> p + [names[i]] in m
    requires names != [] ==> Top(c.stack).Some? && Path(Top(c.stack).value) == Ok(Walk.PathText(p))
    requires SetKeyVals(c.setLine) == cur
    ensures LaysOut(c, FlatList(m, p, names, cur, keywords)) && LinkFrom(c, FlatList(m, p, names, cur, keywords).items).stack == c.stack
    decreases Below(m, p), 0, |names|
  {
    hide WellShaped, LaysOut, FlatTree, LinkFrom, Path;
    if names == [] {
      LaysOutNothing(c, cur);
    } else {
      var q := p + [names[0]];
      var first := FlatTree(m, q, cur, keywords);
      BelowShrinks(m, p, names[0]);
      assert q[..|q| - 1] == p;
      FlatLays(m, q, cur, keywords, c);
      LaidSet(c, first);
      ListLaysOut(m, p, names[1..], first.cur, keywords, LinkFrom(c, first.items));
      LaysOutThen(c, first, FlatList(m, p, names[1..], first.cur, keywords));
    }
  }

  // ---------- which nodes ----------

  predicate StopsAt(stops: seq<Stop>, q: Segs) {
    exists i :: 0 <= i < |stops| && stops[i].path == q
  }

  predicate StopsOnce(stops: seq<Stop>) {
    forall i, j :: 0 <= i < j < |stops| ==> stops[i].path != stops[j].path
  }

  /** The stops are those of the contents, with their data. */
  ghost predicate StopsOf(m: Contents, stops: seq<Stop>) {
    forall i :: 0 <= i < |stops| ==>
      stops[i].path in m && stops[i].isDir == m[stops[i].path].isDir && stops[i].keywords == m[stops[i].path].keywords
  }

  /** Exactly the paths through these names, once each. */
  ghost predicate StopsThrough(m: Contents, p: Segs, names: seq<Bytes>, stops: seq<Stop>) {
    && StopsOnce(stops) && StopsOf(m, stops)
    && forall q :: StopsAt(stops, q) <==> q in m && |q| > |p| && p <= q && q[|p|] in names
  }

  lemma StopsAtThen(a: seq<Stop>, b: seq<Stop>, q: Segs)
    ensures StopsAt(a + b, q) <==> StopsAt(a, q) || StopsAt(b, q)
  {
    if StopsAt(a, q) {
      var i :| 0 <= i < |a| && a[i].path == q;
      assert (a + b)[i].path == q;
    }
    if StopsAt(b, q) {
      var i :| 0 <= i < |b| && b[i].path == q;
      assert (a + b)[|a| + i].path == q;
    }
    if StopsAt(a + b, q) {
      var i :| 0 <= i < |a + b| && (a + b)[i].path == q;
      assert i < |a| ==> a[i].path == q;
      assert i >= |a| ==> b[i - |a|].path == q;
    }
  }

  lemma OnceThen(a: seq<Stop>, b: seq<Stop>)
    requires StopsOnce(a) && StopsOnce(b) && forall q :: !(StopsAt(a, q) && StopsAt(b, q))
    ensures StopsOnce(a + b)
  {
    forall i, j | 0 <= i < j < |a + b|
      ensures (a + b)[i].path != (a + b)[j].path
    {
      if i < |a| <= j {
        assert StopsAt(a, a[i].path) && StopsAt(b, b[j - |a|].path);
      }
    }
  }

  /** A subtree stops at every path below it, once, its own first. */
  lemma {:induction false} TreeStops(m: Contents, p: Segs, cur: Option<seq<KeyVal>>, keywords: seq<Keyword>)
    requires WellShaped(m) && p in m
    ensures var stops := FlatTree(m, p, cur, keywords).stops;
      && stops != [] && stops[0].path == p
      && StopsOnce(stops) && StopsOf(m, stops) && forall q :: StopsAt(stops, q) <==> q in m && p <= q
    decreases Below(m, p), 1
  {
    PlainAt(m, p);
    KidsDiffer(m, p);
    hide FlatTree, FlatList, TarFlatten.Opening, StopsOnce, StopsOf, StopsThrough, StopsAt, WellShaped;
    var opening := TarFlatten.Opening(p, m[p], cur, keywords);
    var kids := FlatList(m, p, m[p].kids, opening.cur, keywords);
    OwnStop(m, p, cur, keywords);
    ListStops(m, p, m[p].kids, opening.cur, keywords);
    TreeStopsThen(m, p, opening.stops, kids.stops);
  }

  lemma OwnStop(m: Contents, p: Segs, cur: Option<seq<KeyVal>>, keywords: seq<Keyword>)
    requires WellShaped(m) && p in m
    ensures var opening := TarFlatten.Opening(p, m[p], cur, keywords);
      && |opening.stops| == 1 && opening.stops[0].path == p && StopsOf(m, opening.stops)
      && (forall i :: 0 <= i < |m[p].kids| ==> p + [m[p].kids[i]] in m)
      && FlatTree(m, p, cur, keywords).stops == opening.stops + FlatList(m, p, m[p].kids, opening.cur, keywords).stops
  {
    PlainAt(m, p);
    hide WellShaped, FlatList, SetFor;
    var kids := FlatList(m, p, m[p].kids, TarFlatten.Opening(p, m[p], cur, keywords).cur, keywords);
    assert kids.stops + [] == kids.stops;
  }

  lemma KidsDiffer(m: Contents, p: Segs)
    requires WellShaped(m) && p in m
    ensures forall i, j :: 0 <= i < j < |m[p].kids| ==> m[p].kids[i] != m[p].kids[j]
  {
    assert ShapedAt(m, p);
  }

  lemma IsListed(m: Contents, q: Segs)
    requires WellShaped(m) && q in m && q != []
    ensures Front(q) in m && Walk.BaseName(q) in m[Front(q)].kids
  {
    assert ShapedAt(m, q);
  }

  lemma TreeStopsThen(m: Contents, p: Segs, own: seq<Stop>, kids: seq<Stop>)
    requires WellShaped(m) && p in m && |own| == 1 && StopsOf(m, own) && own[0].path == p
    requires StopsThrough(m, p, m[p].kids, kids)
    ensures StopsOnce(own + kids) && StopsOf(m, own + kids) && forall q :: StopsAt(own + kids, q) <==> q in m && p <= q
  {
    hide WellShaped, StopsAt;
    forall q
      ensures StopsAt(own + kids, q) <==> q in m && p <= q
      ensures !(StopsAt(own, q) && StopsAt(kids, q))
    {
      StopsAtThen(own, kids, q);
      OnlyStop(own, q);
      if q in m && p <= q && q != p {
        FirstStep(m, p, q);
      }
    }
    assert StopsOnce(own);
    OnceThen(own, kids);
  }

  lemma OnlyStop(own: seq<Stop>, q: Segs)
    requires |own| == 1
    ensures StopsAt(own, q) <==> q == own[0].path
  {
    assert q == own[0].path ==> own[0].path == q;
  }

  /** Anything below p is in a directory p lists. */
  lemma {:induction false} FirstStep(m: Contents, p: Segs, q: Segs)
    requires WellShaped(m) && p in m && q in m && p <= q && p != q
    ensures |q| > |p| && q[|p|] in m[p].kids
    decreases |q|
  {
    hide WellShaped;
    assert |q| > |p| by { assert q[..|q|] == q; }
    IsListed(m, q);
    if |q| == |p| + 1 {
      assert Front(q) == p;
    } else {
      assert p <= Front(q);
      FirstStep(m, p, Front(q));
    }
  }

  lemma {:induction false} ListStops(m: Contents, p: Segs, names: seq<Bytes>, cur: Option<seq<KeyVal>>, keywords: seq<Keyword>)
    requires WellShaped(m) && p in m && (forall i :: 0 <= i < |names| ==> p + [names[i]] in m)
    requires forall i, j :: 0 <= i < j < |names| ==> names[i] != names[j]
    ensures StopsThrough(m, p, names, FlatList(m, p, names, cur, keywords).stops)
    decreases Below(m, p), 0, |names|
  {
    hide WellShaped, FlatTree, StopsOnce, StopsOf, StopsThrough, StopsAt;
    if names == [] {
      NoStops(m, p);
    } else {
      var k := names[0];
      var first := FlatTree(m, p + [k], cur, keywords);
      BelowShrinks(m, p, k);
      TreeStops(m, p + [k], cur, keywords);
      ListStops(m, p, names[1..], first.cur, keywords);
      ListStopsThen(m, p, names, first.stops, FlatList(m, p, names[1..], first.cur, keywords).stops);
    }
  }

  lemma NoStops(m: Contents, p: Segs)
    ensures StopsThrough(m, p, [], [])
  {
  }

  lemma {:induction false} ListStopsThen(m: Contents, p: Segs, names: seq<Bytes>, first: seq<Stop>, rest: seq<Stop>)
    requires names != [] && forall i, j :: 0 <= i < j < |names| ==> names[i] != names[j]
    requires StopsOnce(first) && StopsOf(m, first) && forall q :: StopsAt(first, q) <==> q in m && p + [names[0]] <= q
    requires StopsThrough(m, p, names[1..], rest)
    ensures StopsThrough(m, p, names, first + rest)
  {
    var k := names[0];
    assert names == [k] + names[1..] && k !in names[1..];
    forall q
      ensures p + [k] <= q <==> |q| > |p| && p <= q && q[|p|] == k
    {
      if p + [k] <= q {
        assert q[..|p| + 1] == p + [k];
      }
      if |q| > |p| && p <= q && q[|p|] == k {
        assert q[..|p| + 1] == p + [k];
      }
    }
    forall q
      ensures StopsAt(first + rest, q) <==> q in m && |q| > |p| && p <= q && q[|p|] in names
    {
      StopsAtThen(first, rest, q);
    }
    OnceThen(first, rest);
  }

  // ---------- which keys ----------

  /** What is factored out of a node's keywords is said by its set, so in force is the set overridden
      by all the keywords the node had. */
  lemma FactoredOverrides(kvs: seq<KeyVal>, base: seq<KeyVal>)
    requires Consistent(kvs) && Consistent(base)
    ensures MapOf(base) + MapOf(Factored(kvs, Some(base))) == MapOf(base) + MapOf(kvs)
  {
    hide MapOf, Consistent;
    if kvs == [] {
      NoKeys(base);
    } else {
      WithoutOverrides(kvs, base);
    }
  }

  lemma NoKeys(base: seq<KeyVal>)
    ensures MapOf(base) + MapOf(base) == MapOf(base) + MapOf([])
  {
  }

  /** The keys in force for a recorded node are those of its set overridden by those of its header. */
  lemma {:induction false} TarKeysKept(e: Entry, s: Stop)
    requires RecordsStop(e, s) && Consistent(s.keywords) && (s.base.Some? ==> Consistent(s.base.value))
    ensures KeysMap(e) == (if s.base.Some? then MapOf(s.base.value) else map[]) + MapOf(s.keywords)
  {
    hide KeywordOf, Path, Factored, Consistent, MapOf;
    KeysMapIs(e);
    if s.base.Some? {
      FactoredOverrides(s.keywords, s.base.value);
    } else {
      Unfactored(s.keywords);
    }
  }

  lemma Unfactored(kvs: seq<KeyVal>)
    ensures Factored(kvs, None) == kvs
  {
  }

  // ---------- printing and parsing ----------

  /** What is assumed of the keywords collected for a node: its own type, printable words, no keyword
      twice with different values; and that a set makes nobody a directory. */
  predicate NodeTold(info: Info) {
    && Consistent(info.keywords) && AllWords(info.keywords) && SaysDir(info.keywords) == info.isDir
    && (info.base.Some? ==> SetOk(TAR_DEFAULT_SET + info.base.value))
  }

  ghost predicate Told(m: Contents) {
    forall p :: p in m ==> NodeTold(m[p])
  }

  predicate BaseOk(base: Option<seq<KeyVal>>) {
    base.Some? ==> SetOk(base.value)
  }

  ghost predicate LayoutOk(l: Layout) {
    AllSteady(l.items) && PlainDots(l.items) && BaseOk(l.cur)
    && forall i :: 0 <= i < |l.stops| ==> BaseOk(l.stops[i].base)
  }

  lemma LayoutOkThen(a: Layout, b: Layout)
    requires LayoutOk(a) && LayoutOk(b)
    ensures LayoutOk(TarFlatten.Then(a, b))
  {
    hide BaseOk, Steady;
  }

  lemma SetForOk(base: Option<seq<KeyVal>>, cur: Option<seq<KeyVal>>, keywords: seq<Keyword>)
    requires (base.Some? ==> SetOk(TAR_DEFAULT_SET + base.value)) && BaseOk(cur)
    ensures BaseOk(SetFor(base, cur, keywords))
  {
    hide SetOk, Requested;
    if base.Some? {
      var all := TAR_DEFAULT_SET + base.value;
      var chosen := Selected(all, keywords);
      forall i | 0 <= i < |chosen|
        ensures chosen[i] in all
      {
        SelectedElements(all, keywords, chosen[i]);
      }
      SubsetOk(chosen, all);
    }
  }

  lemma {:induction false} NoneIsDir(kvs: seq<KeyVal>)
    requires SetOk(kvs)
    ensures !SaysDir(kvs)
  {
    hide KeywordOf, ValueOf;
    LookupFacts(kvs, "type");
  }

  lemma FactoredTold(kvs: seq<KeyVal>, base: Option<seq<KeyVal>>)
    requires Consistent(kvs) && AllWords(kvs) && BaseOk(base)
    ensures AllWords(Factored(kvs, base)) && SaysDir(Factored(kvs, base)) == SaysDir(kvs)
  {
    if base.Some? {
      TypeKept(kvs, base.value);
      WithoutWords(kvs, base.value);
      NoneIsDir(base.value);
    }
  }

  lemma NodeSteady(p: Segs, info: Info, base: Option<seq<KeyVal>>)
    requires NodeTold(info) && BaseOk(base) && Paths.AllPlain(p)
    ensures Steady(NodeItem(p, info, base))
  {
    FactoredTold(info.keywords, base);
    hide VisBytes, SaysDir, IsWord, SetOk, Factored, Steady;
    NamedSteady(Walk.BaseName(p), Factored(info.keywords, base), info.isDir);
  }

  lemma NodeOk(p: Segs, info: Info, base: Option<seq<KeyVal>>)
    requires NodeTold(info) && BaseOk(base) && Paths.AllPlain(p)
    ensures LayoutOk(Layout([NodeItem(p, info, base)], [Stop(p, info.isDir, info.keywords, base)], base))
  {
    hide Steady, BaseOk, Factored, Encoded;
    var item := NodeItem(p, info, base);
    assert [item][0] == item;
    NodeSteady(p, info, base);
  }

  lemma OneOk(item: Item, cur: Option<seq<KeyVal>>)
    requires Steady(item) && BaseOk(cur) && (item.DotDot? ==> item.raw == "..")
    ensures LayoutOk(Layout([item], [], cur))
  {
    assert [item][0] == item;
  }

  lemma SetsOk(base: Option<seq<KeyVal>>, cur: Option<seq<KeyVal>>, keywords: seq<Keyword>)
    requires (base.Some? ==> SetOk(TAR_DEFAULT_SET + base.value)) && BaseOk(cur)
    ensures LayoutOk(Layout(TarFlatten.SetItems(base, cur, keywords), [], SetFor(base, cur, keywords)))
  {
    SetForOk(base, cur, keywords);
    hide Steady, SetOk, Selected;
    var sets := TarFlatten.SetItems(base, cur, keywords);
    if sets != [] {
      assert sets == [sets[0]];
      if base.Some? {
        SetSteady(sets[0].keywords);
      } else {
        UnsetSteady();
      }
      OneOk(sets[0], SetFor(base, cur, keywords));
    }
  }

  lemma UnsetSteady()
    ensures Steady(Special("/unset", []))
  {
    AsciiWord("/unset");
  }

  lemma OpeningLayoutOk(p: Segs, info: Info, cur: Option<seq<KeyVal>>, keywords: seq<Keyword>)
    requires NodeTold(info) && Paths.AllPlain(p) && BaseOk(cur)
    ensures LayoutOk(TarFlatten.Opening(p, info, cur, keywords))
  {
    hide Steady, SetOk, BaseOk, SetFor, TarFlatten.SetItems, NodeItem, LayoutOk, NodeTold;
    var o := TarFlatten.Opening(p, info, cur, keywords);
    var node := Layout([NodeItem(p, info, o.cur)], [Stop(p, info.isDir, info.keywords, o.cur)], o.cur);
    if info.isDir {
      ToldBase(info);
      SetForOk(info.base, cur, keywords);
      NodeOk(p, info, o.cur);
      CommentSteady(p);
      BlankSteady();
      OneOk(Blank, cur);
      OneOk(Heading(p), cur);
      SetsOk(info.base, cur, keywords);
      var sets := Layout(TarFlatten.SetItems(info.base, cur, keywords), [], o.cur);
      LayoutOkThen(Layout([Blank], [], cur), Layout([Heading(p)], [], cur));
      LayoutOkThen(Layout([Blank] + [Heading(p)], [] + [], cur), sets);
      LayoutOkThen(Layout([Blank] + [Heading(p)] + sets.items, [] + [] + [], o.cur), node);
      assert [Blank] + [Heading(p)] == [Blank, Heading(p)];
      assert [] + [] + [] + node.stops == node.stops;
    } else {
      NodeOk(p, info, cur);
      assert [] + node.items == node.items;
    }
  }

  lemma ToldBase(info: Info)
    requires NodeTold(info)
    ensures info.base.Some? ==> SetOk(TAR_DEFAULT_SET + info.base.value)
  {
  }

  lemma ClosingLayoutOk(p: Segs, info: Info, cur: Option<seq<KeyVal>>)
    requires Paths.AllPlain(p) && BaseOk(cur)
    ensures LayoutOk(TarFlatten.Closing(p, info, cur))
  {
    hide Steady, BaseOk;
    if info.isDir {
      CommentSteady(p);
      DotDotSteady();
      OneOk(Heading(p), cur);
      OneOk(DotDot(".."), cur);
      LayoutOkThen(Layout([Heading(p)], [], cur), Layout([DotDot("..")], [], cur));
      assert [Heading(p)] + [DotDot("..")] == [Heading(p), DotDot("..")];
    }
  }

  lemma {:induction false} FlatOk(m: Contents, p: Segs, cur: Option<seq<KeyVal>>, keywords: seq<Keyword>)
    requires WellShaped(m) && Told(m) && p in m && BaseOk(cur)
    ensures LayoutOk(FlatTree(m, p, cur, keywords))
    decreases Below(m, p), 1
  {
    PlainAt(m, p);
    hide WellShaped, LayoutOk, NodeTold, BaseOk, TarFlatten.Opening, TarFlatten.Closing, FlatList;
    var opening := TarFlatten.Opening(p, m[p], cur, keywords);
    var kids := FlatList(m, p, m[p].kids, opening.cur, keywords);
    var closing := TarFlatten.Closing(p, m[p], kids.cur);
    OpeningLayoutOk(p, m[p], cur, keywords);
    LayoutBase(opening);
    ListOkToo(m, p, m[p].kids, opening.cur, keywords);
    LayoutBase(kids);
    ClosingLayoutOk(p, m[p], kids.cur);
    LayoutOkThen(kids, closing);
    LayoutOkThen(opening, TarFlatten.Then(kids, closing));
  }

  lemma LayoutBase(l: Layout)
    requires LayoutOk(l)
    ensures BaseOk(l.cur)
  {
  }

  lemma {:induction false} ListOkToo(m: Contents, p: Segs, names: seq<Bytes>, cur: Option<seq<KeyVal>>, keywords: seq<Keyword>)
    requires WellShaped(m) && Told(m) && p in m && (forall i :: 0 <= i < |names| ==> p + [names[i]] in m) && BaseOk(cur)
    ensures LayoutOk(FlatList(m, p, names, cur, keywords))
    decreases Below(m, p), 0, |names|
  {
    hide WellShaped, LayoutOk, Told, BaseOk, FlatTree;
    if names == [] {
      NothingOk(cur);
    } else {
      var first := FlatTree(m, p + [names[0]], cur, keywords);
      BelowShrinks(m, p, names[0]);
      FlatOk(m, p + [names[0]], cur, keywords);
      LayoutBase(first);
      ListOkToo(m, p, names[1..], first.cur, keywords);
      LayoutOkThen(first, FlatList(m, p, names[1..], first.cur, keywords));
    }
  }

  lemma NothingOk(cur: Option<seq<KeyVal>>)
    requires BaseOk(cur)
    ensures LayoutOk(Layout([], [], cur))
  {
  }

  /** What is assumed of a tree and of the header comments for its manifest to read back. */
  ghost predicate Readable(m: Contents, header: seq<Bytes>, keywords: seq<Keyword>) {
    && WellShaped(m) && Told(m)
    && forall i :: 0 <= i < |header| ==> Steady(Comment(header[i]))
  }

  lemma RootThere(m: Contents)
    requires WellShaped(m)
    ensures [] in m
  {
  }

  lemma {:induction false} TarItemsOk(m: Contents, header: seq<Bytes>, keywords: seq<Keyword>)
    requires Readable(m, header, keywords)
    ensures AllSteady(TarItems(m, header, keywords)) && PlainDots(TarItems(m, header, keywords))
    ensures forall i :: 0 <= i < |FlatTree(m, [], None, keywords).stops| ==> BaseOk(FlatTree(m, [], None, keywords).stops[i].base)
  {
    RootThere(m);
    hide WellShaped, Told, FlatTree, Steady, AllSteady, PlainDots, NoBrokenLine, SetOk;
    var head, tree := Layout(Walk.HeaderItems(header), [], None), FlatTree(m, [], None, keywords);
    HeaderOk(header);
    FlatOk(m, [], None, keywords);
    LayoutOkThen(head, tree);
  }

  /** Printing the flattened tree and parsing it gives back its entries: the same names, keywords,
      positions, parents and sets, if and only if no printed line ends in a backslash and no comment is more
      than a line; only the ".." entries differ, which flatten leaves without directory. */
  lemma {:induction false} PrintedTarParses(m: Contents, header: seq<Bytes>, keywords: seq<Keyword>)
    requires Readable(m, header, keywords)
    ensures var linked := Link(TarItems(m, header, keywords)).entries;
      && (Parse(Text(Lines(SortByPos(Walk.Walked(linked))))) == Ok(linked) <==> NoBrokenLine(TarItems(m, header, keywords)))
      && SameButDots(Walk.Walked(linked), linked)
  {
    hide WellShaped, Told, FlatTree, Steady, Prints, Link, SameButDots, SortByPos, Parse, Text, Walk.Walked;
    var items := TarItems(m, header, keywords);
    TarItemsOk(m, header, keywords);
    WalkedPrint(items);
    WalkedInOrder(items);
    SortedAlready(Walk.Walked(Link(items).entries));
    SteadyParts(items);
    PrintParseExactly(items, Walk.Walked(Link(items).entries));
    WalkedSameButDots(items);
  }

  lemma {:induction false} TarLaysOut(m: Contents, header: seq<Bytes>, keywords: seq<Keyword>)
    requires WellShaped(m)
    ensures [] in m
    ensures AllStopsRecorded(Relatives(Link(TarItems(m, header, keywords)).entries), FlatTree(m, [], None, keywords).stops)
    ensures Link(TarItems(m, header, keywords)).stack == []
  {
    RootThere(m);
    hide WellShaped, FlatTree, LaysOut, LinkFrom, Relatives, AllStopsRecorded;
    var head, tree := Layout(Walk.HeaderItems(header), [], None), FlatTree(m, [], None, keywords);
    HeaderLaysOut(header, START);
    FlatLays(m, [], None, keywords, LinkFrom(START, head.items));
    LaysOutThen(START, head, tree);
    StopsFromStart(TarFlatten.Then(head, tree));
    assert [] + tree.stops == tree.stops;
  }

  /** The relative entries of the parsed manifest record exactly the nodes, one each, under their paths,
      and no directory is left open. */
  lemma {:induction false} TarRecordsNodes(m: Contents, header: seq<Bytes>, keywords: seq<Keyword>)
    requires Readable(m, header, keywords)
    ensures var linked, stops := Link(TarItems(m, header, keywords)), FlatTree(m, [], None, keywords).stops;
      && AllStopsRecorded(Relatives(linked.entries), stops) && linked.stack == []
      && StopsOnce(stops) && StopsOf(m, stops) && (forall q :: StopsAt(stops, q) <==> q in m)
      && (forall i :: 0 <= i < |stops| ==> BaseOk(stops[i].base))
  {
    RootThere(m);
    TarItemsOk(m, header, keywords);
    hide WellShaped, Told, FlatTree, TarItems, Link, Walk.HeaderItems, StopsOnce, StopsOf, StopsAt, BaseOk, Relatives, AllStopsRecorded, AllSteady, PlainDots;
    TarLaysOut(m, header, keywords);
    TreeStops(m, [], None, keywords);
  }

  lemma {:induction false} HeaderLaysOut(header: seq<Bytes>, c: Cursor)
    ensures LaysOut(c, Layout(Walk.HeaderItems(header), [], SetKeyVals(c.setLine)))
    ensures LinkFrom(c, Walk.HeaderItems(header)).stack == c.stack
    ensures SetKeyVals(LinkFrom(c, Walk.HeaderItems(header)).setLine) == SetKeyVals(c.setLine)
  {
    var cur := SetKeyVals(c.setLine);
    if header == [] {
      LaysOutNothing(c, cur);
    } else {
      var first, next := Comment(header[0]), Place(c, Comment(header[0]));
      AddedOne(c, first);
      LaysOutUnnamed(c, [first], cur);
      HeaderLaysOut(header[1..], next);
      hide LaysOut, LinkFrom;
      LaysOutThen(c, Layout([first], [], cur), Layout(Walk.HeaderItems(header[1..]), [], cur));
      LaidSet(c, Layout(Walk.HeaderItems(header), [], cur));
    }
  }

  lemma StopsFromStart(l: Layout)
    requires LaysOut(START, l)
    ensures AllStopsRecorded(Relatives(Link(l.items).entries), l.stops)
  {
    hide AllStopsRecorded, Relatives;
    assert Added(START, l.items) == Link(l.items).entries;
  }
}
