/** How the manifest of a tar tree is nested: in preorder, every entry below the entry of its directory,
    and every directory closed by one "..". */
module TarNesting {
  import opened GoBytes
  import opened Keywords
  import opened Entries
  import opened Manifest
  import opened TarTree
  import opened TarFlatten
  import opened TarPrint
  import opened WalkLaws
  import opened PrintingLaws
  import Walk
  import Paths

  // ---------- the order of the nodes ----------

  predicate Inside(q: Segs, p: Segs) {
    p <= q
  }

  /** A directory comes before what is inside it, and all of that follows without a break. */
  predicate Preorder(stops: seq<Stop>) {
    && (forall i, j :: 0 <= i < |stops| && 0 <= j < |stops| && i != j && Inside(stops[j].path, stops[i].path) ==> i < j)
    && (forall i, k, j :: 0 <= i < k < j < |stops| && Inside(stops[j].path, stops[i].path) ==> Inside(stops[k].path, stops[i].path))
  }

  predicate Outside(a: seq<Stop>, b: seq<Stop>) {
    forall i, j :: 0 <= i < |a| && 0 <= j < |b| ==> !Inside(a[i].path, b[j].path) && !Inside(b[j].path, a[i].path)
  }

  lemma {:induction false} PreorderThen(a: seq<Stop>, b: seq<Stop>)
    requires Preorder(a) && Preorder(b) && Outside(a, b)
    ensures Preorder(a + b)
  {
    hide Inside;
    var s := a + b;
    forall i, k, j | 0 <= i < k < j < |s| && Inside(s[j].path, s[i].path)
      ensures Inside(s[k].path, s[i].path)
    {
      if i < |a| {
        assert j < |a|;
      } else {
        assert s[i] == b[i - |a|] && s[k] == b[k - |a|] && s[j] == b[j - |a|];
      }
    }
    forall i, j | 0 <= i < |s| && 0 <= j < |s| && i != j && Inside(s[j].path, s[i].path)
      ensures i < j
    {
      assert i < |a| <==> j < |a|;
    }
  }

  lemma {:induction false} PreorderBelow(own: Stop, below: seq<Stop>)
    requires Preorder(below)
    requires forall i :: 0 <= i < |below| ==> Inside(below[i].path, own.path) && !Inside(own.path, below[i].path)
    ensures Preorder([own] + below)
  {
    hide Inside;
    var s := [own] + below;
    forall i, j | 0 <= i < |s| && 0 <= j < |s| && i != j && Inside(s[j].path, s[i].path)
      ensures i < j
    {
      if i > 0 {
        assert s[i] == below[i - 1];
        assert j > 0 ==> s[j] == below[j - 1];
      }
    }
    forall i, k, j | 0 <= i < k < j < |s| && Inside(s[j].path, s[i].path)
      ensures Inside(s[k].path, s[i].path)
    {
      if i > 0 {
        assert s[i] == below[i - 1] && s[k] == below[k - 1] && s[j] == below[j - 1];
      }
    }
  }

  lemma {:induction false} TreePreorder(m: Contents, p: Segs, cur: Option<seq<KeyVal>>, keywords: seq<Keyword>)
    requires WellShaped(m) && p in m
    ensures Preorder(FlatTree(m, p, cur, keywords).stops)
    decreases Below(m, p), 1
  {
    PlainAt(m, p);
    KidsDiffer(m, p);
    hide FlatTree, FlatList, TarFlatten.Opening, StopsAt, WellShaped, Preorder;
    var opening := TarFlatten.Opening(p, m[p], cur, keywords);
    var kids := FlatList(m, p, m[p].kids, opening.cur, keywords).stops;
    OwnStop(m, p, cur, keywords);
    ListStops(m, p, m[p].kids, opening.cur, keywords);
    ListPreorder(m, p, m[p].kids, opening.cur, keywords);
    StopsBelow(m, p, m[p].kids, kids);
    assert opening.stops == [opening.stops[0]];
    PreorderBelow(opening.stops[0], kids);
  }

  lemma StopsBelow(m: Contents, p: Segs, names: seq<Bytes>, stops: seq<Stop>)
    requires StopsThrough(m, p, names, stops)
    ensures forall i :: 0 <= i < |stops| ==> p <= stops[i].path && |stops[i].path| > |p| && stops[i].path[|p|] in names
  {
    forall i | 0 <= i < |stops|
      ensures p <= stops[i].path && |stops[i].path| > |p| && stops[i].path[|p|] in names
    {
      assert StopsAt(stops, stops[i].path);
    }
  }

  lemma {:induction false} ListPreorder(m: Contents, p: Segs, names: seq<Bytes>, cur: Option<seq<KeyVal>>, keywords: seq<Keyword>)
    requires WellShaped(m) && p in m && (forall i :: 0 <= i < |names| ==> p + [names[i]] in m)
    requires forall i, j :: 0 <= i < j < |names| ==> names[i] != names[j]
    ensures Preorder(FlatList(m, p, names, cur, keywords).stops)
    decreases Below(m, p), 0, |names|
  {
    if names != [] {
      hide WellShaped, FlatTree, StopsAt, Preorder, StopsThrough, Outside, StopsOnce, StopsOf;
      var k := names[0];
      var first := FlatTree(m, p + [k], cur, keywords);
      var rest := FlatList(m, p, names[1..], first.cur, keywords).stops;
      BelowShrinks(m, p, k);
      TreePreorder(m, p + [k], cur, keywords);
      ListPreorder(m, p, names[1..], first.cur, keywords);
      TreeStops(m, p + [k], cur, keywords);
      ListStops(m, p, names[1..], first.cur, keywords);
      StopsBelow(m, p, names[1..], rest);
      Apart(p, k, names[1..], first.stops, rest);
      PreorderThen(first.stops, rest);
    }
  }

  /** What is below one name and below others. */
  lemma Apart(p: Segs, k: Bytes, names: seq<Bytes>, first: seq<Stop>, rest: seq<Stop>)
    requires k !in names
    requires forall q :: StopsAt(first, q) ==> p + [k] <= q
    requires forall i :: 0 <= i < |rest| ==> p <= rest[i].path && |rest[i].path| > |p| && rest[i].path[|p|] in names
    ensures Outside(first, rest)
  {
    forall i, j | 0 <= i < |first| && 0 <= j < |rest|
      ensures !Inside(first[i].path, rest[j].path) && !Inside(rest[j].path, first[i].path)
    {
      assert StopsAt(first, first[i].path);
      assert first[i].path[|p|] == (p + [k])[|p|] == k;
    }
  }

  // ---------- the parents of the entries ----------

  /** The entry of node j is below that of its directory, which comes before it. */
  predicate BelowDirectory(relatives: seq<Entry>, stops: seq<Stop>, j: nat)
    requires j < |relatives| == |stops| && stops[j].path != []
  {
    exists i :: 0 <= i < j && stops[i].path == Front(stops[j].path) && relatives[j].parent == Some(relatives[i])
  }

  /** Every entry is below that of its directory; those in dir itself are below top. */
  ghost predicate Nested(relatives: seq<Entry>, stops: seq<Stop>, dir: Segs, top: Option<Entry>) {
    && |relatives| == |stops| && (forall j :: 0 <= j < |stops| ==> stops[j].path != [])
    && (forall j :: 0 <= j < |stops| && Front(stops[j].path) == dir ==> relatives[j].parent == top)
    && (forall j :: 0 <= j < |stops| && Front(stops[j].path) != dir ==> BelowDirectory(relatives, stops, j))
  }

  lemma {:induction false} NestedThen(ra: seq<Entry>, a: seq<Stop>, rb: seq<Entry>, b: seq<Stop>, dir: Segs, top: Option<Entry>)
    requires Nested(ra, a, dir, top) && Nested(rb, b, dir, top)
    ensures Nested(ra + rb, a + b, dir, top)
  {
    hide BelowDirectory, Front;
    var r, s := ra + rb, a + b;
    forall j | 0 <= j < |s|
      ensures s[j].path != [] && (Front(s[j].path) == dir ==> r[j].parent == top)
      ensures Front(s[j].path) != dir ==> BelowDirectory(r, s, j)
    {
      if j < |a| {
        assert s[j] == a[j] && r[j] == ra[j];
        if Front(a[j].path) != dir {
          BelowBefore(ra, a, rb, b, j);
        }
      } else {
        var k := j - |a|;
        assert s[j] == b[k] && r[j] == rb[k];
        if Front(b[k].path) != dir {
          BelowAfter(ra, a, rb, b, k);
        }
      }
    }
  }

  lemma BelowBefore(ra: seq<Entry>, a: seq<Stop>, rb: seq<Entry>, b: seq<Stop>, j: nat)
    requires |ra| == |a| && |rb| == |b| && j < |a| && a[j].path != [] && BelowDirectory(ra, a, j)
    ensures BelowDirectory(ra + rb, a + b, j)
  {
    hide Front;
    var i :| 0 <= i < j && a[i].path == Front(a[j].path) && ra[j].parent == Some(ra[i]);
    assert (a + b)[i] == a[i] && (ra + rb)[i] == ra[i];
  }

  lemma BelowAfter(ra: seq<Entry>, a: seq<Stop>, rb: seq<Entry>, b: seq<Stop>, k: nat)
    requires |ra| == |a| && |rb| == |b| && k < |b| && b[k].path != [] && BelowDirectory(rb, b, k)
    ensures BelowDirectory(ra + rb, a + b, |a| + k)
  {
    hide Front;
    var i :| 0 <= i < k && b[i].path == Front(b[k].path) && rb[k].parent == Some(rb[i]);
    assert (a + b)[|a| + i] == b[i] && (ra + rb)[|a| + i] == rb[i];
  }

  /** A node and what is below it, seen from its directory. */
  lemma {:induction false} NestedTree(e: Entry, own: Stop, below: seq<Entry>, stops: seq<Stop>, dir: Segs, top: Option<Entry>)
    requires own.path != [] && Front(own.path) == dir && e.parent == top
    requires Nested(below, stops, own.path, Some(e))
    requires forall i :: 0 <= i < |stops| ==> |stops[i].path| > |own.path|
    ensures Nested([e] + below, [own] + stops, dir, top)
  {
    var r, s := [e] + below, [own] + stops;
    forall j | 0 < j < |s|
      ensures s[j].path != [] && Front(s[j].path) != dir && BelowDirectory(r, s, j)
    {
      assert s[j] == stops[j - 1];
      NestedBelow(r, s, below, stops, j);
    }
  }

  lemma {:induction false} NestedBelow(r: seq<Entry>, s: seq<Stop>, below: seq<Entry>, stops: seq<Stop>, j: nat)
    requires |r| == |s| == |stops| + 1 && r[1..] == below && s[1..] == stops
    requires 0 < j < |s| && Nested(below, stops, s[0].path, Some(r[0]))
    ensures s[j].path != [] && BelowDirectory(r, s, j)
  {
    assert s[j] == stops[j - 1] && r[j] == below[j - 1];
    if Front(s[j].path) != s[0].path {
      assert BelowDirectory(below, stops, j - 1);
      var i :| 0 <= i < j - 1 && stops[i].path == Front(stops[j - 1].path) && below[j - 1].parent == Some(below[i]);
      assert s[i + 1] == stops[i] && r[i + 1] == below[i];
    }
  }

  // ---------- the ".." of the directories ----------

  /** The directories that ".." entries close, in order. */
  function Closed(entries: seq<Entry>): seq<Option<Entry>> {
    if entries == [] then []
    else (if entries[0].kind == DotDotType then [entries[0].parent] else []) + Closed(entries[1..])
  }

  lemma {:induction false} ClosedConcat(a: seq<Entry>, b: seq<Entry>)
    ensures Closed(a + b) == Closed(a) + Closed(b)
  {
    if a == [] {
      assert a + b == b;
    } else {
      assert (a + b)[0] == a[0] && (a + b)[1..] == a[1..] + b;
      ClosedConcat(a[1..], b);
      var head := if a[0].kind == DotDotType then [a[0].parent] else [];
      assert head + (Closed(a[1..]) + Closed(b)) == (head + Closed(a[1..])) + Closed(b);
    }
  }

  /** The entries of the directories among the nodes, in order. */
  function Opened(relatives: seq<Entry>, stops: seq<Stop>): seq<Option<Entry>>
    requires |relatives| == |stops|
  {
    if stops == [] then []
    else (if stops[0].isDir then [Some(relatives[0])] else []) + Opened(relatives[1..], stops[1..])
  }

  lemma {:induction false} OpenedConcat(ra: seq<Entry>, a: seq<Stop>, rb: seq<Entry>, b: seq<Stop>)
    requires |ra| == |a| && |rb| == |b|
    ensures Opened(ra + rb, a + b) == Opened(ra, a) + Opened(rb, b)
  {
    if a == [] {
      assert a + b == b && ra + rb == rb;
    } else {
      assert (a + b)[0] == a[0] && (a + b)[1..] == a[1..] + b && (ra + rb)[0] == ra[0] && (ra + rb)[1..] == ra[1..] + rb;
      OpenedConcat(ra[1..], a[1..], rb, b);
      var head := if a[0].isDir then [Some(ra[0])] else [];
      assert head + (Opened(ra[1..], a[1..]) + Opened(rb, b)) == (head + Opened(ra[1..], a[1..])) + Opened(rb, b);
    }
  }

  /** Each directory is closed once. */
  predicate Balanced(entries: seq<Entry>, stops: seq<Stop>) {
    |Relatives(entries)| == |stops| && multiset(Closed(entries)) == multiset(Opened(Relatives(entries), stops))
  }

  lemma {:induction false} BalancedThen(a: seq<Entry>, s: seq<Stop>, b: seq<Entry>, t: seq<Stop>)
    requires Balanced(a, s) && Balanced(b, t)
    ensures Balanced(a + b, s + t)
  {
    hide Closed, Opened, Relatives;
    RelativesConcat(a, b);
    ClosedConcat(a, b);
    OpenedConcat(Relatives(a), s, Relatives(b), t);
  }

  // ---------- one subtree ----------

  lemma {:induction false} NoneClosed(entries: seq<Entry>)
    requires forall i :: 0 <= i < |entries| ==> entries[i].kind != DotDotType
    ensures Closed(entries) == []
  {
    if entries != [] {
      NoneClosed(entries[1..]);
    }
  }

  lemma {:induction false} NoneDots(c: Cursor, items: seq<Item>)
    requires forall i :: 0 <= i < |items| ==> !items[i].DotDot?
    ensures Closed(Added(c, items)) == []
    decreases items
  {
    if items != [] {
      hide LinkFrom;
      assert items == [items[0]] + items[1..];
      AddedOne(c, items[0]);
      AddedConcat(c, [items[0]], items[1..]);
      NoneDots(Place(c, items[0]), items[1..]);
      var e := EntryAt(c, items[0]);
      NoneClosed([e]);
      ClosedConcat([e], Added(Place(c, items[0]), items[1..]));
    }
  }

  /** The opening statements add one relative entry, below the open directory; a directory's is opened. */
  lemma {:induction false} OpeningNests(c: Cursor, p: Segs, info: Info, cur: Option<seq<KeyVal>>, keywords: seq<Keyword>) returns (e: Entry)
    requires Walk.Holds(Top(c.stack), p) && Paths.AllPlain(p) && SetKeyVals(c.setLine) == cur
    ensures var o := TarFlatten.Opening(p, info, cur, keywords);
      && |o.stops| == 1 && o.stops[0].path == p && o.stops[0].isDir == info.isDir
      && Relatives(Added(c, o.items)) == [e] && Closed(Added(c, o.items)) == [] && e.parent == Top(c.stack)
      && LinkFrom(c, o.items).stack == (if info.isDir then c.stack + [e] else c.stack)
  {
    hide Walk.Holds, SetFor, TarFlatten.SetItems, NodeItem, LinkFrom, Added, Relatives, Closed, Walk.PathText;
    var o := TarFlatten.Opening(p, info, cur, keywords);
    var head: seq<Item> := if info.isDir then [Blank, Heading(p)] + TarFlatten.SetItems(info.base, cur, keywords) else [];
    var item := NodeItem(p, info, o.cur);
    HeadAdds(c, p, info, cur, keywords);
    e := EntryAt(LinkFrom(c, head), item);
    NodeAdds(LinkFrom(c, head), p, info, o.cur);
    AddedConcat(c, head, [item]);
    RelativesConcat(Added(c, head), [e]);
    ClosedConcat(Added(c, head), [e]);
    assert [] + [e] == [e];
  }

  lemma NodeAdds(c: Cursor, p: Segs, info: Info, cur: Option<seq<KeyVal>>)
    ensures var item := NodeItem(p, info, cur); var e := EntryAt(c, item);
      && Added(c, [item]) == [e] && Relatives([e]) == [e] && Closed([e]) == [] && e.parent == Top(c.stack)
      && LinkFrom(c, [item]).stack == if info.isDir then c.stack + [e] else c.stack
  {
    hide Factored, Encoded;
    var item := NodeItem(p, info, cur);
    var e := EntryAt(c, item);
    AddedOne(c, item);
    assert Relatives([e]) == [e] + Relatives([]);
    NoneClosed([e]);
  }

  lemma {:induction false} HeadAdds(c: Cursor, p: Segs, info: Info, cur: Option<seq<KeyVal>>, keywords: seq<Keyword>)
    requires SetKeyVals(c.setLine) == cur
    ensures var head: seq<Item> := if info.isDir then [Blank, Heading(p)] + TarFlatten.SetItems(info.base, cur, keywords) else [];
      && Relatives(Added(c, head)) == [] && Closed(Added(c, head)) == [] && LinkFrom(c, head).stack == c.stack
  {
    hide Selected;
    if info.isDir {
      var head := [Blank, Heading(p)] + TarFlatten.SetItems(info.base, cur, keywords);
      HeadLays(c, p, info.base, cur, keywords);
      NoneNamed(c, head);
      hide Relatives, Closed, Added, LinkFrom;
      NoRelatives(Added(c, head));
      assert forall i :: 0 <= i < |head| ==> !head[i].DotDot?;
      NoneDots(c, head);
    }
  }

  lemma {:induction false} ClosingNests(c: Cursor, p: Segs, info: Info, cur: Option<seq<KeyVal>>)
    ensures var items := TarFlatten.Closing(p, info, cur).items;
      Relatives(Added(c, items)) == [] && Closed(Added(c, items)) == if info.isDir then [Top(c.stack)] else []
  {
    if info.isDir {
      var c1 := Place(c, Heading(p));
      var a, b := EntryAt(c, Heading(p)), EntryAt(c1, DotDot(".."));
      AddedOne(c, Heading(p));
      AddedOne(c1, DotDot(".."));
      AddedConcat(c, [Heading(p)], [DotDot("..")]);
      assert [Heading(p)] + [DotDot("..")] == [Heading(p), DotDot("..")] && [a] + [b] == [a, b];
      assert [a, b][1..] == [b] && [b][1..] == [];
      hide LinkFrom, Added;
      NoRelatives([a, b]);
      assert Closed([b]) == [b.parent] + Closed([]);
    }
  }

  /** A subtree: its node first, the rest nested below it, and every directory closed. */
  lemma {:induction false} TreeNests(m: Contents, p: Segs, cur: Option<seq<KeyVal>>, keywords: seq<Keyword>, c: Cursor)
    requires WellShaped(m) && p in m && Walk.Holds(Top(c.stack), p) && SetKeyVals(c.setLine) == cur
    ensures var l := FlatTree(m, p, cur, keywords); var r := Relatives(Added(c, l.items));
      && Balanced(Added(c, l.items), l.stops)
      && |r| > 0 && |l.stops| > 0 && l.stops[0].path == p && r[0].parent == Top(c.stack) && Nested(r[1..], l.stops[1..], p, Some(r[0]))
    decreases Below(m, p), 1
  {
    PlainAt(m, p);
    FlatParts(m, p, cur, keywords);
    hide WellShaped, LaysOut, Walk.Holds, TarFlatten.Opening, TarFlatten.Closing, FlatList, FlatTree, LinkFrom, Path, Nested, Balanced, Relatives, Closed, Added;
    var opening := TarFlatten.Opening(p, m[p], cur, keywords);
    var kids := FlatList(m, p, m[p].kids, opening.cur, keywords);
    var closing := TarFlatten.Closing(p, m[p], kids.cur);
    var c1 := LinkFrom(c, opening.items);
    var c2 := LinkFrom(c1, kids.items);
    var e := OpeningNests(c, p, m[p], cur, keywords);
    OpenedBelow(c, p, m[p], cur, keywords, e);
    ListLaysOut(m, p, m[p].kids, opening.cur, keywords, c1);
    ListNests(m, p, m[p].kids, opening.cur, keywords, c1, Some(e));
    ClosingNests(c2, p, m[p], kids.cur);
    AddedConcat(c1, kids.items, closing.items);
    AddedConcat(c, opening.items, kids.items + closing.items);
    WholeTree(e, opening.stops[0], Added(c, opening.items), Added(c1, kids.items), kids.stops, Added(c2, closing.items));
  }

  lemma FlatParts(m: Contents, p: Segs, cur: Option<seq<KeyVal>>, keywords: seq<Keyword>)
    requires WellShaped(m) && p in m
    ensures ShapedAt(m, p)
    ensures var opening := TarFlatten.Opening(p, m[p], cur, keywords);
      var kids := FlatList(m, p, m[p].kids, opening.cur, keywords);
      var l := FlatTree(m, p, cur, keywords);
      && l.items == opening.items + (kids.items + TarFlatten.Closing(p, m[p], kids.cur).items)
      && l.stops == [opening.stops[0]] + kids.stops
  {
    hide FlatList, WellShaped, SetFor, NodeItem;
    PlainAt(m, p);
    var kids := FlatList(m, p, m[p].kids, TarFlatten.Opening(p, m[p], cur, keywords).cur, keywords);
    assert kids.stops + [] == kids.stops;
  }

  /** After the opening of a directory it is open, under its set. */
  lemma {:induction false} OpenedBelow(c: Cursor, p: Segs, info: Info, cur: Option<seq<KeyVal>>, keywords: seq<Keyword>, e: Entry)
    requires Walk.Holds(Top(c.stack), p) && Paths.AllPlain(p) && SetKeyVals(c.setLine) == cur
    requires LinkFrom(c, TarFlatten.Opening(p, info, cur, keywords).items).stack == if info.isDir then c.stack + [e] else c.stack
    ensures var o := TarFlatten.Opening(p, info, cur, keywords); var after := LinkFrom(c, o.items);
      && SetKeyVals(after.setLine) == o.cur
      && (info.isDir ==> Top(after.stack) == Some(e) && Path(e) == Ok(Walk.PathText(p)))
  {
    hide Walk.Holds, TarFlatten.Opening, LinkFrom, LaysOut, Path;
    var o := TarFlatten.Opening(p, info, cur, keywords);
    OpeningLays(c, p, info, cur, keywords);
    LaidSet(c, o);
  }

  lemma {:induction false} WholeTree(e: Entry, own: Stop, opening: seq<Entry>, kids: seq<Entry>, stops: seq<Stop>, closing: seq<Entry>)
    requires Relatives(opening) == [e] && Closed(opening) == [] && Balanced(kids, stops)
    requires Relatives(closing) == [] && Closed(closing) == if own.isDir then [Some(e)] else []
    ensures Relatives(opening + (kids + closing)) == [e] + Relatives(kids)
    ensures Balanced(opening + (kids + closing), [own] + stops)
  {
    hide Relatives, Closed;
    RelativesConcat(kids, closing);
    RelativesConcat(opening, kids + closing);
    ClosedConcat(kids, closing);
    ClosedConcat(opening, kids + closing);
    var r, s := [e] + Relatives(kids), [own] + stops;
    assert r[1..] == Relatives(kids) && s[1..] == stops;
    assert Relatives(kids) + [] == Relatives(kids);
    assert Opened(r, s) == (if own.isDir then [Some(e)] else []) + Opened(Relatives(kids), stops);
  }

  lemma {:induction false} ListNests(m: Contents, p: Segs, names: seq<Bytes>, cur: Option<seq<KeyVal>>, keywords: seq<Keyword>, c: Cursor,
                                     top: Option<Entry>)
    requires WellShaped(m) && p in m && forall i :: 0 <= i < |names| ==> p + [names[i]] in m
    requires names != [] ==> top.Some? && Top(c.stack) == top && Path(top.value) == Ok(Walk.PathText(p))
    requires SetKeyVals(c.setLine) == cur
    ensures var l := FlatList(m, p, names, cur, keywords);
      Balanced(Added(c, l.items), l.stops) && Nested(Relatives(Added(c, l.items)), l.stops, p, top)
    decreases Below(m, p), 0, |names|
  {
    hide WellShaped, LaysOut, FlatTree, LinkFrom, Path, Nested, Balanced, Relatives, Closed, Added;
    if names == [] {
      NothingNests(c, p, top);
    } else {
      var q := p + [names[0]];
      var first := FlatTree(m, q, cur, keywords);
      var rest := FlatList(m, p, names[1..], first.cur, keywords);
      BelowShrinks(m, p, names[0]);
      assert q[..|q| - 1] == p;
      FlatLays(m, q, cur, keywords, c);
      LaidSet(c, first);
      var next := LinkFrom(c, first.items);
      TreeNests(m, q, cur, keywords, c);
      ListNests(m, p, names[1..], first.cur, keywords, next, top);
      var r := Relatives(Added(c, first.items));
      StopsLonger(m, q, cur, keywords);
      BalancedFacts(Added(c, first.items), first.stops);
      NestedTree(r[0], first.stops[0], r[1..], first.stops[1..], p, top);
      assert r == [r[0]] + r[1..] && first.stops == [first.stops[0]] + first.stops[1..];
      AddedConcat(c, first.items, rest.items);
      RelativesConcat(Added(c, first.items), Added(next, rest.items));
      BalancedThen(Added(c, first.items), first.stops, Added(next, rest.items), rest.stops);
      NestedThen(r, first.stops, Relatives(Added(next, rest.items)), rest.stops, p, top);
    }
  }

  lemma BalancedFacts(entries: seq<Entry>, stops: seq<Stop>)
    requires Balanced(entries, stops)
    ensures |Relatives(entries)| == |stops|
  {
  }

  lemma NothingNests(c: Cursor, p: Segs, top: Option<Entry>)
    ensures Balanced(Added(c, []), []) && Nested(Relatives(Added(c, [])), [], p, top)
  {
    assert Added(c, []) == [];
  }

  lemma LongerBelow(p: Segs, q: Segs)
    requires p <= q && q != p
    ensures |q| > |p|
  {
    assert q[..|q|] == q;
  }

  /** What is below a node has longer paths. */
  lemma {:induction false} StopsLonger(m: Contents, p: Segs, cur: Option<seq<KeyVal>>, keywords: seq<Keyword>)
    requires WellShaped(m) && p in m
    ensures var stops := FlatTree(m, p, cur, keywords).stops;
      stops != [] && stops[0].path == p && forall i :: 0 < i < |stops| ==> |stops[i].path| > |p|
  {
    hide FlatTree, WellShaped;
    TreeStops(m, p, cur, keywords);
    var stops := FlatTree(m, p, cur, keywords).stops;
    forall i | 0 < i < |stops|
      ensures |stops[i].path| > |p|
    {
      assert StopsAt(stops, stops[i].path) && p <= stops[i].path && stops[i].path != p;
      LongerBelow(p, stops[i].path);
    }
  }

  // ---------- the whole manifest ----------

  lemma {:induction false} HeaderAdds(c: Cursor, header: seq<Bytes>)
    ensures var items := Walk.HeaderItems(header);
      Relatives(Added(c, items)) == [] && Closed(Added(c, items)) == []
  {
    hide LinkFrom, Added;
    var items := Walk.HeaderItems(header);
    AllComments(header);
    NoneNamed(c, items);
    NoRelatives(Added(c, items));
    NoneDots(c, items);
  }

  lemma {:induction false} AllComments(header: seq<Bytes>)
    ensures forall i :: 0 <= i < |Walk.HeaderItems(header)| ==> Walk.HeaderItems(header)[i].Comment?
  {
    if header != [] {
      AllComments(header[1..]);
    }
  }

  /** The relative entries come in the order of their positions, so no two are the same. */
  predicate Distinct(entries: seq<Entry>) {
    forall i, j :: 0 <= i < j < |entries| ==> entries[i] != entries[j]
  }

  lemma {:induction false} RelativesDistinct(entries: seq<Entry>)
    requires forall i, j :: 0 <= i < j < |entries| ==> entries[i].pos < entries[j].pos
    ensures Distinct(Relatives(entries))
    ensures forall i :: 0 <= i < |Relatives(entries)| ==> Relatives(entries)[i] in entries
  {
    if entries != [] {
      var rest := entries[1..];
      RelativesDistinct(rest);
      forall i | 0 <= i < |Relatives(rest)|
        ensures Relatives(rest)[i] in rest && Relatives(rest)[i] != entries[0]
      {
        var k :| 0 <= k < |rest| && rest[k] == Relatives(rest)[i];
        assert rest[k] == entries[k + 1];
      }
    }
  }

  lemma {:induction false} OpenedOnce(relatives: seq<Entry>, stops: seq<Stop>, j: nat)
    requires |relatives| == |stops| && Distinct(relatives) && j < |stops|
    ensures multiset(Opened(relatives, stops))[Some(relatives[j])] == if stops[j].isDir then 1 else 0
  {
    var r, s := relatives[1..], stops[1..];
    var head := if stops[0].isDir then [Some(relatives[0])] else [];
    assert Opened(relatives, stops) == head + Opened(r, s);
    if j == 0 {
      NotOpened(r, s, relatives[0]);
    } else {
      assert r[j - 1] == relatives[j] && s[j - 1] == stops[j];
      OpenedOnce(r, s, j - 1);
    }
  }

  lemma {:induction false} NotOpened(relatives: seq<Entry>, stops: seq<Stop>, e: Entry)
    requires |relatives| == |stops| && forall i :: 0 <= i < |relatives| ==> relatives[i] != e
    ensures multiset(Opened(relatives, stops))[Some(e)] == 0
  {
    if stops != [] {
      NotOpened(relatives[1..], stops[1..], e);
      var head := if stops[0].isDir then [Some(relatives[0])] else [];
      assert Opened(relatives, stops) == head + Opened(relatives[1..], stops[1..]);
    }
  }

  /** What the manifest of a tar tree is nested like. */
  ghost predicate NestsLike(entries: seq<Entry>, stops: seq<Stop>) {
    var relatives := Relatives(entries);
    && |relatives| == |stops| && Preorder(stops)
    // every entry is below that of its directory, and the root below none
    && (forall j :: 0 <= j < |stops| ==> if stops[j].path == [] then relatives[j].parent == None else BelowDirectory(relatives, stops, j))
    // every directory is closed by exactly one "..", and every ".." closes one of them
    && (forall j :: 0 <= j < |stops| ==> multiset(Closed(entries))[Some(relatives[j])] == if stops[j].isDir then 1 else 0)
    && multiset(Closed(entries)) == multiset(Opened(relatives, stops))
  }

  lemma {:induction false} TarNests(m: Contents, header: seq<Bytes>, keywords: seq<Keyword>)
    requires WellShaped(m)
    ensures [] in m && NestsLike(Link(TarItems(m, header, keywords)).entries, FlatTree(m, [], None, keywords).stops)
  {
    RootThere(m);
    hide WellShaped, FlatTree, LinkFrom, Relatives, Closed, Added, Balanced, Preorder, Nested, LaysOut, Opened;
    var head, tree := Walk.HeaderItems(header), FlatTree(m, [], None, keywords);
    var c := LinkFrom(START, head);
    HeaderLaysOut(header, START);
    HeaderAdds(START, header);
    TreePreorder(m, [], None, keywords);
    TreeNests(m, [], None, keywords, c);
    AddedConcat(START, head, tree.items);
    RelativesConcat(Added(START, head), Added(c, tree.items));
    ClosedConcat(Added(START, head), Added(c, tree.items));
    var entries := Link(TarItems(m, header, keywords)).entries;
    FromStart(head + tree.items);
    StopsLonger(m, [], None, keywords);
    RootNests(entries, Added(c, tree.items), tree.stops);
  }

  lemma FromStart(items: seq<Item>)
    ensures Added(START, items) == Link(items).entries
    ensures forall i, j :: 0 <= i < j < |Link(items).entries| ==> Link(items).entries[i].pos < Link(items).entries[j].pos
  {
    hide LinkFrom, Link;
    LinkLength(items);
    forall i | 0 <= i < |items|
      ensures Link(items).entries[i].pos == i
    {
      ParentsBefore(items, i);
    }
    StartAdds(items);
  }

  lemma StartAdds(items: seq<Item>)
    ensures Added(START, items) == Link(items).entries
  {
  }

  lemma {:induction false} RootNests(entries: seq<Entry>, added: seq<Entry>, stops: seq<Stop>)
    requires Relatives(entries) == [] + Relatives(added) && Closed(entries) == [] + Closed(added)
    requires forall i, j :: 0 <= i < j < |entries| ==> entries[i].pos < entries[j].pos
    requires Balanced(added, stops) && Preorder(stops)
    requires stops != [] && stops[0].path == [] && forall i :: 0 < i < |stops| ==> |stops[i].path| > 0
    requires var r := Relatives(added); |r| > 0 && r[0].parent == None && Nested(r[1..], stops[1..], [], Some(r[0]))
    ensures NestsLike(entries, stops)
  {
    hide Relatives, Closed, Preorder, Opened, Nested, BelowDirectory;
    assert [] + Relatives(added) == Relatives(added) && [] + Closed(added) == Closed(added);
    var r := Relatives(entries);
    RelativesDistinct(entries);
    forall j | 0 <= j < |stops|
      ensures if stops[j].path == [] then r[j].parent == None else BelowDirectory(r, stops, j)
      ensures multiset(Closed(entries))[Some(r[j])] == if stops[j].isDir then 1 else 0
    {
      if j > 0 {
        NestedBelow(r, stops, r[1..], stops[1..], j);
      }
      OpenedOnce(r, stops, j);
    }
  }

  /** The parsed manifest describes the tree: its relative entries record, in preorder, exactly the nodes,
      one each, under their paths; each is below the entry of its directory; every directory is closed by
      exactly one "..", and none is left open. */
  lemma {:induction false} TarDescribesTree(m: Contents, header: seq<Bytes>, keywords: seq<Keyword>)
    requires Readable(m, header, keywords)
    ensures [] in m
    ensures var linked, stops := Link(TarItems(m, header, keywords)), FlatTree(m, [], None, keywords).stops;
      && AllStopsRecorded(Relatives(linked.entries), stops) && NestsLike(linked.entries, stops) && linked.stack == []
      && StopsOnce(stops) && StopsOf(m, stops) && (forall q :: StopsAt(stops, q) <==> q in m)
  {
    hide FlatTree, TarItems, Link, Relatives, AllStopsRecorded, StopsOnce, StopsOf, StopsAt, NestsLike;
    TarRecordsNodes(m, header, keywords);
    assert WellShaped(m);
    TarNests(m, header, keywords);
  }
}
