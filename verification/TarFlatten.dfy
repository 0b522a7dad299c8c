/** The tar tree laid out as a manifest, tar.go:297-378: a preorder walk that changes the nodes as it
    prints them, with /set lines for directories that had a header and /unset for those that had none. */
module TarFlatten {
  import opened GoBytes
  import opened Keywords
  import opened Entries
  import opened Manifest
  import opened TarTree
  import Paths
  import Walk

  const TAR_DEFAULT_SET: seq<KeyVal> := ["type=file", "flags=none", "mode=0664"]

  // ---------- what is laid out ----------

  /** What a directory lists is there, once, and what is there is listed. */
  ghost predicate ShapedAt(m: Contents, p: Segs)
    requires p in m
  {
    && Paths.AllPlain(p) && (m[p].kids != [] ==> m[p].isDir)
    && (forall i :: 0 <= i < |m[p].kids| ==> p + [m[p].kids[i]] in m)
    && (forall i, j :: 0 <= i < j < |m[p].kids| ==> m[p].kids[i] != m[p].kids[j])
    && (p != [] ==> Front(p) in m && Walk.BaseName(p) in m[Front(p)].kids)
  }

  /** Names and paths agree. */
  ghost predicate WellShaped(m: Contents) {
    [] in m && forall p {:trigger ShapedAt(m, p)} :: p in m ==> ShapedAt(m, p)
  }

  ghost function Below(m: Contents, p: Segs): set<Segs> {
    set q | q in m && p <= q
  }

  lemma BelowShrinks(m: Contents, p: Segs, k: Bytes)
    requires p in m
    ensures Below(m, p + [k]) < Below(m, p)
  {
    assert p in Below(m, p) && p !in Below(m, p + [k]);
    forall q | q in Below(m, p + [k])
      ensures q in Below(m, p)
    {
      assert q[..|p|] == (p + [k])[..|p|];
    }
  }

  /** A node laid out, with its keywords and the set it is laid out under. */
  datatype Stop = Stop(path: Segs, isDir: bool, keywords: seq<KeyVal>, base: Option<seq<KeyVal>>)

  datatype Layout = Layout(items: seq<Item>, stops: seq<Stop>, cur: Option<seq<KeyVal>>)

  function Then(a: Layout, b: Layout): Layout {
    Layout(a.items + b.items, a.stops + b.stops, b.cur)
  }

  /** The set in force inside a directory, given the one outside. */
  function SetFor(base: Option<seq<KeyVal>>, cur: Option<seq<KeyVal>>, keywords: seq<Keyword>): Option<seq<KeyVal>> {
    match base
    case None => None
    case Some(b) =>
      if cur.None? || exists i :: 0 <= i < |b| && b[i] !in cur.value then Some(Selected(TAR_DEFAULT_SET + b, keywords)) else cur
  }

  function SetItems(base: Option<seq<KeyVal>>, cur: Option<seq<KeyVal>>, keywords: seq<Keyword>): seq<Item> {
    match base
    case None => if cur.Some? then [Special("/unset", [])] else []
    case Some(b) =>
      if cur.None? || exists i :: 0 <= i < |b| && b[i] !in cur.value
      then [Special("/set", Selected(TAR_DEFAULT_SET + b, keywords))] else []
  }

  /** The keywords printed for a node under a set. */
  function Factored(kvs: seq<KeyVal>, cur: Option<seq<KeyVal>>): seq<KeyVal> {
    match cur
    case None => kvs
    case Some(base) => if kvs == [] then base else Without(kvs, base)
  }

  function Heading(p: Segs): Item {
    Comment("# " + Walk.PathText(p))
  }

  function NodeItem(p: Segs, info: Info, cur: Option<seq<KeyVal>>): Item {
    Named(false, Encoded(Walk.BaseName(p)), Factored(info.keywords, cur), info.isDir)
  }

  function Opening(p: Segs, info: Info, cur: Option<seq<KeyVal>>, keywords: seq<Keyword>): Layout {
    var now := if info.isDir then SetFor(info.base, cur, keywords) else cur;
    Layout((if info.isDir then [Blank, Heading(p)] + SetItems(info.base, cur, keywords) else []) + [NodeItem(p, info, now)],
           [Stop(p, info.isDir, info.keywords, now)], now)
  }

  function Closing(p: Segs, info: Info, cur: Option<seq<KeyVal>>): Layout {
    Layout(if info.isDir then [Heading(p), DotDot("..")] else [], [], cur)
  }

  ghost function FlatTree(m: Contents, p: Segs, cur: Option<seq<KeyVal>>, keywords: seq<Keyword>): Layout
    requires WellShaped(m) && p in m
    decreases Below(m, p), 1
  {
    assert ShapedAt(m, p);
    var opening := Opening(p, m[p], cur, keywords);
    var kids := FlatList(m, p, m[p].kids, opening.cur, keywords);
    Then(opening, Then(kids, Closing(p, m[p], kids.cur)))
  }

  ghost function FlatList(m: Contents, p: Segs, names: seq<Bytes>, cur: Option<seq<KeyVal>>, keywords: seq<Keyword>): Layout
    requires WellShaped(m) && p in m && forall i :: 0 <= i < |names| ==> p + [names[i]] in m
    decreases Below(m, p), 0, |names|
  {
    if names == [] then Layout([], [], cur)
    else
      BelowShrinks(m, p, names[0]);
      var first := FlatTree(m, p + [names[0]], cur, keywords);
      Then(first, FlatList(m, p, names[1..], first.cur, keywords))
  }

  // ---------- flatten ----------

  /** The entries laid out so far and the set in force; above is the directory being laid out. */
  ghost predicate Mirrors(c: Creator, items: seq<Item>, above: Option<Entry>)
    reads c
  {
    c.entries == Walk.Walked(Link(items).entries) && Tracks(items, above, c.curSet)
  }

  /** Appends the entry of the next statement. */
  method Append(c: Creator, e: Entry, ghost items: seq<Item>, ghost item: Item, ghost above: Option<Entry>)
    requires Mirrors(c, items, above) && !item.Special?
    requires e == Walk.WalkedForm(EntryAt(Link(items), item))
    modifies c`entries
    ensures Mirrors(c, items + [item], NextOpen(EntryAt(Link(items), item), item, above))
  {
    hide Link, Tracks, EntryAt, Walk.WalkedForm;
    TracksNext(items, above, c.curSet, item);
    c.entries := c.entries + [e];
  }

  /** Appends a /set or /unset line, which changes the set in force. */
  method AppendSet(c: Creator, e: Entry, ghost items: seq<Item>, ghost item: Item, ghost above: Option<Entry>)
    requires Mirrors(c, items, above) && item.Special? && (item.name == "/set" || item.name == "/unset")
    requires e == EntryAt(Link(items), item)
    modifies c`entries, c`curSet
    ensures Mirrors(c, items + [item], above)
    ensures c.curSet == if item.name == "/set" then Some(e) else None
  {
    TracksNext(items, above, c.curSet, item);
    assert Walk.WalkedForm(e) == e && e.name == item.name;
    hide Link, Tracks, EntryAt, Walk.WalkedForm;
    c.entries := c.entries + [e];
    c.curSet := if e.name == "/set" then Some(e) else None;
  }

  lemma EntriesSoFar(c: Creator, items: seq<Item>, above: Option<Entry>)
    requires Mirrors(c, items, above)
    ensures |c.entries| == |items| && Top(Link(items).stack) == above && Link(items).setLine == c.curSet
    ensures |Link(items).entries| == |items|
  {
    TracksNext(items, above, c.curSet, Blank);
  }

  /** The set a directory needs. */
  method ChooseSet(c: Creator, base: Option<seq<KeyVal>>, keywords: seq<Keyword>, ghost items: seq<Item>, ghost above: Option<Entry>)
    requires Mirrors(c, items, above)
    modifies c`entries, c`curSet
    ensures Mirrors(c, items + SetItems(base, SetKeyVals(old(c.curSet)), keywords), above)
    ensures SetKeyVals(c.curSet) == SetFor(base, SetKeyVals(old(c.curSet)), keywords)
  {
    hide Mirrors, Selected;
    EntriesSoFar(c, items, above);
    assert items + [] == items;
    if base.Some? {
      var consolidatedKeys := KeyvalSelector(TAR_DEFAULT_SET + base.value, keywords);
      var needNewSet := c.curSet.None?;
      if c.curSet.Some? {
        for i := 0 to |base.value|
          invariant needNewSet <==> exists j :: 0 <= j < i && base.value[j] !in c.curSet.value.keywords
        {
          if base.value[i] !in c.curSet.value.keywords {
            needNewSet := true;
          }
        }
      }
      if needNewSet {
        AppendSet(c, Entry(None, None, |c.entries|, "", "/set", consolidatedKeys, SpecialType), items,
                  Special("/set", consolidatedKeys), above);
      }
    } else if c.curSet.Some? {
      AppendSet(c, Entry(None, None, |c.entries|, "", "/unset", [], SpecialType), items, Special("/unset", []), above);
    }
  }

  /** Blank line, comment, and /set or /unset. */
  method EnterDir(n: Node, c: Creator, keywords: seq<Keyword>, ghost above: Option<Entry>, ghost p: Segs, ghost items: seq<Item>)
    returns (ghost now: seq<Item>)
    requires Mirrors(c, items, above) && n.comment == "# " + Walk.PathText(p)
    modifies c`entries, c`curSet
    ensures now == items + ([Blank, Heading(p)] + SetItems(n.base, SetKeyVals(old(c.curSet)), keywords)) && Mirrors(c, now, above)
    ensures SetKeyVals(c.curSet) == SetFor(n.base, SetKeyVals(old(c.curSet)), keywords)
  {
    hide Mirrors, SetItems, SetFor, Walk.PathText;
    EntriesSoFar(c, items, above);
    Append(c, Entry(None, None, |c.entries|, "", "", [], BlankType), items, Blank, above);
    EntriesSoFar(c, items + [Blank], above);
    Append(c, Entry(None, None, |c.entries|, n.comment, "", [], CommentType), items + [Blank], Heading(p), above);
    now := items + [Blank] + [Heading(p)];
    ghost var more := SetItems(n.base, SetKeyVals(c.curSet), keywords);
    ChooseSet(c, n.base, keywords, now, above);
    assert now + more == items + ([Blank, Heading(p)] + more);
    now := now + more;
  }

  /** What a directory starts with, and the entry, which is then the directory being laid out.
      The node keeps the keywords and the set it was printed with. */
  method OpenNode(n: Node, c: Creator, keywords: seq<Keyword>, above: Option<Entry>,
                  ghost p: Segs, ghost info: Info, ghost items: seq<Item>)
    returns (inner: Option<Entry>, ghost now: seq<Item>)
    requires Mirrors(c, items, above)
    requires n.name == Encoded(Walk.BaseName(p)) && n.isDir == info.isDir && n.keywords == info.keywords && n.base == info.base
    requires n.isDir ==> n.comment == "# " + Walk.PathText(p)
    modifies c`entries, c`curSet, n`keywords, n`base
    ensures now == items + Opening(p, info, SetKeyVals(old(c.curSet)), keywords).items && Mirrors(c, now, inner)
    ensures SetKeyVals(c.curSet) == Opening(p, info, SetKeyVals(old(c.curSet)), keywords).cur
    ensures if n.isDir then inner.Some? && inner.value.parent == above else inner == above
  {
    hide Mirrors, Encoded, SetItems, SetFor, Walk.PathText, Walk.BaseName;
    now := items;
    ghost var before := SetKeyVals(c.curSet);
    if n.isDir {
      now := EnterDir(n, c, keywords, above, p, items);
    }
    EntriesSoFar(c, now, above);
    n.base := SetKeyVals(c.curSet);
    if c.curSet.Some? {
      n.keywords := KeyValDifference(n.keywords, c.curSet.value.keywords);
    }
    var e := Entry(above, c.curSet, |c.entries|, "", n.name, n.keywords, RelativeType);
    Append(c, e, now, NodeItem(p, info, SetKeyVals(c.curSet)), above);
    OpeningIs(p, info, before, keywords, items);
    now := now + [NodeItem(p, info, SetKeyVals(c.curSet))];
    inner := if n.isDir then Some(e) else above;
  }

  lemma OpeningIs(p: Segs, info: Info, cur: Option<seq<KeyVal>>, keywords: seq<Keyword>, items: seq<Item>)
    ensures var o := Opening(p, info, cur, keywords);
      && o.cur == (if info.isDir then SetFor(info.base, cur, keywords) else cur)
      && items + o.items == (if info.isDir then items + ([Blank, Heading(p)] + SetItems(info.base, cur, keywords)) else items)
                            + [NodeItem(p, info, o.cur)]
  {
    hide SetItems, SetFor, NodeItem, Heading;
    var o := Opening(p, info, cur, keywords);
    if !info.isDir {
      assert [] + [NodeItem(p, info, o.cur)] == [NodeItem(p, info, o.cur)];
    }
  }

  /** The comment again, and the "..". */
  method CloseNode(n: Node, c: Creator, ghost inner: Option<Entry>, ghost p: Segs, ghost info: Info, ghost items: seq<Item>)
    returns (ghost now: seq<Item>)
    requires Mirrors(c, items, inner) && n.isDir == info.isDir
    requires n.isDir ==> inner.Some? && n.comment == "# " + Walk.PathText(p)
    modifies c`entries
    ensures now == items + Closing(p, info, SetKeyVals(c.curSet)).items
    ensures Mirrors(c, now, if n.isDir then inner.value.parent else inner)
  {
    hide Mirrors, Walk.PathText;
    now := items;
    assert items + [] == items;
    if n.isDir {
      EntriesSoFar(c, now, inner);
      Append(c, Entry(None, None, |c.entries|, n.comment, "", [], CommentType), now, Heading(p), inner);
      now := now + [Heading(p)];
      EntriesSoFar(c, now, inner);
      Append(c, Entry(None, None, |c.entries|, "", "..", [], DotDotType), now, DotDot(".."), inner);
      now := now + [DotDot("..")];
      assert now == items + [Heading(p), DotDot("..")];
    }
  }

  // ---------- the nodes below a path ----------

  /** The node at q is linked and filled as the contents say. */
  ghost predicate ShowsAt(t: Tree, m: Contents, q: Segs)
    requires q in m
    reads t, if q in t.nodes then {t.nodes[q]} else {}
  {
    && q in t.nodes
    && var n := t.nodes[q];
      && n.path == q && n.name == Encoded(Walk.BaseName(q)) && n.isDir == m[q].isDir
      && (n.isDir ==> n.comment == "# " + Walk.PathText(q))
      && n.keywords == m[q].keywords && n.base == m[q].base
      && |n.children| == |m[q].kids|
      && forall i :: 0 <= i < |n.children| ==> q + [m[q].kids[i]] in t.nodes && n.children[i] == t.nodes[q + [m[q].kids[i]]]
  }

  ghost predicate Shows(t: Tree, m: Contents, p: Segs)
    reads t, NodesBelow(t, m, p)
  {
    forall q :: q in Below(m, p) ==> ShowsAt(t, m, q)
  }

  ghost function NodesBelow(t: Tree, m: Contents, p: Segs): set<Node>
    reads t
  {
    set q | q in Below(m, p) && q in t.nodes :: t.nodes[q]
  }

  /** The children of the node at p are the nodes of the names it lists. */
  ghost predicate Children(t: Tree, m: Contents, p: Segs)
    requires p in m && p in t.nodes
    reads t, t.nodes[p]
  {
    var n, kids := t.nodes[p], m[p].kids;
    |n.children| == |kids| && forall i :: 0 <= i < |kids| ==> p + [kids[i]] in t.nodes && n.children[i] == t.nodes[p + [kids[i]]]
  }

  lemma ChildShown(t: Tree, m: Contents, p: Segs, k: Bytes)
    requires p in m && p in t.nodes && p + [k] in m && Shows(t, m, p)
    ensures Shows(t, m, p + [k]) && NodesBelow(t, m, p + [k]) <= NodesBelow(t, m, p) && t.nodes[p] !in NodesBelow(t, m, p + [k])
  {
    var q := p + [k];
    assert p in Below(m, p) && ShowsAt(t, m, p);
    BelowShrinks(m, p, k);
    forall r | r in Below(m, q)
      ensures ShowsAt(t, m, r) && r != p
    {
      assert r in Below(m, p);
    }
  }

  lemma NodeShown(t: Tree, m: Contents, p: Segs)
    requires p in m && Shows(t, m, p)
    ensures p in t.nodes && ShowsAt(t, m, p) && Children(t, m, p) && t.nodes[p] in NodesBelow(t, m, p)
  {
    assert p in Below(m, p) && ShowsAt(t, m, p);
  }

  lemma KidsIn(m: Contents, p: Segs)
    requires WellShaped(m) && p in m
    ensures ShapedAt(m, p) && forall i :: 0 <= i < |m[p].kids| ==> p + [m[p].kids[i]] in m
  {
  }

  lemma KidIn(m: Contents, p: Segs, i: nat)
    requires WellShaped(m) && p in m && i < |m[p].kids|
    ensures p + [m[p].kids[i]] in m
    ensures forall j :: 0 <= j < |m[p].kids| && j != i ==> m[p].kids[j] != m[p].kids[i]
  {
    assert ShapedAt(m, p);
  }

  /** Two subtrees of a directory share no node. */
  lemma Apart(t: Tree, m: Contents, p: Segs, j: Bytes, k: Bytes)
    requires j != k && Shows(t, m, p) && p + [j] in m && p + [k] in m
    ensures NodesBelow(t, m, p + [j]) !! NodesBelow(t, m, p + [k])
  {
    forall q, r | q in Below(m, p + [j]) && r in Below(m, p + [k]) && q in t.nodes && r in t.nodes
      ensures t.nodes[q] != t.nodes[r]
    {
      assert q[..|p| + 1] == p + [j] && r[..|p| + 1] == p + [k];
      assert q[|p|] == j && r[|p|] == k;
      assert q in Below(m, p) && r in Below(m, p);
      assert ShowsAt(t, m, q) && ShowsAt(t, m, r);
    }
  }

  lemma {:induction false} ListStep(m: Contents, p: Segs, names: seq<Bytes>, i: nat, done: Layout, cur: Option<seq<KeyVal>>, keywords: seq<Keyword>)
    requires WellShaped(m) && p in m && (forall i :: 0 <= i < |names| ==> p + [names[i]] in m) && i < |names|
    requires FlatList(m, p, names, cur, keywords) == Then(done, FlatList(m, p, names[i..], done.cur, keywords))
    ensures var next := Then(done, FlatTree(m, p + [names[i]], done.cur, keywords));
      FlatList(m, p, names, cur, keywords) == Then(next, FlatList(m, p, names[i + 1..], next.cur, keywords))
  {
    hide FlatTree, WellShaped;
    assert names[i..][0] == names[i] && names[i..][1..] == names[i + 1..];
    var first := FlatTree(m, p + [names[i]], done.cur, keywords);
    ThenAssociates(done, first, FlatList(m, p, names[i + 1..], first.cur, keywords));
  }

  lemma ThenAssociates(a: Layout, b: Layout, c: Layout)
    ensures Then(a, Then(b, c)) == Then(Then(a, b), c)
  {
    assert a.items + (b.items + c.items) == (a.items + b.items) + c.items;
    assert a.stops + (b.stops + c.stops) == (a.stops + b.stops) + c.stops;
  }

  lemma ListStart(m: Contents, p: Segs, cur: Option<seq<KeyVal>>, keywords: seq<Keyword>)
    requires WellShaped(m) && p in m
    ensures ShapedAt(m, p)
    ensures var l := FlatList(m, p, m[p].kids, cur, keywords);
      m[p].kids[0..] == m[p].kids && l == Then(Layout([], [], cur), l)
    ensures FlatList(m, p, [], cur, keywords) == Layout([], [], cur)
  {
    KidsIn(m, p);
    hide WellShaped;
    var l := FlatList(m, p, m[p].kids, cur, keywords);
    assert [] + l.items == l.items && [] + l.stops == l.stops;
  }

  lemma ThenNothing(a: Layout)
    ensures Then(a, Layout([], [], a.cur)) == a
  {
    assert a.items + [] == a.items && a.stops + [] == a.stops;
  }

  /** The loop over the children. */
  method FlattenChildren(t: Tree, n: Node, c: Creator, keywords: seq<Keyword>, inner: Option<Entry>,
                         ghost m: Contents, ghost p: Segs, ghost items: seq<Item>)
    returns (ghost now: seq<Item>)
    requires WellShaped(m) && p in m && p in t.nodes && n == t.nodes[p] && Children(t, m, p)
    requires forall i :: 0 <= i < |m[p].kids| ==> Shows(t, m, p + [m[p].kids[i]]) && n !in NodesBelow(t, m, p + [m[p].kids[i]])
    requires forall i, j :: 0 <= i < j < |m[p].kids| ==>
      NodesBelow(t, m, p + [m[p].kids[i]]) !! NodesBelow(t, m, p + [m[p].kids[j]])
    requires Mirrors(c, items, inner) && ShapedAt(m, p)
    modifies c`entries, c`curSet, NodesBelow(t, m, p) - {n}
    ensures now == items + FlatList(m, p, m[p].kids, SetKeyVals(old(c.curSet)), keywords).items && Mirrors(c, now, inner)
    ensures SetKeyVals(c.curSet) == FlatList(m, p, m[p].kids, SetKeyVals(old(c.curSet)), keywords).cur
    decreases Below(m, p), 0
  {
    hide Mirrors, WellShaped, FlatTree, FlatList, Shows;
    KidsIn(m, p);
    now := items;
    ghost var kids, cur := m[p].kids, SetKeyVals(c.curSet);
    ghost var all := FlatList(m, p, kids, cur, keywords);
    ghost var done := Layout([], [], cur);
    ListStart(m, p, cur, keywords);
    assert items + [] == items;
    for i := 0 to |n.children|
      invariant Children(t, m, p)
      invariant all == Then(done, FlatList(m, p, kids[i..], done.cur, keywords))
      invariant now == items + done.items && Mirrors(c, now, inner) && SetKeyVals(c.curSet) == done.cur
      invariant forall j :: i <= j < |kids| ==> Shows(t, m, p + [kids[j]])
    {
      KidIn(m, p, i);
      BelowShrinks(m, p, kids[i]);
      NodesShrink(t, m, p, kids[i]);
      ListStep(m, p, kids, i, done, cur, keywords);
      now := Flatten(t, n.children[i], c, keywords, inner, m, p + [kids[i]], now);
      done := Then(done, FlatTree(m, p + [kids[i]], done.cur, keywords));
    }
    assert kids[|kids|..] == [];
    ListStart(m, p, done.cur, keywords);
    ThenNothing(done);
  }

  lemma {:induction false} TreeSteps(m: Contents, p: Segs, cur: Option<seq<KeyVal>>, keywords: seq<Keyword>, items: seq<Item>)
    requires WellShaped(m) && p in m
    ensures ShapedAt(m, p)
    ensures var opening := Opening(p, m[p], cur, keywords);
      var kids := FlatList(m, p, m[p].kids, opening.cur, keywords);
      var whole := FlatTree(m, p, cur, keywords);
      && items + opening.items + kids.items + Closing(p, m[p], kids.cur).items == items + whole.items
      && whole.cur == kids.cur
  {
    KidsIn(m, p);
    hide WellShaped, Opening, FlatList;
    var opening := Opening(p, m[p], cur, keywords);
    var kids := FlatList(m, p, m[p].kids, opening.cur, keywords);
    hide Closing;
    Regroup(items, opening.items, kids.items, Closing(p, m[p], kids.cur).items);
    ClosingKeeps(p, m[p], kids.cur);
  }

  lemma Regroup(s: seq<Item>, a: seq<Item>, b: seq<Item>, c: seq<Item>)
    ensures s + a + b + c == s + (a + (b + c))
  {
  }

  lemma ClosingKeeps(p: Segs, info: Info, cur: Option<seq<KeyVal>>)
    ensures Closing(p, info, cur).cur == cur
  {
  }

  lemma NodesShrink(t: Tree, m: Contents, p: Segs, k: Bytes)
    requires p in m
    ensures NodesBelow(t, m, p + [k]) <= NodesBelow(t, m, p)
  {
    BelowShrinks(m, p, k);
  }

  /** flatten: the node, its children in the order they are kept, and what closes it. */
  method Flatten(t: Tree, n: Node, c: Creator, keywords: seq<Keyword>, above: Option<Entry>,
                 ghost m: Contents, ghost p: Segs, ghost items: seq<Item>)
    returns (ghost now: seq<Item>)
    requires WellShaped(m) && p in m && Shows(t, m, p) && p in t.nodes && n == t.nodes[p]
    requires Mirrors(c, items, above)
    modifies c`entries, c`curSet, NodesBelow(t, m, p)
    ensures now == items + FlatTree(m, p, SetKeyVals(old(c.curSet)), keywords).items && Mirrors(c, now, above)
    ensures SetKeyVals(c.curSet) == FlatTree(m, p, SetKeyVals(old(c.curSet)), keywords).cur
    decreases Below(m, p), 1
  {
    hide Mirrors, Opening, Closing, WellShaped, FlatTree, FlatList, Encoded, Shows, Below;
    NodeShown(t, m, p);
    TreeSteps(m, p, SetKeyVals(c.curSet), keywords, items);
    ghost var info := m[p];
    forall i | 0 <= i < |info.kids|
      ensures Shows(t, m, p + [info.kids[i]]) && n !in NodesBelow(t, m, p + [info.kids[i]])
    {
      KidIn(m, p, i);
      ChildShown(t, m, p, info.kids[i]);
    }
    forall i, j | 0 <= i < j < |info.kids|
      ensures NodesBelow(t, m, p + [info.kids[i]]) !! NodesBelow(t, m, p + [info.kids[j]])
    {
      KidIn(m, p, i);
      KidIn(m, p, j);
      Apart(t, m, p, info.kids[i], info.kids[j]);
    }
    var inner;
    inner, now := OpenNode(n, c, keywords, above, p, info, items);
    forall i | 0 <= i < |info.kids|
      ensures Shows(t, m, p + [info.kids[i]])
    {
      assert old(Shows(t, m, p + [info.kids[i]]));
    }
    now := FlattenChildren(t, n, c, keywords, inner, m, p, now);
    now := CloseNode(n, c, inner, p, info, now);
  }

  // ---------- the whole archive ----------

  /** The contents of a tree agree with themselves and with its nodes. */
  lemma ValidShape(t: Tree)
    requires t.Valid()
    ensures WellShaped(t.contents)
  {
    hide Encoded, Walk.PathText, t.Valid, t.Placed, t.Linked;
    t.RootStays();
    var m := t.contents;
    forall p | p in m
      ensures Paths.AllPlain(p) && (m[p].kids != [] ==> m[p].isDir)
      ensures p != [] ==> Front(p) in m && Walk.BaseName(p) in m[Front(p)].kids
    {
      NodeShape(t, p);
    }
    forall p, i | p in m && 0 <= i < |m[p].kids|
      ensures p + [m[p].kids[i]] in m
    {
      KidShape(t, p, i);
    }
    forall p, i, j | p in m && 0 <= i < j < |m[p].kids|
      ensures m[p].kids[i] != m[p].kids[j]
    {
      KidShape(t, p, i);
      KidShape(t, p, j);
      assert t.Placed(p) by { ItsPlaced(t, p); }
      DifferentKids(t, p, i, j);
    }
  }

  lemma ItsPlaced(t: Tree, p: Segs)
    requires t.Valid() && p in t.nodes
    ensures t.Placed(p)
  {
  }

  lemma DifferentKids(t: Tree, p: Segs, i: nat, j: nat)
    requires p in t.nodes && t.Placed(p) && i < j < |t.nodes[p].children|
    ensures t.nodes[p].children[i] != t.nodes[p].children[j]
  {
  }

  lemma NodeShape(t: Tree, p: Segs)
    requires t.Valid() && p in t.contents
    ensures var m := t.contents;
      && p in t.nodes && Paths.AllPlain(p) && (m[p].kids != [] ==> m[p].isDir)
      && (p != [] ==> Front(p) in m && Walk.BaseName(p) in m[Front(p)].kids)
  {
    hide Encoded, Walk.PathText, Paths.AllPlain;
    assert t.Placed(p);
    if p != [] {
      assert t.Placed(Front(p));
      var kids := t.nodes[Front(p)].children;
      var i :| 0 <= i < |kids| && kids[i] == t.nodes[p];
      assert t.contents[Front(p)].kids[i] == Walk.BaseName(p);
    }
  }

  /** The child at i is the node of the name at i. */
  lemma KidShape(t: Tree, p: Segs, i: nat)
    requires t.Valid() && p in t.contents && i < |t.contents[p].kids|
    ensures p in t.nodes && |t.nodes[p].children| == |t.contents[p].kids|
    ensures var q := p + [t.contents[p].kids[i]];
      q in t.contents && q in t.nodes && t.nodes[p].children[i] == t.nodes[q]
  {
    hide t.Valid, t.Placed;
    t.RootStays();
    KidName(t, p, i);
    t.ChildPlaced(p, i);
    var child := t.nodes[p].children[i];
    assert child.path == Front(child.path) + [Walk.BaseName(child.path)];
  }

  lemma KidName(t: Tree, p: Segs, i: nat)
    requires t.Valid() && p in t.nodes && p in t.contents
    ensures |t.nodes[p].children| == |t.contents[p].kids|
    ensures i < |t.nodes[p].children| ==> t.contents[p].kids[i] == Walk.BaseName(t.nodes[p].children[i].path)
  {
    hide Encoded, Walk.PathText, Paths.AllPlain, t.Linked;
    assert t.Placed(p);
  }

  lemma ValidShows(t: Tree)
    requires t.Valid()
    ensures Shows(t, t.contents, [])
  {
    hide Encoded, Walk.PathText, t.Valid;
    forall q | q in Below(t.contents, [])
      ensures ShowsAt(t, t.contents, q)
    {
      t.RootStays();
      OneShows(t, q);
    }
  }

  lemma OneShows(t: Tree, q: Segs)
    requires t.Valid() && q in t.nodes
    ensures q in t.contents && ShowsAt(t, t.contents, q)
  {
    hide Encoded, Walk.PathText, t.Linked;
    assert t.Placed(q);
    forall i | 0 <= i < |t.nodes[q].children|
      ensures q + [t.contents[q].kids[i]] in t.nodes && t.nodes[q].children[i] == t.nodes[q + [t.contents[q].kids[i]]]
    {
      KidShape(t, q, i);
    }
  }

  ghost function TarItems(m: Contents, header: seq<Bytes>, keywords: seq<Keyword>): seq<Item>
    requires WellShaped(m)
  {
    Walk.HeaderItems(header) + FlatTree(m, [], None, keywords).items
  }

  /** The header comments, then the tree. */
  method FlattenAll(t: Tree, header: seq<Bytes>, keywords: seq<Keyword>) returns (entries: seq<Entry>)
    requires t.Valid()
    modifies t.repr
    ensures WellShaped(old(t.contents))
    ensures entries == Walk.Walked(Link(TarItems(old(t.contents), header, keywords)).entries)
  {
    hide Mirrors, WellShaped, FlatTree, Shows, ShowsAt, t.Valid;
    var c := new Creator();
    ghost var items: seq<Item> := [];
    NothingYet(c);
    for i := 0 to |header|
      modifies c
      invariant items == Walk.HeaderItems(header[..i])
      invariant Mirrors(c, items, None) && c.curSet == None
    {
      EntriesSoFar(c, items, None);
      Append(c, Entry(None, None, |c.entries|, header[i], "", [], CommentType), items, Comment(header[i]), None);
      Walk.HeaderSnoc(header[..i], header[i]);
      assert header[..i + 1] == header[..i] + [header[i]];
      items := items + [Comment(header[i])];
    }
    assert header[..|header|] == header;
    ValidShape(t);
    ValidShows(t);
    t.RootStays();
    NodesInRepr(t);
    items := Flatten(t, t.root, c, keywords, None, t.contents, [], items);
    MirroredEntries(c, items, None);
    entries := c.entries;
  }

  lemma NothingYet(c: Creator)
    requires c.entries == [] && c.curSet == None
    ensures Mirrors(c, [], None)
  {
  }

  lemma NodesInRepr(t: Tree)
    requires t.Valid()
    ensures NodesBelow(t, t.contents, []) <= t.repr
  {
    hide t.Valid;
    t.RootStays();
  }

  lemma MirroredEntries(c: Creator, items: seq<Item>, above: Option<Entry>)
    requires Mirrors(c, items, above)
    ensures c.entries == Walk.Walked(Link(items).entries)
  {
  }
}
