/** What a walk means: which files it records, under which paths and keys, and that its printed
    form parses back to the same entries. */
module WalkLaws {
  import opened GoBytes
  import opened GoStrings
  import opened Govis
  import opened GovisLaws
  import opened Keywords
  import opened Entries
  import opened Manifest
  import opened Ordering
  import opened Spec
  import opened Printing
  import opened PrintingLaws
  import opened Walk
  import Paths

  // ---------- the files recorded ----------

  /** The relative entries, in order. */
  function Relatives(entries: seq<Entry>): seq<Entry> {
    if entries == [] then []
    else (if entries[0].kind == RelativeType then [entries[0]] else []) + Relatives(entries[1..])
  }

  lemma {:induction false} RelativesConcat(a: seq<Entry>, b: seq<Entry>)
    ensures Relatives(a + b) == Relatives(a) + Relatives(b)
  {
    if a == [] {
      assert a + b == b;
    } else {
      assert (a + b)[0] == a[0] && (a + b)[1..] == a[1..] + b;
      RelativesConcat(a[1..], b);
      var head := if a[0].kind == RelativeType then [a[0]] else [];
      assert head + (Relatives(a[1..]) + Relatives(b)) == (head + Relatives(a[1..])) + Relatives(b);
    }
  }

  /** The entry records the visit: its name, its own keywords, its set and its path. */
  predicate Records(cfg: Config, e: Entry, v: Visit) {
    && e.kind == RelativeType
    && e.name == VisBytes(BaseName(v.path), DEFAULT_VIS_FLAGS)
    && e.keywords == Without(Produced(cfg, cfg.keywords, v.node), v.inForce)
    && SetKeyVals(e.setLine) == Some(v.inForce)
    && Path(e) == Ok(PathText(v.path))
  }

  predicate AllRecorded(cfg: Config, entries: seq<Entry>, visits: seq<Visit>) {
    |entries| == |visits| && forall i :: 0 <= i < |visits| ==> Records(cfg, entries[i], visits[i])
  }

  /** The entries the statements add at a cursor. */
  function Added(c: Cursor, items: seq<Item>): seq<Entry> {
    LinkConcat(c, items, []);
    LinkFrom(c, items).entries[|c.entries|..]
  }

  lemma AddedConcat(c: Cursor, a: seq<Item>, b: seq<Item>)
    ensures Added(c, a + b) == Added(c, a) + Added(LinkFrom(c, a), b)
    ensures LinkFrom(c, a + b) == LinkFrom(LinkFrom(c, a), b)
  {
    hide LinkFrom;
    var mid := LinkFrom(c, a);
    LinkConcat(c, a, b);
    LinkConcat(c, a, []);
    LinkConcat(mid, b, []);
    SuffixSplits(mid.entries, LinkFrom(mid, b).entries, |c.entries|);
  }

  lemma SuffixSplits(mid: seq<Entry>, end: seq<Entry>, n: nat)
    requires n <= |mid| <= |end| && end[..|mid|] == mid
    ensures end[n..] == mid[n..] + end[|mid|..]
  {
    assert end == mid + end[|mid|..];
  }

  lemma AddedOne(c: Cursor, item: Item)
    ensures Added(c, [item]) == [EntryAt(c, item)] && LinkFrom(c, [item]) == Place(c, item)
  {
    assert LinkFrom(c, [item]) == LinkFrom(Place(c, item), [item][1..]);
    assert (c.entries + [EntryAt(c, item)])[|c.entries|..] == [EntryAt(c, item)];
  }

  /** From a cursor, the statements record the visits and leave the set in force that the trace says. */
  ghost predicate Lays(cfg: Config, c: Cursor, t: Trace) {
    && AllRecorded(cfg, Relatives(Added(c, t.items)), t.visits)
    && SetKeyVals(LinkFrom(c, t.items).setLine) == t.cur
  }

  lemma {:induction false} LaysThen(cfg: Config, c: Cursor, a: Trace, b: Trace)
    requires Lays(cfg, c, a) && Lays(cfg, LinkFrom(c, a.items), b)
    ensures Lays(cfg, c, Then(a, b))
    ensures LinkFrom(c, Then(a, b).items).stack == LinkFrom(LinkFrom(c, a.items), b.items).stack
  {
    hide Records;
    AddedConcat(c, a.items, b.items);
    RelativesConcat(Added(c, a.items), Added(LinkFrom(c, a.items), b.items));
  }

  lemma LaysNothing(cfg: Config, c: Cursor, cur: Option<seq<KeyVal>>)
    requires SetKeyVals(c.setLine) == cur
    ensures Lays(cfg, c, Trace([], [], cur)) && LinkFrom(c, []).stack == c.stack
  {
  }

  lemma {:induction false} LaysEntry(cfg: Config, c: Cursor, path: seq<Bytes>, node: Node, inForce: seq<KeyVal>)
    requires Holds(Top(c.stack), path) && Paths.AllPlain(path) && SetKeyVals(c.setLine) == Some(inForce)
    ensures var item := EntryItem(cfg, path, node, inForce); var e := EntryAt(c, item);
      && Added(c, [item]) == [e] && Records(cfg, e, Visit(path, node, inForce))
      && LinkFrom(c, [item]).stack == (if node.Dir? then c.stack + [e] else c.stack)
      && SetKeyVals(LinkFrom(c, [item]).setLine) == Some(inForce)
      && e.parent == Top(c.stack)
  {
    var item := EntryItem(cfg, path, node, inForce);
    AddedOne(c, item);
    PathOfEntry(EntryAt(c, item), path);
  }

  lemma LaysHead(cfg: Config, c: Cursor, path: seq<Bytes>, node: Node, cur: Option<seq<KeyVal>>)
    requires SetKeyVals(c.setLine) == cur
    ensures var head := DirHead(cfg, path, node, cur);
      && Relatives(Added(c, head)) == []
      && LinkFrom(c, head).stack == c.stack
      && SetKeyVals(LinkFrom(c, head).setLine) == Some(InForce(cfg, node, cur))
  {
    hide SetLineFor, PathText;
    var comment := Comment("# " + PathText(path));
    var kvs := SetLineFor(cfg, node, cur);
    SetNeeded(cfg, node, cur);
    var c1 := Place(c, Blank);
    var c2 := Place(c1, comment);
    AddedOne(c, Blank);
    AddedOne(c1, comment);
    AddedConcat(c, [Blank], [comment]);
    AddedConcat(c, [Blank] + [comment], SetItems(kvs));
    assert [Blank] + [comment] == [Blank, comment];
    if kvs.Some? {
      AddedOne(c2, Special("/set", kvs.value));
    }
    var added := Added(c, DirHead(cfg, path, node, cur));
    NoRelatives(added);
  }

  lemma {:induction false} NoRelatives(entries: seq<Entry>)
    requires forall i :: 0 <= i < |entries| ==> entries[i].kind != RelativeType
    ensures Relatives(entries) == []
  {
    if entries != [] {
      NoRelatives(entries[1..]);
    }
  }

  /** What a directory opens with: its head and its entry, which is then the innermost directory. */
  function Opening(cfg: Config, path: seq<Bytes>, node: Node, cur: Option<seq<KeyVal>>): Trace {
    var inForce := InForce(cfg, node, cur);
    Trace(DirHead(cfg, path, node, cur) + [EntryItem(cfg, path, node, inForce)], [Visit(path, node, inForce)], Some(inForce))
  }

  lemma {:induction false} LaysOpening(cfg: Config, c: Cursor, path: seq<Bytes>, node: Node, cur: Option<seq<KeyVal>>)
    requires node.Dir? && Paths.AllPlain(path) && Holds(Top(c.stack), path) && SetKeyVals(c.setLine) == cur
    ensures var after := LinkFrom(c, Opening(cfg, path, node, cur).items);
      && Lays(cfg, c, Opening(cfg, path, node, cur))
      && |after.stack| == |c.stack| + 1 && after.stack[..|c.stack|] == c.stack
      && Path(after.stack[|c.stack|]) == Ok(PathText(path))
  {
    hide DirHead, EntryItem, InForce, Holds, Path, LinkFrom, Added, Produced;
    var inForce := InForce(cfg, node, cur);
    var head, item := DirHead(cfg, path, node, cur), EntryItem(cfg, path, node, inForce);
    LaysHead(cfg, c, path, node, cur);
    LaysEntry(cfg, LinkFrom(c, head), path, node, inForce);
    AddedConcat(c, head, [item]);
    RelativesConcat(Added(c, head), Added(LinkFrom(c, head), [item]));
    var e := EntryAt(LinkFrom(c, head), item);
    assert Relatives([e]) == [e] + Relatives([]);
    assert [] + [e] == [e];
  }

  lemma LaysClosing(cfg: Config, c: Cursor, cur: Option<seq<KeyVal>>)
    requires SetKeyVals(c.setLine) == cur
    ensures Lays(cfg, c, Trace([DotDot("..")], [], cur))
    ensures LinkFrom(c, [DotDot("..")]).stack == Pop(c.stack)
  {
    AddedOne(c, DotDot(".."));
    NoRelatives(Added(c, [DotDot("..")]));
  }

  /** A subtree laid out below the directory that holds it records its visits and closes what it opens. */
  lemma {:induction false} TreeLays(cfg: Config, path: seq<Bytes>, node: Node, cur: Option<seq<KeyVal>>, c: Cursor)
    requires ValidTree(node) && Paths.AllPlain(path) && Holds(Top(c.stack), path)
    requires SetKeyVals(c.setLine) == cur && (node.File? ==> cur.Some?)
    ensures Lays(cfg, c, TreeTrace(cfg, path, node, cur))
    ensures LinkFrom(c, TreeTrace(cfg, path, node, cur).items).stack == c.stack
    decreases node, 1, 0
  {
    hide Lays, Records, Holds, InForce, DirHead, EntryItem, LinkFrom, ListTrace;
    if Excluded(cfg, path, node) {
      LaysNothing(cfg, c, cur);
    } else if node.File? {
      FileLays(cfg, path, node, cur.value, c);
    } else {
      var kids := Kids(cfg, path, node, cur);
      var opening, closing := Opening(cfg, path, node, cur), Trace([DotDot("..")], [], kids.cur);
      var c1 := LinkFrom(c, opening.items);
      var c2 := LinkFrom(c1, kids.items);
      LaysOpening(cfg, c, path, node, cur);
      OpeningCur(cfg, c, opening);
      ListLays(cfg, path, node, Order(node.children), opening.cur, c1);
      OpeningCur(cfg, c1, kids);
      LaysClosing(cfg, c2, kids.cur);
      LaysThen(cfg, c1, kids, closing);
      LaysThen(cfg, c, opening, Then(kids, closing));
    }
  }

  lemma OpeningCur(cfg: Config, c: Cursor, t: Trace)
    requires Lays(cfg, c, t)
    ensures SetKeyVals(LinkFrom(c, t.items).setLine) == t.cur
  {
  }

  lemma {:induction false} FileLays(cfg: Config, path: seq<Bytes>, node: Node, inForce: seq<KeyVal>, c: Cursor)
    requires node.File? && Paths.AllPlain(path) && Holds(Top(c.stack), path) && SetKeyVals(c.setLine) == Some(inForce)
    ensures var t := Trace([EntryItem(cfg, path, node, inForce)], [Visit(path, node, inForce)], Some(inForce));
      Lays(cfg, c, t) && LinkFrom(c, t.items).stack == c.stack
  {
    hide EntryItem, Holds;
    LaysEntry(cfg, c, path, node, inForce);
    var e := EntryAt(c, EntryItem(cfg, path, node, inForce));
    assert Relatives([e]) == [e] + Relatives([]);
  }

  lemma {:induction false} ListLays(cfg: Config, path: seq<Bytes>, dir: Node, names: seq<Bytes>, cur: Option<seq<KeyVal>>, c: Cursor)
    requires dir.Dir? && ValidTree(dir) && forall i :: 0 <= i < |names| ==> names[i] in dir.children
    requires Paths.AllPlain(path) && Top(c.stack).Some? && Path(Top(c.stack).value) == Ok(PathText(path))
    requires SetKeyVals(c.setLine) == cur && cur.Some?
    ensures Lays(cfg, c, ListTrace(cfg, path, dir, names, cur))
    ensures LinkFrom(c, ListTrace(cfg, path, dir, names, cur).items).stack == c.stack
    decreases dir, 0, |names|
  {
    if names == [] {
      LaysNothing(cfg, c, cur);
    } else {
      hide Lays, Path, LinkFrom, TreeTrace;
      var name := names[0];
      var child := dir.children[name];
      var first := TreeTrace(cfg, path + [name], child, cur);
      assert (path + [name])[..|path|] == path;
      TreeLays(cfg, path + [name], child, cur, c);
      OpeningCur(cfg, c, first);
      ListLays(cfg, path, dir, names[1..], first.cur, LinkFrom(c, first.items));
      LaysThen(cfg, c, first, ListTrace(cfg, path, dir, names[1..], first.cur));
    }
  }

  // ---------- which paths ----------

  /** Following suffix down from a node at path meets no excluded node. */
  ghost predicate Reaches(cfg: Config, path: seq<Bytes>, node: Node, suffix: seq<Bytes>)
    decreases suffix
  {
    && !Excluded(cfg, path, node)
    && (suffix != [] ==>
          && node.Dir? && suffix[0] in node.children
          && Reaches(cfg, path + [suffix[0]], node.children[suffix[0]], suffix[1..]))
  }

  function NodeAt(node: Node, path: seq<Bytes>): Option<Node>
    decreases path
  {
    if path == [] then Some(node)
    else if node.Dir? && path[0] in node.children then NodeAt(node.children[path[0]], path[1..])
    else None
  }

  /** There is a node at path + suffix, and no exclude function answers true for it or any directory on the way. */
  ghost predicate Stays(cfg: Config, path: seq<Bytes>, node: Node, suffix: seq<Bytes>) {
    forall n :: 0 <= n <= |suffix| ==>
      && NodeAt(node, suffix[..n]).Some?
      && forall i :: 0 <= i < |cfg.excludes| ==> !cfg.excludes[i](path + suffix[..n], NodeAt(node, suffix[..n]).value)
  }

  lemma {:induction false} ReachesIs(cfg: Config, path: seq<Bytes>, node: Node, suffix: seq<Bytes>)
    ensures Reaches(cfg, path, node, suffix) <==> Stays(cfg, path, node, suffix)
    decreases suffix
  {
    StaysHere(cfg, path, node, suffix);
    if suffix != [] && node.Dir? && suffix[0] in node.children {
      ReachesIs(cfg, path + [suffix[0]], node.children[suffix[0]], suffix[1..]);
      StaysBelow(cfg, path, node, suffix);
    }
  }

  lemma StaysHere(cfg: Config, path: seq<Bytes>, node: Node, suffix: seq<Bytes>)
    ensures Stays(cfg, path, node, suffix) ==> !Excluded(cfg, path, node)
    ensures Stays(cfg, path, node, suffix) && suffix != [] ==> node.Dir? && suffix[0] in node.children
    ensures suffix == [] && !Excluded(cfg, path, node) ==> Stays(cfg, path, node, suffix)
  {
    assert suffix[..0] == [] && path + [] == path;
    if Stays(cfg, path, node, suffix) && suffix != [] {
      assert NodeAt(node, suffix[..1]).Some?;
    }
  }

  lemma {:induction false} StaysBelow(cfg: Config, path: seq<Bytes>, node: Node, suffix: seq<Bytes>)
    requires suffix != [] && node.Dir? && suffix[0] in node.children
    ensures Stays(cfg, path, node, suffix) <==>
      !Excluded(cfg, path, node) && Stays(cfg, path + [suffix[0]], node.children[suffix[0]], suffix[1..])
  {
    var child, q, rest := node.children[suffix[0]], path + [suffix[0]], suffix[1..];
    assert suffix[..0] == [] && path + [] == path;
    forall n | 0 < n <= |suffix|
      ensures NodeAt(node, suffix[..n]) == NodeAt(child, rest[..n - 1]) && path + suffix[..n] == q + rest[..n - 1]
    {
      assert suffix[..n][1..] == rest[..n - 1];
    }
    if Stays(cfg, path, node, suffix) {
      forall n | 0 <= n <= |rest|
        ensures NodeAt(child, rest[..n]).Some?
          && forall i :: 0 <= i < |cfg.excludes| ==> !cfg.excludes[i](q + rest[..n], NodeAt(child, rest[..n]).value)
      {
        assert NodeAt(node, suffix[..n + 1]) == NodeAt(child, rest[..n]);
      }
    }
    if !Excluded(cfg, path, node) && Stays(cfg, q, child, rest) {
      forall n | 0 <= n <= |suffix|
        ensures NodeAt(node, suffix[..n]).Some?
          && forall i :: 0 <= i < |cfg.excludes| ==> !cfg.excludes[i](path + suffix[..n], NodeAt(node, suffix[..n]).value)
      {
        if n > 0 {
          assert NodeAt(child, rest[..n - 1]).Some?;
        }
      }
    }
  }

  ghost predicate Visited(visits: seq<Visit>, path: seq<Bytes>) {
    exists i :: 0 <= i < |visits| && visits[i].path == path
  }

  predicate OncePerPath(visits: seq<Visit>) {
    forall i, j :: 0 <= i < j < |visits| ==> visits[i].path != visits[j].path
  }

  predicate AllBelow(visits: seq<Visit>, path: seq<Bytes>) {
    forall i :: 0 <= i < |visits| ==> path <= visits[i].path
  }

  /** A subtree's visits are exactly the paths in it where neither the node nor a directory above it is excluded,
      once each, with the node there. */
  lemma {:induction false} TreeVisits(cfg: Config, path: seq<Bytes>, node: Node, cur: Option<seq<KeyVal>>)
    ensures var visits := TreeTrace(cfg, path, node, cur).visits;
      && OncePerPath(visits) && VisitsNodes(visits, path, node)
      && forall suffix :: Visited(visits, path + suffix) <==> Stays(cfg, path, node, suffix)
  {
    hide TreeTrace, OncePerPath, VisitsNodes, Visited, Stays, Reaches;
    TreeReaches(cfg, path, node, cur);
    TreeNodes(cfg, path, node, cur);
    forall suffix
      ensures Reaches(cfg, path, node, suffix) <==> Stays(cfg, path, node, suffix)
    {
      ReachesIs(cfg, path, node, suffix);
    }
  }

  /** Each visit is of the node at its path. */
  ghost predicate VisitsNodes(visits: seq<Visit>, path: seq<Bytes>, node: Node) {
    forall i :: 0 <= i < |visits| ==> path <= visits[i].path && NodeAt(node, visits[i].path[|path|..]) == Some(visits[i].node)
  }

  lemma {:induction false} TreeNodes(cfg: Config, path: seq<Bytes>, node: Node, cur: Option<seq<KeyVal>>)
    ensures VisitsNodes(TreeTrace(cfg, path, node, cur).visits, path, node)
    decreases node, 1, 0
  {
    hide Excluded, EntryItem, DirHead, InForce, ListTrace;
    if !Excluded(cfg, path, node) && node.Dir? {
      DirTrace(cfg, path, node, cur, []);
      OrderFacts(node.children);
      ListNodes(cfg, path, node, Order(node.children), Some(InForce(cfg, node, cur)));
    }
  }

  lemma {:induction false} ListNodes(cfg: Config, path: seq<Bytes>, dir: Node, names: seq<Bytes>, cur: Option<seq<KeyVal>>)
    requires dir.Dir? && forall i :: 0 <= i < |names| ==> names[i] in dir.children
    ensures VisitsNodes(ListTrace(cfg, path, dir, names, cur).visits, path, dir)
    decreases dir, 0, |names|
  {
    if names != [] {
      hide TreeTrace, VisitsNodes;
      var q, child := path + [names[0]], dir.children[names[0]];
      var first := TreeTrace(cfg, q, child, cur);
      var rest := ListTrace(cfg, path, dir, names[1..], first.cur).visits;
      TreeNodes(cfg, q, child, cur);
      ListNodes(cfg, path, dir, names[1..], first.cur);
      NodesBelow(path, dir, names[0], first.visits);
      NodesThen(path, dir, first.visits, rest);
    } else {
      NodesThen(path, dir, [], []);
    }
  }

  lemma {:induction false} NodesBelow(path: seq<Bytes>, dir: Node, name: Bytes, visits: seq<Visit>)
    requires dir.Dir? && name in dir.children && VisitsNodes(visits, path + [name], dir.children[name])
    ensures VisitsNodes(visits, path, dir)
  {
    var q := path + [name];
    forall i | 0 <= i < |visits|
      ensures path <= visits[i].path && NodeAt(dir, visits[i].path[|path|..]) == Some(visits[i].node)
    {
      var p := visits[i].path;
      assert q <= p && p[|path|] == name && p[|path|..][1..] == p[|q|..];
    }
  }

  lemma NodesThen(path: seq<Bytes>, dir: Node, a: seq<Visit>, b: seq<Visit>)
    requires a == [] || VisitsNodes(a, path, dir)
    requires b == [] || VisitsNodes(b, path, dir)
    ensures VisitsNodes(a + b, path, dir)
  {
    hide NodeAt;
  }

  /** The walk succeeds exactly when every keyword function asked answers: for all visited nodes those requested,
      for directories also uid and gid. */
  lemma {:induction false} SucceedsExactly(cfg: Config, path: seq<Bytes>, node: Node)
    ensures Succeeds(cfg, path, node) <==>
      forall suffix :: Stays(cfg, path, node, suffix) ==> AnsweredAt(cfg, node, suffix)
    decreases node
  {
    hide Excluded, Stays, Answered, Walk.Known;
    NodeAnswered(cfg, node);
    StaysHere(cfg, path, node, []);
    if Succeeds(cfg, path, node) {
      forall suffix | Stays(cfg, path, node, suffix)
        ensures AnsweredAt(cfg, node, suffix)
      {
        StaysHere(cfg, path, node, suffix);
        if suffix != [] {
          StaysBelow(cfg, path, node, suffix);
          SucceedsExactly(cfg, path + [suffix[0]], node.children[suffix[0]]);
          assert Succeeds(cfg, path + [suffix[0]], node.children[suffix[0]]);
        }
      }
    } else {
      if node.Dir? && Answered(cfg, node) {
        var n :| n in node.children && !Succeeds(cfg, path + [n], node.children[n]);
        SucceedsExactly(cfg, path + [n], node.children[n]);
        var more :| Stays(cfg, path + [n], node.children[n], more) && !AnsweredAt(cfg, node.children[n], more);
        var suffix := [n] + more;
        assert suffix[1..] == more;
        StaysBelow(cfg, path, node, suffix);
        assert Stays(cfg, path, node, suffix) && !AnsweredAt(cfg, node, suffix);
      } else {
        assert Stays(cfg, path, node, []);
      }
    }
  }

  /** The functions for the keywords requested answer, and for a directory those for its owner. */
  predicate Answered(cfg: Config, node: Node) {
    && (forall k :: k in cfg.keywords ==> cfg.produce(Prefix(k), node).Some?)
    && (node.Dir? ==> cfg.produce("uid", node).Some? && cfg.produce("gid", node).Some?)
  }

  predicate AnsweredAt(cfg: Config, node: Node, path: seq<Bytes>) {
    match NodeAt(node, path) case Some(n) => Answered(cfg, n) case None => true
  }

  lemma NodeAnswered(cfg: Config, node: Node)
    ensures Answered(cfg, node) <==> Walk.Known(cfg, cfg.keywords, node) && (node.Dir? ==> Walk.Known(cfg, SET_KEYWORDS, node))
  {
    assert Prefix("uid") == "uid" && Prefix("gid") == "gid";
    assert SET_KEYWORDS[0] == "uid" && SET_KEYWORDS[1] == "gid";
    if Walk.Known(cfg, cfg.keywords, node) {
      forall k | k in cfg.keywords
        ensures cfg.produce(Prefix(k), node).Some?
      {
        var i :| 0 <= i < |cfg.keywords| && cfg.keywords[i] == k;
      }
    }
  }

  lemma {:induction false} TreeReaches(cfg: Config, path: seq<Bytes>, node: Node, cur: Option<seq<KeyVal>>)
    ensures var visits := TreeTrace(cfg, path, node, cur).visits;
      && AllBelow(visits, path) && OncePerPath(visits)
      && forall suffix :: Visited(visits, path + suffix) <==> Reaches(cfg, path, node, suffix)
    decreases node, 1, 0
  {
    hide Excluded, EntryItem, DirHead, InForce, ListTrace;
    var visits := TreeTrace(cfg, path, node, cur).visits;
    if Excluded(cfg, path, node) {
    } else if node.File? {
      forall suffix
        ensures Visited(visits, path + suffix) <==> Reaches(cfg, path, node, suffix)
      {
        assert path + suffix == path <==> suffix == [];
        assert suffix == [] ==> visits[0].path == path + suffix;
      }
    } else {
      var kids := Kids(cfg, path, node, cur);
      DirTrace(cfg, path, node, cur, []);
      OrderFacts(node.children);
      ListVisits(cfg, path, node, Order(node.children), Some(InForce(cfg, node, cur)));
      assert visits == [visits[0]] + kids.visits && visits[0].path == path;
      forall suffix
        ensures Visited(visits, path + suffix) <==> Reaches(cfg, path, node, suffix)
      {
        DirVisited(cfg, path, node, visits, kids.visits, suffix);
      }
    }
  }

  lemma DirVisited(cfg: Config, path: seq<Bytes>, node: Node, visits: seq<Visit>, kids: seq<Visit>, suffix: seq<Bytes>)
    requires node.Dir? && !Excluded(cfg, path, node)
    requires |visits| > 0 && visits[0].path == path && visits == [visits[0]] + kids
    requires BelowNames(kids, path, Order(node.children))
    requires suffix != [] ==> (Visited(kids, path + suffix) <==>
               suffix[0] in node.children && Reaches(cfg, path + [suffix[0]], node.children[suffix[0]], suffix[1..]))
    ensures Visited(visits, path + suffix) <==> Reaches(cfg, path, node, suffix)
  {
    hide Excluded, BelowNames;
    if suffix == [] {
      assert visits[0].path == path + suffix;
    } else {
      assert path + suffix != path by { assert |path + suffix| > |path|; }
      if Visited(kids, path + suffix) {
        var i :| 0 <= i < |kids| && kids[i].path == path + suffix;
        assert visits[i + 1].path == path + suffix;
      }
      if Visited(visits, path + suffix) {
        var i :| 0 <= i < |visits| && visits[i].path == path + suffix;
        assert kids[i - 1].path == path + suffix;
      }
    }
  }

  /** Order lists each name once. */
  lemma OrderFacts(children: map<Bytes, Node>)
    ensures Distinct(Order(children)) && SetOf(Order(children)) == children.Keys
  {
    var files, dirs := Sorted(FileNames(children)), Sorted(DirNames(children));
    OrderCovers(children);
    forall i, j | 0 <= i < j < |Order(children)|
      ensures Order(children)[i] != Order(children)[j]
    {
      if j < |files| {
        LessTotal(files[i], files[j]);
      } else if i >= |files| {
        LessTotal(dirs[i - |files|], dirs[j - |files|]);
      } else {
        assert files[i] in SetOf(files) && dirs[j - |files|] in SetOf(dirs);
      }
    }
  }

  predicate BelowNames(visits: seq<Visit>, path: seq<Bytes>, names: seq<Bytes>) {
    forall i :: 0 <= i < |visits| ==> |visits[i].path| > |path| && path <= visits[i].path && visits[i].path[|path|] in names
  }

  /** The visits are exactly what is reached below path through these names. */
  ghost predicate ReachedThrough(cfg: Config, path: seq<Bytes>, dir: Node, names: seq<Bytes>, visits: seq<Visit>)
    requires dir.Dir? && (forall i :: 0 <= i < |names| ==> names[i] in dir.children)
  {
    forall suffix :: suffix != [] ==> (Visited(visits, path + suffix) <==>
      suffix[0] in names && Reaches(cfg, path + [suffix[0]], dir.children[suffix[0]], suffix[1..]))
  }

  lemma {:induction false} ListVisits(cfg: Config, path: seq<Bytes>, dir: Node, names: seq<Bytes>, cur: Option<seq<KeyVal>>)
    requires dir.Dir? && (forall i :: 0 <= i < |names| ==> names[i] in dir.children) && Distinct(names)
    ensures var visits := ListTrace(cfg, path, dir, names, cur).visits;
      OncePerPath(visits) && BelowNames(visits, path, names) && ReachedThrough(cfg, path, dir, names, visits)
    decreases dir, 0, |names|
  {
    if names != [] {
      hide TreeTrace, Reaches, ReachedThrough, AllBelow, OncePerPath, BelowNames;
      var name := names[0];
      var child := dir.children[name];
      var first := TreeTrace(cfg, path + [name], child, cur);
      var rest := ListTrace(cfg, path, dir, names[1..], first.cur);
      TreeReaches(cfg, path + [name], child, cur);
      ListVisits(cfg, path, dir, names[1..], first.cur);
      assert name !in names[1..] && [name] + names[1..] == names;
      VisitsThen(path, name, names[1..], first.visits, rest.visits);
      ReachedThen(cfg, path, dir, names, first.visits, rest.visits);
    }
  }

  lemma ReachedThen(cfg: Config, path: seq<Bytes>, dir: Node, names: seq<Bytes>, first: seq<Visit>, rest: seq<Visit>)
    requires dir.Dir? && names != [] && (forall i :: 0 <= i < |names| ==> names[i] in dir.children)
    requires names[0] !in names[1..] && AllBelow(first, path + [names[0]]) && BelowNames(rest, path, names[1..])
    requires forall more :: Visited(first, path + [names[0]] + more) <==> Reaches(cfg, path + [names[0]], dir.children[names[0]], more)
    requires ReachedThrough(cfg, path, dir, names[1..], rest)
    ensures ReachedThrough(cfg, path, dir, names, first + rest)
  {
    hide Reaches, Visited;
    assert names == [names[0]] + names[1..];
    forall suffix | suffix != []
      ensures Visited(first + rest, path + suffix) <==>
        suffix[0] in names && Reaches(cfg, path + [suffix[0]], dir.children[suffix[0]], suffix[1..])
    {
      VisitedThen(path, names[0], names[1..], first, rest, suffix);
      if suffix[0] == names[0] {
        assert path + suffix == path + [names[0]] + suffix[1..];
      }
    }
  }

  lemma VisitsThen(path: seq<Bytes>, name: Bytes, others: seq<Bytes>, first: seq<Visit>, rest: seq<Visit>)
    requires AllBelow(first, path + [name]) && OncePerPath(first) && OncePerPath(rest) && name !in others
    requires BelowNames(rest, path, others)
    ensures OncePerPath(first + rest) && BelowNames(first + rest, path, [name] + others)
  {
    forall i | 0 <= i < |first|
      ensures |first[i].path| > |path| && path <= first[i].path && first[i].path[|path|] == name
    {
      assert first[i].path[..|path| + 1] == path + [name];
    }
  }

  lemma VisitedThen(path: seq<Bytes>, name: Bytes, others: seq<Bytes>, first: seq<Visit>, rest: seq<Visit>, suffix: seq<Bytes>)
    requires AllBelow(first, path + [name]) && BelowNames(rest, path, others) && name !in others && suffix != []
    ensures Visited(first + rest, path + suffix) <==>
            if suffix[0] == name then Visited(first, path + suffix) else Visited(rest, path + suffix)
  {
    var visits, p := first + rest, path + suffix;
    assert p[|path|] == suffix[0];
    if Visited(visits, p) {
      var i :| 0 <= i < |visits| && visits[i].path == p;
      if i < |first| {
        assert first[i].path == p && p[..|path| + 1] == path + [name];
      } else {
        assert rest[i - |first|].path == p;
      }
    }
    if Visited(first, p) {
      var i :| 0 <= i < |first| && first[i].path == p;
      assert visits[i].path == p;
    }
    if Visited(rest, p) {
      var i :| 0 <= i < |rest| && rest[i].path == p;
      assert visits[|first| + i].path == p;
    }
  }

  // ---------- which keys ----------

  /** A /set line that can be printed, contradicts nothing, and makes nobody a directory. */
  predicate SetOk(kvs: seq<KeyVal>) {
    && Consistent(kvs) && AllWords(kvs)
    && forall i :: 0 <= i < |kvs| ==> KeywordOf(kvs[i]) != "type" || ValueOf(kvs[i]) != "dir"
  }

  lemma SubsetOk(a: seq<KeyVal>, b: seq<KeyVal>)
    requires SetOk(b) && forall i :: 0 <= i < |a| ==> a[i] in b
    ensures SetOk(a)
  {
    hide KeywordOf, ValueOf;
    forall i, j | 0 <= i < |a| && 0 <= j < |a| && KeywordOf(a[i]) == KeywordOf(a[j])
      ensures a[i] == a[j]
    {
      var k :| 0 <= k < |b| && b[k] == a[i];
      var l :| 0 <= l < |b| && b[l] == a[j];
    }
    forall i | 0 <= i < |a|
      ensures IsWord(a[i]) && (KeywordOf(a[i]) != "type" || ValueOf(a[i]) != "dir")
    {
      var k :| 0 <= k < |b| && b[k] == a[i];
    }
  }

  /** What the walk assumes of the keyword functions at a node: the type they tell is the node's, their
      answers print as words, and no keyword is produced twice with different values. */
  ghost predicate NodeDescribed(cfg: Config, node: Node) {
    var kvs := Produced(cfg, cfg.keywords, node);
    && Consistent(kvs) && AllWords(kvs) && SaysDir(kvs) == node.Dir?
    && (node.Dir? ==> SetOk(DEFAULT_SET + Produced(cfg, SET_KEYWORDS, node)))
  }

  ghost predicate WellDescribed(cfg: Config, path: seq<Bytes>, node: Node)
    decreases node
  {
    !Excluded(cfg, path, node) ==>
      && NodeDescribed(cfg, node)
      && (node.Dir? ==> forall n :: n in node.children ==> WellDescribed(cfg, path + [n], node.children[n]))
  }

  lemma InForceOk(cfg: Config, node: Node, cur: Option<seq<KeyVal>>)
    requires SetOk(DEFAULT_SET + Produced(cfg, SET_KEYWORDS, node)) && (cur.Some? ==> SetOk(cur.value))
    ensures SetOk(InForce(cfg, node, cur))
  {
    hide SetOk, Requested, Produced;
    var klist := Produced(cfg, SET_KEYWORDS, node);
    var all, inForce := DEFAULT_SET + klist, InForce(cfg, node, cur);
    if SetLineFor(cfg, node, cur).Some? {
      forall i | 0 <= i < |inForce|
        ensures inForce[i] in all
      {
        SelectedElements(DEFAULT_SET, cfg.keywords, inForce[i]);
        SelectedElements(all, cfg.keywords, inForce[i]);
      }
      SubsetOk(inForce, all);
    }
  }

  /** Factoring out a /set line that makes nobody a directory leaves the entry's own type telling. */
  lemma {:induction false} TypeKept(produced: seq<KeyVal>, base: seq<KeyVal>)
    requires Consistent(produced) && SetOk(base)
    ensures SaysDir(Without(produced, base)) == SaysDir(produced)
  {
    hide KeywordOf, ValueOf;
    var own := Without(produced, base);
    LookupFacts(own, "type");
    LookupFacts(produced, "type");
    if Lookup(own, "type").Some? {
      WithoutElements(produced, base, Lookup(own, "type").value);
      ConsistentLookup(produced, Lookup(own, "type").value);
    } else if Lookup(produced, "type").Some? {
      var t := Lookup(produced, "type").value;
      WithoutElements(produced, base, t);
      assert t !in own;
      assert t in base;
    }
  }

  lemma WithoutWords(produced: seq<KeyVal>, base: seq<KeyVal>)
    requires AllWords(produced)
    ensures AllWords(Without(produced, base))
  {
    var own := Without(produced, base);
    forall i | 0 <= i < |own|
      ensures IsWord(own[i])
    {
      WithoutElements(produced, base, own[i]);
    }
  }

  /** Each key-value produced for a file is the one in force for its keyword, whatever /set lines came before. */
  lemma {:induction false} KeysKept(cfg: Config, e: Entry, v: Visit, kv: KeyVal)
    requires Records(cfg, e, v) && Consistent(v.inForce) && Consistent(Produced(cfg, cfg.keywords, v.node))
    requires kv in Produced(cfg, cfg.keywords, v.node)
    ensures KeywordOf(kv) in KeysMap(e) && KeysMap(e)[KeywordOf(kv)] == kv
  {
    hide KeywordOf, Path;
    FactoringKeeps(Produced(cfg, cfg.keywords, v.node), v.inForce, kv);
    MapOfIsLookup(AllKeys(e), KeywordOf(kv));
  }

  /** What is in force for an entry is its set, overridden by all that was produced for its file; so the
      other keywords in force are those of the set, and there is none exactly when all of the set's were
      produced for the file as well. */
  lemma {:induction false} KeysInForce(cfg: Config, e: Entry, v: Visit)
    requires Records(cfg, e, v) && Consistent(v.inForce) && Consistent(Produced(cfg, cfg.keywords, v.node))
    ensures var under, produced := MapOf(v.inForce), MapOf(Produced(cfg, cfg.keywords, v.node));
      KeysMap(e) == under + produced && (KeysMap(e) == produced <==> under.Keys <= produced.Keys)
  {
    hide KeywordOf, Path, Consistent, MapOf;
    KeysMapIs(e);
    WithoutOverrides(Produced(cfg, cfg.keywords, v.node), v.inForce);
    var under, over := MapOf(v.inForce), MapOf(Produced(cfg, cfg.keywords, v.node));
    if under.Keys <= over.Keys {
      assert under + over == over;
    }
  }

  /** Where the key-values of a set come from: they were asked for, or they are the owner of the root. */
  predicate SetFrom(cfg: Config, root: Node, kvs: seq<KeyVal>) {
    forall i :: 0 <= i < |kvs| ==> Requested(kvs[i], cfg.keywords) || kvs[i] in Produced(cfg, SET_KEYWORDS, root)
  }

  lemma {:induction false} RootSetFrom(cfg: Config, root: Node)
    ensures SetFrom(cfg, root, InForce(cfg, root, None))
  {
    hide Requested, Produced;
    var kvs := InForce(cfg, root, None);
    forall i | 0 <= i < |kvs|
      ensures Requested(kvs[i], cfg.keywords) || kvs[i] in Produced(cfg, SET_KEYWORDS, root)
    {
      SelectedElements(DEFAULT_SET, cfg.keywords, kvs[i]);
    }
  }

  lemma {:induction false} NextSetFrom(cfg: Config, root: Node, node: Node, cur: seq<KeyVal>)
    requires SetFrom(cfg, root, cur)
    ensures SetFrom(cfg, root, InForce(cfg, node, Some(cur)))
  {
    hide Requested, Produced;
    var kvs := InForce(cfg, node, Some(cur));
    if SetLineFor(cfg, node, Some(cur)).Some? {
      forall i | 0 <= i < |kvs|
        ensures Requested(kvs[i], cfg.keywords)
      {
        SelectedElements(DEFAULT_SET + Produced(cfg, SET_KEYWORDS, node), cfg.keywords, kvs[i]);
      }
    }
  }

  ghost predicate VisitsFrom(cfg: Config, root: Node, t: Trace) {
    && (forall i :: 0 <= i < |t.visits| ==> SetFrom(cfg, root, t.visits[i].inForce))
    && (t.cur.Some? ==> SetFrom(cfg, root, t.cur.value))
  }

  /** No file of the walk is given a keyword that was not asked for, but for the owner of the root. */
  lemma {:induction false} WalkSetsFrom(cfg: Config, root: Node)
    requires root.Dir?
    ensures VisitsFrom(cfg, root, TreeTrace(cfg, [], root, None))
  {
    hide SetFrom, InForce, Excluded, DirHead, EntryItem;
    RootSetFrom(cfg, root);
    if !Excluded(cfg, [], root) {
      ListSetsFrom(cfg, root, [], root, Order(root.children), InForce(cfg, root, None));
    }
  }

  lemma {:induction false} TreeSetsFrom(cfg: Config, root: Node, path: seq<Bytes>, node: Node, cur: seq<KeyVal>)
    requires SetFrom(cfg, root, cur)
    ensures VisitsFrom(cfg, root, TreeTrace(cfg, path, node, Some(cur)))
    decreases node, 1, 0
  {
    hide SetFrom, InForce, Excluded, DirHead, EntryItem;
    if !Excluded(cfg, path, node) && node.Dir? {
      NextSetFrom(cfg, root, node, cur);
      ListSetsFrom(cfg, root, path, node, Order(node.children), InForce(cfg, node, Some(cur)));
    }
  }

  lemma {:induction false} ListSetsFrom(cfg: Config, root: Node, path: seq<Bytes>, dir: Node, names: seq<Bytes>, cur: seq<KeyVal>)
    requires dir.Dir? && SetFrom(cfg, root, cur) && forall i :: 0 <= i < |names| ==> names[i] in dir.children
    ensures VisitsFrom(cfg, root, ListTrace(cfg, path, dir, names, Some(cur)))
    decreases dir, 0, |names|
  {
    hide SetFrom, TreeTrace;
    if names != [] {
      var first := TreeTrace(cfg, path + [names[0]], dir.children[names[0]], Some(cur));
      TreeSetsFrom(cfg, root, path + [names[0]], dir.children[names[0]], cur);
      ListSetsFrom(cfg, root, path, dir, names[1..], first.cur.value);
    }
  }

  /** The files of a directory are all printed under the set in force when the directory was entered. */
  lemma {:induction false} FilesShareTheSet(cfg: Config, path: seq<Bytes>, dir: Node, names: seq<Bytes>, inForce: seq<KeyVal>)
    requires dir.Dir? && forall i :: 0 <= i < |names| ==> names[i] in dir.children && dir.children[names[i]].File?
    ensures var t := ListTrace(cfg, path, dir, names, Some(inForce));
      t.cur == Some(inForce) && forall i :: 0 <= i < |t.visits| ==> t.visits[i].inForce == inForce && t.visits[i].node.File?
    decreases |names|
  {
    if names != [] {
      hide EntryItem, Excluded;
      FilesShareTheSet(cfg, path, dir, names[1..], inForce);
    }
  }

  lemma {:induction false} ListTraceConcat(cfg: Config, path: seq<Bytes>, dir: Node, a: seq<Bytes>, b: seq<Bytes>, cur: Option<seq<KeyVal>>)
    requires dir.Dir? && forall i :: 0 <= i < |a + b| ==> (a + b)[i] in dir.children
    requires (forall i :: 0 <= i < |a| ==> a[i] in dir.children) && (forall i :: 0 <= i < |b| ==> b[i] in dir.children)
    ensures var first := ListTrace(cfg, path, dir, a, cur);
      ListTrace(cfg, path, dir, a + b, cur) == Then(first, ListTrace(cfg, path, dir, b, first.cur))
    decreases |a|
  {
    hide TreeTrace;
    if a == [] {
      assert a + b == b;
      var t := ListTrace(cfg, path, dir, b, cur);
      assert [] + t.items == t.items && [] + t.visits == t.visits;
    } else {
      assert (a + b)[0] == a[0] && (a + b)[1..] == a[1..] + b;
      ListTraceConcat(cfg, path, dir, a[1..], b, TreeTrace(cfg, path + [a[0]], dir.children[a[0]], cur).cur);
      var first := TreeTrace(cfg, path + [a[0]], dir.children[a[0]], cur);
      var mid := ListTrace(cfg, path, dir, a[1..], first.cur);
      var last := ListTrace(cfg, path, dir, b, mid.cur);
      assert first.items + (mid.items + last.items) == (first.items + mid.items) + last.items;
      assert first.visits + (mid.visits + last.visits) == (first.visits + mid.visits) + last.visits;
    }
  }

  // ---------- the order of visits ----------

  function DirectoryOf(path: seq<Bytes>): seq<Bytes>
    requires path != []
  {
    path[..|path| - 1]
  }

  /** Of two files, or two directories, the smaller name comes first, and files come before directories. */
  predicate InOrder(a: Visit, b: Visit)
    requires a.path != [] && b.path != []
  {
    if a.node.File? == b.node.File? then Less(a.path[|a.path| - 1], b.path[|b.path| - 1]) else a.node.File?
  }

  predicate SiblingsOrdered(visits: seq<Visit>) {
    forall i, j :: 0 <= i < j < |visits| && visits[i].path != [] && visits[j].path != [] && DirectoryOf(visits[i].path) == DirectoryOf(visits[j].path) ==>
      InOrder(visits[i], visits[j])
  }

  /** What one directory holds is visited in order: files before directories, both by name. */
  lemma {:induction false} SiblingsInOrder(cfg: Config, path: seq<Bytes>, node: Node, cur: Option<seq<KeyVal>>)
    ensures SiblingsOrdered(TreeTrace(cfg, path, node, cur).visits)
    decreases node, 1, 0
  {
    hide Excluded, EntryItem, DirHead, InForce, ListTrace, Less, BelowNames;
    if !Excluded(cfg, path, node) && node.Dir? {
      var names := Order(node.children);
      DirTrace(cfg, path, node, cur, []);
      OrderFacts(node.children);
      OrderIsOrdered(node);
      ListInOrder(cfg, path, node, names, Some(InForce(cfg, node, cur)));
      ListVisits(cfg, path, node, names, Some(InForce(cfg, node, cur)));
      TopIsNoSibling(TreeTrace(cfg, path, node, cur).visits, Kids(cfg, path, node, cur).visits, path, names);
    }
  }

  lemma TopIsNoSibling(visits: seq<Visit>, kids: seq<Visit>, path: seq<Bytes>, names: seq<Bytes>)
    requires visits != [] && visits == [visits[0]] + kids && visits[0].path == path && BelowNames(kids, path, names)
    requires SiblingsOrdered(kids)
    ensures SiblingsOrdered(visits)
  {
    hide InOrder;
    forall i, j | 0 <= i < j < |visits| && visits[i].path != [] && visits[j].path != [] && DirectoryOf(visits[i].path) == DirectoryOf(visits[j].path)
      ensures InOrder(visits[i], visits[j])
    {
      assert visits[j] == kids[j - 1];
      if i > 0 {
        assert visits[i] == kids[i - 1];
      }
    }
  }

  /** Names of one directory in the order of their visits. */
  predicate NamesOrdered(dir: Node, names: seq<Bytes>)
    requires dir.Dir? && forall i :: 0 <= i < |names| ==> names[i] in dir.children
  {
    forall i, j :: 0 <= i < j < |names| ==>
      if dir.children[names[i]].File? == dir.children[names[j]].File? then Less(names[i], names[j]) else dir.children[names[i]].File?
  }

  lemma OrderIsOrdered(dir: Node)
    requires dir.Dir?
    ensures NamesOrdered(dir, Order(dir.children))
  {
    hide Less;
    var files, dirs := Sorted(FileNames(dir.children)), Sorted(DirNames(dir.children));
    assert forall i :: 0 <= i < |files| ==> files[i] in SetOf(files);
    assert forall i :: 0 <= i < |dirs| ==> dirs[i] in SetOf(dirs);
  }

  lemma {:induction false} ListInOrder(cfg: Config, path: seq<Bytes>, dir: Node, names: seq<Bytes>, cur: Option<seq<KeyVal>>)
    requires dir.Dir? && (forall i :: 0 <= i < |names| ==> names[i] in dir.children) && Distinct(names) && NamesOrdered(dir, names)
    ensures SiblingsOrdered(ListTrace(cfg, path, dir, names, cur).visits)
    decreases dir, 0, |names|
  {
    if names != [] {
      hide TreeTrace, Less, BelowNames, SiblingsOrdered, VisitsNodes, AllBelow;
      var q, child := path + [names[0]], dir.children[names[0]];
      var first := TreeTrace(cfg, q, child, cur);
      var rest := ListTrace(cfg, path, dir, names[1..], first.cur);
      SiblingsInOrder(cfg, q, child, cur);
      ListInOrder(cfg, path, dir, names[1..], first.cur);
      TreeNodes(cfg, q, child, cur);
      ListNodes(cfg, path, dir, names[1..], first.cur);
      ListVisits(cfg, path, dir, names[1..], first.cur);
      SiblingsThen(path, dir, names, first.visits, rest.visits);
    }
  }

  lemma {:induction false} SiblingsThen(path: seq<Bytes>, dir: Node, names: seq<Bytes>, first: seq<Visit>, rest: seq<Visit>)
    requires names != [] && dir.Dir? && (forall i :: 0 <= i < |names| ==> names[i] in dir.children) && Distinct(names) && NamesOrdered(dir, names)
    requires SiblingsOrdered(first) && SiblingsOrdered(rest)
    requires VisitsNodes(first, path + [names[0]], dir.children[names[0]])
    requires VisitsNodes(rest, path, dir) && BelowNames(rest, path, names[1..])
    ensures SiblingsOrdered(first + rest)
  {
    hide Less, InOrder;
    var visits := first + rest;
    forall i, j | 0 <= i < j < |visits| && visits[i].path != [] && visits[j].path != [] && DirectoryOf(visits[i].path) == DirectoryOf(visits[j].path)
      ensures InOrder(visits[i], visits[j])
    {
      if i < |first| <= j {
        ApartInOrder(path, dir, names, visits[i], rest, j - |first|);
      } else if j < |first| {
        assert visits[i] == first[i] && visits[j] == first[j];
      } else {
        assert visits[i] == rest[i - |first|] && visits[j] == rest[j - |first|];
      }
    }
  }

  lemma SameDirectory(p: seq<Bytes>, q: seq<Bytes>, n: nat)
    requires n < |p| && n < |q| && p[n] != q[n] && DirectoryOf(p) == DirectoryOf(q)
    ensures |p| == |q| == n + 1
  {
    forall m | 0 <= m < |p| - 1
      ensures p[m] == q[m]
    {
      assert DirectoryOf(p)[m] == DirectoryOf(q)[m];
    }
  }

  lemma {:induction false} ApartInOrder(path: seq<Bytes>, dir: Node, names: seq<Bytes>, a: Visit, rest: seq<Visit>, j: nat)
    requires names != [] && dir.Dir? && (forall i :: 0 <= i < |names| ==> names[i] in dir.children) && Distinct(names) && NamesOrdered(dir, names)
    requires path + [names[0]] <= a.path && NodeAt(dir.children[names[0]], a.path[|path| + 1..]) == Some(a.node)
    requires j < |rest| && VisitsNodes(rest, path, dir) && BelowNames(rest, path, names[1..])
    requires rest[j].path != [] && DirectoryOf(a.path) == DirectoryOf(rest[j].path)
    ensures InOrder(a, rest[j])
  {
    hide Less;
    var b := rest[j];
    var name := b.path[|path|];
    assert name in names[1..] && path <= b.path;
    var k :| 0 < k < |names| && names[k] == name;
    assert a.path[|path|] == names[0] != names[k];
    SameDirectory(a.path, b.path, |path|);
    assert a.path[|path| + 1..] == [] && b.path[|path|..] == [name];
    assert b.path[|path|..][1..] == [];
    assert b.node == dir.children[name] by {
      assert NodeAt(dir, b.path[|path|..]) == NodeAt(dir.children[name], []);
    }
  }

  // ---------- what is printed for a directory ----------

  /** One of the four default key-values. */
  predicate IsDefault(kv: KeyVal) {
    kv == "type=file" || kv == "nlink=1" || kv == "flags=none" || kv == "mode=0664"
  }

  predicate IsAsked(cfg: Config, kv: KeyVal) {
    exists i :: 0 <= i < |cfg.keywords| && Prefix(cfg.keywords[i]) == Prefix(KeywordOf(kv))
  }

  /** What a /set line holds: the defaults asked for and the owner of the directory, on later lines as far as asked for. */
  predicate InSetLine(cfg: Config, node: Node, first: bool, kv: KeyVal) {
    || (IsDefault(kv) && IsAsked(cfg, kv))
    || (kv in Produced(cfg, ["uid", "gid"], node) && (first || IsAsked(cfg, kv)))
  }

  ghost predicate IsSetLine(item: Item, cfg: Config, node: Node, first: bool) {
    item.Special? && item.name == "/set" && forall kv :: kv in item.keywords <==> InSetLine(cfg, node, first, kv)
  }

  /** The owner of the directory is not what the set in force says, or there is none. */
  predicate NeedsSet(cfg: Config, node: Node, cur: Option<seq<KeyVal>>) {
    cur.None? || exists kv :: kv in Produced(cfg, ["uid", "gid"], node) && kv !in cur.value
  }

  /** A directory opens with a blank, a comment with its path, a /set line exactly if it needs one, and its entry, and
      closes with "..". */
  lemma {:induction false} DirectoryPrinted(cfg: Config, path: seq<Bytes>, node: Node, cur: Option<seq<KeyVal>>)
    requires node.Dir? && !Excluded(cfg, path, node)
    ensures var items := TreeTrace(cfg, path, node, cur).items;
      && |items| >= 4 && items[0] == Blank && items[1] == Comment("# " + PathText(path)) && items[|items| - 1] == DotDot("..")
      && if NeedsSet(cfg, node, cur) then IsSetLine(items[2], cfg, node, cur.None?) && IsEntryOf(items[3], path)
         else IsEntryOf(items[2], path)
  {
    hide Excluded, TreeTrace, ListTrace, EntryItem, Produced, Requested, PathText;
    DirTrace(cfg, path, node, cur, []);
    SetLineIs(cfg, node, cur);
    var inForce := InForce(cfg, node, cur);
    ItemIsEntry(cfg, path, node, inForce);
    DirItems(cfg, path, node, cur);
  }

  /** A relative entry with the encoded last name of the path, or "." for the root. */
  predicate IsEntryOf(item: Item, path: seq<Bytes>) {
    item.Named? && item.name == VisBytes(if path == [] then "." else path[|path| - 1], DEFAULT_VIS_FLAGS)
  }

  lemma ItemIsEntry(cfg: Config, path: seq<Bytes>, node: Node, inForce: seq<KeyVal>)
    ensures IsEntryOf(EntryItem(cfg, path, node, inForce), path)
  {
  }

  lemma DirItems(cfg: Config, path: seq<Bytes>, node: Node, cur: Option<seq<KeyVal>>)
    requires node.Dir? && !Excluded(cfg, path, node)
    ensures TreeTrace(cfg, path, node, cur).items == DirHead(cfg, path, node, cur) + [EntryItem(cfg, path, node, InForce(cfg, node, cur))]
      + (Kids(cfg, path, node, cur).items + [DotDot("..")])
  {
    hide Excluded, EntryItem, DirHead, InForce, ListTrace;
  }

  lemma {:induction false} SetLineIs(cfg: Config, node: Node, cur: Option<seq<KeyVal>>)
    ensures SetLineFor(cfg, node, cur).Some? <==> NeedsSet(cfg, node, cur)
    ensures SetLineFor(cfg, node, cur).Some? ==>
      forall kv :: kv in SetLineFor(cfg, node, cur).value <==> InSetLine(cfg, node, cur.None?, kv)
  {
    hide Produced, KeywordOf, Prefix;
    assert SET_KEYWORDS == ["uid", "gid"];
    var klist := Produced(cfg, ["uid", "gid"], node);
    forall kv
      ensures kv in DEFAULT_SET <==> IsDefault(kv)
      ensures Requested(kv, cfg.keywords) <==> IsAsked(cfg, kv)
    {
    }
    if cur.Some? {
      forall kv | kv in klist && kv !in cur.value
        ensures exists i :: 0 <= i < |klist| && klist[i] !in cur.value
      {
        var i :| 0 <= i < |klist| && klist[i] == kv;
      }
    }
    if SetLineFor(cfg, node, cur).Some? {
      forall kv
        ensures kv in SetLineFor(cfg, node, cur).value <==> InSetLine(cfg, node, cur.None?, kv)
      {
        SelectedElements(DEFAULT_SET, cfg.keywords, kv);
        SelectedElements(DEFAULT_SET + klist, cfg.keywords, kv);
      }
    }
  }

  /** In the walk of a directory its files come first, under the directory's own set, then its subdirectories. */
  lemma {:induction false} FilesFirst(cfg: Config, path: seq<Bytes>, node: Node, cur: Option<seq<KeyVal>>)
    requires node.Dir?
    ensures var inForce := InForce(cfg, node, cur);
      var files := ListTrace(cfg, path, node, FilesOf(node), Some(inForce));
      && (forall i :: 0 <= i < |files.visits| ==> files.visits[i].inForce == inForce && files.visits[i].node.File?)
      && Kids(cfg, path, node, cur) == Then(files, ListTrace(cfg, path, node, DirsOf(node), Some(inForce)))
  {
    hide InForce;
    var inForce := InForce(cfg, node, cur);
    FilesShareTheSet(cfg, path, node, FilesOf(node), inForce);
    ListTraceConcat(cfg, path, node, FilesOf(node), DirsOf(node), Some(inForce));
  }

  ghost function FilesOf(node: Node): (names: seq<Bytes>)
    requires node.Dir?
    ensures forall i :: 0 <= i < |names| ==> names[i] in node.children && node.children[names[i]].File?
  {
    var names := Sorted(FileNames(node.children));
    assert forall i :: 0 <= i < |names| ==> names[i] in SetOf(names);
    names
  }

  ghost function DirsOf(node: Node): (names: seq<Bytes>)
    requires node.Dir?
    ensures forall i :: 0 <= i < |names| ==> names[i] in node.children && node.children[names[i]].Dir?
  {
    var names := Sorted(DirNames(node.children));
    assert forall i :: 0 <= i < |names| ==> names[i] in SetOf(names);
    names
  }

  // ---------- printing and parsing a walk ----------

  /** No line printed for the statements ends in a backslash, and no comment is more than a line. */
  predicate NoBrokenLine(items: seq<Item>) {
    forall i :: 0 <= i < |items| ==> !Folds(items[i]) && !Breaks(items[i])
  }

  predicate AllSteady(items: seq<Item>) {
    forall i :: 0 <= i < |items| ==> Steady(items[i])
  }

  lemma CommentSteady(path: seq<Bytes>)
    ensures Steady(Comment("# " + PathText(path)))
  {
    var raw := "# " + PathText(path);
    assert raw[0] == '#' && raw[1] == ' ';
    assert TrimBlanks(raw) == raw;
  }

  /** The comment of a directory breaks exactly when a name in its path has a newline, or its own name
      ends in a carriage return. */
  lemma {:induction false} CommentBreaks(path: seq<Bytes>)
    requires Paths.AllPlain(path)
    ensures Breaks(Comment("# " + PathText(path))) <==>
      (exists i :: 0 <= i < |path| && '\n' in path[i]) || (path != [] && HasSuffix(BaseName(path), "\r"))
  {
    if path != [] {
      hide Join, HasSuffix;
      var text := Join(path, '/');
      JoinLast(path);
      CommentOf(text);
      LastByte(BaseName(path), '\r');
      if '\n' in text {
        JoinBytes(path, '/', '\n');
      }
      if i :| 0 <= i < |path| && '\n' in path[i] {
        JoinHas(path, '\n', i);
      }
    } else {
      CommentOf(".");
    }
  }

  lemma CommentOf(text: Bytes)
    requires text != []
    ensures Breaks(Comment("# " + text)) <==> '\n' in text || text[|text| - 1] == '\r'
  {
    var raw := "# " + text;
    assert raw[|raw| - 1] == text[|text| - 1];
  }

  lemma LastByte(s: Bytes, c: Byte)
    requires s != []
    ensures HasSuffix(s, [c]) <==> s[|s| - 1] == c
  {
    assert s[|s| - 1..] == [s[|s| - 1]];
  }

  lemma {:induction false} JoinHas(parts: seq<Bytes>, c: Byte, i: nat)
    requires i < |parts| && c in parts[i]
    ensures c in Join(parts, '/')
  {
    if |parts| > 1 && i > 0 {
      JoinHas(parts[1..], c, i - 1);
    }
  }

  lemma {:induction false} JoinLast(parts: seq<Bytes>)
    requires parts != [] && forall i :: 0 <= i < |parts| ==> parts[i] != ""
    ensures Join(parts, '/') != ""
    ensures var joined, last := Join(parts, '/'), parts[|parts| - 1]; joined[|joined| - 1] == last[|last| - 1]
  {
    if |parts| > 1 {
      JoinLast(parts[1..]);
    }
  }

  lemma {:induction false} EncodedNameIs(name: Bytes)
    requires name == "." || Paths.IsPlain(name)
    ensures var e := VisBytes(name, DEFAULT_VIS_FLAGS);
      e != [] && IsWord(e) && e[0] != '#' && e[0] != '/' && e != ".." && '/' !in e && Paths.Clean(e) == e
  {
    var e := VisBytes(name, DEFAULT_VIS_FLAGS);
    EncodedName(name);
    EncodedDots(name);
    assert forall i :: 0 <= i < |e| ==> IsNameByte(e[i]);
    assert e[0] in e;
    AsciiWord(e);
    hide IsWord;
    if e == "." {
      DotPath();
      Paths.SegmentsOfRender(false, []);
    } else {
      Paths.SegmentsOfRender(false, [e]);
    }
  }

  /** A node's line, under the encoded name. */
  lemma NamedSteady(name: Bytes, keywords: seq<KeyVal>, isDir: bool)
    requires (name == "." || Paths.IsPlain(name)) && AllWords(keywords) && SaysDir(keywords) == isDir
    ensures Steady(Named(false, VisBytes(name, DEFAULT_VIS_FLAGS), keywords, isDir))
  {
    hide Paths.Clean, VisBytes, SaysDir, IsWord, EndsLine;
    EncodedNameIs(name);
    FirstByte(VisBytes(name, DEFAULT_VIS_FLAGS), '#');
  }

  lemma {:induction false} EntrySteady(cfg: Config, path: seq<Bytes>, node: Node, inForce: seq<KeyVal>)
    requires NodeDescribed(cfg, node) && SetOk(inForce) && Paths.AllPlain(path)
    ensures Steady(EntryItem(cfg, path, node, inForce))
  {
    hide VisBytes, Produced, SaysDir, IsWord, SetOk, Steady;
    var produced := Produced(cfg, cfg.keywords, node);
    TypeKept(produced, inForce);
    WithoutWords(produced, inForce);
    NamedSteady(BaseName(path), Without(produced, inForce), node.Dir?);
  }

  lemma SetSteady(kvs: seq<KeyVal>)
    requires SetOk(kvs)
    ensures Steady(Special("/set", kvs))
  {
  }

  lemma DotDotSteady()
    ensures Steady(DotDot(".."))
  {
    FieldsOfWord("..");
    assert TrimBlanks("..") == "..";
  }

  ghost predicate VisitsOk(cfg: Config, visits: seq<Visit>) {
    forall i :: 0 <= i < |visits| ==> SetOk(visits[i].inForce) && NodeDescribed(cfg, visits[i].node)
  }

  /** Everything a walk lays out can be printed, and keeps its keys. */
  ghost predicate TraceOk(cfg: Config, t: Trace) {
    && AllSteady(t.items) && PlainDots(t.items)
    && VisitsOk(cfg, t.visits) && (t.cur.Some? ==> SetOk(t.cur.value))
  }

  predicate PlainDots(items: seq<Item>) {
    forall i :: 0 <= i < |items| && items[i].DotDot? ==> items[i].raw == ".."
  }

  lemma TraceOkThen(cfg: Config, a: Trace, b: Trace)
    requires TraceOk(cfg, a) && TraceOk(cfg, b)
    ensures TraceOk(cfg, Then(a, b))
  {
    hide SetOk, NodeDescribed, Steady;
  }

  lemma {:induction false} OpeningOk(cfg: Config, path: seq<Bytes>, node: Node, cur: Option<seq<KeyVal>>)
    requires node.Dir? && NodeDescribed(cfg, node) && Paths.AllPlain(path) && (cur.Some? ==> SetOk(cur.value))
    ensures TraceOk(cfg, Opening(cfg, path, node, cur)) && SetOk(InForce(cfg, node, cur))
  {
    hide SetOk, Steady, EntryItem, SetLineFor, PathText, Produced, Consistent, AllWords, SetItems, InForce;
    var inForce := InForce(cfg, node, cur);
    var kvs, item := SetLineFor(cfg, node, cur), EntryItem(cfg, path, node, inForce);
    InForceOk(cfg, node, cur);
    assert Opening(cfg, path, node, cur).items == [Blank, Comment("# " + PathText(path))] + SetItems(kvs) + [item];
    EntryIsNamed(cfg, path, node, inForce);
    EntrySteady(cfg, path, node, inForce);
    HeadSteady(path, kvs, inForce, cfg, node, cur);
  }

  /** The lines before the entry of a directory. */
  lemma HeadSteady(path: seq<Bytes>, kvs: Option<seq<KeyVal>>, inForce: seq<KeyVal>, cfg: Config, node: Node, cur: Option<seq<KeyVal>>)
    requires kvs == SetLineFor(cfg, node, cur) && inForce == InForce(cfg, node, cur) && SetOk(inForce) && Paths.AllPlain(path)
    ensures AllSteady([Blank, Comment("# " + PathText(path))] + SetItems(kvs)) && PlainDots([Blank, Comment("# " + PathText(path))] + SetItems(kvs))
  {
    hide SetOk, Steady, SetLineFor, PathText;
    CommentSteady(path);
    BlankSteady();
    if kvs.Some? {
      SetSteady(kvs.value);
    }
  }

  lemma EntryIsNamed(cfg: Config, path: seq<Bytes>, node: Node, inForce: seq<KeyVal>)
    ensures EntryItem(cfg, path, node, inForce).Named?
  {
  }

  lemma BlankSteady()
    ensures Steady(Blank)
  {
  }

  lemma {:induction false} TreeOk(cfg: Config, path: seq<Bytes>, node: Node, cur: Option<seq<KeyVal>>)
    requires ValidTree(node) && WellDescribed(cfg, path, node) && Paths.AllPlain(path)
    requires (node.File? ==> cur.Some?) && (cur.Some? ==> SetOk(cur.value))
    ensures TraceOk(cfg, TreeTrace(cfg, path, node, cur))
    decreases node, 1, 0
  {
    hide SetOk, InForce, DirHead, EntryItem, NodeDescribed, Steady;
    if Excluded(cfg, path, node) {
    } else if node.File? {
      EntryIsNamed(cfg, path, node, cur.value);
      var item := EntryItem(cfg, path, node, cur.value);
      EntrySteady(cfg, path, node, cur.value);
      assert [item][0] == item;
    } else {
      var opening, kids := Opening(cfg, path, node, cur), Kids(cfg, path, node, cur);
      var closing := Trace([DotDot("..")], [], kids.cur);
      OpeningOk(cfg, path, node, cur);
      ListOk(cfg, path, node, Order(node.children), opening.cur);
      DotDotSteady();
      TraceOkThen(cfg, kids, closing);
      TraceOkThen(cfg, opening, Then(kids, closing));
    }
  }

  lemma {:induction false} ListOk(cfg: Config, path: seq<Bytes>, dir: Node, names: seq<Bytes>, cur: Option<seq<KeyVal>>)
    requires dir.Dir? && ValidTree(dir) && WellDescribed(cfg, path, dir) && !Excluded(cfg, path, dir)
    requires forall i :: 0 <= i < |names| ==> names[i] in dir.children
    requires Paths.AllPlain(path) && cur.Some? && SetOk(cur.value)
    ensures TraceOk(cfg, ListTrace(cfg, path, dir, names, cur))
    decreases dir, 0, |names|
  {
    hide SetOk, NodeDescribed, Steady, TreeTrace, Excluded;
    if names != [] {
      var name := names[0];
      var first := TreeTrace(cfg, path + [name], dir.children[name], cur);
      TreeOk(cfg, path + [name], dir.children[name], cur);
      ListOk(cfg, path, dir, names[1..], first.cur);
      TraceOkThen(cfg, first, ListTrace(cfg, path, dir, names[1..], first.cur));
    }
  }

  lemma {:induction false} HeaderOk(header: seq<Bytes>)
    requires forall i :: 0 <= i < |header| ==> Steady(Comment(header[i]))
    ensures AllSteady(HeaderItems(header)) && PlainDots(HeaderItems(header))
  {
    hide Steady;
    if header != [] {
      HeaderOk(header[1..]);
    }
  }

  lemma {:induction false} HeaderLays(cfg: Config, header: seq<Bytes>, c: Cursor)
    ensures Lays(cfg, c, Trace(HeaderItems(header), [], SetKeyVals(c.setLine)))
    ensures LinkFrom(c, HeaderItems(header)).stack == c.stack
  {
    if header == [] {
      LaysNothing(cfg, c, SetKeyVals(c.setLine));
    } else {
      var first := Trace([Comment(header[0])], [], SetKeyVals(c.setLine));
      var rest := Trace(HeaderItems(header[1..]), [], SetKeyVals(c.setLine));
      AddedOne(c, Comment(header[0]));
      NoRelatives(Added(c, first.items));
      HeaderLays(cfg, header[1..], Place(c, Comment(header[0])));
      LaysThen(cfg, c, first, rest);
    }
  }

  /** What is assumed of a tree, its keyword functions and the header comments. */
  ghost predicate Walkable(cfg: Config, header: seq<Bytes>, root: Node) {
    && root.Dir? && ValidTree(root) && WellDescribed(cfg, [], root)
    && forall i :: 0 <= i < |header| ==> Steady(Comment(header[i]))
  }

  lemma {:induction false} WalkItemsSteady(cfg: Config, header: seq<Bytes>, root: Node)
    requires Walkable(cfg, header, root)
    ensures AllSteady(WalkItems(cfg, header, root)) && PlainDots(WalkItems(cfg, header, root))
  {
    hide Steady, TreeTrace, WellDescribed, NoBrokenLine, AllSteady, PlainDots, VisitsOk;
    HeaderOk(header);
    TreeOk(cfg, [], root, None);
    NoVisits(cfg);
    TraceOkThen(cfg, Trace(HeaderItems(header), [], None), TreeTrace(cfg, [], root, None));
  }

  lemma NoVisits(cfg: Config)
    ensures VisitsOk(cfg, [])
  {
  }

  lemma WalkedPrint(items: seq<Item>)
    requires PlainDots(items)
    ensures AllPrint(Walked(Link(items).entries), items)
  {
    hide Link, EntryAt, WalkedForm, Prints;
    EntriesKept(items, 0);
    forall i | 0 <= i < |items|
      ensures Prints(Walked(Link(items).entries)[i], items[i])
    {
      LinkAt(items, i);
      WalkedPrints(Link(items[..i]), items[i]);
    }
  }

  lemma WalkedPrints(c: Cursor, item: Item)
    requires item.DotDot? ==> item.raw == ".."
    ensures Prints(WalkedForm(EntryAt(c, item)), item)
  {
  }

  /** What Walk answers, entry by entry, against what its statements link to. */
  predicate SameButDots(walked: seq<Entry>, parsed: seq<Entry>) {
    && |parsed| == |walked|
    && (forall i :: 0 <= i < |walked| && walked[i].kind != DotDotType ==> parsed[i] == walked[i])
    && (forall i :: 0 <= i < |walked| && walked[i].kind == DotDotType ==>
          parsed[i].kind == DotDotType && parsed[i].raw == walked[i].name && parsed[i].pos == walked[i].pos)
  }

  lemma WalkedSameButDots(items: seq<Item>)
    requires PlainDots(items)
    ensures SameButDots(Walked(Link(items).entries), Link(items).entries)
  {
    LinkConcat(START, items, []);
    forall i | 0 <= i < |items|
      ensures Link(items).entries[i].kind == DotDotType ==> Link(items).entries[i].raw == ".."
    {
      LinkAt(items, i);
    }
  }

  /** Printing what Walk answers and parsing it gives back the same entries: same positions, types,
      names, keywords, and the same parents and sets: if and only if no printed line ends in a backslash
      and no comment is more than a line.  Only the ".." entries differ, which Walk leaves without their directory. */
  lemma {:induction false} PrintedWalkParses(cfg: Config, header: seq<Bytes>, root: Node)
    requires Walkable(cfg, header, root)
    ensures var linked := Link(WalkItems(cfg, header, root)).entries;
      && (Parse(Text(Lines(SortByPos(Walked(linked))))) == Ok(linked) <==> NoBrokenLine(WalkItems(cfg, header, root)))
      && SameButDots(Walked(linked), linked)
  {
    hide TreeTrace, Steady, Prints, Link, Walkable, WalkItems, SameButDots, SortByPos, Parse, Text, AllSteady, PlainDots;
    var items := WalkItems(cfg, header, root);
    WalkItemsSteady(cfg, header, root);
    WalkedPrint(items);
    WalkedInOrder(items);
    SortedAlready(Walked(Link(items).entries));
    SteadyParts(items);
    PrintParseExactly(items, Walked(Link(items).entries));
    WalkedSameButDots(items);
  }

  lemma SteadyParts(items: seq<Item>)
    requires AllSteady(items)
    ensures AllWordy(items) && (AllReprintable(items) <==> NoBrokenLine(items))
  {
    hide Wordy;
  }

  lemma WalkedInOrder(items: seq<Item>)
    ensures |Link(items).entries| == |items| && Printing.Ascending(Walked(Link(items).entries))
  {
    hide Link, EntryAt;
    EntriesKept(items, 0);
    forall i | 0 <= i < |items|
      ensures Walked(Link(items).entries)[i].pos == i
    {
      ParentsBefore(items, i);
    }
  }

  /** The parsed walk describes the tree: its relative entries record, in order, exactly the unexcluded
      nodes, one entry a path, and each keeps every key-value produced for its node. */
  lemma {:induction false} WalkDescribesTree(cfg: Config, header: seq<Bytes>, root: Node)
    requires Walkable(cfg, header, root)
    ensures var relatives, visits := Relatives(Link(WalkItems(cfg, header, root)).entries), TreeTrace(cfg, [], root, None).visits;
      && AllRecorded(cfg, relatives, visits) && OncePerPath(visits) && VisitsOk(cfg, visits)
      && VisitsNodes(visits, [], root)
      && (forall path :: Visited(visits, path) <==> Stays(cfg, [], root, path))
  {
    hide Lays, TreeTrace, WellDescribed, NoBrokenLine, Stays;
    var t := TreeTrace(cfg, [], root, None);
    var head := Trace(HeaderItems(header), [], None);
    HeaderLays(cfg, header, START);
    OpeningCur(cfg, START, head);
    TreeLays(cfg, [], root, None, LinkFrom(START, head.items));
    LaysThen(cfg, START, head, t);
    LaysRelatives(cfg, Then(head, t));
    assert [] + t.visits == t.visits;
    TreeOk(cfg, [], root, None);
    TreeVisits(cfg, [], root, None);
    forall path
      ensures Visited(t.visits, path) <==> Stays(cfg, [], root, path)
    {
      assert [] + path == path;
    }
  }

  lemma LaysRelatives(cfg: Config, t: Trace)
    requires Lays(cfg, START, t)
    ensures AllRecorded(cfg, Relatives(Link(t.items).entries), t.visits)
  {
    assert Added(START, t.items) == Link(t.items).entries;
  }
}
