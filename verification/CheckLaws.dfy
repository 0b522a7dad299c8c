/** Check: a tree walked again shows no difference from its printed and parsed manifest. */
module CheckLaws {
  import opened GoBytes
  import opened Govis
  import opened Keywords
  import opened Entries
  import opened Manifest
  import opened Spec
  import opened Printing
  import opened Walk
  import opened WalkLaws
  import opened Compare
  import opened CompareLaws
  import Paths

  // ---------- from visits to the map compared ----------

  predicate NoFullPaths(entries: seq<Entry>) {
    forall i :: 0 <= i < |entries| ==> entries[i].kind != FullType
  }

  /** Only the relative entries matter for the map by path. */
  lemma {:induction false} EntryMapOfRelatives(entries: seq<Entry>)
    requires NoFullPaths(entries)
    ensures EntryMap(entries) == EntryMap(Relatives(entries))
  {
    if entries != [] {
      hide Path;
      var n := |entries| - 1;
      var e := entries[n];
      var rest := Relatives(entries[..n]);
      EntryMapOfRelatives(entries[..n]);
      assert entries == entries[..n] + [e];
      RelativesConcat(entries[..n], [e]);
      assert Relatives([e]) == (if e.kind == RelativeType then [e] else []) + Relatives([e][1..]);
      assert [e][1..] == [];
      if e.kind == RelativeType {
        assert Relatives(entries) == rest + [e] && (rest + [e])[..|rest|] == rest;
      } else {
        assert Relatives(entries) == rest + [] && rest + [] == rest;
      }
    }
  }

  /** Distinct plain paths are written differently. */
  lemma PathTextInjective(a: seq<Bytes>, b: seq<Bytes>)
    requires Paths.AllPlain(a) && Paths.AllPlain(b) && PathText(a) == PathText(b)
    ensures a == b
  {
    Paths.SegmentsOfRender(false, a);
    Paths.SegmentsOfRender(false, b);
  }

  predicate PlainVisits(visits: seq<Visit>) {
    forall i :: 0 <= i < |visits| ==> Paths.AllPlain(visits[i].path)
  }

  /** The map holds one entry a visit, under its path, and no other. */
  ghost predicate MapsVisits(m: map<Bytes, Entry>, entries: seq<Entry>, visits: seq<Visit>)
    requires |entries| == |visits|
  {
    && (forall i :: 0 <= i < |visits| ==> PathText(visits[i].path) in m && m[PathText(visits[i].path)] == entries[i])
    && (forall p :: p in m ==> IsVisited(visits, p))
  }

  ghost predicate IsVisited(visits: seq<Visit>, p: Bytes) {
    exists i :: 0 <= i < |visits| && p == PathText(visits[i].path)
  }

  lemma {:induction false} RecordedMap(cfg: Config, entries: seq<Entry>, visits: seq<Visit>)
    requires AllRecorded(cfg, entries, visits) && OncePerPath(visits) && PlainVisits(visits)
    ensures EntryMap(entries).Ok? && MapsVisits(EntryMap(entries).value, entries, visits)
  {
    if entries != [] {
      hide Path, PathText, VisBytes, MapsVisits, Paths.AllPlain;
      var n := |entries| - 1;
      RecordedMap(cfg, entries[..n], visits[..n]);
      assert Records(cfg, entries[n], visits[n]);
      MapsOneMore(EntryMap(entries[..n]).value, entries, visits);
    } else {
      assert EntryMap(entries) == Ok(map[]);
    }
  }

  lemma MapsOneMore(before: map<Bytes, Entry>, entries: seq<Entry>, visits: seq<Visit>)
    requires |entries| == |visits| > 0 && OncePerPath(visits) && PlainVisits(visits)
    requires MapsVisits(before, entries[..|entries| - 1], visits[..|entries| - 1])
    ensures MapsVisits(before[PathText(visits[|entries| - 1].path) := entries[|entries| - 1]], entries, visits)
  {
    hide PathText, Paths.AllPlain;
    var n := |entries| - 1;
    var m := before[PathText(visits[n].path) := entries[n]];
    forall i | 0 <= i < |visits|
      ensures PathText(visits[i].path) in m && m[PathText(visits[i].path)] == entries[i]
    {
      if i < n {
        assert visits[..n][i] == visits[i] && entries[..n][i] == entries[i];
        if PathText(visits[i].path) == PathText(visits[n].path) {
          PathTextInjective(visits[i].path, visits[n].path);
        }
      }
    }
    forall p | p in m
      ensures IsVisited(visits, p)
    {
      if p in before {
        assert IsVisited(visits[..n], p);
        var i :| 0 <= i < n && p == PathText(visits[..n][i].path);
        assert p == PathText(visits[i].path);
      } else {
        assert p == PathText(visits[n].path);
      }
    }
  }

  // ---------- the walks ----------

  lemma {:induction false} ReachesPlain(cfg: Config, path: seq<Bytes>, node: Node, suffix: seq<Bytes>)
    requires ValidTree(node) && Reaches(cfg, path, node, suffix)
    ensures Paths.AllPlain(suffix)
    decreases suffix
  {
    hide Excluded;
    if suffix != [] {
      ReachesPlain(cfg, path + [suffix[0]], node.children[suffix[0]], suffix[1..]);
    }
  }

  lemma WalkedRelatives(entries: seq<Entry>)
    ensures Relatives(Walked(entries)) == Relatives(entries)
    ensures NoFullPaths(entries) ==> NoFullPaths(Walked(entries))
  {
    if entries != [] {
      assert Walked(entries)[1..] == Walked(entries[1..]);
      WalkedRelatives(entries[1..]);
    }
  }

  lemma NoFullItems(items: seq<Item>)
    requires forall i :: 0 <= i < |items| && items[i].Named? ==> !items[i].full
    ensures NoFullPaths(Link(items).entries)
  {
    LinkConcat(START, items, []);
    forall i | 0 <= i < |items|
      ensures Link(items).entries[i].kind != FullType
    {
      LinkAt(items, i);
    }
  }

  lemma {:induction false} TreeRelative(cfg: Config, path: seq<Bytes>, node: Node, cur: Option<seq<KeyVal>>)
    ensures AllRelative(TreeTrace(cfg, path, node, cur).items)
    decreases node, 1, 0
  {
    hide Excluded, InForce, SetLineFor, ListTrace, AllRelative;
    var t := TreeTrace(cfg, path, node, cur);
    if Excluded(cfg, path, node) {
      EntryRelative(cfg, path, node, []);
    } else if node.File? {
      EntryRelative(cfg, path, node, if cur.Some? then cur.value else []);
    } else {
      var inForce, kids := InForce(cfg, node, cur), Kids(cfg, path, node, cur);
      ListRelative(cfg, path, node, Order(node.children), Some(inForce));
      DirTrace(cfg, path, node, cur, []);
      EntryRelative(cfg, path, node, inForce);
      HeadRelative(cfg, path, node, cur);
      RelativeThen(DirHead(cfg, path, node, cur), [EntryItem(cfg, path, node, inForce)]);
      RelativeThen(DirHead(cfg, path, node, cur) + [EntryItem(cfg, path, node, inForce)], kids.items);
      RelativeThen(DirHead(cfg, path, node, cur) + [EntryItem(cfg, path, node, inForce)] + kids.items, [DotDot("..")]);
    }
  }

  lemma EntryRelative(cfg: Config, path: seq<Bytes>, node: Node, inForce: seq<KeyVal>)
    ensures AllRelative([EntryItem(cfg, path, node, inForce)]) && AllRelative([DotDot("..")]) && AllRelative([])
  {
  }

  lemma HeadRelative(cfg: Config, path: seq<Bytes>, node: Node, cur: Option<seq<KeyVal>>)
    ensures AllRelative(DirHead(cfg, path, node, cur))
  {
  }

  lemma RelativeThen(a: seq<Item>, b: seq<Item>)
    requires AllRelative(a) && AllRelative(b)
    ensures AllRelative(a + b)
  {
  }

  lemma {:induction false} ListRelative(cfg: Config, path: seq<Bytes>, dir: Node, names: seq<Bytes>, cur: Option<seq<KeyVal>>)
    requires dir.Dir? && forall i :: 0 <= i < |names| ==> names[i] in dir.children
    ensures AllRelative(ListTrace(cfg, path, dir, names, cur).items)
    decreases dir, 0, |names|
  {
    if names != [] {
      hide TreeTrace;
      var first := TreeTrace(cfg, path + [names[0]], dir.children[names[0]], cur);
      TreeRelative(cfg, path + [names[0]], dir.children[names[0]], cur);
      ListRelative(cfg, path, dir, names[1..], first.cur);
      RelativeThen(first.items, ListTrace(cfg, path, dir, names[1..], first.cur).items);
    }
  }

  lemma {:induction false} HeaderRelative(header: seq<Bytes>)
    ensures AllRelative(HeaderItems(header))
  {
    if header != [] {
      HeaderRelative(header[1..]);
    }
  }

  lemma WalkIsRelative(cfg: Config, header: seq<Bytes>, root: Node)
    ensures NoFullPaths(Link(WalkItems(cfg, header, root)).entries)
  {
    hide TreeTrace, Link;
    TreeRelative(cfg, [], root, None);
    HeaderRelative(header);
    NoFullItems(WalkItems(cfg, header, root));
  }

  // ---------- the keys in force for the files of a walk ----------

  /** What is in force for a visited file. */
  function KeysFor(cfg: Config, v: Visit): Keys {
    MapOf(v.inForce) + MapOf(Produced(cfg, cfg.keywords, v.node))
  }

  /** The map holds the visited paths, each with the keys in force for its file. */
  ghost predicate MapsKeys(cfg: Config, m: map<Bytes, Entry>, visits: seq<Visit>) {
    && OncePerPath(visits) && PlainVisits(visits)
    && (forall i :: 0 <= i < |visits| ==> PathText(visits[i].path) in m && KeysMap(m[PathText(visits[i].path)]) == KeysFor(cfg, visits[i]))
    && (forall p :: p in m ==> IsVisited(visits, p))
  }

  lemma {:induction false} RecordedKeys(cfg: Config, m: map<Bytes, Entry>, entries: seq<Entry>, visits: seq<Visit>)
    requires AllRecorded(cfg, entries, visits) && VisitsOk(cfg, visits) && MapsVisits(m, entries, visits)
    requires OncePerPath(visits) && PlainVisits(visits)
    ensures MapsKeys(cfg, m, visits)
  {
    hide Records, SetOk, PathText, KeysMap, Produced, MapOf, AllWords, Consistent, PlainVisits, OncePerPath;
    forall i | 0 <= i < |visits|
      ensures PathText(visits[i].path) in m && KeysMap(m[PathText(visits[i].path)]) == KeysFor(cfg, visits[i])
    {
      VisitDescribed(cfg, visits, i);
      KeysInForce(cfg, entries[i], visits[i]);
    }
  }

  lemma VisitDescribed(cfg: Config, visits: seq<Visit>, i: nat)
    requires VisitsOk(cfg, visits) && i < |visits|
    ensures var kvs := Produced(cfg, cfg.keywords, visits[i].node);
      && Consistent(kvs) && AllWords(kvs) && Consistent(visits[i].inForce) && AllWords(visits[i].inForce)
  {
  }

  /** A walk and its parsed manifest have the same map by path. */
  lemma {:induction false} WalkMapped(cfg: Config, header: seq<Bytes>, root: Node)
    requires Walkable(cfg, header, root)
    ensures var entries, visits := Link(WalkItems(cfg, header, root)).entries, TreeTrace(cfg, [], root, None).visits;
      && EntryMap(entries).Ok? && EntryMap(Walked(entries)) == EntryMap(entries) && MapsKeys(cfg, EntryMap(entries).value, visits)
  {
    assert ValidTree(root);
    hide Link, TreeTrace, Walkable, WalkItems, MapsVisits, EntryMap, Relatives, Records, VisitsOk, Reaches, Stays, VisitsNodes, NoFullPaths, OncePerPath, ValidTree, MapsKeys;
    var entries, visits := Link(WalkItems(cfg, header, root)).entries, TreeTrace(cfg, [], root, None).visits;
    WalkDescribesTree(cfg, header, root);
    WalkIsRelative(cfg, header, root);
    WalkedRelatives(entries);
    EntryMapOfRelatives(entries);
    EntryMapOfRelatives(Walked(entries));
    forall i | 0 <= i < |visits|
      ensures Paths.AllPlain(visits[i].path)
    {
      assert Visited(visits, visits[i].path);
      ReachesIs(cfg, [], root, visits[i].path);
      ReachesPlain(cfg, [], root, visits[i].path);
    }
    RecordedMap(cfg, Relatives(entries), visits);
    RecordedKeys(cfg, EntryMap(entries).value, Relatives(entries), visits);
  }

  // ---------- what a check finds ----------

  /** The file at the path is in one walk only, or has other keys in force in the other. */
  ghost predicate ChangedAt(cfg: Config, visits: seq<Visit>, cfg2: Config, visits2: seq<Visit>, keys: Option<seq<Keyword>>, path: seq<Bytes>) {
    if Visited(visits, path) && Visited(visits2, path) then
      exists i, j :: 0 <= i < |visits| && 0 <= j < |visits2| && visits[i].path == path == visits2[j].path
                     && Differ(KeysFor(cfg, visits[i]), KeysFor(cfg2, visits2[j]), keys)
    else Visited(visits, path) || Visited(visits2, path)
  }

  lemma {:induction false} InMap(cfg: Config, m: map<Bytes, Entry>, visits: seq<Visit>, path: seq<Bytes>)
    requires MapsKeys(cfg, m, visits) && Paths.AllPlain(path)
    ensures PathText(path) in m <==> Visited(visits, path)
    ensures forall i :: 0 <= i < |visits| && visits[i].path == path ==> PathText(path) in m && KeysMap(m[PathText(path)]) == KeysFor(cfg, visits[i])
  {
    hide PathText, KeysMap, KeysFor, Paths.AllPlain;
    if PathText(path) in m {
      assert IsVisited(visits, PathText(path));
      var i :| 0 <= i < |visits| && PathText(path) == PathText(visits[i].path);
      PathTextInjective(path, visits[i].path);
    }
  }

  /** Comparing the printed and parsed walk of one tree with a walk of another reports a path exactly when
      its file is in one of them only, or a compared keyword in force for it differs. */
  lemma {:induction false} ChangesFound(cfg: Config, header: seq<Bytes>, root: Node, cfg2: Config, later: seq<Bytes>, root2: Node,
                                        keys: Option<seq<Keyword>>, r: Result<seq<InodeDelta>, CompareError>, path: seq<Bytes>)
    requires Walkable(cfg, header, root) && Walkable(cfg2, later, root2) && NoBrokenLine(WalkItems(cfg, header, root))
    requires var parsed := Parse(Text(Lines(SortByPos(Walked(Link(WalkItems(cfg, header, root)).entries)))));
      parsed.Ok? && IsAnswer(r, Some(parsed.value), Some(Walked(Link(WalkItems(cfg2, later, root2)).entries)), keys, false)
    requires r.Ok? && Paths.AllPlain(path)
    ensures Reported(r.value, PathText(path)) <==>
      ChangedAt(cfg, TreeTrace(cfg, [], root, None).visits, cfg2, TreeTrace(cfg2, [], root2, None).visits, keys, path)
  {
    hide *;
    PrintedWalkParses(cfg, header, root);
    WalksCompared(cfg, header, root, cfg2, later, root2, keys, r, path);
  }

  lemma {:induction false} WalksCompared(cfg: Config, header: seq<Bytes>, root: Node, cfg2: Config, later: seq<Bytes>, root2: Node,
                                         keys: Option<seq<Keyword>>, r: Result<seq<InodeDelta>, CompareError>, path: seq<Bytes>)
    requires Walkable(cfg, header, root) && Walkable(cfg2, later, root2) && r.Ok? && Paths.AllPlain(path)
    requires IsAnswer(r, Some(Link(WalkItems(cfg, header, root)).entries), Some(Walked(Link(WalkItems(cfg2, later, root2)).entries)), keys, false)
    ensures Reported(r.value, PathText(path)) <==>
      ChangedAt(cfg, TreeTrace(cfg, [], root, None).visits, cfg2, TreeTrace(cfg2, [], root2, None).visits, keys, path)
  {
    hide Link, TreeTrace, Walkable, WalkItems, MapsKeys, EntryMap, IsAnswer, Reported, Differ, KeysFor, PathText, KeysMap, Paths.AllPlain, Walked;
    var first, second := Link(WalkItems(cfg, header, root)).entries, Walked(Link(WalkItems(cfg2, later, root2)).entries);
    var visits, visits2 := TreeTrace(cfg, [], root, None).visits, TreeTrace(cfg2, [], root2, None).visits;
    WalkMapped(cfg, header, root);
    WalkMapped(cfg2, later, root2);
    InMap(cfg, EntryMap(first).value, visits, path);
    InMap(cfg2, EntryMap(second).value, visits2, path);
    ReportedExactly(Some(first), Some(second), keys, r, PathText(path));
  }

  /** And nothing else is reported. */
  lemma {:induction false} OnlyFilesFound(cfg: Config, header: seq<Bytes>, root: Node, cfg2: Config, later: seq<Bytes>, root2: Node,
                                          keys: Option<seq<Keyword>>, r: Result<seq<InodeDelta>, CompareError>, p: Bytes)
    requires Walkable(cfg, header, root) && Walkable(cfg2, later, root2) && r.Ok? && Reported(r.value, p)
    requires IsAnswer(r, Some(Link(WalkItems(cfg, header, root)).entries), Some(Walked(Link(WalkItems(cfg2, later, root2)).entries)), keys, false)
    ensures exists path :: Paths.AllPlain(path) && p == PathText(path)
  {
    hide Link, TreeTrace, Walkable, WalkItems, EntryMap, IsAnswer, Reported, Differ, KeysFor, PathText, KeysMap, Paths.AllPlain, Walked;
    var first, second := Link(WalkItems(cfg, header, root)).entries, Walked(Link(WalkItems(cfg2, later, root2)).entries);
    WalkMapped(cfg, header, root);
    WalkMapped(cfg2, later, root2);
    ReportedExactly(Some(first), Some(second), keys, r, p);
    if p in EntryMap(first).value {
      PlainPathOf(cfg, EntryMap(first).value, TreeTrace(cfg, [], root, None).visits, p);
    } else {
      PlainPathOf(cfg2, EntryMap(second).value, TreeTrace(cfg2, [], root2, None).visits, p);
    }
  }

  lemma PlainPathOf(cfg: Config, m: map<Bytes, Entry>, visits: seq<Visit>, p: Bytes)
    requires MapsKeys(cfg, m, visits) && p in m
    ensures exists path :: Paths.AllPlain(path) && p == PathText(path)
  {
    hide PathText, Paths.AllPlain, KeysMap, KeysFor;
    assert IsVisited(visits, p);
    var i :| 0 <= i < |visits| && p == PathText(visits[i].path);
  }

  /** Printing a walk, parsing it and comparing it with another walk of the same tree, possibly under
      other header comments, finds no difference, whatever keywords are compared. */
  lemma {:induction false} CheckFindsNothing(cfg: Config, header: seq<Bytes>, later: seq<Bytes>, root: Node, keys: Option<seq<Keyword>>,
                          r: Result<seq<InodeDelta>, CompareError>)
    requires Walkable(cfg, header, root) && Walkable(cfg, later, root) && NoBrokenLine(WalkItems(cfg, header, root))
    requires var parsed := Parse(Text(Lines(SortByPos(Walked(Link(WalkItems(cfg, header, root)).entries)))));
      parsed.Ok? && IsAnswer(r, Some(parsed.value), Some(Walked(Link(WalkItems(cfg, later, root)).entries)), keys, false)
    ensures r == Ok([])
  {
    hide Link, TreeTrace, Parse, SortByPos, Walkable, NoBrokenLine, IsAnswer, WalkItems, EntryMap, MapsKeys, Walked, Text, Lines;
    var first := Link(WalkItems(cfg, header, root)).entries;
    var second := Link(WalkItems(cfg, later, root)).entries;
    PrintedWalkParses(cfg, header, root);
    WalkMapped(cfg, header, root);
    WalkMapped(cfg, later, root);
    SameMapsAgree(cfg, EntryMap(first).value, EntryMap(second).value, TreeTrace(cfg, [], root, None).visits);
    AgreeingManifests(Some(first), Some(Walked(second)), keys, r);
  }

  lemma {:induction false} SameMapsAgree(cfg: Config, m: map<Bytes, Entry>, n: map<Bytes, Entry>, visits: seq<Visit>)
    requires MapsKeys(cfg, m, visits) && MapsKeys(cfg, n, visits)
    ensures Agree(m, n)
  {
    hide PathText, KeysMap, KeysFor, PlainVisits, OncePerPath;
    forall p
      ensures p in m <==> p in n
      ensures p in m ==> KeysMap(m[p]) == KeysMap(n[p])
    {
      if p in m || p in n {
        assert IsVisited(visits, p);
        var i :| 0 <= i < |visits| && p == PathText(visits[i].path);
      }
    }
  }
}
