/** Walk: a file tree laid out as a manifest, with what directories share factored into /set lines.
    Files are numbered nodes; what a keyword function produces for a node is a parameter. */
module Walk {
  import opened GoBytes
  import opened GoStrings
  import opened Govis
  import opened GovisLaws
  import opened Keywords
  import opened Entries
  import opened Manifest
  import opened Ordering
  import Paths

  datatype Node = File(id: nat) | Dir(id: nat, children: map<Bytes, Node>)

  type ExcludeFunc = (seq<Bytes>, Node) -> bool

  /** The function registered for a keyword prefix; None if there is none or it fails. */
  type KeywordFunc = (Keyword, Node) -> Option<seq<KeyVal>>

  datatype Config = Config(excludes: seq<ExcludeFunc>, keywords: seq<Keyword>, produce: KeywordFunc)

  datatype WalkError = NotADirectory | KeywordFailed

  const DEFAULT_SET: seq<KeyVal> := ["type=file", "nlink=1", "flags=none", "mode=0664"]
  const SET_KEYWORDS: seq<Keyword> := ["uid", "gid"]

  predicate Excluded(cfg: Config, path: seq<Bytes>, node: Node) {
    exists i :: 0 <= i < |cfg.excludes| && cfg.excludes[i](path, node)
  }

  /** What a directory can hold: single names other than "." and "..", all the way down. */
  ghost predicate ValidTree(node: Node) {
    node.Dir? ==> forall n :: n in node.children ==> Paths.IsPlain(n) && ValidTree(node.children[n])
  }

  function PathText(path: seq<Bytes>): Bytes {
    Paths.Render(false, path)
  }

  function BaseName(path: seq<Bytes>): Bytes {
    if path == [] then "." else path[|path| - 1]
  }

  // ---------- what a walk lays out ----------

  /** The non-empty key-values produced for a node, keyword after keyword. */
  function Produced(cfg: Config, keywords: seq<Keyword>, node: Node): seq<KeyVal> {
    if keywords == [] then []
    else
      var n := |keywords| - 1;
      Produced(cfg, keywords[..n], node) +
      match cfg.produce(Prefix(keywords[n]), node) case Some(kvs) => Without(kvs, [""]) case None => []
  }

  predicate Known(cfg: Config, keywords: seq<Keyword>, node: Node) {
    forall i :: 0 <= i < |keywords| ==> cfg.produce(Prefix(keywords[i]), node).Some?
  }

  /** The /set line a directory needs, given the one in force. */
  function SetLineFor(cfg: Config, node: Node, cur: Option<seq<KeyVal>>): Option<seq<KeyVal>> {
    var klist := Produced(cfg, SET_KEYWORDS, node);
    if cur.None? then Some(Selected(DEFAULT_SET, cfg.keywords) + klist)
    else if exists i :: 0 <= i < |klist| && klist[i] !in cur.value then Some(Selected(DEFAULT_SET + klist, cfg.keywords))
    else None
  }

  function InForce(cfg: Config, node: Node, cur: Option<seq<KeyVal>>): seq<KeyVal> {
    match SetLineFor(cfg, node, cur)
    case Some(kvs) => kvs
    case None => if cur.Some? then cur.value else []
  }

  function EntryItem(cfg: Config, path: seq<Bytes>, node: Node, inForce: seq<KeyVal>): Item {
    Named(false, VisBytes(BaseName(path), DEFAULT_VIS_FLAGS),
          Without(Produced(cfg, cfg.keywords, node), inForce), node.Dir?)
  }

  function SetItems(kvs: Option<seq<KeyVal>>): seq<Item> {
    match kvs case Some(k) => [Special("/set", k)] case None => []
  }

  function DirHead(cfg: Config, path: seq<Bytes>, node: Node, cur: Option<seq<KeyVal>>): seq<Item> {
    [Blank, Comment("# " + PathText(path))] + SetItems(SetLineFor(cfg, node, cur))
  }

  ghost function FileNames(children: map<Bytes, Node>): set<Bytes> {
    set n | n in children && children[n].File?
  }

  ghost function DirNames(children: map<Bytes, Node>): set<Bytes> {
    set n | n in children && children[n].Dir?
  }

  /** Files first, then directories, each in ascending order. */
  ghost function Order(children: map<Bytes, Node>): (names: seq<Bytes>)
    ensures forall i :: 0 <= i < |names| ==> names[i] in children
  {
    var files, dirs := Sorted(FileNames(children)), Sorted(DirNames(children));
    assert forall i :: 0 <= i < |files| ==> files[i] in SetOf(files);
    assert forall i :: 0 <= i < |dirs| ==> dirs[i] in SetOf(dirs);
    files + dirs
  }

  /** A file or directory visited, and the /set key-values it is printed under. */
  datatype Visit = Visit(path: seq<Bytes>, node: Node, inForce: seq<KeyVal>)

  datatype Trace = Trace(items: seq<Item>, visits: seq<Visit>, cur: Option<seq<KeyVal>>)

  function Then(a: Trace, b: Trace): Trace {
    Trace(a.items + b.items, a.visits + b.visits, b.cur)
  }

  /** The statements of a subtree, the nodes visited, and the set in force afterwards. */
  ghost function TreeTrace(cfg: Config, path: seq<Bytes>, node: Node, cur: Option<seq<KeyVal>>): (t: Trace)
    ensures cur.Some? ==> t.cur.Some?
    decreases node, 1, 0
  {
    if Excluded(cfg, path, node) then Trace([], [], cur)
    else
      match node
      case File(_) =>
        var inForce := if cur.Some? then cur.value else [];
        Trace([EntryItem(cfg, path, node, inForce)], [Visit(path, node, inForce)], cur)
      case Dir(_, children) =>
        var inForce := InForce(cfg, node, cur);
        var kids := ListTrace(cfg, path, node, Order(children), Some(inForce));
        Then(Trace(DirHead(cfg, path, node, cur) + [EntryItem(cfg, path, node, inForce)], [Visit(path, node, inForce)], Some(inForce)),
             Then(kids, Trace([DotDot("..")], [], kids.cur)))
  }

  ghost function ListTrace(cfg: Config, path: seq<Bytes>, dir: Node, names: seq<Bytes>, cur: Option<seq<KeyVal>>): (t: Trace)
    requires dir.Dir? && forall i :: 0 <= i < |names| ==> names[i] in dir.children
    ensures cur.Some? ==> t.cur.Some?
    decreases dir, 0, |names|
  {
    if names == [] then Trace([], [], cur)
    else
      var first := TreeTrace(cfg, path + [names[0]], dir.children[names[0]], cur);
      Then(first, ListTrace(cfg, path, dir, names[1..], first.cur))
  }

  /** Every keyword function the walk calls answers. */
  ghost predicate Succeeds(cfg: Config, path: seq<Bytes>, node: Node)
    decreases node
  {
    !Excluded(cfg, path, node) ==>
      && Known(cfg, cfg.keywords, node)
      && (node.Dir? ==> Known(cfg, SET_KEYWORDS, node))
      && (node.Dir? ==> forall n :: n in node.children ==> Succeeds(cfg, path + [n], node.children[n]))
  }

  function HeaderItems(header: seq<Bytes>): seq<Item> {
    if header == [] then [] else [Comment(header[0])] + HeaderItems(header[1..])
  }

  ghost function WalkItems(cfg: Config, header: seq<Bytes>, root: Node): seq<Item> {
    HeaderItems(header) + TreeTrace(cfg, [], root, None).items
  }

  /** Walk's ".." entries carry a name and no parent, where a parsed one has its line and its directory. */
  function WalkedForm(e: Entry): Entry {
    if e.kind == DotDotType then Entry(None, None, e.pos, "", "..", [], DotDotType) else e
  }

  function Walked(entries: seq<Entry>): (w: seq<Entry>)
    ensures |w| == |entries| && forall i :: 0 <= i < |w| ==> w[i] == WalkedForm(entries[i])
  {
    seq(|entries|, i requires 0 <= i < |entries| => WalkedForm(entries[i]))
  }

  // ---------- the walk ----------

  /** The creator stands at the end of the statements. */
  ghost predicate Mirrors(c: Creator, items: seq<Item>)
    reads c
  {
    c.entries == Walked(Link(items).entries) && Tracks(items, c.curDir, c.curSet)
  }

  /** curDir is the directory that holds path. */
  predicate Holds(curDir: Option<Entry>, path: seq<Bytes>) {
    if path == [] then curDir == None
    else curDir.Some? && Path(curDir.value) == Ok(PathText(path[..|path| - 1]))
  }

  /** The keyword loops: the non-empty key-values produced, without those already known. */
  method Collect(cfg: Config, keywords: seq<Keyword>, node: Node, known: seq<KeyVal>) returns (ok: bool, kvs: seq<KeyVal>)
    ensures ok == Known(cfg, keywords, node)
    ensures ok ==> kvs == Without(Produced(cfg, keywords, node), known)
  {
    hide Produced, Without;
    kvs := [];
    CollectNothing(cfg, node, known);
    assert keywords[..0] == [];
    for i := 0 to |keywords|
      invariant Known(cfg, keywords[..i], node)
      invariant kvs == Without(Produced(cfg, keywords[..i], node), known)
    {
      var answer := cfg.produce(Prefix(keywords[i]), node);
      if answer.None? {
        return false, [];
      }
      assert keywords[..i + 1] == keywords[..i] + [keywords[i]];
      ProducedSnoc(cfg, keywords[..i], keywords[i], node);
      WithoutConcat(Produced(cfg, keywords[..i], node), Without(answer.value, [""]), known);
      kvs := AppendNew(kvs, answer.value, known);
    }
    assert keywords[..|keywords|] == keywords;
    ok := true;
  }

  lemma CollectNothing(cfg: Config, node: Node, known: seq<KeyVal>)
    ensures Without(Produced(cfg, [], node), known) == []
  {
  }

  lemma ProducedSnoc(cfg: Config, keywords: seq<Keyword>, k: Keyword, node: Node)
    ensures Produced(cfg, keywords + [k], node) == Produced(cfg, keywords, node) +
      match cfg.produce(Prefix(k), node) case Some(kvs) => Without(kvs, [""]) case None => []
  {
    assert (keywords + [k])[..|keywords|] == keywords;
  }

  method AppendNew(before: seq<KeyVal>, answer: seq<KeyVal>, known: seq<KeyVal>) returns (kvs: seq<KeyVal>)
    ensures kvs == before + Fresh(answer, known)
  {
    FreshNone(known);
    hide Fresh;
    kvs := before;
    assert answer[..0] == [];
    for j := 0 to |answer|
      invariant kvs == before + Fresh(answer[..j], known)
    {
      FreshSnoc(answer[..j], answer[j], known);
      assert answer[..j + 1] == answer[..j] + [answer[j]];
      if answer[j] != "" && answer[j] !in known {
        kvs := kvs + [answer[j]];
      }
    }
    assert answer[..|answer|] == answer;
  }

  lemma FreshNone(known: seq<KeyVal>)
    ensures Fresh([], known) == []
  {
  }

  function Fresh(answer: seq<KeyVal>, known: seq<KeyVal>): seq<KeyVal> {
    Without(Without(answer, [""]), known)
  }

  lemma FreshSnoc(answer: seq<KeyVal>, kv: KeyVal, known: seq<KeyVal>)
    ensures Fresh(answer + [kv], known) == Fresh(answer, known) + if kv != "" && kv !in known then [kv] else []
  {
    WithoutSnoc(answer, kv, [""]);
    WithoutSnoc(Without(answer, [""]), kv, known);
    assert Without(answer, [""]) + [] == Without(answer, [""]);
    assert Fresh(answer, known) + [] == Fresh(answer, known);
  }

  lemma WithoutSnoc(a: seq<KeyVal>, kv: KeyVal, b: seq<KeyVal>)
    ensures Without(a + [kv], b) == Without(a, b) + if kv in b then [] else [kv]
  {
    assert (a + [kv])[..|a|] == a;
  }

  lemma {:induction false} WithoutConcat(a: seq<KeyVal>, c: seq<KeyVal>, b: seq<KeyVal>)
    ensures Without(a + c, b) == Without(a, b) + Without(c, b)
  {
    if c == [] {
      assert a + c == a;
    } else {
      var last := c[|c| - 1];
      WithoutConcat(a, c[..|c| - 1], b);
      WithoutSnoc(a + c[..|c| - 1], last, b);
      assert a + c == (a + c[..|c| - 1]) + [last];
    }
  }

  lemma {:induction false} WithoutNothing(a: seq<KeyVal>)
    ensures Without(a, []) == a
  {
    if a != [] {
      WithoutNothing(a[..|a| - 1]);
    }
  }

  /** Appends the entry of the next statement. */
  method Append(c: Creator, e: Entry, ghost items: seq<Item>, ghost item: Item)
    requires Mirrors(c, items) && e == WalkedForm(EntryAt(Link(items), item))
    modifies c`entries
    ensures c.entries == Walked(Link(items + [item]).entries)
  {
    LinkSnoc(items, item);
    c.entries := c.entries + [e];
  }

  /** Paths of linked directories are the paths walked. */
  lemma {:induction false} PathOfEntry(e: Entry, path: seq<Bytes>)
    requires Holds(e.parent, path) && e.name == VisBytes(BaseName(path), DEFAULT_VIS_FLAGS) && e.kind == RelativeType
    requires Paths.AllPlain(path)
    ensures Path(e) == Ok(PathText(path))
  {
    hide Decode, VisBytes, Paths.CleanPath, Paths.JoinPath;
    DefaultFlags();
    RoundTrip(BaseName(path), DEFAULT_VIS_FLAGS);
    if path == [] {
      DotPath();
    } else {
      PlainPath([BaseName(path)]);
      PlainPath(path);
      JoinBelow(path[..|path| - 1], BaseName(path));
      assert path == path[..|path| - 1] + [BaseName(path)];
    }
  }

  lemma DotPath()
    ensures Paths.CleanPath(".") == "." && PathText([]) == "."
  {
    Paths.CleanPathIs(".");
    SplitWithout(".", '/');
  }

  lemma PlainPath(path: seq<Bytes>)
    requires Paths.AllPlain(path)
    ensures Paths.CleanPath(PathText(path)) == PathText(path)
    ensures |path| == 1 ==> PathText(path) == path[0]
  {
    Paths.SegmentsOfRender(false, path);
    assert PathText(path) != "" by {
      if path != [] {
        assert Join(path, '/')[0] == path[0][0];
      }
    }
    Paths.CleanPathIs(PathText(path));
    Paths.CollapseKeepsSafe(PathText(path));
  }

  lemma JoinBelow(path: seq<Bytes>, name: Bytes)
    requires Paths.AllPlain(path) && Paths.IsPlain(name)
    ensures Paths.JoinPath(PathText(path), name) == PathText(path + [name])
  {
    hide Paths.Segments, Paths.JoinPath;
    Paths.SegmentsOfRender(false, path);
    PlainPath([name]);
    assert PathText(path) != "" by {
      if path != [] {
        assert Join(path, '/')[0] == path[0][0];
      }
    }
    Paths.SegmentsOfJoin(PathText(path), false, [name]);
    assert PathText([name]) == name;
  }

  // ---------- reading a directory ----------

  /** What Readdir may answer: every name once, with its kind, in any order. */
  ghost predicate Lists(infos: seq<(Bytes, bool)>, children: map<Bytes, Node>) {
    && (forall i, j :: 0 <= i < j < |infos| ==> infos[i].0 != infos[j].0)
    && (forall i :: 0 <= i < |infos| ==> infos[i].0 in children && infos[i].1 == children[infos[i].0].Dir?)
    && (forall n :: n in children ==> (n, children[n].Dir?) in infos)
  }

  method Readdir(children: map<Bytes, Node>) returns (infos: seq<(Bytes, bool)>)
    ensures Lists(infos, children)
  {
    infos := [];
    var left := children.Keys;
    while left != {}
      invariant left <= children.Keys
      invariant forall i, j :: 0 <= i < j < |infos| ==> infos[i].0 != infos[j].0
      invariant forall i :: 0 <= i < |infos| ==> infos[i].0 in children.Keys - left && infos[i].1 == children[infos[i].0].Dir?
      invariant forall n :: n in children && n !in left ==> (n, children[n].Dir?) in infos
      decreases left
    {
      var n :| n in left;
      infos := infos + [(n, children[n].Dir?)];
      left := left - {n};
    }
  }

  /** Whatever order the directory was read in, the names come out in the one order. */
  method ReadOrderedDirNames(infos: seq<(Bytes, bool)>, ghost children: map<Bytes, Node>) returns (ordered: seq<Bytes>)
    requires Lists(infos, children)
    ensures ordered == Order(children)
  {
    var names: seq<Bytes>, dirnames: seq<Bytes> := [], [];
    for i := 0 to |infos|
      invariant Distinct(names) && Distinct(dirnames)
      invariant forall n :: n in names <==> (n, false) in infos[..i]
      invariant forall n :: n in dirnames <==> (n, true) in infos[..i]
    {
      assert infos[..i + 1] == infos[..i] + [infos[i]];
      var n := infos[i].0;
      assert n !in names && n !in dirnames;
      if infos[i].1 {
        dirnames := dirnames + [n];
        continue;
      }
      names := names + [n];
    }
    assert infos[..|infos|] == infos;
    assert SetOf(names) == FileNames(children);
    assert SetOf(dirnames) == DirNames(children);
    SortedIs(names);
    SortedIs(dirnames);
    ordered := SortStrings(names) + SortStrings(dirnames);
  }

  // ---------- the walk ----------

  /** A blank line, and the directory's path as a comment. */
  method AnnounceDir(c: Creator, path: seq<Bytes>, ghost items: seq<Item>) returns (ghost now: seq<Item>)
    requires Mirrors(c, items) && Holds(c.curDir, path) && Paths.AllPlain(path)
    modifies c`entries
    ensures now == items + [Blank, Comment("# " + PathText(path))] && Mirrors(c, now)
  {
    hide Link, Tracks, Paths.JoinPath, Paths.Render;
    TracksNext(items, c.curDir, c.curSet, Blank);
    Append(c, Entry(None, None, |c.entries|, "", "", [], BlankType), items, Blank);
    now := items + [Blank];
    var raw := DirComment(c.curDir, path);
    TracksNext(now, c.curDir, c.curSet, Comment(raw));
    Append(c, Entry(None, None, |c.entries|, raw, "", [], CommentType), now, Comment(raw));
    now := now + [Comment(raw)];
    assert now == items + [Blank, Comment(raw)];
  }

  method DirComment(curDir: Option<Entry>, path: seq<Bytes>) returns (raw: Bytes)
    requires Holds(curDir, path) && Paths.AllPlain(path)
    ensures raw == "# " + PathText(path)
  {
    hide Paths.JoinPath;
    if curDir.Some? {
      var dirname := Path(curDir.value).value;
      JoinBelow(path[..|path| - 1], BaseName(path));
      assert path == path[..|path| - 1] + [BaseName(path)];
      raw := "# " + Paths.JoinPath(dirname, BaseName(path));
    } else {
      raw := "# .";
      assert "# " + "." == "# .";
    }
  }

  /** The /set line a directory is listed under, if it differs from the one in force. */
  method ChooseSet(cfg: Config, node: Node, curSet: Option<Entry>) returns (ok: bool, keywords: Option<seq<KeyVal>>)
    ensures ok == Known(cfg, SET_KEYWORDS, node)
    ensures ok ==> keywords == SetLineFor(cfg, node, SetKeyVals(curSet))
  {
    hide Produced, Known;
    var klist;
    keywords := None;
    ok, klist := Collect(cfg, SET_KEYWORDS, node, []);
    if !ok {
      return;
    }
    WithoutNothing(Produced(cfg, SET_KEYWORDS, node));
    if curSet.None? {
      var kvs := KeyvalSelector(DEFAULT_SET, cfg.keywords);
      keywords := Some(kvs + klist);
    } else {
      var needNewSet := false;
      for i := 0 to |klist|
        invariant needNewSet <==> exists j :: 0 <= j < i && klist[j] !in curSet.value.keywords
      {
        if klist[i] !in curSet.value.keywords {
          needNewSet := true;
        }
      }
      if needNewSet {
        var kvs := KeyvalSelector(DEFAULT_SET + klist, cfg.keywords);
        keywords := Some(kvs);
      }
    }
  }

  /** Entering a directory. */
  method EnterDir(c: Creator, cfg: Config, path: seq<Bytes>, node: Node, ghost items: seq<Item>)
    returns (ok: bool, ghost now: seq<Item>)
    requires Mirrors(c, items) && Holds(c.curDir, path) && Paths.AllPlain(path)
    modifies c
    ensures ok == Known(cfg, SET_KEYWORDS, node)
    ensures ok ==> now == items + DirHead(cfg, path, node, SetKeyVals(old(c.curSet)))
    ensures ok ==> Mirrors(c, now) && c.curDir == old(c.curDir)
    ensures ok ==> SetKeyVals(c.curSet) == Some(InForce(cfg, node, SetKeyVals(old(c.curSet))))
  {
    hide Link, Tracks, Known, SetLineFor;
    now := AnnounceDir(c, path, items);
    var keywords;
    ok, keywords := ChooseSet(cfg, node, c.curSet);
    if !ok {
      return;
    }
    SetNeeded(cfg, node, SetKeyVals(c.curSet));
    if keywords.Some? {
      var e := Entry(None, None, |c.entries|, "", "/set", keywords.value, SpecialType);
      TracksNext(now, c.curDir, c.curSet, Special("/set", keywords.value));
      Append(c, e, now, Special("/set", keywords.value));
      c.curSet := Some(e);
      now := now + [Special("/set", keywords.value)];
    }
    assert now == items + DirHead(cfg, path, node, SetKeyVals(old(c.curSet)));
  }

  lemma SetNeeded(cfg: Config, node: Node, cur: Option<seq<KeyVal>>)
    ensures cur.None? ==> SetLineFor(cfg, node, cur).Some?
  {
  }

  /** The entry of a file or directory, which becomes curDir if it is a directory. */
  method EmitEntry(c: Creator, cfg: Config, path: seq<Bytes>, node: Node, ghost items: seq<Item>)
    returns (ok: bool, ghost now: seq<Item>)
    requires Mirrors(c, items) && Holds(c.curDir, path) && Paths.AllPlain(path) && c.curSet.Some?
    modifies c
    ensures ok == Known(cfg, cfg.keywords, node)
    ensures ok ==> now == items + [EntryItem(cfg, path, node, old(c.curSet).value.keywords)]
    ensures ok ==> Mirrors(c, now) && c.curSet == old(c.curSet)
    ensures ok && node.File? ==> c.curDir == old(c.curDir)
    ensures ok && node.Dir? ==> c.curDir.Some? && c.curDir.value.parent == old(c.curDir) && Path(c.curDir.value) == Ok(PathText(path))
  {
    hide Link, Tracks, Known, Produced, Path, Paths.Render, VisBytes, Holds;
    var encoded := Vis(BaseName(path), DEFAULT_VIS_FLAGS);
    DefaultFlags();
    var kvs;
    now := items;
    ok, kvs := Collect(cfg, cfg.keywords, node, c.curSet.value.keywords);
    if !ok {
      return;
    }
    var e := Entry(c.curDir, c.curSet, |c.entries|, "", encoded.value, kvs, RelativeType);
    ghost var item := EntryItem(cfg, path, node, c.curSet.value.keywords);
    TracksNext(items, c.curDir, c.curSet, item);
    PathOfEntry(e, path);
    Append(c, e, items, item);
    now := items + [item];
    if node.Dir? {
      c.curDir := Some(e);
    }
  }

  lemma OrderCovers(children: map<Bytes, Node>)
    ensures forall n :: n in children ==> n in Order(children)
  {
    var files, dirs := Sorted(FileNames(children)), Sorted(DirNames(children));
    forall n | n in children
      ensures n in Order(children)
    {
      if children[n].File? {
        assert n in SetOf(files);
      } else {
        assert n in SetOf(dirs);
      }
      assert n in files || n in dirs;
    }
  }

  ghost predicate ListSucceeds(cfg: Config, path: seq<Bytes>, dir: Node, names: seq<Bytes>)
    requires dir.Dir? && forall i :: 0 <= i < |names| ==> names[i] in dir.children
  {
    forall i :: 0 <= i < |names| ==> Succeeds(cfg, path + [names[i]], dir.children[names[i]])
  }

  lemma DirSucceeds(cfg: Config, path: seq<Bytes>, node: Node)
    requires node.Dir? && !Excluded(cfg, path, node)
    ensures Succeeds(cfg, path, node) <==>
      Known(cfg, cfg.keywords, node) && Known(cfg, SET_KEYWORDS, node) && ListSucceeds(cfg, path, node, Order(node.children))
  {
    hide Known, Excluded;
    OrderCovers(node.children);
    var names := Order(node.children);
    if ListSucceeds(cfg, path, node, names) {
      forall n | n in node.children
        ensures Succeeds(cfg, path + [n], node.children[n])
      {
        var i :| 0 <= i < |names| && names[i] == n;
      }
    }
  }

  ghost function Kids(cfg: Config, path: seq<Bytes>, node: Node, cur: Option<seq<KeyVal>>): Trace
    requires node.Dir?
  {
    ListTrace(cfg, path, node, Order(node.children), Some(InForce(cfg, node, cur)))
  }

  lemma {:induction false} DirTrace(cfg: Config, path: seq<Bytes>, node: Node, cur: Option<seq<KeyVal>>, items: seq<Item>)
    requires node.Dir? && !Excluded(cfg, path, node)
    ensures var inForce, kids, t := InForce(cfg, node, cur), Kids(cfg, path, node, cur), TreeTrace(cfg, path, node, cur);
      && items + DirHead(cfg, path, node, cur) + [EntryItem(cfg, path, node, inForce)] + kids.items + [DotDot("..")]
           == items + t.items
      && t.cur == kids.cur && t.visits == [Visit(path, node, inForce)] + kids.visits
      && t.items == (DirHead(cfg, path, node, cur) + [EntryItem(cfg, path, node, inForce)]) + kids.items + [DotDot("..")]
  {
    hide Excluded, DirHead, EntryItem, InForce, ListTrace;
    var inForce, kids := InForce(cfg, node, cur), Kids(cfg, path, node, cur);
    Regroup(items, DirHead(cfg, path, node, cur), [EntryItem(cfg, path, node, inForce)], kids.items, [DotDot("..")]);
    assert kids.visits + [] == kids.visits;
  }

  lemma Regroup(s: seq<Item>, a: seq<Item>, b: seq<Item>, c: seq<Item>, d: seq<Item>)
    ensures s + a + b + c + d == s + ((a + b) + (c + d))
    ensures (a + b) + (c + d) == (a + b) + c + d
  {
  }

  lemma ListTraceStep(cfg: Config, path: seq<Bytes>, dir: Node, names: seq<Bytes>, cur: Option<seq<KeyVal>>, items: seq<Item>)
    requires dir.Dir? && names != [] && forall i :: 0 <= i < |names| ==> names[i] in dir.children
    ensures var first := TreeTrace(cfg, path + [names[0]], dir.children[names[0]], cur);
      var rest := ListTrace(cfg, path, dir, names[1..], first.cur);
      var t := ListTrace(cfg, path, dir, names, cur);
      && items + first.items + rest.items == items + t.items && t.cur == rest.cur
    ensures ListSucceeds(cfg, path, dir, names) <==>
      Succeeds(cfg, path + [names[0]], dir.children[names[0]]) && ListSucceeds(cfg, path, dir, names[1..])
  {
    hide TreeTrace, Succeeds;
    assert names == [names[0]] + names[1..];
  }

  /** walk: the callback on a node, then its children, then the ".." that closes a directory. */
  method WalkTree(c: Creator, cfg: Config, path: seq<Bytes>, node: Node, ghost items: seq<Item>)
    returns (ok: bool, ghost now: seq<Item>)
    requires Mirrors(c, items) && Holds(c.curDir, path) && Paths.AllPlain(path) && ValidTree(node)
    requires node.File? ==> c.curSet.Some?
    modifies c
    ensures ok <==> Succeeds(cfg, path, node)
    ensures ok ==> now == items + TreeTrace(cfg, path, node, SetKeyVals(old(c.curSet))).items
    ensures ok ==> Mirrors(c, now) && c.curDir == old(c.curDir)
    ensures ok ==> SetKeyVals(c.curSet) == TreeTrace(cfg, path, node, SetKeyVals(old(c.curSet))).cur
    decreases node, 1, 1
  {
    hide Mirrors, Known, Produced, EntryItem, DirHead, InForce, Holds;
    if Excluded(cfg, path, node) {
      assert items + [] == items;
      return true, items;
    }
    if node.File? {
      ok, now := EmitEntry(c, cfg, path, node, items);
      return;
    }
    ok, now := WalkDir(c, cfg, path, node, items);
  }

  method WalkDir(c: Creator, cfg: Config, path: seq<Bytes>, node: Node, ghost items: seq<Item>)
    returns (ok: bool, ghost now: seq<Item>)
    requires Mirrors(c, items) && Holds(c.curDir, path) && Paths.AllPlain(path) && ValidTree(node)
    requires node.Dir? && !Excluded(cfg, path, node)
    modifies c
    ensures ok <==> Succeeds(cfg, path, node)
    ensures ok ==> now == items + TreeTrace(cfg, path, node, SetKeyVals(old(c.curSet))).items
    ensures ok ==> Mirrors(c, now) && c.curDir == old(c.curDir)
    ensures ok ==> SetKeyVals(c.curSet) == TreeTrace(cfg, path, node, SetKeyVals(old(c.curSet))).cur
    decreases node, 1, 0
  {
    hide Mirrors, Excluded, Known, Produced, EntryItem, DirHead, InForce, Holds, TreeTrace, ListTrace, Succeeds, ListSucceeds;
    DirSucceeds(cfg, path, node);
    DirTrace(cfg, path, node, SetKeyVals(c.curSet), items);
    ok, now := EnterDir(c, cfg, path, node, items);
    if !ok {
      return;
    }
    ok, now := EmitEntry(c, cfg, path, node, now);
    if !ok {
      return;
    }
    var infos := Readdir(node.children);
    var names := ReadOrderedDirNames(infos, node.children);
    ok, now := WalkList(c, cfg, path, node, names, now);
    if !ok {
      return;
    }
    now := LeaveDir(c, now);
  }

  method LeaveDir(c: Creator, ghost items: seq<Item>) returns (ghost now: seq<Item>)
    requires Mirrors(c, items) && c.curDir.Some?
    modifies c
    ensures now == items + [DotDot("..")] && Mirrors(c, now)
    ensures c.curDir == old(c.curDir).value.parent && c.curSet == old(c.curSet)
  {
    hide Link, Tracks;
    TracksNext(items, c.curDir, c.curSet, DotDot(".."));
    Append(c, Entry(None, None, |c.entries|, "", "..", [], DotDotType), items, DotDot(".."));
    now := items + [DotDot("..")];
    c.curDir := c.curDir.value.parent;
  }

  method WalkList(c: Creator, cfg: Config, path: seq<Bytes>, dir: Node, names: seq<Bytes>, ghost items: seq<Item>)
    returns (ok: bool, ghost now: seq<Item>)
    requires dir.Dir? && ValidTree(dir) && forall i :: 0 <= i < |names| ==> names[i] in dir.children
    requires Mirrors(c, items) && c.curSet.Some? && Paths.AllPlain(path)
    requires c.curDir.Some? && Path(c.curDir.value) == Ok(PathText(path))
    modifies c
    ensures ok <==> ListSucceeds(cfg, path, dir, names)
    ensures ok ==> now == items + ListTrace(cfg, path, dir, names, SetKeyVals(old(c.curSet))).items
    ensures ok ==> Mirrors(c, now) && c.curDir == old(c.curDir)
    ensures ok ==> SetKeyVals(c.curSet) == ListTrace(cfg, path, dir, names, SetKeyVals(old(c.curSet))).cur
    decreases dir, 0, |names|
  {
    hide Mirrors, TreeTrace, Succeeds;
    ok, now := true, items;
    if names == [] {
      assert items + [] == items;
      return;
    }
    hide ListTrace, ListSucceeds, Path;
    ListTraceStep(cfg, path, dir, names, SetKeyVals(c.curSet), items);
    var name := names[0];
    assert (path + [name])[..|path|] == path;
    ok, now := WalkTree(c, cfg, path + [name], dir.children[name], items);
    if !ok {
      return;
    }
    ok, now := WalkList(c, cfg, path, dir, names[1..], now);
  }

  /** Walk from a root directory; header holds the signature and keyword comments. */
  method Walk(cfg: Config, header: seq<Bytes>, root: Node) returns (r: Result<seq<Entry>, WalkError>)
    requires ValidTree(root)
    ensures r == if root.File? then Err(NotADirectory)
                 else if !Succeeds(cfg, [], root) then Err(KeywordFailed)
                 else Ok(Walked(Link(WalkItems(cfg, header, root)).entries))
  {
    hide Tracks, TreeTrace, Succeeds;
    if root.File? {
      return Err(NotADirectory);
    }
    var c := new Creator();
    TracksStart();
    ghost var items: seq<Item> := [];
    for i := 0 to |header|
      invariant items == HeaderItems(header[..i])
      invariant Mirrors(c, items) && c.curDir == None && c.curSet == None
    {
      TracksNext(items, c.curDir, c.curSet, Comment(header[i]));
      Append(c, Entry(None, None, |c.entries|, header[i], "", [], CommentType), items, Comment(header[i]));
      HeaderSnoc(header[..i], header[i]);
      assert header[..i + 1] == header[..i] + [header[i]];
      items := items + [Comment(header[i])];
    }
    assert header[..|header|] == header;
    var ok;
    ok, items := WalkTree(c, cfg, [], root, items);
    if !ok {
      return Err(KeywordFailed);
    }
    return Ok(c.entries);
  }

  lemma {:induction false} HeaderSnoc(header: seq<Bytes>, raw: Bytes)
    ensures HeaderItems(header + [raw]) == HeaderItems(header) + [Comment(raw)]
  {
    if header != [] {
      assert (header + [raw])[1..] == header[1..] + [raw];
      HeaderSnoc(header[1..], raw);
    } else {
      assert ([] + [raw])[1..] == [];
    }
  }
}
