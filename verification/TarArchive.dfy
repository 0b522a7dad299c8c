/** The whole way of a tar archive: headers to tree, hard links resolved, the tree flattened, printed and
    parsed again. */
module TarArchive {
  import opened GoBytes
  import opened GoStrings
  import opened Keywords
  import opened Entries
  import opened Manifest
  import opened Spec
  import opened Printing
  import opened WalkLaws
  import opened TarTree
  import opened TarLaws
  import opened TarFlatten
  import opened TarPrint
  import opened TarLinks
  import Times
  import Walk
  import Paths

  const NLINK: Keyword := "nlink"

  /** tarStream.Hierarchy */
  method Hierarchy(t: Tree, hardlinks: Hardlinks, header: seq<Bytes>, keywords: seq<Keyword>)
    returns (entries: seq<Entry>, ghost order: seq<Bytes>)
    requires t.Valid()
    modifies t`contents, t.repr
    ensures IsOrder(order, hardlinks) && t.contents == ResolveAll(old(t.contents), order, hardlinks, NLINK in keywords)
    ensures WellShaped(t.contents)
    ensures entries == Walk.Walked(Link(TarItems(t.contents, header, keywords)).entries)
  {
    hide t.Valid, TarItems, ResolveAll, WellShaped, IsOrder, Link;
    order := ResolveHardlinks(t, hardlinks, NLINK in keywords);
    entries := FlattenAll(t, header, keywords);
  }

  // ---------- hard links in the manifest ----------

  /** Nothing but files is linked, and no file has its names counted yet. */
  ghost predicate FilesLinked(m: Contents, h: Hardlinks) {
    && (forall t :: t in h && Look(t).path in m ==> !m[Look(t).path].isDir)
    && (forall t, q :: t in h && q in m && IsLinked(h[t], q) ==> !m[q].isDir)
    && (forall q, i :: q in m && 0 <= i < |m[q].keywords| ==> KeywordOf(m[q].keywords[i]) != NLINK)
  }

  lemma {:induction false} PrintNatWord(n: nat)
    ensures Times.PrintNat(n) != [] && forall i :: 0 <= i < |Times.PrintNat(n)| ==> Times.IsDigit(Times.PrintNat(n)[i])
  {
    if n >= 10 {
      PrintNatWord(n / 10);
    }
  }

  lemma NlinkWord(links: nat)
    ensures IsWord(Nlink(links)) && KeywordOf(Nlink(links)) == NLINK && ValueOf(Nlink(links)) == Times.PrintNat(links + 1)
  {
    PrintNatWord(links + 1);
    AsciiWord(Nlink(links));
    MadeKeyVal(NLINK, Times.PrintNat(links + 1));
  }

  /** Counting the names of a file leaves its keywords fit to be printed. */
  lemma {:induction false} CountedTold(info: Info, links: nat)
    requires NodeTold(info) && forall i :: 0 <= i < |info.keywords| ==> KeywordOf(info.keywords[i]) != NLINK
    ensures NodeTold(info.(keywords := info.keywords + [Nlink(links)]))
  {
    hide KeywordOf, ValueOf, Nlink, IsWord;
    NlinkWord(links);
    LookupSnoc(info.keywords, Nlink(links), "type");
  }

  /** What resolving leaves at a path comes from one file, counted or not. */
  lemma {:induction false} ComesFrom(m: Contents, r: Contents, h: Hardlinks, count: bool, q: Segs) returns (p: Segs, suffix: seq<KeyVal>)
    requires SharesKeywords(m, r, h, count) && FilesLinked(m, h) && q in m
    ensures p in m && m[p].isDir == m[q].isDir && r[q] == m[q].(keywords := m[p].keywords + suffix)
    ensures suffix == [] || exists n: nat :: suffix == [Nlink(n)]
  {
    hide Look, IsLinked, Nlink;
    p, suffix := q, [];
    assert m[q].keywords + [] == m[q].keywords;
    if t :| t in h && Look(t).path in m && (IsLinked(h[t], q) || Look(t) == Spot(q, true)) {
      p, suffix := Look(t).path, Suffix(h[t], count);
    }
  }

  /** A file with another's keywords, counted or not, is fit to be printed. */
  lemma ToldFrom(to: Info, from: Info, suffix: seq<KeyVal>)
    requires NodeTold(to) && NodeTold(from) && from.isDir == to.isDir
    requires forall i :: 0 <= i < |from.keywords| ==> KeywordOf(from.keywords[i]) != NLINK
    requires suffix == [] || exists n: nat :: suffix == [Nlink(n)]
    ensures NodeTold(to.(keywords := from.keywords + suffix))
  {
    hide KeywordOf, Nlink, SetOk, SaysDir, Consistent;
    assert from.keywords + [] == from.keywords;
    if n: nat :| suffix == [Nlink(n)] {
      CountedTold(from, n);
    }
  }

  lemma ReadableFacts(m: Contents, header: seq<Bytes>, keywords: seq<Keyword>, q: Segs)
    requires Readable(m, header, keywords) && q in m
    ensures NodeTold(m[q])
  {
    hide NodeTold;
  }

  lemma NoneCounted(m: Contents, h: Hardlinks, q: Segs)
    requires FilesLinked(m, h) && q in m
    ensures forall i :: 0 <= i < |m[q].keywords| ==> KeywordOf(m[q].keywords[i]) != NLINK
  {
  }

  lemma {:induction false} ReadableAgain(m: Contents, r: Contents, header: seq<Bytes>, keywords: seq<Keyword>)
    requires Readable(m, header, keywords) && r.Keys == m.Keys
    requires forall q :: q in r ==> NodeTold(r[q]) && r[q] == m[q].(keywords := r[q].keywords)
    ensures Readable(r, header, keywords)
  {
    hide NodeTold, Steady, Paths.AllPlain;
    forall q | q in r
      ensures ShapedAt(r, q)
    {
      assert ShapedAt(m, q);
    }
  }

  /** Links resolved, a readable tree is still readable. */
  lemma {:induction false} LinksStayReadable(m: Contents, r: Contents, h: Hardlinks, count: bool, header: seq<Bytes>, keywords: seq<Keyword>)
    requires Readable(m, header, keywords) && SharesKeywords(m, r, h, count) && FilesLinked(m, h)
    ensures Readable(r, header, keywords)
  {
    assert r.Keys == m.Keys;
    hide SharesKeywords, FilesLinked, NodeTold, Nlink, Readable;
    forall q | q in r
      ensures NodeTold(r[q]) && r[q] == m[q].(keywords := r[q].keywords)
    {
      ReadableFacts(m, header, keywords, q);
      var p, suffix := ComesFrom(m, r, h, count, q);
      ReadableFacts(m, header, keywords, p);
      NoneCounted(m, h, p);
      ToldFrom(m[q], m[p], suffix);
    }
    ReadableAgain(m, r, header, keywords);
  }

  // ---------- the keys of the parsed manifest ----------

  /** The relative entries of the manifest of a tree, and the nodes they are for. */
  ghost function Listed(m: Contents, header: seq<Bytes>, keywords: seq<Keyword>): seq<Entry>
    requires WellShaped(m)
  {
    Relatives(Link(TarItems(m, header, keywords)).entries)
  }

  ghost function Nodes(m: Contents, keywords: seq<Keyword>): seq<Stop>
    requires WellShaped(m)
  {
    RootThere(m);
    FlatTree(m, [], None, keywords).stops
  }

  /** Every keyword collected for a node is in force for the node's entry, with its value. */
  lemma {:induction false} CollectedKeysInForce(m: Contents, header: seq<Bytes>, keywords: seq<Keyword>, i: nat, kv: KeyVal)
    requires Readable(m, header, keywords) && i < |Nodes(m, keywords)|
    ensures |Listed(m, header, keywords)| == |Nodes(m, keywords)| && Nodes(m, keywords)[i].path in m
    ensures kv in m[Nodes(m, keywords)[i].path].keywords ==>
      var keys := KeysMap(Listed(m, header, keywords)[i]); KeywordOf(kv) in keys && keys[KeywordOf(kv)] == kv
  {
    TarRecordsNodes(m, header, keywords);
    assert WellShaped(m);
    var e, s := Listed(m, header, keywords)[i], Nodes(m, keywords)[i];
    hide FlatTree, TarItems, Link, Relatives, WellShaped, RecordsStop, KeysMap, KeywordOf;
    assert BaseOk(s.base) && RecordsStop(e, s) && s.keywords == m[s.path].keywords;
    ReadableFacts(m, header, keywords, s.path);
    TarKeysKept(e, s);
    if kv in s.keywords {
      ConsistentLookup(s.keywords, kv);
      MapOfIsLookup(s.keywords, KeywordOf(kv));
    }
  }

  lemma ReadableShaped(m: Contents, header: seq<Bytes>, keywords: seq<Keyword>)
    requires Readable(m, header, keywords)
    ensures WellShaped(m)
  {
  }

  /** The keywords of a target and its links. */
  lemma LinkedKeywords(m: Contents, r: Contents, h: Hardlinks, count: bool, target: Bytes, p: Segs, kv: KeyVal)
    requires SharesKeywords(m, r, h, count) && target in h && Look(target).inTree && Look(target).path in m
    requires p in r && (Look(target).path == p || IsLinked(h[target], p))
    ensures kv in m[Look(target).path].keywords ==> kv in r[p].keywords
    ensures count ==> Nlink(|h[target]|) in r[p].keywords
  {
    hide Look, IsLinked, Nlink;
    assert r[p].keywords == m[Look(target).path].keywords + Suffix(h[target], count);
  }

  /** A file and its hard links have every key-value of the file in force, and, when names are counted,
      the number of its links and itself. */
  lemma {:induction false} LinkedKeysAgree(m: Contents, r: Contents, h: Hardlinks, count: bool, header: seq<Bytes>, keywords: seq<Keyword>,
                                           target: Bytes, i: nat, kv: KeyVal)
    requires Readable(m, header, keywords) && SharesKeywords(m, r, h, count) && FilesLinked(m, h)
    requires target in h && Look(target).inTree && Look(target).path in m
    ensures Readable(r, header, keywords)
    ensures i < |Nodes(r, keywords)| ==> |Listed(r, header, keywords)| == |Nodes(r, keywords)|
    ensures i < |Nodes(r, keywords)| && (Look(target).path == Nodes(r, keywords)[i].path || IsLinked(h[target], Nodes(r, keywords)[i].path)) ==>
      var keys := KeysMap(Listed(r, header, keywords)[i]);
      && (kv in m[Look(target).path].keywords ==> KeywordOf(kv) in keys && keys[KeywordOf(kv)] == kv)
      && (count ==> NLINK in keys && ValueOf(keys[NLINK]) == Times.PrintNat(|h[target]| + 1))
  {
    hide *;
    LinksStayReadable(m, r, h, count, header, keywords);
    ReadableShaped(r, header, keywords);
    if i < |Nodes(r, keywords)| {
      NlinkWord(|h[target]|);
      CollectedKeysInForce(r, header, keywords, i, kv);
      CollectedKeysInForce(r, header, keywords, i, Nlink(|h[target]|));
      if Look(target).path == Nodes(r, keywords)[i].path || IsLinked(h[target], Nodes(r, keywords)[i].path) {
        LinkedKeywords(m, r, h, count, target, Nodes(r, keywords)[i].path, kv);
      }
    }
  }
  // ---------- from the headers ----------

  /** The node a tree grows by, and the directory it grows in. */
  predicate GrowsBy(m: Contents, p: Segs, info: Info) {
    p != [] && Front(p) in m && m[Front(p)].isDir && p !in m && Paths.AllPlain(p) && info.kids == []
  }

  lemma NewShaped(m: Contents, p: Segs, info: Info, first: bool)
    requires WellShaped(m) && GrowsBy(m, p, info)
    ensures ShapedAt(Grown(m, p, info, first), p)
  {
    hide Paths.AllPlain;
  }

  /** The names of a directory, with a new one first or last. */
  lemma KidsGrow(m: Contents, dir: Segs, before: seq<Bytes>, name: Bytes, first: bool, kids: seq<Bytes>)
    requires kids == if first then [name] + before else before + [name]
    requires dir + [name] !in m && forall i :: 0 <= i < |before| ==> dir + [before[i]] in m
    requires forall i, j :: 0 <= i < j < |before| ==> before[i] != before[j]
    ensures forall i :: 0 <= i < |kids| ==> dir + [kids[i]] in m || kids[i] == name
    ensures forall i, j :: 0 <= i < j < |kids| ==> kids[i] != kids[j]
    ensures name in kids
  {
    assert kids[if first then 0 else |before|] == name;
    forall i | 0 <= i < |before|
      ensures before[i] != name
    {
    }
  }

  /** The parts of the shape of a directory. */
  ghost predicate DirParts(m: Contents, p: Segs, kids: seq<Bytes>)
    requires p in m
  {
    && Paths.AllPlain(p) && m[p].isDir
    && (forall i :: 0 <= i < |kids| ==> p + [kids[i]] in m)
    && (forall i, j :: 0 <= i < j < |kids| ==> kids[i] != kids[j])
    && (p != [] ==> Front(p) in m && Walk.BaseName(p) in m[Front(p)].kids)
  }

  lemma PartsShape(m: Contents, p: Segs)
    requires p in m && m[p].isDir
    ensures ShapedAt(m, p) <==> DirParts(m, p, m[p].kids)
  {
    hide Paths.AllPlain;
  }

  lemma FrontGrows(m: Contents, p: Segs, info: Info, first: bool)
    requires GrowsBy(m, p, info) && DirParts(m, Front(p), m[Front(p)].kids)
    ensures var dir := Front(p); var r := Grown(m, p, info, first);
      && r[dir].isDir && p == dir + [Walk.BaseName(p)]
      && (dir != [] ==> Front(dir) in r && Walk.BaseName(dir) in r[Front(dir)].kids)
  {
    hide Paths.AllPlain;
    var dir := Front(p);
    NotOwnFront(dir);
    if dir != [] {
      OtherDir(m, p, info, first, Front(dir));
    }
  }

  lemma {:induction false} DirShaped(m: Contents, p: Segs, info: Info, first: bool)
    requires WellShaped(m) && GrowsBy(m, p, info)
    ensures ShapedAt(Grown(m, p, info, first), Front(p))
  {
    var dir, r := Front(p), Grown(m, p, info, first);
    assert ShapedAt(m, dir);
    GrownDir(m, p, info, first);
    hide Paths.AllPlain, Grown, WellShaped, Front, Walk.BaseName, ShapedAt;
    PartsShape(m, dir);
    FrontGrows(m, p, info, first);
    KidsGrow(m, dir, m[dir].kids, Walk.BaseName(p), first, r[dir].kids);
    PartsShape(r, dir);
  }

  lemma OtherDir(m: Contents, p: Segs, info: Info, first: bool, q: Segs)
    requires GrowsBy(m, p, info) && q in m && q != Front(p)
    ensures Grown(m, p, info, first)[q] == m[q]
  {
  }

  lemma NotOwnFront(dir: Segs)
    ensures dir != [] ==> Front(dir) != dir
  {
    assert dir != [] ==> |Front(dir)| < |dir|;
  }

  lemma OtherShaped(m: Contents, p: Segs, info: Info, first: bool, q: Segs)
    requires WellShaped(m) && GrowsBy(m, p, info) && q in m && q != Front(p)
    ensures ShapedAt(Grown(m, p, info, first), q)
  {
    hide Paths.AllPlain;
    assert ShapedAt(m, q);
  }

  lemma {:induction false} GrownShaped(m: Contents, p: Segs, info: Info, first: bool)
    requires WellShaped(m) && GrowsBy(m, p, info)
    ensures WellShaped(Grown(m, p, info, first))
  {
    hide Paths.AllPlain, ShapedAt, Front;
    var r := Grown(m, p, info, first);
    forall q | q in r
      ensures ShapedAt(r, q)
    {
      if q == p {
        NewShaped(m, p, info, first);
      } else if q == Front(p) {
        DirShaped(m, p, info, first);
      } else {
        OtherShaped(m, p, info, first, q);
      }
    }
  }

  lemma {:induction false} DirsShaped(m: Contents, dirs: Segs, n: nat)
    requires WellShaped(m) && n <= |dirs| && Paths.AllPlain(dirs)
    requires forall k :: 0 <= k <= |dirs| && dirs[..k] in m ==> m[dirs[..k]].isDir
    ensures WellShaped(WithDirs(m, dirs, n))
  {
    if n > 0 {
      DirsShaped(m, dirs, n - 1);
      DirStep(m, dirs, n - 1);
      hide WellShaped, Grown, Front, Paths.AllPlain;
      var before := WithDirs(m, dirs, n - 1);
      if dirs[..n] !in before {
        GrownShaped(before, dirs[..n], Info(true, PLACEHOLDER, None, []), false);
      }
    }
  }

  lemma FilledShaped(m: Contents, p: Segs, keywords: seq<KeyVal>, base: Option<seq<KeyVal>>)
    requires WellShaped(m) && p in m
    ensures WellShaped(m[p := m[p].(keywords := keywords, base := base)])
  {
    hide Paths.AllPlain;
    var r := m[p := m[p].(keywords := keywords, base := base)];
    forall q | q in r
      ensures ShapedAt(r, q)
    {
      assert ShapedAt(m, q);
    }
  }

  lemma {:induction false} InsertedShaped(m: Contents, path: Segs, isDir: bool, keywords: seq<KeyVal>, base: Option<seq<KeyVal>>)
    requires WellShaped(m) && HasRoom(m, path, isDir) && Paths.AllPlain(path)
    ensures WellShaped(Inserted(m, path, isDir, keywords, base))
  {
    RootThere(m);
    RoomAbove(m, path, isDir);
    RoomPath(m, path, isDir);
    hide WellShaped, Grown, WithDirs, HasRoom;
    var dirs := Above(path, isDir);
    assert dirs[..|dirs|] == dirs;
    DirsShaped(m, dirs, |dirs|);
    var made := WithDirs(m, dirs, |dirs|);
    if !isDir {
      GrownShaped(made, path, Info(false, keywords, base, []), true);
    } else if path != [] {
      FilledShaped(made, path, keywords, base);
    }
  }

  /** What the headers build is a tree. */
  lemma {:induction false} BuiltShaped(hs: seq<Header>)
    requires Acceptable(hs)
    ensures WellShaped(Built(hs))
  {
    if hs == [] {
      assert forall p :: p in EMPTY_TREE ==> p == [];
    } else {
      hide WellShaped, Inserted, HasRoom, WellNamed, IsTreeOf;
      var n := |hs| - 1;
      AcceptableBefore(hs, n);
      BuiltShaped(hs[..n]);
      BuiltSnoc(hs, n);
      assert hs[..n + 1] == hs;
      EachPlain(hs, n);
      var h := hs[n];
      InsertedShaped(Built(hs[..n]), PathOf(h), h.isDir, h.keywords, h.base);
    }
  }

  lemma EachPlain(hs: seq<Header>, i: nat)
    requires Acceptable(hs) && i < |hs|
    ensures Paths.AllPlain(PathOf(hs[i]))
  {
    hide Paths.AllPlain;
    EachNamed(hs, i);
  }

  predicate HeaderTold(h: Header) {
    NodeTold(Info(h.isDir, h.keywords, h.base, []))
  }

  lemma TypeDir()
    ensures IsWord("type=dir") && KeywordOf("type=dir") == "type" && ValueOf("type=dir") == "dir"
  {
    hide IsWord, KeywordOf, ValueOf;
    AsciiWord("type=dir");
    assert MakeKeyVal("type", "dir") == "type=dir";
    MadeKeyVal("type", "dir");
  }

  lemma PlaceholderTold(kids: seq<Bytes>)
    ensures NodeTold(Info(true, PLACEHOLDER, None, kids))
  {
    TypeDir();
    hide KeywordOf, ValueOf, IsWord;
    assert PLACEHOLDER == [] + ["type=dir"];
    LookupSnoc([], "type=dir", "type");
  }

  lemma {:induction false} BuiltTold(hs: seq<Header>, p: Segs)
    requires Acceptable(hs) && (forall i :: 0 <= i < |hs| ==> HeaderTold(hs[i])) && p in Built(hs)
    ensures NodeTold(Built(hs)[p])
  {
    BuiltIs(hs);
    hide Built, PathOf, WellNamed, OnTheWay, Acceptable, Consistent, SaysDir, AllWords, SetOk;
    var info := Built(hs)[p];
    if p != [] && HasHeader(hs, p) {
      var i :| 0 <= i < |hs| && PathOf(hs[i]) == p;
      assert Carries(info, hs[i]) && HeaderTold(hs[i]);
    } else {
      PlaceholderTold(info.kids);
    }
  }

  /** A tree built from told headers can be printed and read back. */
  lemma {:induction false} BuiltReadable(hs: seq<Header>, header: seq<Bytes>, keywords: seq<Keyword>)
    requires Acceptable(hs) && (forall i :: 0 <= i < |hs| ==> HeaderTold(hs[i]))
    requires forall i :: 0 <= i < |header| ==> Steady(Comment(header[i]))
    ensures Readable(Built(hs), header, keywords)
  {
    BuiltShaped(hs);
    hide Built, Acceptable, WellShaped, NodeTold, HeaderTold, Steady;
    forall p | p in Built(hs)
      ensures NodeTold(Built(hs)[p])
    {
      BuiltTold(hs, p);
    }
  }

  /** An archive, end to end: the parsed manifest lists exactly the ancestors of the header paths, each once,
      under its path; a header's entry has the header's key-values in force, and any other "type=dir". */
  lemma {:induction false} ArchiveDescribed(hs: seq<Header>, header: seq<Bytes>, keywords: seq<Keyword>)
    requires Acceptable(hs) && (forall i :: 0 <= i < |hs| ==> HeaderTold(hs[i]))
    requires forall i :: 0 <= i < |header| ==> Steady(Comment(header[i]))
    ensures Readable(Built(hs), header, keywords)
    ensures var nodes, listed := Nodes(Built(hs), keywords), Listed(Built(hs), header, keywords);
      && |nodes| == |listed| && StopsOnce(nodes)
      && (forall p :: StopsAt(nodes, p) <==> p == [] || OnTheWay(hs, p))
      && (forall i :: 0 <= i < |nodes| ==> Path(listed[i]) == Ok(Walk.PathText(nodes[i].path)))
      && (forall i :: 0 <= i < |nodes| ==> KeysTold(hs, nodes[i].path, KeysMap(listed[i])))
    ensures var linked := Link(TarItems(Built(hs), header, keywords)).entries;
      Parse(Text(Lines(SortByPos(Walk.Walked(linked))))) == Ok(linked) <==> NoBrokenLine(TarItems(Built(hs), header, keywords))
  {
    hide *;
    BuiltReadable(hs, header, keywords);
    PrintedTarParses(Built(hs), header, keywords);
    ReadableShaped(Built(hs), header, keywords);
    NodesListed(hs, header, keywords);
    forall i | 0 <= i < |Nodes(Built(hs), keywords)|
      ensures KeysTold(hs, Nodes(Built(hs), keywords)[i].path, KeysMap(Listed(Built(hs), header, keywords)[i]))
    {
      EntryTold(hs, header, keywords, i);
    }
  }

  /** The keys in force are those the archive says of the path. */
  ghost predicate KeysTold(hs: seq<Header>, p: Segs, keys: map<Keyword, KeyVal>) {
    && (p != [] ==> forall i, kv :: 0 <= i < |hs| && PathOf(hs[i]) == p && kv in hs[i].keywords ==>
          KeywordOf(kv) in keys && keys[KeywordOf(kv)] == kv)
    && (p == [] || !HasHeader(hs, p) ==> "type" in keys && keys["type"] == "type=dir")
  }

  lemma {:induction false} NodesListed(hs: seq<Header>, header: seq<Bytes>, keywords: seq<Keyword>)
    requires Acceptable(hs) && Readable(Built(hs), header, keywords)
    ensures WellShaped(Built(hs))
    ensures var nodes, listed := Nodes(Built(hs), keywords), Listed(Built(hs), header, keywords);
      && |nodes| == |listed| && StopsOnce(nodes)
      && (forall p :: StopsAt(nodes, p) <==> p == [] || OnTheWay(hs, p))
      && (forall i :: 0 <= i < |nodes| ==> Path(listed[i]) == Ok(Walk.PathText(nodes[i].path)))
  {
    BuiltIs(hs);
    ReadableShaped(Built(hs), header, keywords);
    TarRecordsNodes(Built(hs), header, keywords);
    hide Built, Readable, WellShaped, FlatTree, TarItems, Link, Relatives, StopsOnce, StopsAt, Path, OnTheWay, Acceptable, Factored, BaseOk, StopsOf;
  }

  lemma {:induction false} EntryTold(hs: seq<Header>, header: seq<Bytes>, keywords: seq<Keyword>, i: nat)
    requires Acceptable(hs) && Readable(Built(hs), header, keywords) && WellShaped(Built(hs)) && i < |Nodes(Built(hs), keywords)|
    ensures |Listed(Built(hs), header, keywords)| == |Nodes(Built(hs), keywords)|
    ensures KeysTold(hs, Nodes(Built(hs), keywords)[i].path, KeysMap(Listed(Built(hs), header, keywords)[i]))
  {
    hide *;
    var m, p := Built(hs), Nodes(Built(hs), keywords)[i].path;
    BuiltIs(hs);
    forall kv: KeyVal
      ensures |Listed(m, header, keywords)| == |Nodes(m, keywords)| && p in m
      ensures kv in m[p].keywords ==> KeywordOf(kv) in KeysMap(Listed(m, header, keywords)[i]) && KeysMap(Listed(m, header, keywords)[i])[KeywordOf(kv)] == kv
    {
      CollectedKeysInForce(m, header, keywords, i, kv);
    }
    CollectedKeysInForce(m, header, keywords, i, "type=dir");
    TreeToldAt(hs, m, p, KeysMap(Listed(m, header, keywords)[i]));
  }

  lemma {:induction false} TreeToldAt(hs: seq<Header>, m: Contents, p: Segs, keys: map<Keyword, KeyVal>)
    requires IsTreeOf(m, hs) && p in m
    requires forall kv :: kv in m[p].keywords ==> KeywordOf(kv) in keys && keys[KeywordOf(kv)] == kv
    ensures KeysTold(hs, p, keys)
  {
    TypeDir();
    hide PathOf, OnTheWay, KeywordOf, HasHeader, ValueOf, IsWord;
    forall j, kv | 0 <= j < |hs| && PathOf(hs[j]) == p && p != [] && kv in hs[j].keywords
      ensures KeywordOf(kv) in keys && keys[KeywordOf(kv)] == kv
    {
      assert Carries(m[PathOf(hs[j])], hs[j]);
    }
    if p == [] || !HasHeader(hs, p) {
      assert "type=dir" in m[p].keywords;
    }
  }
}
