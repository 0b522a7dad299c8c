/** Hard links in a tar archive, tar.go:144-162 and tar.go:380-411: a link's entry gets the keywords of
    the file it names, and both count the names of the file. */
module TarLinks {
  import opened GoBytes
  import opened GoStrings
  import opened Govis
  import opened GovisLaws
  import opened Keywords
  import opened TarTree
  import Times
  import Paths

  /** The targets of the archive's hard links, each with the names of its links. */
  type Hardlinks = map<Bytes, seq<Bytes>>

  // ---------- collecting ----------

  /** A hard link's header: its name and the name it links to. */
  datatype LinkHeader = LinkHeader(name: Bytes, target: Bytes)

  /** A header without a target yields no "link" key-value, and the source indexes the first one. */
  datatype LinkError = NoTarget

  /** The links collected so far. */
  function Collected(hs: seq<LinkHeader>): Hardlinks {
    if hs == [] then map[]
    else
      var before, last := Collected(hs[..|hs| - 1]), hs[|hs| - 1];
      before[last.target := (if last.target in before then before[last.target] else []) + [last.name]]
  }

  /** The link's target goes through the encoder, a key-value, and the decoder, which never fails on it. */
  method CollectLink(hardlinks: Hardlinks, h: LinkHeader) returns (r: Result<Hardlinks, LinkError>)
    ensures r == if h.target == "" then Err(NoTarget)
      else Ok(hardlinks[h.target := (if h.target in hardlinks then hardlinks[h.target] else []) + [h.name]])
  {
    hide Decode, Encode, VisBytes, ValueOf;
    if h.target == "" {
      return Err(NoTarget);
    }
    DefaultFlags();
    TargetSurvives(h.target);
    var encoded := Vis(h.target, DEFAULT_VIS_FLAGS);
    var linkname := Unvis(ValueOf(MakeKeyVal("link", encoded.value)), DEFAULT_VIS_FLAGS);
    assert [] + [h.name] == [h.name];
    if linkname.value !in hardlinks {
      return Ok(hardlinks[linkname.value := [h.name]]);
    } else {
      return Ok(hardlinks[linkname.value := hardlinks[linkname.value] + [h.name]]);
    }
  }

  /** The target comes back from its key-value. */
  lemma TargetSurvives(target: Bytes)
    requires target != ""
    ensures Encode(target, DEFAULT_VIS_FLAGS) == Ok(Encoded(target))
    ensures Decode(ValueOf(MakeKeyVal("link", Encoded(target))), DEFAULT_VIS_FLAGS) == Ok(target)
  {
    hide Decode, Encode, VisBytes, ValueOf;
    DefaultFlags();
    RoundTrip(target, DEFAULT_VIS_FLAGS);
    EncodedIs(target);
    EncodedName(target);
    AsciiWord(MakeKeyVal("link", Encoded(target)));
    MadeKeyVal("link", Encoded(target));
  }

  /** The names linked to a target, in the order of their headers. */
  function NamesOf(hs: seq<LinkHeader>, target: Bytes): seq<Bytes> {
    if hs == [] then []
    else
      var last := hs[|hs| - 1];
      NamesOf(hs[..|hs| - 1], target) + if last.target == target then [last.name] else []
  }

  lemma {:induction false} CollectedAre(hs: seq<LinkHeader>, target: Bytes)
    ensures target in Collected(hs) <==> NamesOf(hs, target) != []
    ensures target in Collected(hs) ==> Collected(hs)[target] == NamesOf(hs, target)
  {
    if hs != [] {
      CollectedAre(hs[..|hs| - 1], target);
    }
  }

  method CollectLinks(hs: seq<LinkHeader>) returns (r: Result<Hardlinks, LinkError>)
    ensures r == if exists i :: 0 <= i < |hs| && hs[i].target == "" then Err(NoTarget) else Ok(Collected(hs))
  {
    var hardlinks: Hardlinks := map[];
    for i := 0 to |hs|
      invariant hardlinks == Collected(hs[..i])
      invariant forall j :: 0 <= j < i ==> hs[j].target != ""
    {
      assert hs[..i + 1][..i] == hs[..i];
      var next := CollectLink(hardlinks, hs[i]);
      if next.Err? {
        return Err(next.error);
      }
      hardlinks := next.value;
    }
    assert hs[..|hs|] == hs;
    return Ok(hardlinks);
  }

  // ---------- resolving ----------

  /** Where Find arrives: a path, and whether at its node or at a copy of it. */
  datatype Spot = Spot(path: Segs, inTree: bool)

  function Look(name: Bytes): Spot {
    var parts := Split(name, '/');
    Spot(Named(parts), Paths.IsPlain(parts[|parts| - 1]))
  }

  /** A path is looked up at its node; with a slash at the end, or through "." and empty elements, at a copy or the node. */
  lemma {:induction false} LookIs(path: Segs)
    requires Paths.AllPlain(path) && path != []
    ensures Look(Join(path, '/')) == Spot(path, true)
    ensures Look("./" + Join(path, '/')) == Spot(path, true)
    ensures Look(Join(path, '/') + "/") == Spot(path, false)
  {
    hide Named, Join, Split, Paths.IsPlain, Paths.AllPlain;
    var text := Join(path, '/');
    PlainHaveNoSlash(path);
    SplitJoin(path, '/');
    NamedAll(path);
    LastIsPlain(path);
    SplitConcat(".", text, '/');
    SplitWithout(".", '/');
    assert "." + ['/'] + text == "./" + text;
    NamedAfterDot(path);
    SplitConcat(text, "", '/');
    SplitWithout("", '/');
    assert text + ['/'] + "" == text + "/";
    NamedBeforeNothing(path);
    EmptyNotPlain();
  }

  lemma LastIsPlain(path: Segs)
    requires Paths.AllPlain(path) && path != []
    ensures Paths.IsPlain(path[|path| - 1])
  {
    hide Paths.IsPlain;
  }

  lemma NamedBeforeNothing(path: Segs)
    ensures Named(path + [""]) == Named(path)
  {
    assert (path + [""])[..|path|] == path;
    assert Named(path) + [] == Named(path);
  }

  lemma EmptyNotPlain()
    ensures !Paths.IsPlain("")
  {
  }

  lemma PlainHaveNoSlash(path: Segs)
    requires Paths.AllPlain(path)
    ensures forall i :: 0 <= i < |path| ==> '/' !in path[i]
  {
  }

  lemma {:induction false} NamedAfterDot(path: Segs)
    requires Paths.AllPlain(path)
    ensures Named(["."] + path) == path
  {
    if path == [] {
      assert ["."] + path == ["."] && ["."][..0] == [];
    } else {
      var n := |path| - 1;
      NamedAfterDot(path[..n]);
      assert (["."] + path)[..|path|] == ["."] + path[..n];
      assert Paths.IsPlain(path[n]);
      assert path == path[..n] + [path[n]];
    }
  }

  /** The key-value that counts a file's names. */
  function Nlink(links: nat): KeyVal {
    MakeKeyVal("nlink", Times.PrintInt(links + 1))
  }

  function Suffix(links: seq<Bytes>, count: bool): seq<KeyVal> {
    if count then [Nlink(|links|)] else []
  }

  function WithKeywords(m: Contents, p: Segs, keywords: seq<KeyVal>): Contents
    requires p in m
  {
    m[p := m[p].(keywords := keywords)]
  }

  /** The keywords of the file linked to; a copy keeps those it was made with. */
  function KeywordsOf(m: Contents, b: Spot, copied: seq<KeyVal>): seq<KeyVal> {
    if b.inTree && b.path in m then m[b.path].keywords else copied
  }

  /** One link of a file takes its keywords. */
  function LinkOne(m: Contents, b: Spot, copied: seq<KeyVal>, link: Bytes, suffix: seq<KeyVal>): Contents {
    var l := Look(link);
    if l.inTree && l.path in m then WithKeywords(m, l.path, KeywordsOf(m, b, copied) + suffix) else m
  }

  function LinkAll(m: Contents, b: Spot, copied: seq<KeyVal>, links: seq<Bytes>, suffix: seq<KeyVal>): Contents {
    if links == [] then m
    else LinkOne(LinkAll(m, b, copied, links[..|links| - 1], suffix), b, copied, links[|links| - 1], suffix)
  }

  /** The links of one file, then the file itself. */
  function ResolveGroup(m: Contents, base: Bytes, links: seq<Bytes>, count: bool): Contents {
    var b := Look(base);
    if b.path !in m then m
    else
      var linked := LinkAll(m, b, m[b.path].keywords, links, Suffix(links, count));
      if b.inTree && b.path in linked then WithKeywords(linked, b.path, linked[b.path].keywords + Suffix(links, count)) else linked
  }

  /** The files in the order the map gives them. */
  function ResolveAll(m: Contents, order: seq<Bytes>, hardlinks: Hardlinks, count: bool): Contents
    requires forall i :: 0 <= i < |order| ==> order[i] in hardlinks
  {
    if order == [] then m
    else
      var last := order[|order| - 1];
      ResolveGroup(ResolveAll(m, order[..|order| - 1], hardlinks, count), last, hardlinks[last], count)
  }

  /** Each target once. */
  ghost predicate IsOrder(order: seq<Bytes>, hardlinks: Hardlinks) {
    && (forall i :: 0 <= i < |order| ==> order[i] in hardlinks)
    && (forall t :: t in hardlinks ==> t in order)
    && (forall i, j :: 0 <= i < j < |order| ==> order[i] != order[j])
  }

  /** The node found, or the copy. */
  ghost predicate At(t: Tree, n: Node, p: Spot, copied: seq<KeyVal>)
    reads t, t.repr, n
  {
    && p.path in t.nodes && p.path in t.contents && n.path == p.path
    && (if p.inTree then n == t.nodes[p.path] && n in t.repr else n !in t.repr)
    && n.keywords == KeywordsOf(t.contents, p, copied)
  }

  /** root.Find(name) */
  method Locate(t: Tree, name: Bytes) returns (n: Node?)
    requires t.Valid()
    ensures t.contents.Keys == t.nodes.Keys
    ensures n == null <==> Look(name).path !in t.contents
    ensures n != null ==> At(t, n, Look(name), t.contents[Look(name).path].keywords) && (n in t.repr || fresh(n))
  {
    hide t.Valid, Paths.IsPlain, Named;
    t.RootStays();
    n := t.Find(name);
    if n != null {
      t.NodeFacts(n.path);
    }
  }

  /** A node of the tree, or a copy, gets other keywords. */
  method Assign(t: Tree, n: Node, p: Spot, keywords: seq<KeyVal>)
    requires t.Valid() && p.path in t.nodes && p.path in t.contents && n.path == p.path
    requires if p.inTree then n == t.nodes[p.path] && n in t.repr else n !in t.repr
    modifies t`contents, n`keywords, n`base
    ensures t.Valid() && n.keywords == keywords
    ensures t.contents == if p.inTree then WithKeywords(old(t.contents), p.path, keywords) else old(t.contents)
  {
    hide t.Valid;
    t.NodeFacts(p.path);
    t.Fill(n, keywords, n.base);
  }

  /** The loop over the links of a file. */
  method LinkEach(t: Tree, basefile: Node, ghost b: Spot, links: seq<Bytes>, count: bool)
    requires t.Valid() && b.path in t.contents && At(t, basefile, b, t.contents[b.path].keywords)
    modifies t`contents, t.repr
    ensures t.Valid()
    ensures t.contents == LinkAll(old(t.contents), b, old(t.contents[b.path].keywords), links, Suffix(links, count))
    ensures At(t, basefile, b, old(t.contents[b.path].keywords))
  {
    hide t.Valid, Look, Nlink;
    ghost var m := t.contents;
    ghost var copied := m[b.path].keywords;
    assert links[..0] == [];
    for j := 0 to |links|
      invariant t.Valid() && b.path in t.contents && At(t, basefile, b, copied)
      invariant t.contents == LinkAll(m, b, copied, links[..j], Suffix(links, count))
    {
      assert links[..j + 1][..j] == links[..j];
      var linkfile := Locate(t, links[j]);
      if linkfile == null {
        continue;
      }
      var keywords := basefile.keywords;
      if count {
        keywords := keywords + [Nlink(|links|)];
      }
      assert keywords == basefile.keywords + Suffix(links, count);
      Assign(t, linkfile, Look(links[j]), keywords);
    }
    assert links[..|links|] == links;
  }

  /** resolveHardlinks.  The order of a map's keys is arbitrary; each target is met once, so the
      source's map of the files already found never has the one looked for. */
  method ResolveHardlinks(t: Tree, hardlinks: Hardlinks, count: bool) returns (ghost order: seq<Bytes>)
    requires t.Valid()
    modifies t`contents, t.repr
    ensures t.Valid() && IsOrder(order, hardlinks)
    ensures t.contents == ResolveAll(old(t.contents), order, hardlinks, count)
  {
    hide t.Valid, Look, Nlink, LinkAll;
    var todo := hardlinks.Keys;
    order := [];
    while todo != {}
      invariant t.Valid() && todo <= hardlinks.Keys
      invariant forall i :: 0 <= i < |order| ==> order[i] in hardlinks && order[i] !in todo
      invariant forall k :: k in hardlinks ==> k in todo || k in order
      invariant forall i, j :: 0 <= i < j < |order| ==> order[i] != order[j]
      invariant t.contents == ResolveAll(old(t.contents), order, hardlinks, count)
      decreases |todo|
    {
      var base :| base in todo;
      todo := todo - {base};
      ghost var before := order;
      order := order + [base];
      assert order[..|order| - 1] == before;
      var basefile := Locate(t, base);
      if basefile == null {
        continue;
      }
      var links := hardlinks[base];
      LinkEach(t, basefile, Look(base), links, count);
      if count {
        Assign(t, basefile, Look(base), basefile.keywords + [Nlink(|links|)]);
      }
      Uncounted(t.contents, Look(base).path);
    }
  }

  lemma Uncounted(m: Contents, p: Segs)
    ensures p in m ==> WithKeywords(m, p, m[p].keywords + []) == m
  {
    if p in m {
      assert m[p].keywords + [] == m[p].keywords;
    }
  }

  // ---------- what resolving gives ----------

  /** No link is linked to, and no file is a target twice or a link of two targets, unless names are not
      counted and it is one file that the targets name. */
  ghost predicate Separate(h: Hardlinks, count: bool) {
    && (forall s, t, q :: s in h && t in h && IsLinked(h[s], q) ==> Look(t).path != q)
    && (forall s, t :: s in h && t in h && s != t && Look(s).path == Look(t).path ==> !count)
    && (forall s, t, q :: s in h && t in h && s != t && IsLinked(h[s], q) && IsLinked(h[t], q) ==> !count && Look(s).path == Look(t).path)
  }

  /** One of the names is the node's at the path. */
  predicate IsLinked(links: seq<Bytes>, q: Segs) {
    exists i :: 0 <= i < |links| && Look(links[i]) == Spot(q, true)
  }

  lemma {:induction false} LinkedSnoc(links: seq<Bytes>, q: Segs)
    requires links != []
    ensures IsLinked(links, q) <==> IsLinked(links[..|links| - 1], q) || Look(links[|links| - 1]) == Spot(q, true)
  {
    hide Look;
    var before := links[..|links| - 1];
    if IsLinked(before, q) {
      var i :| 0 <= i < |before| && Look(before[i]) == Spot(q, true);
      assert links[i] == before[i];
    }
    if IsLinked(links, q) {
      var i :| 0 <= i < |links| && Look(links[i]) == Spot(q, true);
      assert i < |before| ==> before[i] == links[i];
    }
  }

  lemma {:induction false} LinkAllAt(m: Contents, b: Spot, links: seq<Bytes>, suffix: seq<KeyVal>, q: Segs)
    requires b.path in m && !IsLinked(links, b.path) && q in m
    ensures var r := LinkAll(m, b, m[b.path].keywords, links, suffix);
      && r.Keys == m.Keys && r[b.path] == m[b.path]
      && r[q] == if IsLinked(links, q) then m[q].(keywords := m[b.path].keywords + suffix) else m[q]
  {
    hide Look, IsLinked;
    if links != [] {
      LinkedSnoc(links, q);
      LinkedSnoc(links, b.path);
      LinkAllAt(m, b, links[..|links| - 1], suffix, q);
    } else {
      NoneLinked(q);
    }
  }

  lemma NoneLinked(q: Segs)
    ensures !IsLinked([], q)
  {
  }

  lemma {:induction false} GroupAt(m: Contents, base: Bytes, links: seq<Bytes>, count: bool, q: Segs)
    requires !IsLinked(links, Look(base).path) && q in m
    ensures var r, b := ResolveGroup(m, base, links, count), Look(base);
      && r.Keys == m.Keys
      && r[q] == if b.path !in m then m[q]
                 else if IsLinked(links, q) then m[q].(keywords := m[b.path].keywords + Suffix(links, count))
                 else if b == Spot(q, true) then m[q].(keywords := m[q].keywords + Suffix(links, count))
                 else m[q]
  {
    hide Look, IsLinked, LinkAll, Suffix;
    var b := Look(base);
    if b.path in m {
      LinkAllAt(m, b, links, Suffix(links, count), q);
      LinkAllAt(m, b, links, Suffix(links, count), b.path);
    }
  }

  /** What the node at a path has got, after these targets. */
  ghost predicate RightAt(m: Contents, r: Contents, order: seq<Bytes>, h: Hardlinks, count: bool, q: Segs)
    requires q in m && forall i :: 0 <= i < |order| ==> order[i] in h
  {
    && r.Keys == m.Keys && r[q] == m[q].(keywords := r[q].keywords)
    && (forall t :: t in order && Look(t).path in m && IsLinked(h[t], q) ==>
          r[q] == m[q].(keywords := m[Look(t).path].keywords + Suffix(h[t], count)))
    && (forall t :: t in order && Look(t) == Spot(q, true) ==> r[q] == m[q].(keywords := m[q].keywords + Suffix(h[t], count)))
    && ((forall t :: t in order && Look(t).path in m ==> !IsLinked(h[t], q) && Look(t) != Spot(q, true)) ==> r[q] == m[q])
  }

  lemma Uncounting(links: seq<Bytes>, kvs: seq<KeyVal>)
    ensures kvs + Suffix(links, false) == kvs
  {
  }

  /** Nothing before has changed the file a target names. */
  lemma {:induction false} TargetUntouched(m: Contents, r: Contents, before: seq<Bytes>, last: Bytes, h: Hardlinks, count: bool)
    requires Separate(h, count) && last in h && last !in before && Look(last).path in m
    requires forall i :: 0 <= i < |before| ==> before[i] in h
    requires RightAt(m, r, before, h, count, Look(last).path)
    ensures r[Look(last).path] == m[Look(last).path]
  {
    hide Look, IsLinked, Suffix;
    var q := Look(last).path;
    forall t | t in before
      ensures !IsLinked(h[t], q) && (Look(t) == Spot(q, true) ==> r[q] == m[q])
    {
      assert t in h && t != last;
      if Look(t) == Spot(q, true) {
        Uncounting(h[t], m[q].keywords);
      }
    }
  }

  /** What a target and one before it can both change. */
  ghost predicate Compatible(m: Contents, t: Bytes, last: Bytes, h: Hardlinks, count: bool, q: Segs)
    requires t in h && last in h
  {
    && (IsLinked(h[last], q) ==> Look(t) != Spot(q, true) && (IsLinked(h[t], q) ==> !count && Look(t).path == Look(last).path))
    && (Look(last) == Spot(q, true) ==> !IsLinked(h[t], q) && (Look(t) == Spot(q, true) ==> !count))
  }

  lemma {:induction false} RightNext(m: Contents, r: Contents, next: Contents, before: seq<Bytes>, last: Bytes, h: Hardlinks, count: bool, q: Segs)
    requires q in m && last in h && (forall i :: 0 <= i < |before| ==> before[i] in h) && RightAt(m, r, before, h, count, q)
    requires next.Keys == m.Keys && !IsLinked(h[last], Look(last).path)
    requires Look(last) == Spot(q, true) ==> r[q] == m[q]
    requires forall t :: t in before ==> Compatible(m, t, last, h, count, q)
    requires next[q] == if Look(last).path !in m then r[q]
                        else if IsLinked(h[last], q) then r[q].(keywords := m[Look(last).path].keywords + Suffix(h[last], count))
                        else if Look(last) == Spot(q, true) then r[q].(keywords := r[q].keywords + Suffix(h[last], count))
                        else r[q]
    ensures RightAt(m, next, before + [last], h, count, q)
  {
    hide Look, IsLinked, Suffix;
    assert forall t :: t in before + [last] <==> t in before || t == last;
    forall t | t in h && Look(t).path in m
      ensures !count ==> m[Look(t).path].keywords + Suffix(h[t], count) == m[Look(t).path].keywords
    {
      Uncounting(h[t], m[Look(t).path].keywords);
    }
  }

  lemma {:induction false} ResolveAllAt(m: Contents, order: seq<Bytes>, h: Hardlinks, count: bool, q: Segs)
    requires Separate(h, count) && q in m
    requires forall i :: 0 <= i < |order| ==> order[i] in h
    requires forall i, j :: 0 <= i < j < |order| ==> order[i] != order[j]
    ensures RightAt(m, ResolveAll(m, order, h, count), order, h, count, q)
  {
    hide Look, IsLinked, ResolveGroup, Suffix, Separate, RightAt, Compatible;
    if order == [] {
      NothingResolved(m, h, count, q);
    } else {
      var n := |order| - 1;
      var before, last := order[..n], order[n];
      assert order == before + [last];
      var r := ResolveAll(m, before, h, count);
      ResolveAllAt(m, before, h, count, q);
      RightKeys(m, r, before, h, count, q);
      NotSelfLinked(h, last, count);
      GroupAt(r, last, h[last], count, q);
      if Look(last).path in m {
        ResolveAllAt(m, before, h, count, Look(last).path);
        TargetUntouched(m, r, before, last, h, count);
      }
      forall t | t in before
        ensures Compatible(m, t, last, h, count, q)
      {
        assert t in h && t != last;
        SeparateCompatible(m, t, last, h, count, q);
      }
      RightNext(m, r, ResolveAll(m, order, h, count), before, last, h, count, q);
    }
  }

  lemma SeparateCompatible(m: Contents, t: Bytes, last: Bytes, h: Hardlinks, count: bool, q: Segs)
    requires Separate(h, count) && t in h && last in h && t != last
    ensures Compatible(m, t, last, h, count, q)
  {
    hide Look, IsLinked;
  }

  lemma RightKeys(m: Contents, r: Contents, order: seq<Bytes>, h: Hardlinks, count: bool, q: Segs)
    requires q in m && (forall i :: 0 <= i < |order| ==> order[i] in h) && RightAt(m, r, order, h, count, q)
    ensures r.Keys == m.Keys
  {
  }

  lemma NothingResolved(m: Contents, h: Hardlinks, count: bool, q: Segs)
    requires q in m
    ensures RightAt(m, m, [], h, count, q)
  {
  }

  lemma NotSelfLinked(h: Hardlinks, t: Bytes, count: bool)
    requires Separate(h, count) && t in h
    ensures !IsLinked(h[t], Look(t).path)
  {
    hide Look, IsLinked;
  }

  /** A target found in the tree and all its links have the target's own keywords and the count of its
      names; nothing else changes. */
  ghost predicate SharesKeywords(m: Contents, r: Contents, h: Hardlinks, count: bool) {
    && r.Keys == m.Keys
    && (forall t :: t in h && Look(t).inTree && Look(t).path in m ==>
          r[Look(t).path] == m[Look(t).path].(keywords := m[Look(t).path].keywords + Suffix(h[t], count)))
    && (forall t, q :: t in h && Look(t).path in m && q in m && IsLinked(h[t], q) ==>
          r[q] == m[q].(keywords := m[Look(t).path].keywords + Suffix(h[t], count)))
    && (forall q :: q in m && (forall t :: t in h && Look(t).path in m ==> !IsLinked(h[t], q) && Look(t) != Spot(q, true)) ==> r[q] == m[q])
  }

  lemma {:induction false} HardlinksShare(m: Contents, order: seq<Bytes>, h: Hardlinks, count: bool)
    requires Separate(h, count) && IsOrder(order, h) && m != map[]
    ensures SharesKeywords(m, ResolveAll(m, order, h, count), h, count)
  {
    hide Look, IsLinked, ResolveAll, Suffix, Separate, RightAt;
    var r := ResolveAll(m, order, h, count);
    assert forall t :: t in h <==> t in order;
    var p :| p in m;
    ResolveAllAt(m, order, h, count, p);
    RightKeys(m, r, order, h, count, p);
    forall t | t in h && Look(t).inTree && Look(t).path in m
      ensures r[Look(t).path] == m[Look(t).path].(keywords := m[Look(t).path].keywords + Suffix(h[t], count))
    {
      ResolveAllAt(m, order, h, count, Look(t).path);
      RightFor(m, r, order, h, count, t, Look(t).path);
    }
    forall t, q | t in h && Look(t).path in m && q in m && IsLinked(h[t], q)
      ensures r[q] == m[q].(keywords := m[Look(t).path].keywords + Suffix(h[t], count))
    {
      ResolveAllAt(m, order, h, count, q);
      RightFor(m, r, order, h, count, t, q);
    }
    forall q | q in m && (forall t :: t in h && Look(t).path in m ==> !IsLinked(h[t], q) && Look(t) != Spot(q, true))
      ensures r[q] == m[q]
    {
      ResolveAllAt(m, order, h, count, q);
      RightOtherwise(m, r, order, h, count, q);
    }
  }

  lemma RightFor(m: Contents, r: Contents, order: seq<Bytes>, h: Hardlinks, count: bool, t: Bytes, q: Segs)
    requires q in m && (forall i :: 0 <= i < |order| ==> order[i] in h) && RightAt(m, r, order, h, count, q)
    requires t in order && Look(t).path in m
    ensures IsLinked(h[t], q) ==> r[q] == m[q].(keywords := m[Look(t).path].keywords + Suffix(h[t], count))
    ensures Look(t) == Spot(q, true) ==> r[q] == m[q].(keywords := m[q].keywords + Suffix(h[t], count))
  {
    hide Look, IsLinked, Suffix;
  }

  lemma RightOtherwise(m: Contents, r: Contents, order: seq<Bytes>, h: Hardlinks, count: bool, q: Segs)
    requires q in m && (forall i :: 0 <= i < |order| ==> order[i] in h) && RightAt(m, r, order, h, count, q)
    requires forall t :: t in h && Look(t).path in m ==> !IsLinked(h[t], q) && Look(t) != Spot(q, true)
    ensures r[q] == m[q]
  {
    hide Look, IsLinked, Suffix;
  }

  /** The order of the map does not matter. */
  lemma {:induction false} AnyOrder(m: Contents, a: seq<Bytes>, b: seq<Bytes>, h: Hardlinks, count: bool)
    requires Separate(h, count) && IsOrder(a, h) && IsOrder(b, h) && m != map[]
    ensures ResolveAll(m, a, h, count) == ResolveAll(m, b, h, count)
  {
    hide Look, IsLinked, ResolveAll, Suffix, Separate;
    HardlinksShare(m, a, h, count);
    HardlinksShare(m, b, h, count);
    var r, s := ResolveAll(m, a, h, count), ResolveAll(m, b, h, count);
    forall q | q in m
      ensures r[q] == s[q]
    {
      if t :| t in h && Look(t).path in m && (IsLinked(h[t], q) || Look(t) == Spot(q, true)) {
      }
    }
  }

  /** A target that does not reach a file leaves it. */
  lemma {:induction false} LinkAllLeaves(m: Contents, b: Spot, copied: seq<KeyVal>, links: seq<Bytes>, suffix: seq<KeyVal>, q: Segs)
    requires q in m && !IsLinked(links, q)
    ensures var r := LinkAll(m, b, copied, links, suffix); r.Keys == m.Keys && r[q] == m[q]
  {
    hide Look, IsLinked;
    if links != [] {
      LinkedSnoc(links, q);
      LinkAllLeaves(m, b, copied, links[..|links| - 1], suffix, q);
    }
  }

  lemma {:induction false} OthersLeave(m: Contents, front: seq<Bytes>, rest: seq<Bytes>, h: Hardlinks, count: bool, q: Segs)
    requires q in m && (forall i :: 0 <= i < |front| ==> front[i] in h) && forall i :: 0 <= i < |rest| ==> rest[i] in h
    requires forall i :: 0 <= i < |rest| ==> !IsLinked(h[rest[i]], q) && Look(rest[i]) != Spot(q, true)
    requires q in ResolveAll(m, front, h, count)
    ensures q in ResolveAll(m, front + rest, h, count)
    ensures ResolveAll(m, front + rest, h, count)[q] == ResolveAll(m, front, h, count)[q]
  {
    hide Look, IsLinked, LinkAll, Suffix;
    if rest == [] {
      assert front + rest == front;
    } else {
      var n := |rest| - 1;
      assert (front + rest)[..|front + rest| - 1] == front + rest[..n];
      OthersLeave(m, front, rest[..n], h, count, q);
      var before, last := ResolveAll(m, front + rest[..n], h, count), rest[n];
      if Look(last).path in before {
        LinkAllLeaves(before, Look(last), before[Look(last).path].keywords, h[last], Suffix(h[last], count), q);
      }
    }
  }

  /** The other targets leave the file alone.  When names are counted they are not among these files and
      their links either, so that no list that shares memory with theirs is appended to. */
  ghost predicate OthersApart(h: Hardlinks, count: bool, a: Bytes, b: Bytes, q: Segs, rest: seq<Bytes>)
    requires a in h && b in h
  {
    forall i :: 0 <= i < |rest| ==>
      && rest[i] in h && !IsLinked(h[rest[i]], q) && Look(rest[i]) != Spot(q, true)
      && (count ==> var p := Look(rest[i]).path;
            p != Look(a).path && p != Look(b).path && !IsLinked(h[a], p) && !IsLinked(h[b], p))
  }

  lemma ApartLeave(h: Hardlinks, count: bool, a: Bytes, b: Bytes, q: Segs, rest: seq<Bytes>)
    requires a in h && b in h && OthersApart(h, count, a, b, q, rest)
    ensures forall i :: 0 <= i < |rest| ==> rest[i] in h && !IsLinked(h[rest[i]], q) && Look(rest[i]) != Spot(q, true)
  {
    hide Look, IsLinked;
  }

  /** Two targets found in the tree, and another file, none of them linked to itself. */
  ghost predicate TwoTargets(m: Contents, h: Hardlinks, a: Bytes, b: Bytes, q: Segs) {
    && a in h && b in h && a != b && Look(a).path in m && Look(b).path in m && q in m
    && !IsLinked(h[a], Look(a).path) && !IsLinked(h[b], Look(b).path) && Look(a).path != q && Look(b).path != q
  }

  /** When a target is itself a link, the order matters: the link at the end of the chain gets the
      keywords of the first file, counted twice, or those of the second. */
  lemma {:induction false} ChainsNeedOrder(m: Contents, h: Hardlinks, count: bool, a: Bytes, b: Bytes, q: Segs, rest: seq<Bytes>)
    requires TwoTargets(m, h, a, b, q) && OthersApart(h, count, a, b, q, rest) && IsOrder([a, b] + rest, h)
    requires IsLinked(h[a], Look(b).path) && Look(b).inTree && IsLinked(h[b], q) && !IsLinked(h[a], q)
    ensures IsOrder([b, a] + rest, h)
    ensures var r, s := ResolveAll(m, [a, b] + rest, h, count), ResolveAll(m, [b, a] + rest, h, count);
      && q in r && r[q].keywords == m[Look(a).path].keywords + Suffix(h[a], count) + Suffix(h[b], count)
      && q in s && s[q].keywords == m[Look(b).path].keywords + Suffix(h[b], count)
  {
    hide Look, IsLinked, Suffix, ResolveAll, OthersApart;
    BothOrders(m, h, count, a, b, q, rest);
    var first, second := ResolveGroup(m, a, h[a], count), ResolveGroup(m, b, h[b], count);
    hide ResolveGroup;
    GroupAt(m, a, h[a], count, Look(b).path);
    GroupAt(first, b, h[b], count, q);
    GroupAt(m, b, h[b], count, q);
    GroupAt(second, a, h[a], count, q);
  }

  /** When a file is a link of two targets, the order matters: it gets the keywords of the last. */
  lemma {:induction false} SharedLinksNeedOrder(m: Contents, h: Hardlinks, count: bool, a: Bytes, b: Bytes, q: Segs, rest: seq<Bytes>)
    requires TwoTargets(m, h, a, b, q) && OthersApart(h, count, a, b, q, rest) && IsOrder([a, b] + rest, h)
    requires Look(a).path != Look(b).path && IsLinked(h[a], q) && IsLinked(h[b], q)
    requires !IsLinked(h[a], Look(b).path) && !IsLinked(h[b], Look(a).path)
    ensures IsOrder([b, a] + rest, h)
    ensures var r, s := ResolveAll(m, [a, b] + rest, h, count), ResolveAll(m, [b, a] + rest, h, count);
      && q in r && r[q].keywords == m[Look(b).path].keywords + Suffix(h[b], count)
      && q in s && s[q].keywords == m[Look(a).path].keywords + Suffix(h[a], count)
  {
    hide Look, IsLinked, Suffix, ResolveAll, OthersApart;
    BothOrders(m, h, count, a, b, q, rest);
    var first, second := ResolveGroup(m, a, h[a], count), ResolveGroup(m, b, h[b], count);
    hide ResolveGroup;
    GroupAt(m, a, h[a], count, Look(b).path);
    GroupAt(first, b, h[b], count, q);
    GroupAt(m, b, h[b], count, Look(a).path);
    GroupAt(second, a, h[a], count, q);
  }

  /** When names are counted and two targets name one file, the order matters: a link of the first gets one
      count or two. */
  lemma {:induction false} SpellingsNeedOrder(m: Contents, h: Hardlinks, a: Bytes, b: Bytes, q: Segs)
    requires TwoTargets(m, h, a, b, q) && IsOrder([a, b], h)
    requires Look(a) == Look(b) && Look(a).inTree && IsLinked(h[a], q) && !IsLinked(h[b], q)
    ensures IsOrder([b, a], h)
    ensures var r, s := ResolveAll(m, [a, b], h, true), ResolveAll(m, [b, a], h, true);
      && q in r && r[q].keywords == m[Look(a).path].keywords + Suffix(h[a], true)
      && q in s && s[q].keywords == m[Look(a).path].keywords + Suffix(h[b], true) + Suffix(h[a], true)
      && r[q].keywords != s[q].keywords
  {
    hide Look, IsLinked, ResolveAll;
    assert [a, b] + [] == [a, b] && [b, a] + [] == [b, a];
    NoOthers(h, true, a, b, q);
    BothOrders(m, h, true, a, b, q, []);
    var first, second := ResolveGroup(m, a, h[a], true), ResolveGroup(m, b, h[b], true);
    hide ResolveGroup;
    GroupAt(m, a, h[a], true, q);
    GroupAt(first, b, h[b], true, q);
    GroupAt(m, b, h[b], true, Look(b).path);
    GroupAt(second, a, h[a], true, q);
  }

  lemma NoOthers(h: Hardlinks, count: bool, a: Bytes, b: Bytes, q: Segs)
    requires a in h && b in h
    ensures OthersApart(h, count, a, b, q, [])
  {
  }

  /** Either of two targets first, what is left at a file is left by the two. */
  lemma {:induction false} BothOrders(m: Contents, h: Hardlinks, count: bool, a: Bytes, b: Bytes, q: Segs, rest: seq<Bytes>)
    requires TwoTargets(m, h, a, b, q) && OthersApart(h, count, a, b, q, rest) && IsOrder([a, b] + rest, h)
    ensures IsOrder([b, a] + rest, h)
    ensures var first, second := ResolveGroup(m, a, h[a], count), ResolveGroup(m, b, h[b], count);
      var r, s := ResolveGroup(first, b, h[b], count), ResolveGroup(second, a, h[a], count);
      && first.Keys == m.Keys == second.Keys == r.Keys == s.Keys
      && q in ResolveAll(m, [a, b] + rest, h, count) && ResolveAll(m, [a, b] + rest, h, count)[q] == r[q]
      && q in ResolveAll(m, [b, a] + rest, h, count) && ResolveAll(m, [b, a] + rest, h, count)[q] == s[q]
  {
    hide Look, IsLinked, Suffix, ResolveAll, OthersApart, ResolveGroup;
    OrderExchanged(a, b, rest, h);
    ApartLeave(h, count, a, b, q, rest);
    TwoAfter(m, a, b, h, count);
    TwoAfter(m, b, a, h, count);
    GroupKeys(m, a, h[a], count);
    GroupKeys(m, b, h[b], count);
    GroupKeys(ResolveGroup(m, a, h[a], count), b, h[b], count);
    GroupKeys(ResolveGroup(m, b, h[b], count), a, h[a], count);
    OthersLeave(m, [a, b], rest, h, count, q);
    OthersLeave(m, [b, a], rest, h, count, q);
  }

  lemma GroupKeys(m: Contents, base: Bytes, links: seq<Bytes>, count: bool)
    requires m != map[] && !IsLinked(links, Look(base).path)
    ensures ResolveGroup(m, base, links, count).Keys == m.Keys
  {
    hide Look, IsLinked, Suffix, ResolveGroup;
    var q :| q in m;
    GroupAt(m, base, links, count, q);
  }

  lemma OrderExchanged(a: Bytes, b: Bytes, rest: seq<Bytes>, h: Hardlinks)
    requires IsOrder([a, b] + rest, h)
    ensures IsOrder([b, a] + rest, h)
  {
    var x, y := [a, b] + rest, [b, a] + rest;
    assert x[0] == a && x[1] == b && forall i :: 2 <= i < |x| ==> y[i] == x[i];
    forall t | t in h
      ensures t in y
    {
      var i :| 0 <= i < |x| && x[i] == t;
      assert i >= 2 ==> y[i] == t;
      assert y[0] == b && y[1] == a;
    }
  }

  lemma TwoAfter(m: Contents, first: Bytes, second: Bytes, h: Hardlinks, count: bool)
    requires first in h && second in h
    ensures ResolveAll(m, [first, second], h, count)
      == ResolveGroup(ResolveGroup(m, first, h[first], count), second, h[second], count)
  {
    hide ResolveGroup;
    var none: seq<Bytes> := [];
    assert [first, second][..1] == [first] && [first][..0] == none;
    assert ResolveAll(m, none, h, count) == m;
  }
}
