/** The keywords a manifest uses, hierarchy.go:31-48: which names they are listed under, and what the
    keyword functions answer when they are asked under those names. */
module CheckNames {
  import opened GoBytes
  import opened GoStrings
  import opened Keywords
  import opened Entries
  import opened Manifest
  import opened Printing
  import opened PrintingLaws
  import opened Walk
  import opened WalkLaws

  // ---------- the keywords a manifest uses ----------

  /** The entry's key-values count. */
  predicate Counts(e: Entry) {
    e.kind == RelativeType || e.kind == FullType || (e.kind == SpecialType && e.name == "/set")
  }

  function AllListed(entries: seq<Entry>): seq<KeyVal> {
    if entries == [] then []
    else
      var last := entries[|entries| - 1];
      AllListed(entries[..|entries| - 1]) + if Counts(last) then last.keywords else []
  }

  function NameOf(kv: KeyVal): Keyword {
    Canonical(Prefix(KeywordOf(kv)))
  }

  predicate IsUsed(kvs: seq<KeyVal>, u: Keyword) {
    exists i :: 0 <= i < |kvs| && u == NameOf(kvs[i])
  }

  /** DirectoryHierarchy.UsedKeywords */
  method UsedKeywords(entries: seq<Entry>) returns (used: seq<Keyword>)
    ensures forall u :: u in used <==> IsUsed(AllListed(entries), u)
  {
    used := [];
    for i := 0 to |entries|
      invariant forall u :: u in used <==> IsUsed(AllListed(entries[..i]), u)
    {
      var e := entries[i];
      assert entries[..i + 1][..i] == entries[..i];
      ghost var before := AllListed(entries[..i]);
      assert before + [] == before;
      if Counts(e) {
        assert before + e.keywords[..0] == before;
        for j := 0 to |e.keywords|
          invariant forall u :: u in used <==> IsUsed(before + e.keywords[..j], u)
        {
          var kw := Prefix(KeywordOf(e.keywords[j]));
          assert before + e.keywords[..j + 1] == (before + e.keywords[..j]) + [e.keywords[j]];
          UsedSnoc(before + e.keywords[..j], e.keywords[j]);
          UsedAreCanonical(before + e.keywords[..j], kw);
          if kw !in used {
            used := used + [Canonical(kw)];
          }
        }
        assert e.keywords[..|e.keywords|] == e.keywords;
      }
    }
    assert entries[..|entries|] == entries;
  }

  lemma UsedSnoc(kvs: seq<KeyVal>, kv: KeyVal)
    ensures forall u :: IsUsed(kvs + [kv], u) <==> IsUsed(kvs, u) || u == NameOf(kv)
  {
    hide NameOf;
    forall u
      ensures IsUsed(kvs + [kv], u) <==> IsUsed(kvs, u) || u == NameOf(kv)
    {
      if IsUsed(kvs, u) {
        var i :| 0 <= i < |kvs| && u == NameOf(kvs[i]);
        assert (kvs + [kv])[i] == kvs[i];
      }
      assert (kvs + [kv])[|kvs|] == kv;
    }
  }

  /** A name that is used already is its own canonical name. */
  lemma UsedAreCanonical(kvs: seq<KeyVal>, kw: Keyword)
    ensures IsUsed(kvs, kw) ==> Canonical(kw) == kw
  {
    if IsUsed(kvs, kw) {
      var i :| 0 <= i < |kvs| && kw == NameOf(kvs[i]);
      CanonicalTwice(Prefix(KeywordOf(kvs[i])));
    }
  }

  /** The entry holds a key-value with that canonical name. */
  predicate Names(e: Entry, u: Keyword) {
    exists j :: 0 <= j < |e.keywords| && Canonical(Prefix(KeywordOf(e.keywords[j]))) == u
  }

  /** The names used are those of the entries with names and of the /set lines. */
  lemma {:induction false} UsedIs(entries: seq<Entry>, u: Keyword)
    ensures IsUsed(AllListed(entries), u) <==>
      exists i :: 0 <= i < |entries| && Names(entries[i], u)
        && (entries[i].kind == RelativeType || entries[i].kind == FullType || (entries[i].kind == SpecialType && entries[i].name == "/set"))
  {
    hide Canonical, Prefix, KeywordOf;
    var kvs := AllListed(entries);
    if i :| 0 <= i < |kvs| && u == NameOf(kvs[i]) {
      ListedAre(entries, kvs[i]);
      var k :| 0 <= k < |entries| && Counts(entries[k]) && kvs[i] in entries[k].keywords;
      var j :| 0 <= j < |entries[k].keywords| && entries[k].keywords[j] == kvs[i];
      assert Names(entries[k], u);
    }
    if i :| 0 <= i < |entries| && Names(entries[i], u) && Counts(entries[i]) {
      var j :| 0 <= j < |entries[i].keywords| && NameOf(entries[i].keywords[j]) == u;
      ListedAre(entries, entries[i].keywords[j]);
      var k :| 0 <= k < |kvs| && kvs[k] == entries[i].keywords[j];
      assert u == NameOf(kvs[k]);
    }
  }

  lemma {:induction false} ListedAre(entries: seq<Entry>, kv: KeyVal)
    ensures kv in AllListed(entries) <==> exists i :: 0 <= i < |entries| && Counts(entries[i]) && kv in entries[i].keywords
  {
    if entries != [] {
      var n := |entries| - 1;
      ListedAre(entries[..n], kv);
      assert entries == entries[..n] + [entries[n]];
      if kv in AllListed(entries[..n]) {
        var i :| 0 <= i < n && Counts(entries[..n][i]) && kv in entries[..n][i].keywords;
        assert entries[i] == entries[..n][i];
      }
      if i :| 0 <= i < |entries| && Counts(entries[i]) && kv in entries[i].keywords {
        assert i < n ==> entries[..n][i] == entries[i];
      }
    }
  }

  // ---------- what the keyword functions are assumed to do ----------

  /** The function answers under its own name, and so does the one of its canonical name. */
  ghost predicate OneName(cfg: Config, q: Keyword) {
    forall node: Node :: cfg.produce(Canonical(q), node) == cfg.produce(q, node) && AnswersAs(cfg, q, node)
  }

  ghost predicate AnswersAs(cfg: Config, q: Keyword, node: Node) {
    cfg.produce(q, node).Some? ==> forall kv :: kv in cfg.produce(q, node).value && kv != "" ==> NameOf(kv) == Canonical(q)
  }

  ghost predicate NamesAgree(cfg: Config) {
    forall q :: q in cfg.keywords || q in SET_KEYWORDS ==> OneName(cfg, Prefix(q))
  }

  /** A file has one owner and one group. */
  ghost predicate Owned(cfg: Config, node: Node) {
    exists u, g :: Produced(cfg, SET_KEYWORDS, node) == [u, g] && KeywordOf(u) == "uid" && KeywordOf(g) == "gid"
  }

  predicate IsOwner(k: Keyword) {
    k == "uid" || k == "gid"
  }

  lemma OwnerKeys(cfg: Config, node: Node, kv: KeyVal)
    requires Owned(cfg, node) && kv in Produced(cfg, SET_KEYWORDS, node)
    ensures IsOwner(KeywordOf(kv))
  {
    hide Produced, KeywordOf;
  }

  // ---------- answers and names ----------

  /** The keyword a produced key-value answers. */
  lemma {:induction false} ProducedFrom(cfg: Config, keywords: seq<Keyword>, node: Node, kv: KeyVal) returns (q: Keyword)
    requires kv in Produced(cfg, keywords, node)
    ensures q in keywords && kv != "" && cfg.produce(Prefix(q), node).Some? && kv in cfg.produce(Prefix(q), node).value
  {
    var n := |keywords| - 1;
    if kv in Produced(cfg, keywords[..n], node) {
      q := ProducedFrom(cfg, keywords[..n], node, kv);
    } else {
      q := keywords[n];
      WithoutElements(cfg.produce(Prefix(q), node).value, [""], kv);
    }
  }

  lemma {:induction false} ProducedHas(cfg: Config, keywords: seq<Keyword>, node: Node, q: Keyword, kv: KeyVal)
    requires q in keywords && kv != "" && cfg.produce(Prefix(q), node).Some? && kv in cfg.produce(Prefix(q), node).value
    ensures kv in Produced(cfg, keywords, node)
  {
    var n := |keywords| - 1;
    if keywords[n] == q {
      WithoutElements(cfg.produce(Prefix(q), node).value, [""], kv);
    } else {
      assert keywords == keywords[..n] + [keywords[n]];
      ProducedHas(cfg, keywords[..n], node, q, kv);
    }
  }

  /** What is produced for a node: every non-empty key-value that a function asked for answers, and nothing else. */
  lemma {:induction false} ProducedIs(cfg: Config, keywords: seq<Keyword>, node: Node, kv: KeyVal)
    ensures kv in Produced(cfg, keywords, node) <==>
      kv != "" && exists q :: q in keywords && cfg.produce(Prefix(q), node).Some? && kv in cfg.produce(Prefix(q), node).value
  {
    hide Prefix, Produced;
    if kv in Produced(cfg, keywords, node) {
      var q := ProducedFrom(cfg, keywords, node, kv);
      assert q in keywords;
    }
    if q :| kv != "" && q in keywords && cfg.produce(Prefix(q), node).Some? && kv in cfg.produce(Prefix(q), node).value {
      ProducedHas(cfg, keywords, node, q, kv);
    }
  }

  lemma {:induction false} NameOfProduced(cfg: Config, keywords: seq<Keyword>, node: Node, kv: KeyVal) returns (q: Keyword)
    requires NamesAgree(cfg) && kv in Produced(cfg, keywords, node)
    requires forall k :: k in keywords ==> k in cfg.keywords || k in SET_KEYWORDS
    ensures q in keywords && NameOf(kv) == Canonical(Prefix(q))
    ensures kv != "" && cfg.produce(NameOf(kv), node).Some? && kv in cfg.produce(NameOf(kv), node).value
    ensures Prefix(NameOf(kv)) == NameOf(kv)
  {
    hide Produced, Prefix, Canonical;
    q := ProducedFrom(cfg, keywords, node, kv);
    assert OneName(cfg, Prefix(q)) && AnswersAs(cfg, Prefix(q), node);
    NoDots(q);
  }

  lemma NoDots(q: Keyword)
    ensures Prefix(Canonical(Prefix(q))) == Canonical(Prefix(q))
  {
    CanonicalTwice(Prefix(q));
    PrefixIsWhole(Canonical(Prefix(q)));
  }

  function Again(cfg: Config, used: seq<Keyword>): Config {
    Config([], used, cfg.produce)
  }

  /** Asked again under the names used, the functions answer at least as much. */
  lemma {:induction false} AnsweredAgain(cfg: Config, used: seq<Keyword>, keywords: seq<Keyword>, node: Node, kv: KeyVal)
    requires NamesAgree(cfg) && kv in Produced(cfg, keywords, node) && NameOf(kv) in used
    requires forall k :: k in keywords ==> k in cfg.keywords || k in SET_KEYWORDS
    ensures kv in Produced(Again(cfg, used), used, node)
  {
    hide Produced, NameOf, Prefix;
    var q := NameOfProduced(cfg, keywords, node, kv);
    ProducedHas(Again(cfg, used), used, node, NameOf(kv), kv);
  }

  /** The names used are those of keywords asked for or of the owner. */
  ghost predicate UsesNames(cfg: Config, used: seq<Keyword>) {
    forall u :: u in used ==> exists q :: (q in cfg.keywords || q in SET_KEYWORDS) && u == Canonical(Prefix(q))
  }

  /** Nothing else is answered but the owner. */
  lemma {:induction false} NothingElse(cfg: Config, used: seq<Keyword>, node: Node, kv: KeyVal)
    requires NamesAgree(cfg) && UsesNames(cfg, used) && kv in Produced(Again(cfg, used), used, node)
    ensures kv in Produced(cfg, cfg.keywords, node) || kv in Produced(cfg, SET_KEYWORDS, node)
  {
    hide Produced, Prefix, Canonical, NameOf;
    var u := ProducedFrom(Again(cfg, used), used, node, kv);
    var q :| (q in cfg.keywords || q in SET_KEYWORDS) && u == Canonical(Prefix(q));
    NoDots(q);
    assert OneName(cfg, Prefix(q));
    if q in cfg.keywords {
      ProducedHas(cfg, cfg.keywords, node, q, kv);
    } else {
      ProducedHas(cfg, SET_KEYWORDS, node, q, kv);
    }
  }
  // ---------- what stands in the lines of a walk ----------

  /** A /set line has the defaults asked for, and otherwise owners only. */
  ghost predicate SetShaped(cfg: Config, kvs: seq<KeyVal>) {
    && (forall d :: d in DEFAULT_SET && Requested(d, cfg.keywords) ==> d in kvs)
    && (forall kv :: kv in kvs ==> (kv in DEFAULT_SET && Requested(kv, cfg.keywords)) || OwnerOfSome(cfg, kv))
  }

  ghost predicate OwnerOfSome(cfg: Config, kv: KeyVal) {
    exists node :: kv in Produced(cfg, SET_KEYWORDS, node)
  }

  ghost predicate ProducedForSome(cfg: Config, kv: KeyVal) {
    exists node :: kv in Produced(cfg, cfg.keywords, node)
  }

  ghost predicate LineShaped(cfg: Config, item: Item) {
    && (item.Special? ==> SetShaped(cfg, item.keywords))
    && (item.Named? ==> forall kv :: kv in item.keywords ==> ProducedForSome(cfg, kv))
  }

  ghost predicate LinesShaped(cfg: Config, items: seq<Item>) {
    forall i :: 0 <= i < |items| ==> LineShaped(cfg, items[i])
  }

  ghost predicate TraceShaped(cfg: Config, t: Trace) {
    && LinesShaped(cfg, t.items)
    && (forall i :: 0 <= i < |t.visits| ==> SetShaped(cfg, t.visits[i].inForce))
    && (t.cur.Some? ==> SetShaped(cfg, t.cur.value))
  }

  lemma ShapedThen(cfg: Config, a: Trace, b: Trace)
    requires TraceShaped(cfg, a) && TraceShaped(cfg, b)
    ensures TraceShaped(cfg, Then(a, b))
  {
    hide LineShaped, SetShaped;
  }

  lemma {:induction false} InForceShaped(cfg: Config, node: Node, cur: Option<seq<KeyVal>>)
    requires cur.Some? ==> SetShaped(cfg, cur.value)
    ensures SetShaped(cfg, InForce(cfg, node, cur))
  {
    hide Requested, Produced;
    var klist, kvs := Produced(cfg, SET_KEYWORDS, node), InForce(cfg, node, cur);
    if SetLineFor(cfg, node, cur).Some? {
      forall kv
        ensures kv in DEFAULT_SET && Requested(kv, cfg.keywords) ==> kv in kvs
        ensures kv in kvs ==> (kv in DEFAULT_SET && Requested(kv, cfg.keywords)) || kv in klist
      {
        SelectedElements(DEFAULT_SET, cfg.keywords, kv);
        SelectedElements(DEFAULT_SET + klist, cfg.keywords, kv);
      }
      forall kv | kv in klist
        ensures OwnerOfSome(cfg, kv)
      {
      }
    }
  }

  lemma {:induction false} EntryShaped(cfg: Config, path: seq<Bytes>, node: Node, inForce: seq<KeyVal>)
    ensures LineShaped(cfg, EntryItem(cfg, path, node, inForce))
  {
    hide Produced;
    forall kv | kv in Without(Produced(cfg, cfg.keywords, node), inForce)
      ensures ProducedForSome(cfg, kv)
    {
      WithoutElements(Produced(cfg, cfg.keywords, node), inForce, kv);
    }
  }

  lemma {:induction false} OpeningShaped(cfg: Config, path: seq<Bytes>, node: Node, cur: Option<seq<KeyVal>>)
    requires cur.Some? ==> SetShaped(cfg, cur.value)
    ensures TraceShaped(cfg, Opening(cfg, path, node, cur))
  {
    hide SetShaped, EntryItem, SetLineFor;
    InForceShaped(cfg, node, cur);
    EntryShaped(cfg, path, node, InForce(cfg, node, cur));
    EntryIsNamed(cfg, path, node, InForce(cfg, node, cur));
    var items := Opening(cfg, path, node, cur).items;
    var sets := Walk.SetItems(SetLineFor(cfg, node, cur));
    assert items == [Blank, Comment("# " + PathText(path))] + sets + [EntryItem(cfg, path, node, InForce(cfg, node, cur))];
  }

  lemma {:induction false} TreeShaped(cfg: Config, path: seq<Bytes>, node: Node, cur: Option<seq<KeyVal>>)
    requires if cur.Some? then SetShaped(cfg, cur.value) else node.Dir?
    ensures TraceShaped(cfg, TreeTrace(cfg, path, node, cur))
    decreases node, 1, 0
  {
    hide SetShaped, InForce, DirHead, EntryItem, Excluded, LineShaped;
    if Excluded(cfg, path, node) {
    } else if node.File? {
      EntryShaped(cfg, path, node, cur.value);
    } else {
      var opening, kids := Opening(cfg, path, node, cur), Kids(cfg, path, node, cur);
      var closing := Trace([DotDot("..")], [], kids.cur);
      OpeningShaped(cfg, path, node, cur);
      InForceShaped(cfg, node, cur);
      ListShaped(cfg, path, node, Order(node.children), InForce(cfg, node, cur));
      ClosingShaped(cfg, kids.cur);
      ShapedThen(cfg, kids, closing);
      ShapedThen(cfg, opening, Then(kids, closing));
    }
  }

  lemma ClosingShaped(cfg: Config, cur: Option<seq<KeyVal>>)
    requires cur.Some? ==> SetShaped(cfg, cur.value)
    ensures TraceShaped(cfg, Trace([DotDot("..")], [], cur))
  {
  }

  lemma {:induction false} ListShaped(cfg: Config, path: seq<Bytes>, dir: Node, names: seq<Bytes>, cur: seq<KeyVal>)
    requires dir.Dir? && SetShaped(cfg, cur) && forall i :: 0 <= i < |names| ==> names[i] in dir.children
    ensures TraceShaped(cfg, ListTrace(cfg, path, dir, names, Some(cur)))
    decreases dir, 0, |names|
  {
    hide SetShaped, LineShaped, TreeTrace;
    if names != [] {
      var first := TreeTrace(cfg, path + [names[0]], dir.children[names[0]], Some(cur));
      TreeShaped(cfg, path + [names[0]], dir.children[names[0]], Some(cur));
      ListShaped(cfg, path, dir, names[1..], first.cur.value);
      ShapedThen(cfg, first, ListTrace(cfg, path, dir, names[1..], first.cur));
    }
  }

  lemma {:induction false} HeaderShaped(cfg: Config, header: seq<Bytes>)
    ensures LinesShaped(cfg, HeaderItems(header))
  {
    if header != [] {
      hide LineShaped;
      HeaderShaped(cfg, header[1..]);
      CommentShaped(cfg, header[0]);
    }
  }

  lemma CommentShaped(cfg: Config, raw: Bytes)
    ensures LineShaped(cfg, Comment(raw))
  {
  }

  /** The key-values listed in a walk were produced, asked for by default, or the owner of some file. */
  lemma {:induction false} ListedFrom(cfg: Config, items: seq<Item>, kv: KeyVal)
    requires LinesShaped(cfg, items) && kv in AllListed(Link(items).entries)
    ensures ProducedForSome(cfg, kv) || (kv in DEFAULT_SET && Requested(kv, cfg.keywords)) || OwnerOfSome(cfg, kv)
  {
    hide Link, LineShaped, ProducedForSome, OwnerOfSome, Requested;
    ListedAre(Link(items).entries, kv);
    var i :| 0 <= i < |Link(items).entries| && Counts(Link(items).entries[i]) && kv in Link(items).entries[i].keywords;
    LinkLength(items);
    LinkAt(items, i);
    assert LineShaped(cfg, items[i]);
    LineHas(cfg, Link(items[..i]), items[i], kv);
  }

  lemma LineHas(cfg: Config, c: Cursor, item: Item, kv: KeyVal)
    requires LineShaped(cfg, item) && Counts(EntryAt(c, item)) && kv in EntryAt(c, item).keywords
    ensures ProducedForSome(cfg, kv) || (kv in DEFAULT_SET && Requested(kv, cfg.keywords)) || OwnerOfSome(cfg, kv)
  {
    hide ProducedForSome, OwnerOfSome, Requested;
  }

  /** So the names used are those of keywords asked for or of the owner. */
  lemma {:induction false} UsedFrom(cfg: Config, header: seq<Bytes>, root: Node, used: seq<Keyword>)
    requires root.Dir? && NamesAgree(cfg)
    requires forall u :: u in used <==> IsUsed(AllListed(Link(WalkItems(cfg, header, root)).entries), u)
    ensures UsesNames(cfg, used)
  {
    hide Link, LinesShaped, SetShaped, AllListed, TreeTrace, Requested, Produced, NamesAgree, NameOf;
    var items := WalkItems(cfg, header, root);
    TreeShaped(cfg, [], root, None);
    HeaderShaped(cfg, header);
    LinesThen(cfg, HeaderItems(header), TreeTrace(cfg, [], root, None).items);
    var kvs := AllListed(Link(items).entries);
    forall u | u in used
      ensures exists q :: (q in cfg.keywords || q in SET_KEYWORDS) && u == Canonical(Prefix(q))
    {
      var i :| 0 <= i < |kvs| && u == NameOf(kvs[i]);
      ListedFrom(cfg, items, kvs[i]);
      var q := NameListed(cfg, kvs[i]);
    }
  }

  lemma LinesThen(cfg: Config, a: seq<Item>, b: seq<Item>)
    requires LinesShaped(cfg, a) && LinesShaped(cfg, b)
    ensures LinesShaped(cfg, a + b)
  {
    hide LineShaped;
  }

  lemma {:induction false} NameListed(cfg: Config, kv: KeyVal) returns (q: Keyword)
    requires NamesAgree(cfg)
    requires ProducedForSome(cfg, kv) || (kv in DEFAULT_SET && Requested(kv, cfg.keywords)) || OwnerOfSome(cfg, kv)
    ensures (q in cfg.keywords || q in SET_KEYWORDS) && NameOf(kv) == Canonical(Prefix(q))
  {
    hide Produced, Prefix, Canonical, KeywordOf, NamesAgree;
    if ProducedForSome(cfg, kv) {
      var node :| kv in Produced(cfg, cfg.keywords, node);
      q := NameOfProduced(cfg, cfg.keywords, node, kv);
    } else if OwnerOfSome(cfg, kv) {
      var node :| kv in Produced(cfg, SET_KEYWORDS, node);
      q := NameOfProduced(cfg, SET_KEYWORDS, node, kv);
    } else {
      var i :| 0 <= i < |cfg.keywords| && Prefix(KeywordOf(kv)) == Prefix(cfg.keywords[i]);
      q := cfg.keywords[i];
    }
  }
  // ---------- what a walk lists ----------

  lemma {:induction false} RelativesAre(entries: seq<Entry>, i: nat) returns (x: nat)
    requires i < |Relatives(entries)|
    ensures x < |entries| && entries[x] == Relatives(entries)[i]
  {
    if entries[0].kind == RelativeType && i == 0 {
      x := 0;
    } else {
      x := RelativesAre(entries[1..], if entries[0].kind == RelativeType then i - 1 else i);
      x := x + 1;
    }
  }

  lemma {:induction false} SetInForceIsSet(items: seq<Item>)
    ensures SetInForce(items).Some? ==>
      var j := SetInForce(items).value; j < |items| && items[j].Special? && items[j].name == "/set"
  {
    if items != [] {
      SetInForceIsSet(items[..|items| - 1]);
    }
  }

  /** The set of an entry is a line of the manifest. */
  lemma {:induction false} SetLineListed(items: seq<Item>, x: nat, kv: KeyVal)
    requires x < |items| && |Link(items).entries| == |items| && Link(items).entries[x].kind == RelativeType
    requires Link(items).entries[x].setLine.Some? && kv in Link(items).entries[x].setLine.value.keywords
    ensures kv in AllListed(Link(items).entries)
  {
    hide Link, AllListed;
    LinkAt(items, x);
    OnlyNamed(Link(items[..x]), items[x]);
    SetIsLatest(items, x);
    SetInForceIsSet(items[..x]);
    var j := SetInForce(items[..x]).value;
    LinkAt(items, j);
    SetCounts(Link(items[..j]), items[j]);
    ListedAre(Link(items).entries, kv);
  }

  lemma OnlyNamed(c: Cursor, item: Item)
    requires EntryAt(c, item).kind == RelativeType
    ensures item.Named?
  {
  }

  lemma SetCounts(c: Cursor, item: Item)
    requires item.Special? && item.name == "/set"
    ensures Counts(EntryAt(c, item))
  {
  }

  /** What was produced for a file, and what is in force for it, is listed. */
  lemma {:induction false} VisitListed(cfg: Config, header: seq<Bytes>, root: Node, i: nat, kv: KeyVal)
    requires Walkable(cfg, header, root) && i < |TreeTrace(cfg, [], root, None).visits|
    requires var v := TreeTrace(cfg, [], root, None).visits[i]; kv in Produced(cfg, cfg.keywords, v.node) || kv in v.inForce
    ensures kv in AllListed(Link(WalkItems(cfg, header, root)).entries)
  {
    hide Link, AllListed, TreeTrace, Produced, Walkable, Relatives, WalkItems, VisitsOk, Stays, VisitsNodes, OncePerPath, Path;
    WalkDescribesTree(cfg, header, root);
    var items := WalkItems(cfg, header, root);
    var entries, v := Link(items).entries, TreeTrace(cfg, [], root, None).visits[i];
    var e := Relatives(entries)[i];
    assert Records(cfg, e, v);
    var x := RelativesAre(entries, i);
    LinkLength(items);
    if kv in v.inForce {
      SetLineListed(items, x, kv);
    } else {
      WithoutElements(Produced(cfg, cfg.keywords, v.node), v.inForce, kv);
      ListedAre(entries, kv);
    }
  }

  /** The root is visited first, under its own set. */
  lemma RootVisit(cfg: Config, root: Node)
    requires root.Dir? && cfg.excludes == []
    ensures var visits := TreeTrace(cfg, [], root, None).visits; visits != [] && visits[0] == Visit([], root, InForce(cfg, root, None))
  {
    hide InForce, ListTrace, DirHead, EntryItem;
  }

  lemma {:induction false} RootSetHas(cfg: Config, root: Node, kv: KeyVal)
    requires kv in Produced(cfg, SET_KEYWORDS, root) || (kv in DEFAULT_SET && Requested(kv, cfg.keywords))
    ensures kv in InForce(cfg, root, None)
  {
    hide Produced, Requested;
    SelectedElements(DEFAULT_SET, cfg.keywords, kv);
  }

  lemma ListedIsUsed(kvs: seq<KeyVal>, kv: KeyVal)
    requires kv in kvs
    ensures IsUsed(kvs, NameOf(kv))
  {
    hide NameOf;
    var i :| 0 <= i < |kvs| && kvs[i] == kv;
  }

  /** The used names: those of everything produced, of the owner, and of the defaults asked for. */
  ghost predicate UsesAll(cfg: Config, used: seq<Keyword>, visits: seq<Visit>) {
    && (forall i, kv :: 0 <= i < |visits| && kv in Produced(cfg, cfg.keywords, visits[i].node) ==> NameOf(kv) in used)
    && (forall d :: d in DEFAULT_SET && Requested(d, cfg.keywords) ==> NameOf(d) in used)
    && "uid" in used && "gid" in used
  }

  lemma {:induction false} WalkUsesAll(cfg: Config, header: seq<Bytes>, root: Node, used: seq<Keyword>)
    requires Walkable(cfg, header, root) && cfg.excludes == [] && Owned(cfg, root)
    requires forall u :: u in used <==> IsUsed(AllListed(Link(WalkItems(cfg, header, root)).entries), u)
    ensures UsesAll(cfg, used, TreeTrace(cfg, [], root, None).visits)
  {
    hide Link, AllListed, TreeTrace, Produced, WalkItems, NameOf, KeywordOf, Requested, InForce, IsUsed, WellDescribed, Steady;
    var visits, kvs := TreeTrace(cfg, [], root, None).visits, AllListed(Link(WalkItems(cfg, header, root)).entries);
    RootVisit(cfg, root);
    forall i, kv | 0 <= i < |visits| && kv in Produced(cfg, cfg.keywords, visits[i].node)
      ensures NameOf(kv) in used
    {
      VisitListed(cfg, header, root, i, kv);
      ListedIsUsed(kvs, kv);
    }
    forall kv | kv in Produced(cfg, SET_KEYWORDS, root) || (kv in DEFAULT_SET && Requested(kv, cfg.keywords))
      ensures NameOf(kv) in used
    {
      RootSetHas(cfg, root, kv);
      VisitListed(cfg, header, root, 0, kv);
      ListedIsUsed(kvs, kv);
    }
    var u, g :| Produced(cfg, SET_KEYWORDS, root) == [u, g] && KeywordOf(u) == "uid" && KeywordOf(g) == "gid";
    assert u in [u, g] && g in [u, g];
    OwnerNames(u);
    OwnerNames(g);
  }

  lemma OwnerNames(kv: KeyVal)
    requires IsOwner(KeywordOf(kv))
    ensures NameOf(kv) == KeywordOf(kv)
  {
    hide KeywordOf;
    PrefixIsWhole(KeywordOf(kv));
  }

  // ---------- the defaults ----------

  /** The keyword of a default. */
  predicate IsDefault(k: Keyword) {
    k == "type" || k == "nlink" || k == "flags" || k == "mode"
  }

  lemma DefaultIs(d: KeyVal) returns (k: Keyword, v: Bytes)
    requires d in DEFAULT_SET
    ensures IsDefault(k) && '=' !in k && '.' !in k && d == MakeKeyVal(k, v) && IsWord(d)
  {
    hide IsWord;
    if d == "type=file" {
      k, v := "type", "file";
      AsciiWord("type=file");
    } else if d == "nlink=1" {
      k, v := "nlink", "1";
      AsciiWord("nlink=1");
    } else if d == "flags=none" {
      k, v := "flags", "none";
      AsciiWord("flags=none");
    } else {
      k, v := "mode", "0664";
      AsciiWord("mode=0664");
    }
  }

  lemma NoSynonym(k: Keyword, n: Keyword)
    requires IsDefault(k)
    ensures !IsOwner(k) && (Canonical(n) == k <==> n == k)
  {
    assert |"md5digest"| == 9 && |"ripemd160digest"| == 15 && |"sha1digest"| == 10 && |"sha256digest"| == 12;
    assert |k| <= 5 && k[0] != 'x' && k[0] != 'u' && k[0] != 'g';
  }

  lemma DefaultNames(d: KeyVal)
    requires d in DEFAULT_SET
    ensures var k := KeywordOf(d); !IsOwner(k) && NameOf(d) == k && Prefix(k) == k && forall n :: Canonical(n) == k ==> n == k
  {
    hide KeywordOf, Prefix, Canonical, IsDefault, IsOwner, MakeKeyVal;
    var k, v := DefaultIs(d);
    MadeKeyVal(k, v);
    PrefixIsWhole(k);
    NoSynonym(k, k);
    forall n | Canonical(n) == k
      ensures n == k
    {
      NoSynonym(k, n);
    }
  }

  /** The same defaults are asked for again. */
  lemma {:induction false} SameDefaults(cfg: Config, used: seq<Keyword>, visits: seq<Visit>, d: KeyVal)
    requires UsesAll(cfg, used, visits) && UsesNames(cfg, used) && d in DEFAULT_SET
    ensures Requested(d, cfg.keywords) <==> Requested(d, used)
  {
    DefaultNames(d);
    hide KeywordOf, Prefix, Canonical, NameOf;
    if Requested(d, cfg.keywords) {
      var i :| 0 <= i < |used| && used[i] == NameOf(d);
    }
    if Requested(d, used) {
      var i :| 0 <= i < |used| && Prefix(KeywordOf(d)) == Prefix(used[i]);
      assert used[i] in used;
      var q :| (q in cfg.keywords || q in SET_KEYWORDS) && used[i] == Canonical(Prefix(q));
      NoDots(q);
      assert Prefix(q) == KeywordOf(d);
      SetPrefixes(q);
    }
  }

  lemma SetPrefixes(q: Keyword)
    ensures q in SET_KEYWORDS ==> Prefix(q) == q && IsOwner(q)
  {
    PrefixIsWhole("uid");
    PrefixIsWhole("gid");
  }

  // ---------- names that suffice ----------

  ghost predicate AllOwned(cfg: Config) {
    forall node: Node :: Owned(cfg, node)
  }

  /** Asked under the names used, the functions answer for the file what they answered before, and its owner. */
  ghost predicate AnswersAlike(cfg: Config, used: seq<Keyword>, node: Node) {
    forall kv :: kv in Produced(Again(cfg, used), used, node) <==>
                 kv in Produced(cfg, cfg.keywords, node) || kv in Produced(cfg, SET_KEYWORDS, node)
  }

  /** The same defaults are asked for under the names used. */
  ghost predicate DefaultsAlike(cfg: Config, used: seq<Keyword>) {
    forall d :: d in DEFAULT_SET ==> (Requested(d, cfg.keywords) <==> Requested(d, used))
  }

  ghost predicate AllAlike(cfg: Config, used: seq<Keyword>, visits: seq<Visit>) {
    forall i :: 0 <= i < |visits| ==> AnswersAlike(cfg, used, visits[i].node)
  }

  /** It is so when every function asked for answers under its own name, as one of its canonical name does. */
  lemma {:induction false} NamesSuffice(cfg: Config, header: seq<Bytes>, root: Node, used: seq<Keyword>)
    requires Walkable(cfg, header, root) && cfg.excludes == [] && NamesAgree(cfg) && AllOwned(cfg)
    requires forall u :: u in used <==> IsUsed(AllListed(Link(WalkItems(cfg, header, root)).entries), u)
    ensures DefaultsAlike(cfg, used) && AllAlike(cfg, used, TreeTrace(cfg, [], root, None).visits)
  {
    assert root.Dir? && Owned(cfg, root);
    hide Link, AllListed, TreeTrace, IsUsed, Walkable, WalkItems, NamesAgree, AllOwned, Owned, UsesNames, UsesAll, AllAlike, Requested, Produced;
    var visits := TreeTrace(cfg, [], root, None).visits;
    UsedFrom(cfg, header, root, used);
    WalkUsesAll(cfg, header, root, used);
    forall d | d in DEFAULT_SET
      ensures Requested(d, cfg.keywords) <==> Requested(d, used)
    {
      SameDefaults(cfg, used, visits, d);
    }
    AllAnswersAlike(cfg, used, visits);
  }

  lemma {:induction false} AllAnswersAlike(cfg: Config, used: seq<Keyword>, visits: seq<Visit>)
    requires NamesAgree(cfg) && AllOwned(cfg) && UsesNames(cfg, used) && UsesAll(cfg, used, visits)
    ensures AllAlike(cfg, used, visits)
  {
    hide Produced, NamesAgree, AllOwned, UsesNames, NameOf, Requested, Again;
    forall i, kv | 0 <= i < |visits|
      ensures kv in Produced(Again(cfg, used), used, visits[i].node) <==>
        kv in Produced(cfg, cfg.keywords, visits[i].node) || kv in Produced(cfg, SET_KEYWORDS, visits[i].node)
    {
      AnswerAlike(cfg, used, visits[i].node, kv);
    }
  }

  lemma {:induction false} AnswerAlike(cfg: Config, used: seq<Keyword>, node: Node, kv: KeyVal)
    requires NamesAgree(cfg) && AllOwned(cfg) && UsesNames(cfg, used) && "uid" in used && "gid" in used
    requires kv in Produced(cfg, cfg.keywords, node) ==> NameOf(kv) in used
    ensures kv in Produced(Again(cfg, used), used, node) <==>
      kv in Produced(cfg, cfg.keywords, node) || kv in Produced(cfg, SET_KEYWORDS, node)
  {
    assert Owned(cfg, node);
    hide Produced, NameOf, NamesAgree, AllOwned, UsesNames, Owned, IsOwner, KeywordOf;
    if kv in Produced(cfg, cfg.keywords, node) {
      AnsweredAgain(cfg, used, cfg.keywords, node, kv);
    }
    if kv in Produced(cfg, SET_KEYWORDS, node) {
      OwnerKeys(cfg, node, kv);
      OwnerNames(kv);
      OwnersUsed(used, KeywordOf(kv));
      AnsweredAgain(cfg, used, SET_KEYWORDS, node, kv);
    }
    if kv in Produced(Again(cfg, used), used, node) {
      NothingElse(cfg, used, node, kv);
    }
  }

  lemma OwnersUsed(used: seq<Keyword>, k: Keyword)
    requires "uid" in used && "gid" in used && IsOwner(k)
    ensures k in used
  {
  }
}
