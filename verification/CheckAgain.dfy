/** Check with no keywords given, check.go:3-20: the tree is walked again for the keywords the manifest uses.
    What that finds on an unchanged tree. */
module CheckAgain {
  import opened GoBytes
  import opened GoStrings
  import opened Keywords
  import opened Entries
  import opened Manifest
  import opened Spec
  import opened Printing
  import opened Walk
  import opened WalkLaws
  import opened Compare
  import opened CompareLaws
  import opened CheckLaws
  import opened CheckNames

  // ---------- both walks ----------

  ghost predicate SameFiles(a: seq<Visit>, b: seq<Visit>) {
    |a| == |b| && forall i :: 0 <= i < |a| ==> a[i].path == b[i].path && a[i].node == b[i].node
  }

  lemma SameThen(a: seq<Visit>, b: seq<Visit>, c: seq<Visit>, d: seq<Visit>)
    requires SameFiles(a, c) && SameFiles(b, d)
    ensures SameFiles(a + b, c + d)
  {
  }

  /** Whatever is in force, the same files are visited. */
  lemma {:induction false} SameTree(cfg: Config, used: seq<Keyword>, path: seq<Bytes>, node: Node, cur: Option<seq<KeyVal>>, cur2: Option<seq<KeyVal>>)
    requires cfg.excludes == []
    ensures SameFiles(TreeTrace(cfg, path, node, cur).visits, TreeTrace(Again(cfg, used), path, node, cur2).visits)
    decreases node, 1, 0
  {
    var again := Again(cfg, used);
    assert !Excluded(cfg, path, node) && !Excluded(again, path, node);
    if node.Dir? {
      hide InForce, Excluded, ListTrace, Again, SameFiles, TreeTrace;
      DirTrace(cfg, path, node, cur, []);
      DirTrace(again, path, node, cur2, []);
      SameList(cfg, used, path, node, Order(node.children), Some(InForce(cfg, node, cur)), Some(InForce(again, node, cur2)));
      SameOne(path, node, InForce(cfg, node, cur), InForce(again, node, cur2));
      SameThen([Visit(path, node, InForce(cfg, node, cur))], Kids(cfg, path, node, cur).visits,
               [Visit(path, node, InForce(again, node, cur2))], Kids(again, path, node, cur2).visits);
    }
  }

  lemma SameOne(path: seq<Bytes>, node: Node, a: seq<KeyVal>, b: seq<KeyVal>)
    ensures SameFiles([Visit(path, node, a)], [Visit(path, node, b)])
  {
  }

  lemma {:induction false} SameList(cfg: Config, used: seq<Keyword>, path: seq<Bytes>, dir: Node, names: seq<Bytes>,
                                    cur: Option<seq<KeyVal>>, cur2: Option<seq<KeyVal>>)
    requires cfg.excludes == [] && dir.Dir? && forall i :: 0 <= i < |names| ==> names[i] in dir.children
    ensures SameFiles(ListTrace(cfg, path, dir, names, cur).visits, ListTrace(Again(cfg, used), path, dir, names, cur2).visits)
    decreases dir, 0, |names|
  {
    if names != [] {
      hide TreeTrace, SameFiles, Again;
      var q, child, again := path + [names[0]], dir.children[names[0]], Again(cfg, used);
      var a, b := TreeTrace(cfg, q, child, cur), TreeTrace(again, q, child, cur2);
      SameTree(cfg, used, q, child, cur, cur2);
      SameList(cfg, used, path, dir, names[1..], a.cur, b.cur);
      SameThen(a.visits, ListTrace(cfg, path, dir, names[1..], a.cur).visits,
               b.visits, ListTrace(again, path, dir, names[1..], b.cur).visits);
    }
  }

  // ---------- what is found ----------

  /** No keyword used differs. */
  ghost predicate SameKeysIn(a: Keys, b: Keys, used: seq<Keyword>) {
    !BadTimeIn(a, b) && !BadTimeIn(b, a) && !Differ(a, b, Some(used))
  }

  /** The keys in force for a file, before and again. */
  ghost predicate SameAgain(cfg: Config, used: seq<Keyword>, before: Visit, again: Visit) {
    SameKeysIn(KeysFor(cfg, before), KeysFor(Again(cfg, used), again), used)
  }

  /** The check finds nothing exactly when no keyword used differs for any file. */
  lemma {:induction false} FoundAgain(cfg: Config, header: seq<Bytes>, later: seq<Bytes>, root: Node, used: seq<Keyword>,
                                      r: Result<seq<InodeDelta>, CompareError>)
    requires Walkable(cfg, header, root) && Walkable(Again(cfg, used), later, root) && cfg.excludes == []
    requires IsAnswer(r, Some(Link(WalkItems(cfg, header, root)).entries),
                      Some(Walked(Link(WalkItems(Again(cfg, used), later, root)).entries)), Some(used), false)
    ensures var visits, more := TreeTrace(cfg, [], root, None).visits, TreeTrace(Again(cfg, used), [], root, None).visits;
      && SameFiles(visits, more)
      && (r == Ok([]) <==> forall i :: 0 <= i < |visits| ==> SameAgain(cfg, used, visits[i], more[i]))
  {
    WalkMapped(cfg, header, root);
    WalkMapped(Again(cfg, used), later, root);
    SameTree(cfg, used, [], root, None, None);
    hide Link, TreeTrace, Walkable, WalkItems, MapsKeys, EntryMap, IsAnswer, SameAgain, SameFiles, Again, Walked;
    var first, second := Link(WalkItems(cfg, header, root)).entries, Walked(Link(WalkItems(Again(cfg, used), later, root)).entries);
    var visits, more := TreeTrace(cfg, [], root, None).visits, TreeTrace(Again(cfg, used), [], root, None).visits;
    if r == Ok([]) {
      forall i | 0 <= i < |visits|
        ensures SameAgain(cfg, used, visits[i], more[i])
      {
        NotReported(cfg, first, visits, used, second, more, r, i);
      }
    }
    if forall i :: 0 <= i < |visits| ==> SameAgain(cfg, used, visits[i], more[i]) {
      NothingToReport(cfg, first, visits, used, second, more, r);
    }
  }

  /** What two maps by path hold of the same files. */
  ghost predicate MappedTwice(cfg: Config, first: seq<Entry>, visits: seq<Visit>, used: seq<Keyword>, second: seq<Entry>, more: seq<Visit>) {
    && EntryMap(first).Ok? && EntryMap(second).Ok? && SameFiles(visits, more)
    && MapsKeys(cfg, EntryMap(first).value, visits) && MapsKeys(Again(cfg, used), EntryMap(second).value, more)
  }

  lemma {:induction false} NotReported(cfg: Config, first: seq<Entry>, visits: seq<Visit>, used: seq<Keyword>, second: seq<Entry>, more: seq<Visit>,
                                       r: Result<seq<InodeDelta>, CompareError>, i: nat)
    requires MappedTwice(cfg, first, visits, used, second, more) && i < |visits|
    requires IsAnswer(r, Some(first), Some(second), Some(used), false) && r == Ok([])
    ensures i < |more| && SameAgain(cfg, used, visits[i], more[i])
  {
    hide EntryMap, KeysMap, KeysFor, PathText, BadTimeIn, Differ, Again, PlainVisits, OncePerPath;
    var p := PathText(visits[i].path);
    var o, n := EntryMap(first).value, EntryMap(second).value;
    assert p in o && p in n;
    ReportedExactly(Some(first), Some(second), Some(used), r, p);
    BothComparable(o, n, p);
    ComparableExactly(o[p], n[p]);
  }

  lemma {:induction false} NothingToReport(cfg: Config, first: seq<Entry>, visits: seq<Visit>, used: seq<Keyword>, second: seq<Entry>,
                                           more: seq<Visit>, r: Result<seq<InodeDelta>, CompareError>)
    requires MappedTwice(cfg, first, visits, used, second, more)
    requires IsAnswer(r, Some(first), Some(second), Some(used), false)
    requires forall i :: 0 <= i < |visits| ==> i < |more| && SameAgain(cfg, used, visits[i], more[i])
    ensures r == Ok([])
  {
    hide EntryMap, KeysMap, KeysFor, PathText, BadTimeIn, Differ, Again, PlainVisits, OncePerPath, IsRight, MayOmit;
    var o, n := EntryMap(first).value, EntryMap(second).value;
    forall p
      ensures p in o <==> p in n
      ensures p in o ==> SameKeysIn(KeysMap(o[p]), KeysMap(n[p]), used)
    {
      SameVisited(more, visits, p);
      SameVisited(visits, more, p);
      if p in o || p in n {
        var i := VisitAt(visits, more, p);
        assert SameAgain(cfg, used, visits[i], more[i]);
      }
    }
    forall p | p in o && p in n
      ensures Comparable(o[p], n[p])
    {
      ComparableExactly(o[p], n[p]);
    }
    if r.value != [] {
      FirstReported(r.value);
      ReportedExactly(Some(first), Some(second), Some(used), r, r.value[0].path);
    }
  }

  lemma FirstReported(results: seq<InodeDelta>)
    requires results != []
    ensures Reported(results, results[0].path)
  {
  }

  lemma VisitAt(visits: seq<Visit>, more: seq<Visit>, p: Bytes) returns (i: nat)
    requires SameFiles(visits, more) && IsVisited(visits, p)
    ensures i < |visits| == |more| && p == PathText(visits[i].path) == PathText(more[i].path)
  {
    hide PathText;
    i :| 0 <= i < |visits| && p == PathText(visits[i].path);
  }

  lemma SameVisited(visits: seq<Visit>, more: seq<Visit>, p: Bytes)
    requires SameFiles(visits, more)
    ensures IsVisited(more, p) ==> IsVisited(visits, p)
  {
    hide PathText;
    if IsVisited(more, p) {
      var i :| 0 <= i < |more| && p == PathText(more[i].path);
      assert p == PathText(visits[i].path);
    }
  }
  // ---------- one file ----------

  lemma SameLookup(a: seq<KeyVal>, b: seq<KeyVal>, k: Keyword)
    requires Consistent(a) && Consistent(b) && forall kv :: KeywordOf(kv) == k ==> (kv in a <==> kv in b)
    ensures Lookup(a, k) == Lookup(b, k)
  {
    hide KeywordOf;
    LookupFacts(a, k);
    LookupFacts(b, k);
    if Lookup(a, k).Some? {
      ConsistentLookup(b, Lookup(a, k).value);
    }
    if Lookup(b, k).Some? {
      ConsistentLookup(a, Lookup(b, k).value);
    }
  }

  /** What is known of a visited file: its key-values and its set contradict nothing and print as words. */
  ghost predicate VisitFine(cfg: Config, v: Visit) {
    var kvs := Produced(cfg, cfg.keywords, v.node);
    Consistent(kvs) && AllWords(kvs) && Consistent(v.inForce) && AllWords(v.inForce) && SetShaped(cfg, v.inForce)
  }

  /** What is known of a file in both walks. */
  ghost predicate Compared(cfg: Config, used: seq<Keyword>, before: Visit, again: Visit) {
    && before.node == again.node && AllOwned(cfg) && "uid" in used && "gid" in used
    && AnswersAlike(cfg, used, before.node) && DefaultsAlike(cfg, used)
    && VisitFine(cfg, before) && VisitFine(Again(cfg, used), again)
  }

  lemma {:induction false} ProducedSame(cfg: Config, used: seq<Keyword>, keywords: seq<Keyword>, node: Node)
    ensures Produced(Again(cfg, used), keywords, node) == Produced(cfg, keywords, node)
  {
    if keywords != [] {
      ProducedSame(cfg, used, keywords[..|keywords| - 1], node);
    }
  }

  lemma SameOwners(cfg: Config, used: seq<Keyword>, kv: KeyVal)
    ensures OwnerOfSome(Again(cfg, used), kv) ==> OwnerOfSome(cfg, kv)
  {
    hide Produced;
    if OwnerOfSome(Again(cfg, used), kv) {
      var node :| kv in Produced(Again(cfg, used), SET_KEYWORDS, node);
      ProducedSame(cfg, used, SET_KEYWORDS, node);
    }
  }

  lemma OwnerIsOwner(cfg: Config, node: Node, kv: KeyVal)
    requires AllOwned(cfg) && kv in Produced(cfg, SET_KEYWORDS, node)
    ensures IsOwner(KeywordOf(kv))
  {
    hide Produced, Owned, KeywordOf, IsOwner;
    assert Owned(cfg, node);
    OwnerKeys(cfg, node, kv);
  }

  lemma OwnersOnly(cfg: Config, kv: KeyVal)
    requires AllOwned(cfg) && OwnerOfSome(cfg, kv)
    ensures IsOwner(KeywordOf(kv))
  {
    hide Produced, AllOwned, IsOwner, KeywordOf;
    var node :| kv in Produced(cfg, SET_KEYWORDS, node);
    OwnerIsOwner(cfg, node, kv);
  }

  lemma KeywordsUsed(cfg: Config, used: seq<Keyword>)
    ensures Again(cfg, used).keywords == used && Again(cfg, used).produce == cfg.produce
  {
  }

  /** Both walks agree on every keyword but the owner. */
  lemma {:induction false} OtherKeys(cfg: Config, used: seq<Keyword>, before: Visit, again: Visit, k: Keyword)
    requires Compared(cfg, used, before, again) && !IsOwner(k)
    ensures Lookup(Produced(cfg, cfg.keywords, before.node), k) == Lookup(Produced(Again(cfg, used), used, before.node), k)
    ensures Lookup(before.inForce, k) == Lookup(again.inForce, k)
  {
    hide Produced, KeywordOf, Requested, IsOwner, OwnerOfSome, Consistent, AllOwned, Again, AllWords;
    var first, second := Produced(cfg, cfg.keywords, before.node), Produced(Again(cfg, used), used, before.node);
    KeywordsUsed(cfg, used);
    forall kv | KeywordOf(kv) == k
      ensures kv in first <==> kv in second
      ensures kv in before.inForce <==> kv in again.inForce
    {
      if kv in Produced(cfg, SET_KEYWORDS, before.node) {
        OwnerIsOwner(cfg, before.node, kv);
      }
      SameOwners(cfg, used, kv);
      if OwnerOfSome(cfg, kv) {
        OwnersOnly(cfg, kv);
      }
    }
    SameLookup(first, second, k);
    SameLookup(before.inForce, again.inForce, k);
  }

  /** The second walk has the file's owner; the first has it or says nothing of it. */
  lemma {:induction false} OwnerKey(cfg: Config, used: seq<Keyword>, before: Visit, again: Visit, kv: KeyVal)
    requires Compared(cfg, used, before, again) && kv in Produced(cfg, SET_KEYWORDS, before.node)
    ensures IsOwner(KeywordOf(kv)) && KeywordOf(kv) in used
    ensures Lookup(Produced(Again(cfg, used), used, before.node), KeywordOf(kv)) == Some(kv)
    ensures Lookup(Produced(cfg, cfg.keywords, before.node), KeywordOf(kv))
      == if kv in Produced(cfg, cfg.keywords, before.node) then Some(kv) else None
  {
    hide Produced, KeywordOf, SetShaped, AllWords, AllOwned, Again, DefaultsAlike, Consistent;
    var first, second, k := Produced(cfg, cfg.keywords, before.node), Produced(Again(cfg, used), used, before.node), KeywordOf(kv);
    KeywordsUsed(cfg, used);
    OwnerIsOwner(cfg, before.node, kv);
    ConsistentLookup(second, kv);
    LookupFacts(first, k);
    if Lookup(first, k).Some? {
      ConsistentLookup(second, Lookup(first, k).value);
    }
  }

  /** The owner of the file is what the first manifest says of it. */
  predicate OwnerTold(cfg: Config, v: Visit) {
    forall kv :: kv in Produced(cfg, SET_KEYWORDS, v.node) ==> kv in Produced(cfg, cfg.keywords, v.node) || kv in v.inForce
  }

  lemma {:induction false} ToldAgrees(cfg: Config, used: seq<Keyword>, before: Visit, again: Visit)
    requires Compared(cfg, used, before, again) && OwnerTold(cfg, before)
    ensures KeysFor(cfg, before) == KeysFor(Again(cfg, used), again)
  {
    hide Produced, KeywordOf, MapOf, Compared, Again;
    KeywordsUsed(cfg, used);
    assert before.node == again.node by {
      SameNode(cfg, used, before, again);
    }
    var first, second := Produced(cfg, cfg.keywords, before.node), Produced(Again(cfg, used), used, before.node);
    var a, b := KeysFor(cfg, before), KeysFor(Again(cfg, used), again);
    forall k
      ensures k in a <==> k in b
      ensures k in a ==> a[k] == b[k]
    {
      MapOfIsLookup(before.inForce, k);
      MapOfIsLookup(again.inForce, k);
      MapOfIsLookup(first, k);
      MapOfIsLookup(second, k);
      ToldKey(cfg, used, before, again, k);
    }
  }

  lemma SameNode(cfg: Config, used: seq<Keyword>, before: Visit, again: Visit)
    requires Compared(cfg, used, before, again)
    ensures before.node == again.node && AllOwned(cfg) && VisitFine(cfg, before) && VisitFine(Again(cfg, used), again)
  {
  }

  /** One keyword of a file whose owner is told. */
  lemma {:induction false} ToldKey(cfg: Config, used: seq<Keyword>, before: Visit, again: Visit, k: Keyword)
    requires Compared(cfg, used, before, again) && OwnerTold(cfg, before)
    ensures var first, second := Lookup(Produced(cfg, cfg.keywords, before.node), k), Lookup(Produced(Again(cfg, used), used, before.node), k);
      (if first.Some? then first else Lookup(before.inForce, k)) == if second.Some? then second else Lookup(again.inForce, k)
  {
    hide Produced, KeywordOf, Compared, Consistent, AllOwned, AllWords, SetShaped;
    SameNode(cfg, used, before, again);
    if IsOwner(k) {
      var kv := OwnerFor(cfg, before.node, k);
      OwnerKey(cfg, used, before, again, kv);
      if kv !in Produced(cfg, cfg.keywords, before.node) {
        ConsistentLookup(before.inForce, kv);
      }
    } else {
      OtherKeys(cfg, used, before, again, k);
    }
  }

  lemma OwnerFor(cfg: Config, node: Node, k: Keyword) returns (kv: KeyVal)
    requires AllOwned(cfg) && IsOwner(k)
    ensures kv in Produced(cfg, SET_KEYWORDS, node) && KeywordOf(kv) == k
  {
    hide Produced, KeywordOf;
    assert Owned(cfg, node);
    var u, g :| Produced(cfg, SET_KEYWORDS, node) == [u, g] && KeywordOf(u) == "uid" && KeywordOf(g) == "gid";
    kv := if k == "uid" then u else g;
  }

  /** A difference in a keyword asked for, but for a time, is found. */
  lemma KeyFound(a: Keys, b: Keys, used: seq<Keyword>, k: Keyword)
    requires k != "time" && k != "tar_time" && AskedFor(k, Some(used)) && k in b
    requires k in a ==> ValueOf(a[k]) != ValueOf(b[k])
    ensures !SameKeysIn(a, b, used)
  {
    hide ValueOf, AskedFor, BadTimeIn;
    assert ComparedValue(a, b, k) != ComparedValue(b, a, k);
  }

  lemma OwnerKept(used: seq<Keyword>, k: Keyword)
    requires IsOwner(k) && k in used
    ensures AskedFor(k, Some(used))
  {
    PrefixIsWhole(k);
    UsedAsked(used, k);
  }

  lemma UsedAsked(used: seq<Keyword>, k: Keyword)
    requires k in used && Prefix(k) == k
    ensures AskedFor(k, Some(used))
  {
    var i :| 0 <= i < |used| && used[i] == k;
    assert StandsFor(used[i], Prefix(k));
  }

  lemma DifferentWords(x: KeyVal, y: KeyVal, k: Keyword)
    requires IsWord(x) && IsWord(y) && x != y && k != "" && KeywordOf(x) == k && KeywordOf(y) == k
    ensures ValueOf(x) != ValueOf(y)
  {
    hide KeywordOf, ValueOf;
    WordIsKeyVal(x);
    WordIsKeyVal(y);
  }

  lemma WordIn(xs: seq<KeyVal>, x: KeyVal)
    requires AllWords(xs) && x in xs
    ensures IsWord(x)
  {
  }

  lemma {:induction false} UntoldDiffers(cfg: Config, used: seq<Keyword>, before: Visit, again: Visit)
    requires Compared(cfg, used, before, again) && !OwnerTold(cfg, before)
    ensures !SameAgain(cfg, used, before, again)
  {
    hide Produced, KeywordOf, Compared, MapOf, Consistent, AllWords, Equal, AllOwned, SetShaped, Again, SameKeysIn, AskedFor, ValueOf, IsWord;
    SameNode(cfg, used, before, again);
    KeywordsUsed(cfg, used);
    var first, second := Produced(cfg, cfg.keywords, before.node), Produced(Again(cfg, used), used, before.node);
    var kv :| kv in Produced(cfg, SET_KEYWORDS, before.node) && kv !in first && kv !in before.inForce;
    var k := KeywordOf(kv);
    OwnerKey(cfg, used, before, again, kv);
    MapOfIsLookup(before.inForce, k);
    MapOfIsLookup(first, k);
    MapOfIsLookup(second, k);
    LookupFacts(second, k);
    LookupFacts(before.inForce, k);
    WordIn(second, kv);
    OwnerKept(used, k);
    var a, b := KeysFor(cfg, before), KeysFor(Again(cfg, used), again);
    if k in a {
      WordIn(before.inForce, a[k]);
      DifferentWords(a[k], kv, k);
    }
    KeyFound(a, b, used, k);
  }

  // ---------- the check ----------

  /** The first manifest tells the owner of every file. */
  ghost predicate OwnersTold(cfg: Config, visits: seq<Visit>) {
    forall i :: 0 <= i < |visits| ==> OwnerTold(cfg, visits[i])
  }

  /** What is assumed: the first walk left nothing out, both can be described, and used are the names used. */
  ghost predicate CheckedAgain(cfg: Config, header: seq<Bytes>, later: seq<Bytes>, root: Node, used: seq<Keyword>) {
    && Walkable(cfg, header, root) && Walkable(Again(cfg, used), later, root) && cfg.excludes == []
    && forall u :: u in used <==> IsUsed(AllListed(Link(WalkItems(cfg, header, root)).entries), u)
  }

  lemma RootIsDir(cfg: Config, header: seq<Bytes>, root: Node)
    requires Walkable(cfg, header, root)
    ensures root.Dir?
  {
  }

  /** Every visit is described, under a set of the known shape. */
  lemma {:induction false} VisitFacts(cfg: Config, header: seq<Bytes>, root: Node, i: nat)
    requires Walkable(cfg, header, root) && i < |TreeTrace(cfg, [], root, None).visits|
    ensures VisitFine(cfg, TreeTrace(cfg, [], root, None).visits[i])
  {
    RootIsDir(cfg, header, root);
    hide Link, TreeTrace, Produced, Walkable, SetShaped, Consistent, AllWords, Stays, VisitsNodes, WalkItems, OncePerPath, AllRecorded, LinesShaped, VisitsOk;
    WalkDescribesTree(cfg, header, root);
    TreeShaped(cfg, [], root, None);
    VisitDescribed(cfg, TreeTrace(cfg, [], root, None).visits, i);
  }

  lemma {:induction false} OwnersAreUsed(cfg: Config, header: seq<Bytes>, root: Node, used: seq<Keyword>)
    requires Walkable(cfg, header, root) && cfg.excludes == [] && AllOwned(cfg)
    requires forall u :: u in used <==> IsUsed(AllListed(Link(WalkItems(cfg, header, root)).entries), u)
    ensures "uid" in used && "gid" in used
  {
    assert Owned(cfg, root);
    hide Link, AllListed, TreeTrace, IsUsed, Walkable, WalkItems, Owned;
    WalkUsesAll(cfg, header, root, used);
  }

  /** Checking an unchanged tree for the keywords its manifest uses, where these are answered as before, finds
      nothing if and only if the manifest tells the owner of every file. */
  lemma {:induction false} CheckAgainExactly(cfg: Config, header: seq<Bytes>, later: seq<Bytes>, root: Node, used: seq<Keyword>,
                                             r: Result<seq<InodeDelta>, CompareError>)
    requires CheckedAgain(cfg, header, later, root, used) && NoBrokenLine(WalkItems(cfg, header, root)) && AllOwned(cfg)
    requires DefaultsAlike(cfg, used) && AllAlike(cfg, used, TreeTrace(cfg, [], root, None).visits)
    requires var parsed := Parse(Text(Lines(SortByPos(Walked(Link(WalkItems(cfg, header, root)).entries)))));
      parsed.Ok? && IsAnswer(r, Some(parsed.value), Some(Walked(Link(WalkItems(Again(cfg, used), later, root)).entries)), Some(used), false)
    ensures r == Ok([]) <==> OwnersTold(cfg, TreeTrace(cfg, [], root, None).visits)
  {
    ParsedIsWalked(cfg, header, root);
    CheckedParts(cfg, header, later, root, used);
    hide Link, TreeTrace, Parse, SortByPos, Walkable, NoBrokenLine, WalkItems, CheckedAgain, Again, IsAnswer, Walked, Text, Lines, AllOwned,
      OwnerTold, SameAgain, DefaultsAlike, AnswersAlike, IsUsed, AllListed;
    FoundAgain(cfg, header, later, root, used, r);
    OwnersAreUsed(cfg, header, root, used);
    var visits, more := TreeTrace(cfg, [], root, None).visits, TreeTrace(Again(cfg, used), [], root, None).visits;
    forall i | 0 <= i < |visits|
      ensures SameAgain(cfg, used, visits[i], more[i]) <==> OwnerTold(cfg, visits[i])
    {
      VisitFacts(cfg, header, root, i);
      VisitFacts(Again(cfg, used), later, root, i);
      SameExactly(cfg, used, visits[i], more[i]);
    }
  }

  lemma ParsedIsWalked(cfg: Config, header: seq<Bytes>, root: Node)
    requires Walkable(cfg, header, root) && NoBrokenLine(WalkItems(cfg, header, root))
    ensures Parse(Text(Lines(SortByPos(Walked(Link(WalkItems(cfg, header, root)).entries))))) == Ok(Link(WalkItems(cfg, header, root)).entries)
  {
    hide *;
    PrintedWalkParses(cfg, header, root);
  }

  lemma CheckedParts(cfg: Config, header: seq<Bytes>, later: seq<Bytes>, root: Node, used: seq<Keyword>)
    requires CheckedAgain(cfg, header, later, root, used)
    ensures Walkable(cfg, header, root) && Walkable(Again(cfg, used), later, root) && cfg.excludes == []
    ensures forall u :: u in used <==> IsUsed(AllListed(Link(WalkItems(cfg, header, root)).entries), u)
  {
  }

  lemma {:induction false} SameExactly(cfg: Config, used: seq<Keyword>, before: Visit, again: Visit)
    requires Compared(cfg, used, before, again)
    ensures SameAgain(cfg, used, before, again) <==> OwnerTold(cfg, before)
  {
    hide Compared, OwnerTold, KeysFor;
    if OwnerTold(cfg, before) {
      ToldAgrees(cfg, used, before, again);
      SameMaps(KeysFor(cfg, before), used);
    } else {
      UntoldDiffers(cfg, used, before, again);
    }
  }

  lemma SameMaps(m: Keys, used: seq<Keyword>)
    ensures SameKeysIn(m, m, used)
  {
    SelfComparable(m);
    NormalisedIs(m, m);
    hide BadTimeIn, ComparedValue;
  }

  // ---------- other answers ----------

  /** Where a file is answered for with another value under a name used, the check finds it. */
  lemma {:induction false} OtherAnswerFound(cfg: Config, header: seq<Bytes>, later: seq<Bytes>, root: Node, used: seq<Keyword>,
                                            r: Result<seq<InodeDelta>, CompareError>, i: nat, kv: KeyVal, other: KeyVal)
    requires Walkable(cfg, header, root) && Walkable(Again(cfg, used), later, root) && cfg.excludes == []
    requires NoBrokenLine(WalkItems(cfg, header, root))
    requires var parsed := Parse(Text(Lines(SortByPos(Walked(Link(WalkItems(cfg, header, root)).entries)))));
      parsed.Ok? && IsAnswer(r, Some(parsed.value), Some(Walked(Link(WalkItems(Again(cfg, used), later, root)).entries)), Some(used), false)
    requires i < |TreeTrace(cfg, [], root, None).visits|
    requires var node := TreeTrace(cfg, [], root, None).visits[i].node;
      kv in Produced(cfg, cfg.keywords, node) && other in Produced(Again(cfg, used), used, node) && kv != other
    requires var k := KeywordOf(kv); k == KeywordOf(other) && k != "" && k != "time" && k != "tar_time" && AskedFor(k, Some(used))
    ensures r != Ok([])
  {
    ParsedIsWalked(cfg, header, root);
    KeywordsUsed(cfg, used);
    hide Link, TreeTrace, Parse, SortByPos, Walkable, NoBrokenLine, WalkItems, Again, IsAnswer, Walked, Text, Lines, Produced, KeywordOf, AskedFor,
      SameAgain, VisitFine;
    FoundAgain(cfg, header, later, root, used, r);
    var visits, more := TreeTrace(cfg, [], root, None).visits, TreeTrace(Again(cfg, used), [], root, None).visits;
    VisitFacts(cfg, header, root, i);
    VisitFacts(Again(cfg, used), later, root, i);
    OtherValue(cfg, used, visits[i], more[i], kv, other);
  }

  lemma {:induction false} OtherValue(cfg: Config, used: seq<Keyword>, before: Visit, again: Visit, kv: KeyVal, other: KeyVal)
    requires VisitFine(cfg, before) && VisitFine(Again(cfg, used), again) && before.node == again.node
    requires kv in Produced(cfg, cfg.keywords, before.node) && other in Produced(Again(cfg, used), used, before.node) && kv != other
    requires var k := KeywordOf(kv); k == KeywordOf(other) && k != "" && k != "time" && k != "tar_time" && AskedFor(k, Some(used))
    ensures !SameAgain(cfg, used, before, again)
  {
    hide Produced, KeywordOf, MapOf, Consistent, AllWords, Equal, SetShaped, Again, SameKeysIn, AskedFor, ValueOf, IsWord;
    KeywordsUsed(cfg, used);
    var first, second, k := Produced(cfg, cfg.keywords, before.node), Produced(Again(cfg, used), used, before.node), KeywordOf(kv);
    ConsistentLookup(first, kv);
    ConsistentLookup(second, other);
    MapOfIsLookup(first, k);
    MapOfIsLookup(second, k);
    WordIn(first, kv);
    WordIn(second, other);
    DifferentWords(kv, other, k);
    KeyFound(KeysFor(cfg, before), KeysFor(Again(cfg, used), again), used, k);
  }
}
