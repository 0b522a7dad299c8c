/** Which trees a check for the keywords used finds unchanged: what the sets of the walk say of owners, said
    of the tree alone. */
module CheckOwners {
  import opened GoBytes
  import opened Keywords
  import opened Walk
  import opened CheckNames
  import opened CheckAgain
  import Ordering

  /** The owner is among what is produced for a file exactly when it was asked for. */
  ghost predicate OwnersAsFor(cfg: Config) {
    forall node: Node, kv :: kv in Produced(cfg, SET_KEYWORDS, node) ==>
      (kv in Produced(cfg, cfg.keywords, node) <==> Requested(kv, cfg.keywords))
  }

  /** Both uid and gid were asked for. */
  predicate AllAsked(cfg: Config, root: Node) {
    forall kv :: kv in Produced(cfg, SET_KEYWORDS, root) ==> Requested(kv, cfg.keywords)
  }

  /** A directory has the owner and group of the root, and a file what was not asked for of them. */
  predicate LikeRoot(cfg: Config, root: Node, node: Node) {
    forall kv :: kv in Produced(cfg, SET_KEYWORDS, node) ==>
      kv in Produced(cfg, SET_KEYWORDS, root) || (node.File? && Requested(kv, cfg.keywords))
  }

  ghost predicate TreeLikeRoot(cfg: Config, root: Node, node: Node)
    decreases node
  {
    && LikeRoot(cfg, root, node)
    && (node.Dir? ==> forall n :: n in node.children ==> TreeLikeRoot(cfg, root, node.children[n]))
  }

  // ---------- sets and owners ----------

  /** Of owners a set holds that of the root. */
  ghost predicate HoldsRoot(cfg: Config, root: Node, kvs: seq<KeyVal>) {
    forall kv :: IsOwner(KeywordOf(kv)) ==> (kv in kvs <==> kv in Produced(cfg, SET_KEYWORDS, root))
  }

  lemma {:induction false} RootSetHolds(cfg: Config, root: Node)
    ensures HoldsRoot(cfg, root, InForce(cfg, root, None))
  {
    hide Produced, Requested, KeywordOf, IsOwner;
    forall kv | IsOwner(KeywordOf(kv))
      ensures kv in InForce(cfg, root, None) <==> kv in Produced(cfg, SET_KEYWORDS, root)
    {
      SelectedElements(DEFAULT_SET, cfg.keywords, kv);
      if kv in DEFAULT_SET {
        DefaultNames(kv);
      }
    }
  }

  lemma SameAsking(a: KeyVal, b: KeyVal, keywords: seq<Keyword>)
    requires KeywordOf(a) == KeywordOf(b)
    ensures Requested(a, keywords) <==> Requested(b, keywords)
  {
    hide KeywordOf, Prefix;
  }

  /** What was not asked for of the root was asked for of no file. */
  lemma {:induction false} NotAsked(cfg: Config, root: Node, node: Node) returns (kv: KeyVal)
    requires AllOwned(cfg) && !AllAsked(cfg, root)
    ensures kv in Produced(cfg, SET_KEYWORDS, node) && !Requested(kv, cfg.keywords)
  {
    hide Produced, Requested, KeywordOf, AllOwned;
    var known :| known in Produced(cfg, SET_KEYWORDS, root) && !Requested(known, cfg.keywords);
    OwnerIsOwner(cfg, root, known);
    kv := OwnerFor(cfg, node, KeywordOf(known));
    SameAsking(kv, known, cfg.keywords);
  }

  /** A directory unlike the root gets a set without the owner that was not asked for. */
  lemma {:induction false} UnlikeIsUntold(cfg: Config, root: Node, node: Node, path: seq<Bytes>, cur: seq<KeyVal>)
    requires AllOwned(cfg) && OwnersAsFor(cfg) && !AllAsked(cfg, root) && HoldsRoot(cfg, root, cur)
    requires node.Dir? && !LikeRoot(cfg, root, node)
    ensures !OwnerTold(cfg, Visit(path, node, InForce(cfg, node, Some(cur))))
  {
    hide Produced, Requested, AllOwned, KeywordOf;
    var klist := Produced(cfg, SET_KEYWORDS, node);
    var other :| other in klist && other !in Produced(cfg, SET_KEYWORDS, root);
    OwnerIsOwner(cfg, node, other);
    assert other !in cur;
    var i :| 0 <= i < |klist| && klist[i] == other;
    var kv := NotAsked(cfg, root, node);
    SelectedElements(DEFAULT_SET + klist, cfg.keywords, kv);
  }

  /** A directory like the root keeps the set. */
  lemma {:induction false} LikeKeepsSet(cfg: Config, root: Node, node: Node, path: seq<Bytes>, cur: seq<KeyVal>)
    requires AllOwned(cfg) && HoldsRoot(cfg, root, cur) && node.Dir? && LikeRoot(cfg, root, node)
    ensures InForce(cfg, node, Some(cur)) == cur && OwnerTold(cfg, Visit(path, node, cur))
  {
    hide Produced, Requested, AllOwned, KeywordOf, IsOwner;
    forall kv | kv in Produced(cfg, SET_KEYWORDS, node)
      ensures kv in cur
    {
      OwnerIsOwner(cfg, node, kv);
    }
  }

  lemma {:induction false} FileTold(cfg: Config, root: Node, node: Node, path: seq<Bytes>, cur: seq<KeyVal>)
    requires AllOwned(cfg) && OwnersAsFor(cfg) && HoldsRoot(cfg, root, cur) && node.File?
    ensures OwnerTold(cfg, Visit(path, node, cur)) <==> LikeRoot(cfg, root, node)
  {
    hide Produced, Requested, AllOwned, KeywordOf, IsOwner;
    forall kv | kv in Produced(cfg, SET_KEYWORDS, node)
      ensures kv in cur <==> kv in Produced(cfg, SET_KEYWORDS, root)
      ensures kv in Produced(cfg, cfg.keywords, node) <==> Requested(kv, cfg.keywords)
    {
      OwnerIsOwner(cfg, node, kv);
    }
  }

  // ---------- the walk ----------

  lemma ToldThen(cfg: Config, a: seq<Visit>, b: seq<Visit>)
    ensures OwnersTold(cfg, a + b) <==> OwnersTold(cfg, a) && OwnersTold(cfg, b)
  {
    hide OwnerTold;
    if OwnersTold(cfg, a + b) {
      forall i | 0 <= i < |a|
        ensures OwnerTold(cfg, a[i])
      {
        assert (a + b)[i] == a[i];
      }
      forall i | 0 <= i < |b|
        ensures OwnerTold(cfg, b[i])
      {
        assert (a + b)[|a| + i] == b[i];
      }
    }
  }

  lemma ToldOne(cfg: Config, v: Visit)
    ensures OwnersTold(cfg, [v]) <==> OwnerTold(cfg, v)
  {
    hide OwnerTold;
    assert [v][0] == v;
  }

  /** Under the root's set, the owners of a subtree are told exactly when it is like the root; the set stays. */
  lemma {:induction false} SubtreeTold(cfg: Config, root: Node, path: seq<Bytes>, node: Node, cur: seq<KeyVal>)
    requires cfg.excludes == [] && AllOwned(cfg) && OwnersAsFor(cfg) && !AllAsked(cfg, root) && HoldsRoot(cfg, root, cur)
    ensures var t := TreeTrace(cfg, path, node, Some(cur));
      && (OwnersTold(cfg, t.visits) <==> TreeLikeRoot(cfg, root, node))
      && (TreeLikeRoot(cfg, root, node) ==> t.cur == Some(cur))
    decreases node, 1, 0
  {
    assert !Excluded(cfg, path, node);
    hide Excluded, HoldsRoot, AllOwned, OwnersAsFor, AllAsked, LikeRoot, OwnerTold, InForce, DirHead, EntryItem, OwnersTold;
    if node.File? {
      FileTold(cfg, root, node, path, cur);
      ToldOne(cfg, Visit(path, node, cur));
    } else {
      DirTrace(cfg, path, node, Some(cur), []);
      var inForce, kids := InForce(cfg, node, Some(cur)), Kids(cfg, path, node, Some(cur));
      ToldThen(cfg, [Visit(path, node, inForce)], kids.visits);
      ToldOne(cfg, Visit(path, node, inForce));
      if LikeRoot(cfg, root, node) {
        LikeKeepsSet(cfg, root, node, path, cur);
        ChildrenTold(cfg, root, path, node, cur);
      } else {
        UnlikeIsUntold(cfg, root, node, path, cur);
      }
    }
  }

  ghost predicate AllLikeRoot(cfg: Config, root: Node, dir: Node, names: seq<Bytes>)
    requires dir.Dir? && forall i :: 0 <= i < |names| ==> names[i] in dir.children
  {
    forall i :: 0 <= i < |names| ==> TreeLikeRoot(cfg, root, dir.children[names[i]])
  }

  lemma {:induction false} ChildrenTold(cfg: Config, root: Node, path: seq<Bytes>, dir: Node, cur: seq<KeyVal>)
    requires cfg.excludes == [] && AllOwned(cfg) && OwnersAsFor(cfg) && !AllAsked(cfg, root) && HoldsRoot(cfg, root, cur) && dir.Dir?
    ensures var t := ListTrace(cfg, path, dir, Order(dir.children), Some(cur));
      var like := forall n :: n in dir.children ==> TreeLikeRoot(cfg, root, dir.children[n]);
      && (OwnersTold(cfg, t.visits) <==> like) && (like ==> t.cur == Some(cur))
    decreases dir, 0, |Order(dir.children)| + 1
  {
    hide HoldsRoot, AllOwned, OwnersAsFor, AllAsked, OwnersTold, TreeLikeRoot, ListTrace, Order;
    ListTold(cfg, root, path, dir, Order(dir.children), cur);
    OrderHasAll(dir);
    if AllLikeRoot(cfg, root, dir, Order(dir.children)) {
      forall n | n in dir.children
        ensures TreeLikeRoot(cfg, root, dir.children[n])
      {
        var i :| 0 <= i < |Order(dir.children)| && Order(dir.children)[i] == n;
      }
    }
  }

  lemma OrderHasAll(dir: Node)
    requires dir.Dir?
    ensures forall n :: n in dir.children ==> n in Order(dir.children)
  {
    var files, dirs := Ordering.Sorted(FileNames(dir.children)), Ordering.Sorted(DirNames(dir.children));
    forall n | n in dir.children
      ensures n in files + dirs
    {
      assert n in Ordering.SetOf(files) || n in Ordering.SetOf(dirs);
    }
  }

  lemma {:induction false} ListTold(cfg: Config, root: Node, path: seq<Bytes>, dir: Node, names: seq<Bytes>, cur: seq<KeyVal>)
    requires cfg.excludes == [] && AllOwned(cfg) && OwnersAsFor(cfg) && !AllAsked(cfg, root) && HoldsRoot(cfg, root, cur)
    requires dir.Dir? && forall i :: 0 <= i < |names| ==> names[i] in dir.children
    ensures var t := ListTrace(cfg, path, dir, names, Some(cur));
      && (OwnersTold(cfg, t.visits) <==> AllLikeRoot(cfg, root, dir, names))
      && (AllLikeRoot(cfg, root, dir, names) ==> t.cur == Some(cur))
    decreases dir, 0, |names|
  {
    if names == [] {
      assert OwnersTold(cfg, []);
    } else {
      hide HoldsRoot, AllOwned, OwnersAsFor, AllAsked, OwnersTold, TreeLikeRoot, TreeTrace;
      var first := TreeTrace(cfg, path + [names[0]], dir.children[names[0]], Some(cur));
      SubtreeTold(cfg, root, path + [names[0]], dir.children[names[0]], cur);
      ToldThen(cfg, first.visits, ListTrace(cfg, path, dir, names[1..], first.cur).visits);
      if TreeLikeRoot(cfg, root, dir.children[names[0]]) {
        ListTold(cfg, root, path, dir, names[1..], cur);
        assert AllLikeRoot(cfg, root, dir, names[1..]) <==> AllLikeRoot(cfg, root, dir, names) by {
          AllButFirst(cfg, root, dir, names);
        }
      }
    }
  }

  lemma AllButFirst(cfg: Config, root: Node, dir: Node, names: seq<Bytes>)
    requires dir.Dir? && names != [] && forall i :: 0 <= i < |names| ==> names[i] in dir.children
    requires TreeLikeRoot(cfg, root, dir.children[names[0]])
    ensures AllLikeRoot(cfg, root, dir, names) <==> AllLikeRoot(cfg, root, dir, names[1..])
  {
    hide TreeLikeRoot;
    if AllLikeRoot(cfg, root, dir, names[1..]) {
      forall i | 0 <= i < |names|
        ensures TreeLikeRoot(cfg, root, dir.children[names[i]])
      {
        assert i > 0 ==> names[1..][i - 1] == names[i];
      }
    }
  }

  /** Asked for or not, the sets of the walk tell every owner exactly when both uid and gid were asked for, or
      every directory has those of the root and every file those of them that were not asked for. */
  lemma {:induction false} OwnersByTree(cfg: Config, root: Node)
    requires cfg.excludes == [] && AllOwned(cfg) && OwnersAsFor(cfg) && root.Dir?
    ensures OwnersTold(cfg, TreeTrace(cfg, [], root, None).visits) <==> AllAsked(cfg, root) || TreeLikeRoot(cfg, root, root)
  {
    hide AllOwned, OwnersAsFor, AllAsked, OwnersTold, OwnerTold, InForce, DirHead, EntryItem, LikeRoot, HoldsRoot, TreeTrace, ListTrace;
    assert !Excluded(cfg, [], root);
    if AllAsked(cfg, root) {
      AskedIsTold(cfg, root, TreeTrace(cfg, [], root, None).visits);
    } else {
      DirTrace(cfg, [], root, None, []);
      var inForce, kids := InForce(cfg, root, None), Kids(cfg, [], root, None);
      ToldThen(cfg, [Visit([], root, inForce)], kids.visits);
      ToldOne(cfg, Visit([], root, inForce));
      RootSetHolds(cfg, root);
      RootIsLike(cfg, root);
      LikeKeepsSet(cfg, root, root, [], inForce);
      ChildrenTold(cfg, root, [], root, inForce);
    }
  }

  lemma RootIsLike(cfg: Config, root: Node)
    ensures LikeRoot(cfg, root, root)
  {
    hide Produced, Requested;
  }

  lemma {:induction false} AskedIsTold(cfg: Config, root: Node, visits: seq<Visit>)
    requires AllOwned(cfg) && OwnersAsFor(cfg) && AllAsked(cfg, root)
    ensures OwnersTold(cfg, visits)
  {
    hide Produced, Requested, AllOwned, KeywordOf;
    forall i, kv | 0 <= i < |visits| && kv in Produced(cfg, SET_KEYWORDS, visits[i].node)
      ensures kv in Produced(cfg, cfg.keywords, visits[i].node)
    {
      OwnerIsOwner(cfg, visits[i].node, kv);
      var known := OwnerFor(cfg, root, KeywordOf(kv));
      SameAsking(kv, known, cfg.keywords);
    }
  }

  /** Functions that answer under their own names answer with an owner exactly when asked for it. */
  lemma {:induction false} NamesAskOwners(cfg: Config)
    requires NamesAgree(cfg) && AllOwned(cfg)
    ensures OwnersAsFor(cfg)
  {
    hide Produced, Requested, AllOwned, NamesAgree, KeywordOf, IsOwner;
    forall node: Node, kv | kv in Produced(cfg, SET_KEYWORDS, node)
      ensures kv in Produced(cfg, cfg.keywords, node) <==> Requested(kv, cfg.keywords)
    {
      OwnerIsOwner(cfg, node, kv);
      OwnerAsked(cfg, node, kv);
    }
  }

  lemma {:induction false} OwnerAsked(cfg: Config, node: Node, kv: KeyVal)
    requires NamesAgree(cfg) && kv in Produced(cfg, SET_KEYWORDS, node) && IsOwner(KeywordOf(kv))
    ensures kv in Produced(cfg, cfg.keywords, node) <==> Requested(kv, cfg.keywords)
  {
    hide Produced, KeywordOf, NameOf, NamesAgree, Canonical, Prefix;
    var k := KeywordOf(kv);
    OwnerNames(kv);
    PrefixIsWhole(k);
    var _ := NameOfProduced(cfg, SET_KEYWORDS, node, kv);
    if Requested(kv, cfg.keywords) {
      var i :| 0 <= i < |cfg.keywords| && Prefix(k) == Prefix(cfg.keywords[i]);
      ProducedHas(cfg, cfg.keywords, node, cfg.keywords[i], kv);
    }
    if kv in Produced(cfg, cfg.keywords, node) {
      var q := NameOfProduced(cfg, cfg.keywords, node, kv);
      NoOwnerSynonym(k, Prefix(q));
      var i :| 0 <= i < |cfg.keywords| && cfg.keywords[i] == q;
    }
  }

  lemma NoOwnerSynonym(k: Keyword, n: Keyword)
    requires IsOwner(k)
    ensures Canonical(n) == k <==> n == k
  {
    assert |k| == 3 && |"xattr"| == 5 && |"md5digest"| == 9 && |"sha1digest"| == 10 && |"ripemd160digest"| == 15;
  }
}
