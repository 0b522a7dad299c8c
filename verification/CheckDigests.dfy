/** The keyword "sha512256", whose function answers under another name, keywordfunc.go:55-56. */
module CheckDigests {
  import opened GoBytes
  import opened GoStrings
  import opened Keywords
  import opened Manifest
  import opened Spec
  import opened Printing
  import opened Walk
  import opened WalkLaws
  import opened Compare
  import opened CompareLaws
  import opened CheckNames
  import opened CheckAgain
  import Ordering

  const SHA512256: Keyword := "sha512256"
  const SHA512: Keyword := "sha512digest"

  /** A file is digested one way for "sha512256" and another way for "sha512digest", both under the latter name. */
  ghost predicate TwoDigests(cfg: Config, node: Node, a: KeyVal, b: KeyVal) {
    && cfg.produce(SHA512256, node) == Some([a]) && cfg.produce(SHA512, node) == Some([b])
    && KeywordOf(a) == KeywordOf(b) == SHA512 && a != b
  }

  /** Walk any tree for "sha512256" and check it for the keywords used: every file with two digests makes the
      check fail, though nothing has changed. */
  lemma {:induction false} DigestsDiffer(cfg: Config, header: seq<Bytes>, later: seq<Bytes>, root: Node, used: seq<Keyword>,
                                         r: Result<seq<InodeDelta>, CompareError>, i: nat, a: KeyVal, b: KeyVal)
    requires CheckedAgain(cfg, header, later, root, used) && NoBrokenLine(WalkItems(cfg, header, root)) && Owned(cfg, root)
    requires var parsed := Parse(Text(Lines(SortByPos(Walked(Link(WalkItems(cfg, header, root)).entries)))));
      parsed.Ok? && IsAnswer(r, Some(parsed.value), Some(Walked(Link(WalkItems(Again(cfg, used), later, root)).entries)), Some(used), false)
    requires SHA512256 in cfg.keywords && i < |TreeTrace(cfg, [], root, None).visits|
    requires TwoDigests(cfg, TreeTrace(cfg, [], root, None).visits[i].node, a, b)
    ensures r != Ok([])
  {
    CheckedParts(cfg, header, later, root, used);
    hide Link, TreeTrace, Parse, SortByPos, Walkable, NoBrokenLine, WalkItems, IsAnswer, Walked, Text, Lines, Produced, KeywordOf,
      IsUsed, AllListed, CheckedAgain, Owned, Canonical, NameOf, AskedFor, Prefix;
    var visits := TreeTrace(cfg, [], root, None).visits;
    var node := visits[i].node;
    DigestNames(a, b);
    ProducedHas(cfg, cfg.keywords, node, SHA512256, a);
    WalkUsesAll(cfg, header, root, used);
    ProducedHas(Again(cfg, used), used, node, SHA512, b);
    UsedAsked(used, SHA512);
    OtherAnswerFound(cfg, header, later, root, used, r, i, a, b);
  }

  lemma DigestNames(a: KeyVal, b: KeyVal)
    requires KeywordOf(a) == KeywordOf(b) == SHA512
    ensures Prefix(SHA512256) == SHA512256 && Prefix(SHA512) == SHA512 && NameOf(a) == SHA512 && a != "" && b != ""
    ensures SHA512 != "" && SHA512 != "time" && SHA512 != "tar_time"
  {
    hide KeywordOf;
    Plain();
    EmptyKey();
  }

  lemma Plain()
    ensures Prefix(SHA512256) == SHA512256 && Prefix(SHA512) == SHA512 && Canonical(SHA512) == SHA512
    ensures SHA512 != "" && SHA512 != "time" && SHA512 != "tar_time"
  {
    hide Prefix;
    PrefixIsWhole(SHA512256);
    PrefixIsWhole(SHA512);
    assert |SHA512| == 12 && |"tar_time"| == 8;
  }

  lemma EmptyKey()
    ensures KeywordOf("") == ""
  {
  }

  // ---------- one tree ----------

  /** A directory with one file, and what is answered for them. */
  const DIGEST_TREE := Dir(0, map["f" := File(1)])

  function DigestAnswer(q: Keyword, node: Node): Option<seq<KeyVal>> {
    if q == "type" then Some([if node.Dir? then "type=dir" else "type=file"])
    else if q == "uid" then Some(["uid=0"])
    else if q == "gid" then Some(["gid=0"])
    else if q == SHA512256 && node.File? then Some(["sha512digest=1"])
    else if q == SHA512 && node.File? then Some(["sha512digest=2"])
    else Some([])
  }

  const DIGEST_CONFIG := Config([], ["type", SHA512256], DigestAnswer)

  /** The key-values answered, by keyword and value. */
  predicate IsAnswerOf(kv: KeyVal, k: Keyword, v: Bytes) {
    IsTypeOrOwner(kv, k, v) || IsDigestOrDefault(kv, k, v)
  }

  predicate IsTypeOrOwner(kv: KeyVal, k: Keyword, v: Bytes) {
    || (kv == "type=dir" && k == "type" && v == "dir") || (kv == "type=file" && k == "type" && v == "file")
    || (kv == "uid=0" && k == "uid" && v == "0") || (kv == "gid=0" && k == "gid" && v == "0")
  }

  predicate IsDigestOrDefault(kv: KeyVal, k: Keyword, v: Bytes) {
    || (kv == "sha512digest=1" && k == SHA512 && v == "1") || (kv == "sha512digest=2" && k == SHA512 && v == "2")
    || (kv == "nlink=1" && k == "nlink" && v == "1") || (kv == "flags=none" && k == "flags" && v == "none")
    || (kv == "mode=0664" && k == "mode" && v == "0664")
  }

  lemma AnswerIs(kv: KeyVal, k: Keyword, v: Bytes)
    requires IsAnswerOf(kv, k, v)
    ensures IsWord(kv) && KeywordOf(kv) == k && ValueOf(kv) == v && !HasSuffix(kv, "\\")
  {
    hide IsWord, KeywordOf, ValueOf;
    AnswerBytes(kv, k, v);
    hide IsAnswerOf;
    AsciiWord(kv);
    MadeKeyVal(k, v);
  }

  /** A printed key-value of ASCII that does not fold a line. */
  predicate IsPlainKeyVal(kv: KeyVal, k: Keyword, v: Bytes) {
    && kv == MakeKeyVal(k, v) && '=' !in k && kv != "" && kv[|kv| - 1] != '\\'
    && forall i :: 0 <= i < |kv| ==> kv[i] as int < 128 && !IsSpace(kv[i])
  }

  lemma TypeBytes(kv: KeyVal, k: Keyword, v: Bytes)
    requires IsTypeOrOwner(kv, k, v)
    ensures IsPlainKeyVal(kv, k, v)
  {
  }

  lemma DigestBytes(kv: KeyVal, k: Keyword, v: Bytes)
    requires IsDigestOrDefault(kv, k, v)
    ensures IsPlainKeyVal(kv, k, v)
  {
  }

  lemma AnswerBytes(kv: KeyVal, k: Keyword, v: Bytes)
    requires IsAnswerOf(kv, k, v)
    ensures IsPlainKeyVal(kv, k, v)
  {
    hide IsPlainKeyVal, IsTypeOrOwner, IsDigestOrDefault;
    if IsTypeOrOwner(kv, k, v) {
      TypeBytes(kv, k, v);
    } else {
      DigestBytes(kv, k, v);
    }
  }

  /** Names that ask for the type and for at most one of the digests. */
  predicate AsksOnce(kws: seq<Keyword>) {
    && "type" in kws && !(SHA512256 in kws && SHA512 in kws)
    && forall k :: k in kws ==> Prefix(k) == k
  }

  function DigestWalk(kws: seq<Keyword>): Config {
    Config([], kws, DigestAnswer)
  }

  lemma Answered(q: Keyword, node: Node, kv: KeyVal) returns (k: Keyword, v: Bytes)
    requires kv in DigestAnswer(q, node).value
    ensures IsAnswerOf(kv, k, v) && (if q == SHA512256 then k == SHA512 && v == "1" else k == q && (q == SHA512 ==> v == "2"))
    ensures q == "type" ==> (v == "dir" <==> node.Dir?)
  {
    if q == "type" {
      k, v := "type", if node.Dir? then "dir" else "file";
    } else if q == "uid" || q == "gid" {
      k, v := q, "0";
    } else {
      k, v := SHA512, if q == SHA512256 then "1" else "2";
    }
  }

  /** What is answered for a file under such names. */
  lemma {:induction false} DigestProduced(kws: seq<Keyword>, keywords: seq<Keyword>, node: Node, kv: KeyVal) returns (k: Keyword, v: Bytes)
    requires kv in Produced(DigestWalk(kws), keywords, node) && forall q :: q in keywords ==> Prefix(q) == q
    ensures IsAnswerOf(kv, k, v) && (k == "type" ==> (v == "dir" <==> node.Dir?))
    ensures k == SHA512 ==> if v == "1" then SHA512256 in keywords else SHA512 in keywords && v == "2"
    ensures k in keywords || k == SHA512
  {
    hide Produced, IsAnswerOf, DigestAnswer;
    var q := ProducedFrom(DigestWalk(kws), keywords, node, kv);
    k, v := Answered(q, node, kv);
  }
  /** Two answers to one keyword are the same. */
  lemma SameAnswer(kv: KeyVal, other: KeyVal, k: Keyword, v: Bytes)
    requires IsAnswerOf(kv, k, v) && IsAnswerOf(other, k, v)
    ensures kv == other
  {
    hide IsAnswerOf;
    AnswerBytes(kv, k, v);
    AnswerBytes(other, k, v);
  }

  lemma TypeAnswer(node: Node) returns (kv: KeyVal)
    ensures DigestAnswer("type", node) == Some([kv]) && IsAnswerOf(kv, "type", if node.Dir? then "dir" else "file") && kv != ""
  {
    kv := if node.Dir? then "type=dir" else "type=file";
  }

  lemma {:induction false} OneAnswer(kws: seq<Keyword>, keywords: seq<Keyword>, node: Node, kv: KeyVal, other: KeyVal)
    requires (forall q :: q in keywords ==> Prefix(q) == q) && !(SHA512256 in keywords && SHA512 in keywords)
    requires kv in Produced(DigestWalk(kws), keywords, node) && other in Produced(DigestWalk(kws), keywords, node)
    ensures IsWord(kv) && (KeywordOf(kv) == KeywordOf(other) ==> kv == other)
  {
    hide Produced, IsAnswerOf, DigestAnswer, KeywordOf, IsWord, Prefix;
    var k, v := DigestProduced(kws, keywords, node, kv);
    var l, w := DigestProduced(kws, keywords, node, other);
    AnswerIs(kv, k, v);
    AnswerIs(other, l, w);
    if k == l {
      OneValue(kv, other, k, v, w);
      SameAnswer(kv, other, k, v);
    }
  }

  lemma {:induction false} DigestConsistent(kws: seq<Keyword>, keywords: seq<Keyword>, node: Node)
    requires (forall q :: q in keywords ==> Prefix(q) == q) && !(SHA512256 in keywords && SHA512 in keywords)
    ensures var kvs := Produced(DigestWalk(kws), keywords, node); Consistent(kvs) && AllWords(kvs)
  {
    hide Produced, KeywordOf, IsWord, Prefix;
    var kvs := Produced(DigestWalk(kws), keywords, node);
    forall i, j | 0 <= i < |kvs| && 0 <= j < |kvs|
      ensures IsWord(kvs[i]) && (KeywordOf(kvs[i]) == KeywordOf(kvs[j]) ==> kvs[i] == kvs[j])
    {
      OneAnswer(kws, keywords, node, kvs[i], kvs[j]);
    }
  }

  lemma OneValue(kv: KeyVal, other: KeyVal, k: Keyword, v: Bytes, w: Bytes)
    requires IsAnswerOf(kv, k, v) && IsAnswerOf(other, k, w)
    requires k == "type" ==> (v == "dir" <==> w == "dir")
    requires k == SHA512 ==> (v == "1" <==> w == "1")
    ensures v == w
  {
  }

  lemma {:induction false} DigestDescribed(kws: seq<Keyword>, node: Node)
    requires AsksOnce(kws)
    ensures NodeDescribed(DigestWalk(kws), node)
  {
    hide Produced, IsAnswerOf, DigestAnswer, KeywordOf, IsWord, SetOk, ValueOf;
    var kvs := Produced(DigestWalk(kws), kws, node);
    DigestConsistent(kws, kws, node);
    var kv := TypeAnswer(node);
    ProducedHas(DigestWalk(kws), kws, node, "type", kv);
    AnswerIs(kv, "type", if node.Dir? then "dir" else "file");
    ConsistentLookup(kvs, kv);
    DigestSetOk(kws, node);
  }

  lemma {:induction false} DigestSetOk(kws: seq<Keyword>, node: Node)
    ensures SetOk(DEFAULT_SET + Produced(DigestWalk(kws), SET_KEYWORDS, node))
  {
    hide Produced, IsAnswerOf, DigestAnswer, KeywordOf, IsWord, ValueOf;
    var kvs := DEFAULT_SET + Produced(DigestWalk(kws), SET_KEYWORDS, node);
    forall i | 0 <= i < |kvs|
      ensures IsWord(kvs[i]) && (KeywordOf(kvs[i]) != "type" || ValueOf(kvs[i]) != "dir")
    {
      var k, v := InSet(kws, node, kvs[i]);
      AnswerIs(kvs[i], k, v);
    }
    forall i, j | 0 <= i < |kvs| && 0 <= j < |kvs| && KeywordOf(kvs[i]) == KeywordOf(kvs[j])
      ensures kvs[i] == kvs[j]
    {
      var k, v := InSet(kws, node, kvs[i]);
      var l, w := InSet(kws, node, kvs[j]);
      AnswerIs(kvs[i], k, v);
      AnswerIs(kvs[j], l, w);
      OneValue(kvs[i], kvs[j], k, v, w);
      SameAnswer(kvs[i], kvs[j], k, v);
    }
  }

  lemma InSet(kws: seq<Keyword>, node: Node, kv: KeyVal) returns (k: Keyword, v: Bytes)
    requires kv in DEFAULT_SET + Produced(DigestWalk(kws), SET_KEYWORDS, node)
    ensures IsAnswerOf(kv, k, v) && k != SHA512 && v != "dir"
  {
    hide Produced;
    if kv in DEFAULT_SET {
      k, v := DefaultAnswer(kv);
    } else {
      OwnerPrefixes();
      k, v := DigestProduced(kws, SET_KEYWORDS, node, kv);
    }
  }

  lemma OwnerPrefixes()
    ensures forall q :: q in SET_KEYWORDS ==> Prefix(q) == q
    ensures SHA512256 !in SET_KEYWORDS && SHA512 !in SET_KEYWORDS && "type" !in SET_KEYWORDS
  {
    hide Prefix;
    PrefixIsWhole("uid");
    PrefixIsWhole("gid");
  }

  lemma DefaultAnswer(kv: KeyVal) returns (k: Keyword, v: Bytes)
    requires kv in DEFAULT_SET
    ensures IsAnswerOf(kv, k, v) && k != SHA512 && v != "dir"
  {
    if kv == "type=file" {
      k, v := "type", "file";
    } else if kv == "nlink=1" {
      k, v := "nlink", "1";
    } else if kv == "flags=none" {
      k, v := "flags", "none";
    } else {
      k, v := "mode", "0664";
    }
  }

  lemma {:induction false} DigestWalkable(kws: seq<Keyword>)
    requires AsksOnce(kws)
    ensures Walkable(DigestWalk(kws), [], DIGEST_TREE)
  {
    hide NodeDescribed;
    DigestDescribed(kws, DIGEST_TREE);
    DigestDescribed(kws, File(1));
    assert DIGEST_TREE.children.Keys == {"f"};
    assert WellDescribed(DigestWalk(kws), [] + ["f"], File(1));
  }
  // ---------- the witness ----------

  lemma FirstAsks()
    ensures AsksOnce(["type", SHA512256]) && DIGEST_CONFIG == DigestWalk(["type", SHA512256])
  {
    hide Prefix;
    PrefixIsWhole("type");
    PrefixIsWhole(SHA512256);
    assert |SHA512| != |SHA512256|;
  }

  lemma {:induction false} OwnerProduced(cfg: Config, q: Keyword, node: Node, kv: KeyVal)
    requires Prefix(q) == q && cfg.produce(q, node) == Some([kv]) && kv != ""
    ensures Produced(cfg, [q], node) == [kv]
  {
    hide Prefix;
    var none: seq<Keyword> := [];
    assert [q][..0] == none && Produced(cfg, none, node) == [];
    OneKept(kv);
  }

  lemma {:induction false} DigestOwned(kws: seq<Keyword>, node: Node)
    ensures Owned(DigestWalk(kws), node)
  {
    hide *;
    var cfg := DigestWalk(kws);
    OwnerAnswers(kws, node);
    OwnerProduced(cfg, "uid", node, "uid=0");
    OneKept("gid=0");
    ProducedSnoc(cfg, ["uid"], "gid", node);
    SetIsOwner();
    assert Produced(cfg, SET_KEYWORDS, node) == ["uid=0"] + ["gid=0"] == ["uid=0", "gid=0"];
    AnswerIs("uid=0", "uid", "0");
    AnswerIs("gid=0", "gid", "0");
    OwnedBy(cfg, node, "uid=0", "gid=0");
  }

  lemma SetIsOwner()
    ensures SET_KEYWORDS == ["uid"] + ["gid"]
  {
  }

  lemma OwnedBy(cfg: Config, node: Node, u: KeyVal, g: KeyVal)
    requires Produced(cfg, SET_KEYWORDS, node) == [u, g] && KeywordOf(u) == "uid" && KeywordOf(g) == "gid"
    ensures Owned(cfg, node)
  {
    hide Produced, KeywordOf;
  }

  lemma OwnerAnswers(kws: seq<Keyword>, node: Node)
    ensures var cfg := DigestWalk(kws);
      && cfg.produce(Prefix("uid"), node) == Some(["uid=0"]) && cfg.produce(Prefix("gid"), node) == Some(["gid=0"])
      && Prefix("uid") == "uid" && Prefix("gid") == "gid"
    ensures IsAnswerOf("uid=0", "uid", "0") && IsAnswerOf("gid=0", "gid", "0") && "uid=0" != "" && "gid=0" != ""
  {
    hide Prefix;
    PrefixIsWhole("uid");
    PrefixIsWhole("gid");
  }

  lemma OneKept(kv: KeyVal)
    requires kv != ""
    ensures Without([kv], [""]) == [kv]
  {
    assert [kv][..0] == [];
    assert Without([], [""]) == [];
  }

  lemma {:induction false} AnswerNames(kv: KeyVal, k: Keyword, v: Bytes)
    requires IsAnswerOf(kv, k, v)
    ensures NameOf(kv) == k && Prefix(k) == k && k != SHA512256
  {
    AnswerIs(kv, k, v);
    AnswerKey(kv, k, v);
    hide KeywordOf, Prefix, IsAnswerOf;
    PrefixIsWhole(k);
  }

  lemma AnswerKey(kv: KeyVal, k: Keyword, v: Bytes)
    requires IsAnswerOf(kv, k, v)
    ensures '.' !in k && k != SHA512256 && Canonical(k) == k
  {
    assert k[0] != 'm' || k == "mode";
    assert |SHA512| == 12 && |SHA512256| == 9;
  }

  /** A key-value listed in the walk is an answer. */
  lemma {:induction false} ListedAnswer(kv: KeyVal) returns (k: Keyword, v: Bytes)
    requires kv in AllListed(Link(WalkItems(DIGEST_CONFIG, [], DIGEST_TREE)).entries)
    ensures IsAnswerOf(kv, k, v)
  {
    hide Link, AllListed, LinesShaped, SetShaped, TreeTrace, IsAnswerOf;
    var items := WalkItems(DIGEST_CONFIG, [], DIGEST_TREE);
    DigestShaped();
    ListedFrom(DIGEST_CONFIG, items, kv);
    k, v := SomeAnswer(kv);
  }

  lemma DigestShaped()
    ensures LinesShaped(DIGEST_CONFIG, WalkItems(DIGEST_CONFIG, [], DIGEST_TREE))
  {
    hide LinesShaped, SetShaped, TreeTrace;
    TreeShaped(DIGEST_CONFIG, [], DIGEST_TREE, None);
    HeaderShaped(DIGEST_CONFIG, []);
    LinesThen(DIGEST_CONFIG, HeaderItems([]), TreeTrace(DIGEST_CONFIG, [], DIGEST_TREE, None).items);
  }

  lemma SomeAnswer(kv: KeyVal) returns (k: Keyword, v: Bytes)
    requires ProducedForSome(DIGEST_CONFIG, kv) || kv in DEFAULT_SET || OwnerOfSome(DIGEST_CONFIG, kv)
    ensures IsAnswerOf(kv, k, v)
  {
    hide Produced, IsAnswerOf, DigestAnswer, Prefix;
    FirstAsks();
    if ProducedForSome(DIGEST_CONFIG, kv) {
      var node :| kv in Produced(DIGEST_CONFIG, DIGEST_CONFIG.keywords, node);
      k, v := DigestProduced(["type", SHA512256], ["type", SHA512256], node, kv);
    } else if kv in DEFAULT_SET {
      k, v := DefaultAnswer(kv);
    } else {
      var node :| kv in Produced(DIGEST_CONFIG, SET_KEYWORDS, node);
      OwnerPrefixes();
      k, v := DigestProduced(["type", SHA512256], SET_KEYWORDS, node, kv);
    }
  }

  lemma {:induction false} UsedAsksOnce(used: seq<Keyword>)
    requires forall u :: u in used <==> IsUsed(AllListed(Link(WalkItems(DIGEST_CONFIG, [], DIGEST_TREE)).entries), u)
    ensures AsksOnce(used)
  {
    FirstAsks();
    DigestWalkable(["type", SHA512256]);
    DigestOwned(["type", SHA512256], DIGEST_TREE);
    hide Link, AllListed, TreeTrace, Walkable, WalkItems, IsAnswerOf, NameOf, Prefix, DigestAnswer, Owned, Requested, Produced, InForce;
    var kvs := AllListed(Link(WalkItems(DIGEST_CONFIG, [], DIGEST_TREE)).entries);
    forall u | u in used
      ensures Prefix(u) == u && u != SHA512256
    {
      var i :| 0 <= i < |kvs| && u == NameOf(kvs[i]);
      var k, v := ListedAnswer(kvs[i]);
      AnswerNames(kvs[i], k, v);
    }
    WalkUsesAll(DIGEST_CONFIG, [], DIGEST_TREE, used);
    RootVisit(DIGEST_CONFIG, DIGEST_TREE);
    var kv := TypeAnswer(DIGEST_TREE);
    ProducedHas(DIGEST_CONFIG, ["type", SHA512256], DIGEST_TREE, "type", kv);
    AnswerNames(kv, "type", "dir");
  }

  predicate AllNamed(items: seq<Item>) {
    forall i :: 0 <= i < |items| ==> items[i].Named?
  }

  lemma OneFile(cfg: Config, path: seq<Bytes>, cur: Option<seq<KeyVal>>)
    ensures AllNamed(TreeTrace(cfg, path, File(1), cur).items)
  {
    hide Excluded, EntryItem;
    var inForce := if cur.Some? then cur.value else [];
    EntryIsNamed(cfg, path, File(1), inForce);
    var t := TreeTrace(cfg, path, File(1), cur);
    assert t.items == [] || t.items == [EntryItem(cfg, path, File(1), inForce)];
  }

  lemma {:induction false} FilesOnly(cfg: Config, names: seq<Bytes>, cur: Option<seq<KeyVal>>)
    requires forall i :: 0 <= i < |names| ==> names[i] in DIGEST_TREE.children
    ensures AllNamed(ListTrace(cfg, [], DIGEST_TREE, names, cur).items)
    decreases |names|
  {
    if names != [] {
      assert DIGEST_TREE.children.Keys == {"f"};
      assert names[0] in DIGEST_TREE.children.Keys && DIGEST_TREE.children[names[0]] == File(1);
      hide TreeTrace;
      var first := TreeTrace(cfg, [] + [names[0]], File(1), cur);
      OneFile(cfg, [] + [names[0]], cur);
      FilesOnly(cfg, names[1..], first.cur);
      var rest := ListTrace(cfg, [], DIGEST_TREE, names[1..], first.cur);
      assert ListTrace(cfg, [], DIGEST_TREE, names, cur).items == first.items + rest.items;
    }
  }

  lemma {:induction false} DigestLines()
    ensures NoBrokenLine(WalkItems(DIGEST_CONFIG, [], DIGEST_TREE))
  {
    DigestShaped();
    DigestComments();
    assert NoneBreak(WalkItems(DIGEST_CONFIG, [], DIGEST_TREE));
    hide WalkItems, LineShaped, Breaks, IsAnswerOf, Produced, Requested;
    var items := WalkItems(DIGEST_CONFIG, [], DIGEST_TREE);
    forall i | 0 <= i < |items|
      ensures !Folds(items[i])
    {
      assert LineShaped(DIGEST_CONFIG, items[i]);
      DigestLine(items[i]);
    }
  }

  lemma DigestLine(item: Item)
    requires LineShaped(DIGEST_CONFIG, item)
    ensures !Folds(item)
  {
    hide IsAnswerOf, Produced, Requested, HasSuffix, ProducedForSome, OwnerOfSome;
    if (item.Named? || item.Special?) && item.keywords != [] {
      var last := item.keywords[|item.keywords| - 1];
      var k, v := SomeAnswer(last);
      AnswerIs(last, k, v);
    }
  }

  predicate NoneBreak(items: seq<Item>) {
    forall i :: 0 <= i < |items| ==> !Breaks(items[i])
  }

  lemma NoneBreakThen(a: seq<Item>, b: seq<Item>)
    requires NoneBreak(a) && NoneBreak(b)
    ensures NoneBreak(a + b)
  {
    hide Breaks;
  }

  lemma {:induction false} DigestComments()
    ensures NoneBreak(WalkItems(DIGEST_CONFIG, [], DIGEST_TREE))
  {
    hide InForce, EntryItem, ListTrace, DirHead, TreeTrace, Breaks;
    var cfg, tree, inForce := DIGEST_CONFIG, DIGEST_TREE, InForce(DIGEST_CONFIG, DIGEST_TREE, None);
    assert !Excluded(cfg, [], tree);
    DirTrace(cfg, [], tree, None, []);
    FilesOnly(cfg, Order(tree.children), Some(inForce));
    var kids := Kids(cfg, [], tree, None).items;
    NamedBreakNot(kids);
    HeadBreaksNot(cfg);
    EntryIsNamed(cfg, [], tree, inForce);
    NamedBreakNot([EntryItem(cfg, [], tree, inForce)]);
    RootComment();
    NoneBreakThen(DirHead(cfg, [], tree, None), [EntryItem(cfg, [], tree, inForce)]);
    NoneBreakThen(DirHead(cfg, [], tree, None) + [EntryItem(cfg, [], tree, inForce)], kids);
    NoneBreakThen(DirHead(cfg, [], tree, None) + [EntryItem(cfg, [], tree, inForce)] + kids, [DotDot("..")]);
    NothingInHeader(TreeTrace(cfg, [], tree, None).items);
  }

  lemma NothingInHeader(items: seq<Item>)
    ensures HeaderItems([]) + items == items
  {
  }

  lemma NamedBreakNot(items: seq<Item>)
    requires AllNamed(items)
    ensures NoneBreak(items)
  {
  }

  lemma HeadBreaksNot(cfg: Config)
    ensures NoneBreak(DirHead(cfg, [], DIGEST_TREE, None))
  {
    RootComment();
    hide SetLineFor, PathText, IsLine;
  }

  lemma RootComment()
    ensures !Breaks(Comment("# " + PathText([]))) && !Breaks(DotDot(".."))
  {
    CommentBreaks([]);
  }

  lemma {:induction false} FileVisit()
    ensures var visits := TreeTrace(DIGEST_CONFIG, [], DIGEST_TREE, None).visits; |visits| > 1 && visits[1].node == File(1)
  {
    hide InForce, EntryItem, DirHead;
    var names := Order(DIGEST_TREE.children);
    var inForce := InForce(DIGEST_CONFIG, DIGEST_TREE, None);
    DirTrace(DIGEST_CONFIG, [], DIGEST_TREE, None, []);
    FileListed();
    assert !Excluded(DIGEST_CONFIG, [] + ["f"], File(1));
    assert ListTrace(DIGEST_CONFIG, [], DIGEST_TREE, names, Some(inForce)).visits != [];
  }

  lemma FileListed()
    ensures Order(DIGEST_TREE.children) != [] && Order(DIGEST_TREE.children)[0] == "f"
  {
    assert DIGEST_TREE.children.Keys == {"f"};
    assert "f" in FileNames(DIGEST_TREE.children);
    var files := Ordering.Sorted(FileNames(DIGEST_TREE.children));
    assert "f" in Ordering.SetOf(files);
  }

  /** The tree walked for "type" and "sha512256" and checked for the keywords used: a difference is found. */
  lemma {:induction false} DigestWitness(used: seq<Keyword>, r: Result<seq<InodeDelta>, CompareError>)
    requires forall u :: u in used <==> IsUsed(AllListed(Link(WalkItems(DIGEST_CONFIG, [], DIGEST_TREE)).entries), u)
    ensures var parsed := Parse(Text(Lines(SortByPos(Walked(Link(WalkItems(DIGEST_CONFIG, [], DIGEST_TREE)).entries)))));
      var again := Walked(Link(WalkItems(Again(DIGEST_CONFIG, used), [], DIGEST_TREE)).entries);
      parsed.Ok? && (IsAnswer(r, Some(parsed.value), Some(again), Some(used), false) ==> r != Ok([]))
  {
    FirstAsks();
    hide *;
    DigestWalkable(["type", SHA512256]);
    UsedAsksOnce(used);
    DigestWalkable(used);
    DigestLines();
    DigestOwned(["type", SHA512256], DIGEST_TREE);
    FileVisit();
    ParsedIsWalked(DIGEST_CONFIG, [], DIGEST_TREE);
    DigestHolds(used);
    DigestsAnswered();
    var parsed := Parse(Text(Lines(SortByPos(Walked(Link(WalkItems(DIGEST_CONFIG, [], DIGEST_TREE)).entries)))));
    if IsAnswer(r, Some(parsed.value), Some(Walked(Link(WalkItems(Again(DIGEST_CONFIG, used), [], DIGEST_TREE)).entries)), Some(used), false) {
      DigestsDiffer(DIGEST_CONFIG, [], [], DIGEST_TREE, used, r, 1, "sha512digest=1", "sha512digest=2");
    }
  }

  lemma DigestHolds(used: seq<Keyword>)
    requires forall u :: u in used <==> IsUsed(AllListed(Link(WalkItems(DIGEST_CONFIG, [], DIGEST_TREE)).entries), u)
    requires Walkable(DIGEST_CONFIG, [], DIGEST_TREE) && Walkable(DigestWalk(used), [], DIGEST_TREE)
    ensures CheckedAgain(DIGEST_CONFIG, [], [], DIGEST_TREE, used)
  {
    hide Walkable, AllListed, Link, WalkItems, IsUsed;
    assert Again(DIGEST_CONFIG, used) == DigestWalk(used);
  }

  lemma DigestAnswers()
    ensures DigestAnswer(SHA512256, File(1)) == Some(["sha512digest=1"]) && DigestAnswer(SHA512, File(1)) == Some(["sha512digest=2"])
    ensures SHA512256 in ["type", SHA512256] && "sha512digest=1" != "sha512digest=2"
    ensures IsAnswerOf("sha512digest=1", SHA512, "1") && IsAnswerOf("sha512digest=2", SHA512, "2")
  {
    assert |SHA512| == 12 && |SHA512256| == 9 && |"type"| == 4 && |"uid"| == |"gid"| == 3;
    assert ["type", SHA512256][1] == SHA512256;
    assert "sha512digest=1"[13] != "sha512digest=2"[13];
  }

  lemma DigestsAnswered()
    ensures SHA512256 in DIGEST_CONFIG.keywords && TwoDigests(DIGEST_CONFIG, File(1), "sha512digest=1", "sha512digest=2")
  {
    DigestAnswers();
    hide *;
    AnswerIs("sha512digest=1", SHA512, "1");
    AnswerIs("sha512digest=2", SHA512, "2");
    BothAnswered();
  }

  lemma BothAnswered()
    requires DigestAnswer(SHA512256, File(1)) == Some(["sha512digest=1"]) && DigestAnswer(SHA512, File(1)) == Some(["sha512digest=2"])
    requires KeywordOf("sha512digest=1") == KeywordOf("sha512digest=2") == SHA512 && "sha512digest=1" != "sha512digest=2"
    ensures SHA512256 in DIGEST_CONFIG.keywords && TwoDigests(DIGEST_CONFIG, File(1), "sha512digest=1", "sha512digest=2")
  {
    hide KeywordOf, DigestAnswer;
    assert DIGEST_CONFIG.keywords[1] == SHA512256;
  }
}
