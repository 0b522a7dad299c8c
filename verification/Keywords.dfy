/** Keyword and key-value lists, keywords.go. */
module Keywords {
  import opened GoBytes
  import opened GoStrings

  type Keyword = Bytes
  type KeyVal = Bytes  // "keyword=value"

  /** The part of s before the first c, all of s if there is none. */
  function Before(s: Bytes, c: Byte): (r: Bytes)
    ensures c !in r
  {
    Split(s, c)[0]
  }

  function After(s: Bytes, c: Byte): Bytes {
    if s == [] then [] else if s[0] == c then s[1..] else After(s[1..], c)
  }

  lemma {:induction false} BeforeAfter(s: Bytes, c: Byte)
    requires c in s
    ensures s == Before(s, c) + [c] + After(s, c)
  {
    if s[0] != c {
      BeforeAfter(s[1..], c);
    }
  }

  lemma {:induction false} CutAt(a: Bytes, b: Bytes, c: Byte)
    requires c !in a
    ensures Before(a + [c] + b, c) == a && After(a + [c] + b, c) == b
  {
    var s := a + [c] + b;
    if a == [] {
      assert s[1..] == b;
    } else {
      assert s[1..] == a[1..] + [c] + b;
      CutAt(a[1..], b, c);
    }
  }

  /** Keyword.Prefix: up to the first ".". */
  function Prefix(k: Keyword): Keyword {
    Before(k, '.')
  }

  function KeywordOf(kv: KeyVal): Keyword {
    if '=' !in kv then "" else Before(TrimSpace(kv), '=')
  }

  function ValueOf(kv: KeyVal): Bytes {
    if '=' !in kv then "" else After(TrimSpace(kv), '=')
  }

  function MakeKeyVal(keyword: Keyword, value: Bytes): KeyVal {
    keyword + ['='] + value
  }

  predicate Equal(a: KeyVal, b: KeyVal) {
    KeywordOf(a) == KeywordOf(b) && ValueOf(a) == ValueOf(b)
  }

  lemma TrimWord(w: Bytes)
    requires IsWord(w)
    ensures TrimSpace(w) == w
  {
    hide SpaceLength, LastSpaceFrom, IsWord;
    NoLastSpace(w, 1);
    NoFirstSpace(w);
  }

  /** A printed key-value has the keyword and the value it was made of. */
  lemma MadeKeyVal(keyword: Keyword, value: Bytes)
    requires '=' !in keyword && IsWord(MakeKeyVal(keyword, value))
    ensures KeywordOf(MakeKeyVal(keyword, value)) == keyword
    ensures ValueOf(MakeKeyVal(keyword, value)) == value
  {
    TrimWord(MakeKeyVal(keyword, value));
    CutAt(keyword, value, '=');
    assert MakeKeyVal(keyword, value)[|keyword|] == '=';
  }

  // ---------- lists as maps ----------

  /** The last key-value of the list for keyword k. */
  function Lookup(kvs: seq<KeyVal>, k: Keyword): Option<KeyVal> {
    if kvs == [] then None
    else if KeywordOf(kvs[|kvs| - 1]) == k then Some(kvs[|kvs| - 1])
    else Lookup(kvs[..|kvs| - 1], k)
  }

  /** The map allKeysMap builds: a later entry for the same keyword wins. */
  function MapOf(kvs: seq<KeyVal>): map<Keyword, KeyVal> {
    if kvs == [] then map[]
    else MapOf(kvs[..|kvs| - 1])[KeywordOf(kvs[|kvs| - 1]) := kvs[|kvs| - 1]]
  }

  lemma {:induction false} MapOfIsLookup(kvs: seq<KeyVal>, k: Keyword)
    ensures k in MapOf(kvs) <==> Lookup(kvs, k).Some?
    ensures k in MapOf(kvs) ==> Lookup(kvs, k) == Some(MapOf(kvs)[k])
  {
    hide KeywordOf;
    if kvs != [] {
      MapOfIsLookup(kvs[..|kvs| - 1], k);
    }
  }

  lemma {:induction false} LookupFacts(kvs: seq<KeyVal>, k: Keyword)
    ensures Lookup(kvs, k).Some? ==> Lookup(kvs, k).value in kvs && KeywordOf(Lookup(kvs, k).value) == k
    ensures Lookup(kvs, k).None? ==> forall i :: 0 <= i < |kvs| ==> KeywordOf(kvs[i]) != k
  {
    hide KeywordOf;
    if kvs != [] {
      LookupFacts(kvs[..|kvs| - 1], k);
    }
  }

  lemma LookupSnoc(kvs: seq<KeyVal>, kv: KeyVal, k: Keyword)
    ensures Lookup(kvs + [kv], k) == if KeywordOf(kv) == k then Some(kv) else Lookup(kvs, k)
  {
    hide KeywordOf;
    assert (kvs + [kv])[..|kvs|] == kvs;
  }

  lemma {:induction false} LookupConcat(a: seq<KeyVal>, b: seq<KeyVal>, k: Keyword)
    ensures Lookup(a + b, k) == if Lookup(b, k).Some? then Lookup(b, k) else Lookup(a, k)
  {
    hide KeywordOf;
    if b == [] {
      assert a + b == a;
    } else {
      var last := b[|b| - 1];
      assert a + b == (a + b[..|b| - 1]) + [last];
      LookupSnoc(a + b[..|b| - 1], last, k);
      LookupConcat(a, b[..|b| - 1], k);
    }
  }

  /** No keyword appears twice with different values. */
  predicate Consistent(kvs: seq<KeyVal>) {
    forall i, j :: 0 <= i < |kvs| && 0 <= j < |kvs| && KeywordOf(kvs[i]) == KeywordOf(kvs[j]) ==> kvs[i] == kvs[j]
  }

  lemma ConsistentLookup(kvs: seq<KeyVal>, kv: KeyVal)
    requires Consistent(kvs) && kv in kvs
    ensures Lookup(kvs, KeywordOf(kv)) == Some(kv)
  {
    hide KeywordOf;
    LookupFacts(kvs, KeywordOf(kv));
    var i :| 0 <= i < |kvs| && kvs[i] == kv;
    var j :| 0 <= j < |kvs| && kvs[j] == Lookup(kvs, KeywordOf(kv)).value;
  }

  // ---------- MergeKeyValSet ----------

  /** The entry's key-value where the entry has one for the keyword, the set's own otherwise. */
  function Override(kv: KeyVal, entry: seq<KeyVal>): KeyVal {
    match Lookup(entry, KeywordOf(kv)) case Some(own) => own case None => kv
  }

  function Overridden(base: seq<KeyVal>, entry: seq<KeyVal>): seq<KeyVal> {
    if base == [] then []
    else Overridden(base[..|base| - 1], entry) + [Override(base[|base| - 1], entry)]
  }

  function NotOverriding(base: seq<KeyVal>, entry: seq<KeyVal>): seq<KeyVal> {
    if entry == [] then []
    else
      var last := entry[|entry| - 1];
      NotOverriding(base, entry[..|entry| - 1]) + if Lookup(base, KeywordOf(last)).Some? then [] else [last]
  }

  function Merged(base: seq<KeyVal>, entry: seq<KeyVal>): seq<KeyVal> {
    Overridden(base, entry) + NotOverriding(base, entry)
  }

  /** The key-values whose keyword has the same prefix, in order and as often as they occur. */
  function Matching(kvs: seq<KeyVal>, keyword: Keyword): seq<KeyVal> {
    if kvs == [] then []
    else
      var last := kvs[|kvs| - 1];
      Matching(kvs[..|kvs| - 1], keyword) + if Prefix(KeywordOf(last)) == Prefix(keyword) then [last] else []
  }

  lemma {:induction false} MatchingAre(kvs: seq<KeyVal>, keyword: Keyword)
    ensures forall kv :: kv in Matching(kvs, keyword) <==> kv in kvs && Prefix(KeywordOf(kv)) == Prefix(keyword)
    ensures Lookup(Matching(kvs, keyword), keyword) == Lookup(kvs, keyword)
  {
    hide KeywordOf, Prefix, Lookup;
    if kvs == [] {
      assert Matching(kvs, keyword) == [];
    } else {
      var n := |kvs| - 1;
      var rest, last := Matching(kvs[..n], keyword), kvs[n];
      MatchingAre(kvs[..n], keyword);
      assert kvs == kvs[..n] + [last];
      LookupSnoc(kvs[..n], last, keyword);
      LookupSnoc(rest, last, keyword);
      assert rest + [] == rest;
    }
  }

  method HasKeyword(kvs: seq<KeyVal>, keyword: Keyword) returns (found: seq<KeyVal>)
    ensures found == Matching(kvs, keyword)
    ensures forall kv :: kv in found <==> kv in kvs && Prefix(KeywordOf(kv)) == Prefix(keyword)
    ensures Lookup(found, keyword) == Lookup(kvs, keyword)
  {
    hide KeywordOf, Prefix;
    found := [];
    for i := 0 to |kvs|
      invariant found == Matching(kvs[..i], keyword)
    {
      assert kvs[..i + 1][..i] == kvs[..i];
      if Prefix(KeywordOf(kvs[i])) == Prefix(keyword) {
        found := found + [kvs[i]];
      }
    }
    assert kvs[..|kvs|] == kvs;
    MatchingAre(kvs, keyword);
  }

  /** The inner loop of the merge: the last candidate with exactly this keyword wins. */
  method Winner(old_: KeyVal, entryKeyVals: seq<KeyVal>) returns (kv: KeyVal)
    ensures kv == Override(old_, entryKeyVals)
  {
    hide KeywordOf, Matching, Prefix, Lookup;
    var word := KeywordOf(old_);
    NothingToLookUp(word);
    var candidates := HasKeyword(entryKeyVals, word);
    kv := old_;
    for c := 0 to |candidates|
      invariant kv == Override(old_, candidates[..c])
    {
      assert candidates[..c + 1] == candidates[..c] + [candidates[c]];
      LookupSnoc(candidates[..c], candidates[c], word);
      if KeywordOf(candidates[c]) == word {
        kv := candidates[c];
      }
    }
    assert candidates[..|candidates|] == candidates;
  }

  lemma NothingToLookUp(k: Keyword)
    ensures Lookup([], k) == None
  {
  }

  method MergeKeyValSet(setKeyVals: seq<KeyVal>, entryKeyVals: seq<KeyVal>) returns (ret: seq<KeyVal>)
    ensures ret == Merged(setKeyVals, entryKeyVals)
  {
    hide KeywordOf;
    var n := |setKeyVals|;
    ret := setKeyVals;
    var seen: seq<Keyword> := [];
    for i := 0 to n
      invariant |ret| == n && ret[i..] == setKeyVals[i..]
      invariant ret[..i] == Overridden(setKeyVals[..i], entryKeyVals)
      invariant forall k :: k in seen <==> Lookup(setKeyVals[..i], k).Some?
    {
      assert ret[i] == setKeyVals[i];
      var kv := Winner(ret[i], entryKeyVals);
      assert setKeyVals[..i + 1] == setKeyVals[..i] + [setKeyVals[i]];
      OverriddenSnoc(setKeyVals[..i], setKeyVals[i], entryKeyVals);
      forall k
        ensures k in seen + [KeywordOf(setKeyVals[i])] <==> Lookup(setKeyVals[..i + 1], k).Some?
      {
        LookupSnoc(setKeyVals[..i], setKeyVals[i], k);
      }
      seen := seen + [KeywordOf(setKeyVals[i])];
      ghost var done := ret[..i];
      ret := ret[i := kv];
      assert ret[..i + 1] == done + [kv];
    }
    assert setKeyVals[..n] == setKeyVals && ret[..n] == ret;
    ret := AppendNew(ret, setKeyVals, seen, entryKeyVals);
  }

  lemma OverriddenSnoc(base: seq<KeyVal>, kv: KeyVal, entry: seq<KeyVal>)
    ensures Overridden(base + [kv], entry) == Overridden(base, entry) + [Override(kv, entry)]
  {
    hide KeywordOf;
    assert (base + [kv])[..|base|] == base;
  }

  /** The second loop of the merge: what the set line does not mention. */
  method AppendNew(merged: seq<KeyVal>, ghost setKeyVals: seq<KeyVal>, seen: seq<Keyword>, entryKeyVals: seq<KeyVal>)
    returns (ret: seq<KeyVal>)
    requires forall k :: k in seen <==> Lookup(setKeyVals, k).Some?
    ensures ret == merged + NotOverriding(setKeyVals, entryKeyVals)
  {
    hide KeywordOf;
    ret := merged;
    for i := 0 to |entryKeyVals|
      invariant ret == merged + NotOverriding(setKeyVals, entryKeyVals[..i])
    {
      assert entryKeyVals[..i + 1][..i] == entryKeyVals[..i];
      if KeywordOf(entryKeyVals[i]) !in seen {
        ret := ret + [entryKeyVals[i]];
      }
    }
    assert entryKeyVals[..|entryKeyVals|] == entryKeyVals;
  }

  lemma {:induction false} OverriddenLookup(base: seq<KeyVal>, entry: seq<KeyVal>, k: Keyword)
    ensures Lookup(Overridden(base, entry), k) ==
            if Lookup(base, k).None? then None
            else if Lookup(entry, k).Some? then Lookup(entry, k) else Lookup(base, k)
  {
    hide KeywordOf;
    if base != [] {
      var last := base[|base| - 1];
      OverriddenLookup(base[..|base| - 1], entry, k);
      LookupSnoc(Overridden(base[..|base| - 1], entry), Override(last, entry), k);
      LookupFacts(entry, KeywordOf(last));
    }
  }

  lemma {:induction false} NotOverridingLookup(base: seq<KeyVal>, entry: seq<KeyVal>, k: Keyword)
    ensures Lookup(NotOverriding(base, entry), k) == if Lookup(base, k).Some? then None else Lookup(entry, k)
  {
    hide KeywordOf;
    if entry != [] {
      var last := entry[|entry| - 1];
      var rest := NotOverriding(base, entry[..|entry| - 1]);
      NotOverridingLookup(base, entry[..|entry| - 1], k);
      LookupSnoc(rest, last, k);
      assert rest + [] == rest;
    }
  }

  lemma MergedLookup(base: seq<KeyVal>, entry: seq<KeyVal>, k: Keyword)
    ensures Lookup(Merged(base, entry), k) == if Lookup(entry, k).Some? then Lookup(entry, k) else Lookup(base, k)
  {
    hide KeywordOf;
    LookupConcat(Overridden(base, entry), NotOverriding(base, entry), k);
    OverriddenLookup(base, entry, k);
    NotOverridingLookup(base, entry, k);
  }

  /** The merge, read as a map, is the set overridden by the entry, whatever is repeated in either. */
  lemma MergedIsOverride(base: seq<KeyVal>, entry: seq<KeyVal>)
    ensures MapOf(Merged(base, entry)) == MapOf(base) + MapOf(entry)
  {
    hide KeywordOf;
    forall k
      ensures k in MapOf(Merged(base, entry)) <==> k in MapOf(base) + MapOf(entry)
      ensures k in MapOf(Merged(base, entry)) ==> MapOf(Merged(base, entry))[k] == (MapOf(base) + MapOf(entry))[k]
    {
      MergedLookup(base, entry, k);
      MapOfIsLookup(Merged(base, entry), k);
      MapOfIsLookup(base, k);
      MapOfIsLookup(entry, k);
    }
  }

  // ---------- selecting and subtracting ----------

  predicate Requested(kv: KeyVal, keyset: seq<Keyword>) {
    exists i :: 0 <= i < |keyset| && Prefix(KeywordOf(kv)) == Prefix(keyset[i])
  }

  function Selected(kvs: seq<KeyVal>, keyset: seq<Keyword>): seq<KeyVal> {
    if kvs == [] then []
    else
      var last := kvs[|kvs| - 1];
      Selected(kvs[..|kvs| - 1], keyset) + if Requested(last, keyset) then [last] else []
  }

  method KeyvalSelector(kvs: seq<KeyVal>, keyset: seq<Keyword>) returns (ret: seq<KeyVal>)
    ensures ret == Selected(kvs, keyset)
  {
    hide KeywordOf;
    ret := [];
    for i := 0 to |kvs|
      invariant ret == Selected(kvs[..i], keyset)
    {
      assert kvs[..i + 1][..i] == kvs[..i];
      if Requested(kvs[i], keyset) {
        ret := ret + [kvs[i]];
      }
    }
    assert kvs[..|kvs|] == kvs;
  }

  lemma {:induction false} SelectedElements(kvs: seq<KeyVal>, keyset: seq<Keyword>, kv: KeyVal)
    ensures kv in Selected(kvs, keyset) <==> kv in kvs && Requested(kv, keyset)
  {
    hide KeywordOf;
    if kvs != [] {
      SelectedElements(kvs[..|kvs| - 1], keyset, kv);
      assert kvs == kvs[..|kvs| - 1] + [kvs[|kvs| - 1]];
    }
  }

  /** Selecting restricts the map to the keywords with a requested prefix. */
  lemma {:induction false} SelectedLookup(kvs: seq<KeyVal>, keyset: seq<Keyword>, k: Keyword)
    ensures Lookup(Selected(kvs, keyset), k) ==
            if (exists i :: 0 <= i < |keyset| && Prefix(k) == Prefix(keyset[i])) then Lookup(kvs, k) else None
  {
    hide KeywordOf;
    if kvs != [] {
      var rest := Selected(kvs[..|kvs| - 1], keyset);
      SelectedLookup(kvs[..|kvs| - 1], keyset, k);
      LookupSnoc(rest, kvs[|kvs| - 1], k);
      assert rest + [] == rest;
    }
  }

  /** The key-values of these that are not among those. */
  function Without(these: seq<KeyVal>, those: seq<KeyVal>): seq<KeyVal> {
    if these == [] then []
    else
      var last := these[|these| - 1];
      Without(these[..|these| - 1], those) + if last in those then [] else [last]
  }

  /** keyValDifference answers the other list when there is nothing to subtract from. */
  method KeyValDifference(these: seq<KeyVal>, those: seq<KeyVal>) returns (diff: seq<KeyVal>)
    ensures diff == if these == [] then those else Without(these, those)
  {
    if |these| == 0 {
      return those;
    }
    diff := [];
    for i := 0 to |these|
      invariant diff == Without(these[..i], those)
    {
      assert these[..i + 1][..i] == these[..i];
      if these[i] !in those {
        diff := diff + [these[i]];
      }
    }
    assert these[..|these|] == these;
  }

  lemma {:induction false} WithoutElements(a: seq<KeyVal>, b: seq<KeyVal>, kv: KeyVal)
    ensures kv in Without(a, b) <==> kv in a && kv !in b
  {
    if a != [] {
      WithoutElements(a[..|a| - 1], b, kv);
      assert a == a[..|a| - 1] + [a[|a| - 1]];
    }
  }

  /** Factoring out what a consistent /set line already says loses nothing: every key-value
      produced for the entry is the one its keyword has in the merged map. */
  lemma {:induction false} FactoringKeeps(produced: seq<KeyVal>, base: seq<KeyVal>, kv: KeyVal)
    requires Consistent(produced) && Consistent(base) && kv in produced
    ensures Lookup(Merged(base, Without(produced, base)), KeywordOf(kv)) == Some(kv)
  {
    hide KeywordOf;
    var own, k := Without(produced, base), KeywordOf(kv);
    MergedLookup(base, own, k);
    LookupFacts(own, k);
    WithoutElements(produced, base, kv);
    if Lookup(own, k).Some? {
      var other := Lookup(own, k).value;
      WithoutElements(produced, base, other);
      var i :| 0 <= i < |produced| && produced[i] == other;
      var j :| 0 <= j < |produced| && produced[j] == kv;
    } else {
      assert kv in own <==> kv !in base;
      ConsistentLookup(base, kv);
    }
  }

  lemma {:induction false} WithoutLookup(kvs: seq<KeyVal>, base: seq<KeyVal>, k: Keyword)
    requires Consistent(kvs) && Consistent(base)
    ensures var own := Lookup(Without(kvs, base), k);
      if own.Some? then own == Lookup(kvs, k) else Lookup(kvs, k).None? || Lookup(base, k) == Lookup(kvs, k)
  {
    hide KeywordOf;
    var own := Without(kvs, base);
    LookupFacts(own, k);
    LookupFacts(kvs, k);
    if Lookup(own, k).Some? {
      WithoutElements(kvs, base, Lookup(own, k).value);
      ConsistentLookup(kvs, Lookup(own, k).value);
    } else if Lookup(kvs, k).Some? {
      var v := Lookup(kvs, k).value;
      WithoutElements(kvs, base, v);
      assert v !in own;
      ConsistentLookup(base, v);
    }
  }

  /** Overriding a map by what is left of a list, once the map's own key-values are taken out of it, is
      overriding it by the whole list. */
  lemma WithoutOverrides(kvs: seq<KeyVal>, base: seq<KeyVal>)
    requires Consistent(kvs) && Consistent(base)
    ensures MapOf(base) + MapOf(Without(kvs, base)) == MapOf(base) + MapOf(kvs)
  {
    hide KeywordOf;
    var own := Without(kvs, base);
    forall k
      ensures k in MapOf(base) || k in MapOf(own) <==> k in MapOf(base) || k in MapOf(kvs)
      ensures k in MapOf(base) + MapOf(own) ==> (MapOf(base) + MapOf(own))[k] == (MapOf(base) + MapOf(kvs))[k]
    {
      MapOfIsLookup(base, k);
      MapOfIsLookup(own, k);
      MapOfIsLookup(kvs, k);
      WithoutLookup(kvs, base, k);
    }
  }

  // ---------- synonyms ----------

  /** KeywordSynonym: the canonical name. */
  function Canonical(name: Keyword): Keyword {
    if name == "md5" then "md5digest"
    else if name == "rmd160" || name == "rmd160digest" then "ripemd160digest"
    else if name == "sha1" then "sha1digest"
    else if name == "sha256" then "sha256digest"
    else if name == "sha384" then "sha384digest"
    else if name == "sha512" then "sha512digest"
    else if name == "sha512256" then "sha512256digest"
    else if name == "xattrs" then "xattr"
    else name
  }

  lemma CanonicalTwice(name: Keyword)
    ensures Canonical(Canonical(name)) == Canonical(name)
    ensures '.' !in name ==> '.' !in Canonical(name)
  {
  }

  lemma PrefixIsWhole(name: Keyword)
    requires '.' !in name
    ensures Prefix(name) == name
  {
    SplitWithout(name, '.');
  }

  /** A printed key-value is its keyword, "=" and its value. */
  lemma WordIsKeyVal(kv: KeyVal)
    requires IsWord(kv) && KeywordOf(kv) != ""
    ensures kv == MakeKeyVal(KeywordOf(kv), ValueOf(kv))
  {
    TrimWord(kv);
    BeforeAfter(kv, '=');
  }

  // ---------- names ----------

  /** The prefix of a keyword is what stands before its first dot. */
  lemma PrefixIs(word: Keyword, more: Bytes)
    requires '.' !in word
    ensures Prefix(word) == word && Prefix(word + "." + more) == word
  {
    PrefixIsWhole(word);
    CutAt(word, more, '.');
    assert word + "." + more == word + ['.'] + more;
    assert (word + "." + more)[|word|] == '.';
  }

  /** A short name of a digest and its canonical one. */
  predicate IsSynonym(name: Keyword, canonical: Keyword) {
    || (name == "md5" && canonical == "md5digest") || (name == "sha1" && canonical == "sha1digest")
    || (name == "sha256" && canonical == "sha256digest") || (name == "sha384" && canonical == "sha384digest")
    || (name == "sha512" && canonical == "sha512digest") || (name == "sha512256" && canonical == "sha512256digest")
    || (name == "rmd160" && canonical == "ripemd160digest") || (name == "rmd160digest" && canonical == "ripemd160digest")
    || (name == "xattrs" && canonical == "xattr")
  }

  lemma CanonicalIs(name: Keyword, canonical: Keyword)
    ensures Canonical(name) == canonical <==> IsSynonym(name, canonical) || (name == canonical && forall c :: !IsSynonym(name, c))
  {
    assert IsSynonym(name, Canonical(name)) || Canonical(name) == name;
    if forall c :: !IsSynonym(name, c) {
      assert !IsSynonym(name, Canonical(name));
    }
    assert |"rmd160"| != |"rmd160digest"| && |"sha1"| != |"md5"| && |"xattrs"| != |"sha1"|;
  }
}
