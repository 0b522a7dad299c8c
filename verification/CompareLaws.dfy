/** Laws of comparison: agreeing manifests have no differences, CompareSame reports every path once,
    and exchanging the manifests exchanges the differences. */
module CompareLaws {
  import opened GoBytes
  import opened Keywords
  import opened Entries
  import opened Times
  import opened Compare

  // ---------- agreement ----------

  /** The same paths, with the same keys in force at each. */
  predicate Agree(o: map<Bytes, Entry>, n: map<Bytes, Entry>) {
    o.Keys == n.Keys && forall p :: p in o ==> KeysMap(o[p]) == KeysMap(n[p])
  }

  lemma SelfComparable(m: Keys)
    ensures Normalised(m, m).Ok? && Normalised(m, m).value.0 == Normalised(m, m).value.1
  {
  }

  lemma NoChange(changed: seq<KeyDelta>, a: Entry, b: Entry, keys: Option<seq<Keyword>>)
    requires KeysMap(a) == KeysMap(b) && IsChange(changed, a, b, keys)
    ensures changed == []
  {
    hide KeysMap, Normalised;
    var deltas: seq<KeyDelta> :| changed == Filtered(deltas, keys) && IsEntryDiff(deltas, a, b);
    SelfComparable(KeysMap(a));
  }

  /** Manifests that agree, however they are laid out, compare without error and without differences. */
  lemma AgreeingManifests(oldDh: Option<seq<Entry>>, newDh: Option<seq<Entry>>, keys: Option<seq<Keyword>>,
                          r: Result<seq<InodeDelta>, CompareError>)
    requires EntryMapOf(oldDh).Ok? && EntryMapOf(newDh).Ok? && Agree(EntryMapOf(oldDh).value, EntryMapOf(newDh).value)
    requires IsAnswer(r, oldDh, newDh, keys, false)
    ensures r == Ok([])
  {
    hide KeysMap, IsChange, EntryMapOf, Normalised;
    var o, n := EntryMapOf(oldDh).value, EntryMapOf(newDh).value;
    forall p | p in o && p in n
      ensures Comparable(o[p], n[p])
    {
      SelfComparable(KeysMap(o[p]));
    }
    if r.value != [] {
      var d := r.value[0];
      NoChange(d.keys, o[d.path], n[d.path], keys);
    }
  }

  /** A manifest whose paths all decode does not differ from itself. */
  lemma CompareSelf(dh: Option<seq<Entry>>, keys: Option<seq<Keyword>>, r: Result<seq<InodeDelta>, CompareError>)
    requires EntryMapOf(dh).Ok? && IsAnswer(r, dh, dh, keys, false)
    ensures r == Ok([])
  {
    AgreeingManifests(dh, dh, keys, r);
  }

  /** CompareSame reports each path of either manifest exactly once, and no other. */
  lemma SameCoversUnion(oldDh: Option<seq<Entry>>, newDh: Option<seq<Entry>>, keys: Option<seq<Keyword>>,
                        r: Result<seq<InodeDelta>, CompareError>, p: Bytes)
    requires IsAnswer(r, oldDh, newDh, keys, true) && r.Ok?
    ensures EntryMapOf(oldDh).Ok? && EntryMapOf(newDh).Ok?
    ensures Reported(r.value, p) <==> p in EntryMapOf(oldDh).value || p in EntryMapOf(newDh).value
    ensures OnePerPath(r.value)
  {
    hide IsChange, EntryMapOf;
    if Reported(r.value, p) {
      var i :| 0 <= i < |r.value| && r.value[i].path == p;
      assert IsRight(r.value[i], EntryMapOf(oldDh).value, EntryMapOf(newDh).value, keys, true);
    }
  }

  // ---------- what is found ----------

  /** A requested keyword is missing on one side or has another value, times compared as they are normalised. */
  ghost predicate KeysDiffer(a: Keys, b: Keys, keys: Option<seq<Keyword>>) {
    var both := Normalised(a, b);
    both.Ok? && exists k :: Kept(k, keys) && (k in both.value.0 || k in both.value.1) && DeltaOf(both.value.0, both.value.1, k).Some?
  }

  lemma {:induction false} ChangeExactly(changed: seq<KeyDelta>, a: Entry, b: Entry, keys: Option<seq<Keyword>>)
    requires IsChange(changed, a, b, keys)
    ensures changed != [] <==> KeysDiffer(KeysMap(a), KeysMap(b), keys)
  {
    hide KeysMap, Normalised, DeltaOf, Kept;
    var deltas: seq<KeyDelta> :| changed == Filtered(deltas, keys) && IsEntryDiff(deltas, a, b);
    var both := Normalised(KeysMap(a), KeysMap(b)).value;
    FilteredSet(deltas, keys);
    if changed != [] {
      var d := changed[0];
      assert d in KeySet(changed) && d in KeySet(deltas);
      var i :| 0 <= i < |deltas| && deltas[i] == d;
      assert Kept(d.name, keys) && DeltaOf(both.0, both.1, d.name) == Some(d);
    }
    if k :| Kept(k, keys) && (k in both.0 || k in both.1) && DeltaOf(both.0, both.1, k).Some? {
      var d := DeltaOf(both.0, both.1, k).value;
      DeltaName(both.0, both.1, k);
      assert d in KeySet(deltas) && d in KeySet(changed);
    }
  }

  lemma DeltaName(a: Keys, b: Keys, k: Keyword)
    requires (k in a || k in b) && DeltaOf(a, b, k).Some?
    ensures DeltaOf(a, b, k).value.name == k
  {
  }

  /** What compare looks at for a keyword: the value in force, where a time is read as a tar_time as soon as
      either side has a tar_time. */
  function ComparedValue(m: Keys, other: Keys, k: Keyword): Option<Bytes> {
    if k == "time" && ("tar_time" in m || "tar_time" in other) then None
    else if k in m then Some(ValueOf(m[k]))
    else if k == "tar_time" && "time" in m && "tar_time" in other then
      match ConvertToTarTime(ValueOf(m["time"])) case Ok(t) => Some(ValueOf(t)) case Err(_) => None
    else None
  }

  /** A time that must be read as a tar_time cannot be. */
  predicate BadTimeIn(m: Keys, other: Keys) {
    "time" in m && "tar_time" !in m && "tar_time" in other && ConvertToTarTime(ValueOf(m["time"])).Err?
  }

  lemma NormalisedIs(a: Keys, b: Keys)
    ensures Normalised(a, b).Ok? <==> !BadTimeIn(a, b) && !BadTimeIn(b, a)
    ensures Normalised(a, b).Ok? ==>
      var both := Normalised(a, b).value;
      && (forall k :: ComparedValue(a, b, k) == if k in both.0 then Some(ValueOf(both.0[k])) else None)
      && (forall k :: ComparedValue(b, a, k) == if k in both.1 then Some(ValueOf(both.1[k])) else None)
  {
    hide ConvertToTarTime, ValueOf, KeywordOf;
  }

  /** Comparing two entries fails exactly when one has a time that must be read as a tar_time and cannot be. */
  lemma {:induction false} ComparableExactly(a: Entry, b: Entry)
    ensures Comparable(a, b) <==> !BadTimeIn(KeysMap(a), KeysMap(b)) && !BadTimeIn(KeysMap(b), KeysMap(a))
  {
    hide KeysMap, BadTimeIn, ComparedValue;
    NormalisedIs(KeysMap(a), KeysMap(b));
  }

  /** The difference between two values of a keyword. */
  function Delta(k: Keyword, was: Option<Bytes>, now: Option<Bytes>): Option<KeyDelta> {
    match (was, now)
    case (None, None) => None
    case (Some(v), None) => Some(KeyDelta(Missing, k, v, ""))
    case (None, Some(w)) => Some(KeyDelta(Extra, k, "", w))
    case (Some(v), Some(w)) => if v == w then None else Some(KeyDelta(Modified, k, v, w))
  }

  /** The deltas of two entries: one for each keyword whose compared values differ, saying both, and no other. */
  lemma {:induction false} DeltasExactly(deltas: seq<KeyDelta>, a: Entry, b: Entry, d: KeyDelta)
    requires IsEntryDiff(deltas, a, b)
    ensures d in deltas <==> Delta(d.name, ComparedValue(KeysMap(a), KeysMap(b), d.name), ComparedValue(KeysMap(b), KeysMap(a), d.name)) == Some(d)
  {
    hide KeysMap, ComparedValue, KeywordOf, ValueOf, Normalised, WellKeyed;
    var both := Normalised(KeysMap(a), KeysMap(b)).value;
    NormalisedIs(KeysMap(a), KeysMap(b));
    KeysMapWellKeyed(a);
    KeysMapWellKeyed(b);
    NormalisedWellKeyed(KeysMap(a), KeysMap(b));
    DeltaIs(both.0, both.1, d.name);
    if d in deltas {
      var i :| 0 <= i < |deltas| && deltas[i] == d;
    }
  }

  lemma DeltaIs(a: Keys, b: Keys, k: Keyword)
    requires WellKeyed(a) && WellKeyed(b)
    ensures Delta(k, if k in a then Some(ValueOf(a[k])) else None, if k in b then Some(ValueOf(b[k])) else None)
         == if k in a || k in b then DeltaOf(a, b, k) else None
  {
    hide KeywordOf, ValueOf;
  }

  predicate HasDelta(deltas: seq<KeyDelta>, k: Keyword) {
    exists i :: 0 <= i < |deltas| && deltas[i].name == k
  }

  lemma HasDeltaIs(deltas: seq<KeyDelta>, a: Entry, b: Entry, k: Keyword)
    requires IsEntryDiff(deltas, a, b)
    ensures HasDelta(deltas, k) <==> ComparedValue(KeysMap(a), KeysMap(b), k) != ComparedValue(KeysMap(b), KeysMap(a), k)
  {
    hide KeysMap, ComparedValue, IsEntryDiff;
    if i :| 0 <= i < |deltas| && deltas[i].name == k {
      DeltasExactly(deltas, a, b, deltas[i]);
    }
    var d := Delta(k, ComparedValue(KeysMap(a), KeysMap(b), k), ComparedValue(KeysMap(b), KeysMap(a), k));
    if d.Some? {
      DeltasExactly(deltas, a, b, d.value);
    }
  }

  /** Where a time meets a tar_time, tar_time is reported exactly when the seconds differ, and time is not. */
  lemma {:induction false} TimeAgainstTarTime(deltas: seq<KeyDelta>, a: Entry, b: Entry, sec: int, nsec: nat, sec2: int)
    requires InInt64(sec) && nsec < BILLION && InInt64(sec2) && (IsEntryDiff(deltas, a, b) || IsEntryDiff(deltas, b, a))
    requires "time" in KeysMap(a) && KeysMap(a)["time"] == TimeKeyVal(sec, nsec) && "tar_time" !in KeysMap(a)
    requires "tar_time" in KeysMap(b) && KeysMap(b)["tar_time"] == TarTimeKeyVal(sec2)
    ensures HasDelta(deltas, "tar_time") <==> sec != sec2
    ensures !HasDelta(deltas, "time")
  {
    hide KeysMap, IsEntryDiff, ConvertToTarTime, ValueOf, HasDelta, TimeKeyVal, TarTimeKeyVal;
    TimesAgree(sec, nsec);
    TarTimesDiffer(sec, sec2);
    if IsEntryDiff(deltas, a, b) {
      HasDeltaIs(deltas, a, b, "time");
      HasDeltaIs(deltas, a, b, "tar_time");
    } else {
      HasDeltaIs(deltas, b, a, "time");
      HasDeltaIs(deltas, b, a, "tar_time");
    }
  }

  /** With a tar_time on both sides it is reported exactly when the values differ; with one on either side time is
      never reported. */
  lemma {:induction false} TarTimesCompared(deltas: seq<KeyDelta>, a: Entry, b: Entry)
    requires IsEntryDiff(deltas, a, b) && ("tar_time" in KeysMap(a) || "tar_time" in KeysMap(b))
    ensures !HasDelta(deltas, "time")
    ensures "tar_time" in KeysMap(a) && "tar_time" in KeysMap(b) ==>
      (HasDelta(deltas, "tar_time") <==> ValueOf(KeysMap(a)["tar_time"]) != ValueOf(KeysMap(b)["tar_time"]))
  {
    hide KeysMap, IsEntryDiff, ValueOf, HasDelta;
    HasDeltaIs(deltas, a, b, "time");
    HasDeltaIs(deltas, a, b, "tar_time");
  }

  /** The keyword is asked for, by its prefix; time and tar_time stand for each other. */
  predicate AskedFor(k: Keyword, keys: Option<seq<Keyword>>) {
    keys.None? || exists i :: 0 <= i < |keys.value| && StandsFor(keys.value[i], Prefix(k))
  }

  predicate StandsFor(asked: Keyword, word: Keyword) {
    asked == word || (asked == "time" && word == "tar_time") || (asked == "tar_time" && word == "time")
  }

  lemma KeptIs(k: Keyword, keys: Option<seq<Keyword>>)
    ensures Kept(k, keys) <==> AskedFor(k, keys)
  {
    hide Prefix;
    if keys.Some? && Kept(k, keys) {
      var word := Prefix(k);
      var asked := if word in keys.value then word else if word == "time" then "tar_time" else "time";
      var i :| 0 <= i < |keys.value| && keys.value[i] == asked;
      assert StandsFor(keys.value[i], word);
    }
  }

  /** Two entries differ in a keyword that was asked for. */
  ghost predicate Differ(a: Keys, b: Keys, keys: Option<seq<Keyword>>) {
    exists k :: AskedFor(k, keys) && ComparedValue(a, b, k) != ComparedValue(b, a, k)
  }

  lemma {:induction false} KeysDifferIs(a: Keys, b: Keys, keys: Option<seq<Keyword>>)
    requires WellKeyed(a) && WellKeyed(b)
    ensures KeysDiffer(a, b, keys) <==> !BadTimeIn(a, b) && !BadTimeIn(b, a) && Differ(a, b, keys)
  {
    hide ComparedValue, BadTimeIn, Normalised, AskedFor, Kept, WellKeyed, KeywordOf, ValueOf;
    NormalisedIs(a, b);
    if Normalised(a, b).Ok? {
      NormalisedWellKeyed(a, b);
      var both := Normalised(a, b).value;
      if k :| Kept(k, keys) && (k in both.0 || k in both.1) && DeltaOf(both.0, both.1, k).Some? {
        KeptIs(k, keys);
        DeltaIs(both.0, both.1, k);
        assert AskedFor(k, keys) && ComparedValue(a, b, k) != ComparedValue(b, a, k);
      }
      if k :| AskedFor(k, keys) && ComparedValue(a, b, k) != ComparedValue(b, a, k) {
        KeptIs(k, keys);
        DeltaIs(both.0, both.1, k);
        assert Kept(k, keys) && DeltaOf(both.0, both.1, k).Some?;
      }
    }
  }

  /** A path is reported exactly when one side only has it, or a keyword asked for has different values; missing,
      extra or modified accordingly. */
  lemma {:induction false} ReportedExactly(oldDh: Option<seq<Entry>>, newDh: Option<seq<Entry>>, keys: Option<seq<Keyword>>,
                                           r: Result<seq<InodeDelta>, CompareError>, p: Bytes)
    requires IsAnswer(r, oldDh, newDh, keys, false) && r.Ok?
    ensures EntryMapOf(oldDh).Ok? && EntryMapOf(newDh).Ok?
    ensures var o, n := EntryMapOf(oldDh).value, EntryMapOf(newDh).value;
      && (Reported(r.value, p) <==> if p in o && p in n then Differ(KeysMap(o[p]), KeysMap(n[p]), keys) else p in o || p in n)
      && forall i :: 0 <= i < |r.value| && r.value[i].path == p ==> SaysWhich(r.value[i], o, n, keys)
  {
    hide EntryMapOf, KeysMap, KeysDiffer, IsChange, Differ, AllComparable, WellKeyed, Comparable, BadTimeIn, SaysWhich;
    var o, n := EntryMapOf(oldDh).value, EntryMapOf(newDh).value;
    if p in o && p in n {
      KeysMapWellKeyed(o[p]);
      KeysMapWellKeyed(n[p]);
      KeysDifferIs(KeysMap(o[p]), KeysMap(n[p]), keys);
      BothComparable(o, n, p);
      ComparableExactly(o[p], n[p]);
    }
    forall i | 0 <= i < |r.value| && r.value[i].path == p
      ensures SaysWhich(r.value[i], o, n, keys)
      ensures if p in o && p in n then Differ(KeysMap(o[p]), KeysMap(n[p]), keys) else p in o || p in n
    {
      assert IsRight(r.value[i], o, n, keys, false);
      RightSays(r.value[i], o, n, keys);
      if p in o && p in n {
        ChangeExactly(r.value[i].keys, o[p], n[p], keys);
      }
    }
    if !Reported(r.value, p) && p in o && p in n {
      ChangeExactly([], o[p], n[p], keys);
    }
  }

  lemma BothComparable(o: map<Bytes, Entry>, n: map<Bytes, Entry>, p: Bytes)
    requires AllComparable(o, n) && p in o && p in n
    ensures Comparable(o[p], n[p])
  {
    hide Comparable;
  }

  /** The result says which side has the path, or exactly the keywords asked for that differ, with both values. */
  ghost predicate SaysWhich(d: InodeDelta, o: map<Bytes, Entry>, n: map<Bytes, Entry>, keys: Option<seq<Keyword>>) {
    if d.path !in n then d.path in o && d == InodeDelta(Missing, d.path, Some(o[d.path]), None, [])
    else if d.path !in o then d == InodeDelta(Extra, d.path, None, Some(n[d.path]), [])
    else
      && d.diff == Modified && d.was == Some(o[d.path]) && d.now == Some(n[d.path])
      && forall k: KeyDelta :: k in d.keys <==> IsKeyDelta(k, KeysMap(o[d.path]), KeysMap(n[d.path]), keys)
  }

  predicate IsKeyDelta(d: KeyDelta, a: Keys, b: Keys, keys: Option<seq<Keyword>>) {
    AskedFor(d.name, keys) && Delta(d.name, ComparedValue(a, b, d.name), ComparedValue(b, a, d.name)) == Some(d)
  }

  lemma {:induction false} RightSays(d: InodeDelta, o: map<Bytes, Entry>, n: map<Bytes, Entry>, keys: Option<seq<Keyword>>)
    requires IsRight(d, o, n, keys, false)
    ensures SaysWhich(d, o, n, keys)
  {
    hide KeysMap, ComparedValue, AskedFor, Kept, IsEntryDiff;
    if d.path in o && d.path in n {
      var a, b := o[d.path], n[d.path];
      var deltas: seq<KeyDelta> :| d.keys == Filtered(deltas, keys) && IsEntryDiff(deltas, a, b);
      FilteredSet(deltas, keys);
      forall k: KeyDelta
        ensures k in d.keys <==> IsKeyDelta(k, KeysMap(a), KeysMap(b), keys)
      {
        KeptIs(k.name, keys);
        DeltasExactly(deltas, a, b, k);
        assert k in d.keys <==> k in KeySet(d.keys);
        assert k in deltas <==> k in KeySet(deltas);
      }
    }
  }

  // ---------- the entries by path ----------

  predicate NamedAt(e: Entry, p: Bytes) {
    (e.kind == RelativeType || e.kind == FullType) && Path(e) == Ok(p)
  }

  /** The entries by path are the last ones for each path. */
  lemma {:induction false} EntryMapIs(entries: seq<Entry>, p: Bytes, e: Entry)
    requires EntryMap(entries).Ok?
    ensures (p in EntryMap(entries).value && EntryMap(entries).value[p] == e) <==>
      exists i :: 0 <= i < |entries| && entries[i] == e && NamedAt(entries[i], p)
        && forall j :: i < j < |entries| ==> !NamedAt(entries[j], p)
  {
    hide Path;
    if entries != [] {
      EntryMapIs(entries[..|entries| - 1], p, e);
    }
  }

  /** They fail to be made exactly when the name of some entry does not decode. */
  lemma {:induction false} EntryMapFails(entries: seq<Entry>)
    ensures EntryMap(entries).Err? <==>
      exists i :: 0 <= i < |entries| && (entries[i].kind == RelativeType || entries[i].kind == FullType) && Path(entries[i]).Err?
  {
    hide Path;
    if entries != [] {
      EntryMapFails(entries[..|entries| - 1]);
    }
  }

  // ---------- exchange ----------

  /** A result with its keywords as a set. */
  datatype View = View(diff: DiffType, path: Bytes, was: Option<Entry>, now: Option<Entry>, keys: set<KeyDelta>)

  function ViewOf(d: InodeDelta): View {
    View(d.diff, d.path, d.was, d.now, KeySet(d.keys))
  }

  function Views(results: seq<InodeDelta>): set<View> {
    set i | 0 <= i < |results| :: ViewOf(results[i])
  }

  function SwapView(v: View): View {
    View(SwapType(v.diff), v.path, v.now, v.was, SwapKeys(v.keys))
  }

  function SwapViews(vs: set<View>): set<View> {
    set v | v in vs :: SwapView(v)
  }

  lemma SwapSelected(ds: set<KeyDelta>, keys: Option<seq<Keyword>>)
    ensures (set d | d in SwapKeys(ds) && Kept(d.name, keys)) == SwapKeys(set d | d in ds && Kept(d.name, keys))
  {
    hide Kept;
    forall d | d in SwapKeys(ds) && Kept(d.name, keys)
      ensures d in SwapKeys(set e | e in ds && Kept(e.name, keys))
    {
      var e :| e in ds && d == SwapKey(e);
    }
  }

  lemma {:induction false} ChangeSwaps(x: seq<KeyDelta>, y: seq<KeyDelta>, a: Entry, b: Entry, keys: Option<seq<Keyword>>)
    requires IsChange(x, a, b, keys) && IsChange(y, b, a, keys)
    ensures KeySet(y) == SwapKeys(KeySet(x)) && (x == [] <==> y == [])
  {
    hide KeysMap, Normalised, IsDiff, Kept, SwapKey;
    var ds: seq<KeyDelta> :| x == Filtered(ds, keys) && IsEntryDiff(ds, a, b);
    var es: seq<KeyDelta> :| y == Filtered(es, keys) && IsEntryDiff(es, b, a);
    NormalisedSwaps(KeysMap(a), KeysMap(b));
    var both := Normalised(KeysMap(a), KeysMap(b)).value;
    DiffSwaps(ds, es, both.0, both.1);
    FilteredSet(ds, keys);
    FilteredSet(es, keys);
    SwapSelected(KeySet(ds), keys);
    if x != [] {
      assert SwapKey(x[0]) in SwapKeys(KeySet(x));
    }
    if y != [] {
      assert y[0] in KeySet(y);
    }
  }

  /** Each result one way has its exchange among the results the other way. */
  lemma SwapFound(rs: seq<InodeDelta>, ss: seq<InodeDelta>, o: map<Bytes, Entry>, n: map<Bytes, Entry>,
                  keys: Option<seq<Keyword>>, same: bool, i: nat)
    requires IsComparison(rs, o, n, keys, same) && IsComparison(ss, n, o, keys, same) && i < |rs|
    ensures SwapView(ViewOf(rs[i])) in Views(ss)
  {
    hide IsChange;
    var d := rs[i];
    var p := d.path;
    assert IsRight(d, o, n, keys, same);
    if !Reported(ss, p) {
      assert MayOmit(n, o, keys, same, p);
      ChangeSwaps(d.keys, [], o[p], n[p], keys);
    }
    var j :| 0 <= j < |ss| && ss[j].path == p;
    assert IsRight(ss[j], n, o, keys, same);
    if p in o && p in n {
      ChangeSwaps(d.keys, ss[j].keys, o[p], n[p], keys);
    }
    assert ViewOf(ss[j]) == SwapView(ViewOf(d));
  }

  lemma SwapViewTwice(v: View)
    ensures SwapView(SwapView(v)) == v
  {
    forall k
      ensures k in SwapKeys(SwapKeys(v.keys)) <==> k in v.keys
    {
      assert SwapKey(SwapKey(k)) == k;
      if k in SwapKeys(SwapKeys(v.keys)) {
        var l :| l in SwapKeys(v.keys) && k == SwapKey(l);
        var m :| m in v.keys && l == SwapKey(m);
        assert SwapKey(SwapKey(m)) == m;
      }
      if k in v.keys {
        assert SwapKey(k) in SwapKeys(v.keys);
      }
    }
  }

  /** Exchanging the manifests exchanges Missing with Extra and old with new, and changes nothing
      else; one comparison fails exactly when the other does. */
  lemma {:induction false} CompareSwaps(oldDh: Option<seq<Entry>>, newDh: Option<seq<Entry>>, keys: Option<seq<Keyword>>, same: bool,
                     r: Result<seq<InodeDelta>, CompareError>, s: Result<seq<InodeDelta>, CompareError>)
    requires IsAnswer(r, oldDh, newDh, keys, same) && IsAnswer(s, newDh, oldDh, keys, same)
    ensures r.Err? <==> s.Err?
    ensures r.Ok? ==> Views(s.value) == SwapViews(Views(r.value))
  {
    hide KeysMap, EntryMapOf, IsComparison, Normalised;
    if EntryMapOf(oldDh).Ok? && EntryMapOf(newDh).Ok? {
      var o, n := EntryMapOf(oldDh).value, EntryMapOf(newDh).value;
      forall p | p in o && p in n
        ensures Comparable(o[p], n[p]) <==> Comparable(n[p], o[p])
      {
        NormalisedSwaps(KeysMap(o[p]), KeysMap(n[p]));
      }
      if r.Ok? {
        ViewsSwap(r.value, s.value, o, n, keys, same);
      }
    }
  }

  lemma ViewsSwap(rs: seq<InodeDelta>, ss: seq<InodeDelta>, o: map<Bytes, Entry>, n: map<Bytes, Entry>,
                  keys: Option<seq<Keyword>>, same: bool)
    requires IsComparison(rs, o, n, keys, same) && IsComparison(ss, n, o, keys, same)
    ensures Views(ss) == SwapViews(Views(rs))
  {
    hide IsComparison, SwapView, ViewOf;
    forall v | v in SwapViews(Views(rs))
      ensures v in Views(ss)
    {
      var w :| w in Views(rs) && v == SwapView(w);
      var i :| 0 <= i < |rs| && w == ViewOf(rs[i]);
      SwapFound(rs, ss, o, n, keys, same, i);
    }
    forall v | v in Views(ss)
      ensures v in SwapViews(Views(rs))
    {
      var i :| 0 <= i < |ss| && v == ViewOf(ss[i]);
      SwapFound(ss, rs, n, o, keys, same, i);
      SwapViewTwice(v);
    }
  }
}
