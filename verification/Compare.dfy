/** Comparing two manifests, compare.go.  Go ranges over its maps in no fixed order, so results are
    characterised as sets with one element per keyword and per path. */
module Compare {
  import opened GoBytes
  import opened Govis
  import opened Keywords
  import opened Entries
  import opened Times

  datatype DiffType = Missing | Extra | Modified | Same

  /** A discrepancy in one keyword; the value it lacks on one side is empty. */
  datatype KeyDelta = KeyDelta(diff: DiffType, name: Keyword, was: Bytes, now: Bytes)

  datatype InodeDelta = InodeDelta(diff: DiffType, path: Bytes, was: Option<Entry>, now: Option<Entry>, keys: seq<KeyDelta>)

  datatype CompareError = BadPath(name: VisError) | BadTime(time: TimeError)

  type Keys = map<Keyword, KeyVal>

  // ---------- one entry ----------

  predicate NeedsTarTime(a: Keys, b: Keys) {
    ("tar_time" in a || "tar_time" in b) && ("time" in a || "time" in b)
  }

  /** The side's keys without "time", which becomes "tar_time" unless there is one already. */
  function AsTarTime(m: Keys): Result<Keys, CompareError> {
    if "time" in m && "tar_time" !in m then Replaced(m - {"time"}, ConvertToTarTime(ValueOf(m["time"]))) else Ok(m - {"time"})
  }

  function Replaced(m: Keys, tarTime: Result<KeyVal, TimeError>): Result<Keys, CompareError> {
    match tarTime case Ok(t) => Ok(m["tar_time" := t]) case Err(e) => Err(BadTime(e))
  }

  /** Both sides as compareEntry compares them. */
  function Normalised(old_: Keys, new_: Keys): Result<(Keys, Keys), CompareError> {
    if !NeedsTarTime(old_, new_) then Ok((old_, new_))
    else
      var o :- AsTarTime(old_);
      var n :- AsTarTime(new_);
      Ok((o, n))
  }

  function DeltaOf(old_: Keys, new_: Keys, k: Keyword): Option<KeyDelta>
    requires k in old_ || k in new_
  {
    if k !in new_ then Some(KeyDelta(Missing, k, ValueOf(old_[k]), ""))
    else if k !in old_ then Some(KeyDelta(Extra, k, "", ValueOf(new_[k])))
    else if !Equal(old_[k], new_[k]) then Some(KeyDelta(Modified, k, ValueOf(old_[k]), ValueOf(new_[k])))
    else None
  }

  predicate OnePerName(deltas: seq<KeyDelta>) {
    forall i, j :: 0 <= i < j < |deltas| ==> deltas[i].name != deltas[j].name
  }

  /** One delta for each keyword that differs, and none for any other. */
  ghost predicate IsDiff(deltas: seq<KeyDelta>, old_: Keys, new_: Keys) {
    && OnePerName(deltas)
    && (forall i :: 0 <= i < |deltas| ==>
          (deltas[i].name in old_ || deltas[i].name in new_) && DeltaOf(old_, new_, deltas[i].name) == Some(deltas[i]))
    && (forall k :: (k in old_ || k in new_) && DeltaOf(old_, new_, k).Some? ==> DeltaOf(old_, new_, k).value in deltas)
  }

  lemma SomeLeft<T>(all: set<T>, seen: set<T>)
    requires seen <= all && seen != all
    ensures exists x :: x in all && x !in seen
  {
    assert all <= seen ==> all == seen;
  }

  /** The comparison of two key maps, key by key in any order. */
  method DiffKeys(old_: Keys, new_: Keys) returns (results: seq<KeyDelta>)
    ensures IsDiff(results, old_, new_)
  {
    hide ValueOf, Equal;
    results := [];
    var seen: set<Keyword> := {};
    var all := new_.Keys + old_.Keys;
    while seen != all
      invariant seen <= all && OnePerName(results)
      invariant forall i :: 0 <= i < |results| ==>
        results[i].name in seen && DeltaOf(old_, new_, results[i].name) == Some(results[i])
      invariant forall k :: k in seen && DeltaOf(old_, new_, k).Some? ==> DeltaOf(old_, new_, k).value in results
      decreases all - seen
    {
      SomeLeft(all, seen);
      var k :| k in all && k !in seen;
      if k !in new_ {
        results := results + [KeyDelta(Missing, k, ValueOf(old_[k]), "")];
      } else if k !in old_ {
        results := results + [KeyDelta(Extra, k, "", ValueOf(new_[k]))];
      } else if !Equal(old_[k], new_[k]) {
        results := results + [KeyDelta(Modified, k, ValueOf(old_[k]), ValueOf(new_[k]))];
      }
      seen := seen + {k};
    }
  }

  method CompareEntry(oldEntry: Entry, newEntry: Entry) returns (r: Result<seq<KeyDelta>, CompareError>)
    ensures match Normalised(KeysMap(oldEntry), KeysMap(newEntry))
      case Err(e) => r == Err(e)
      case Ok(both) => r.Ok? && IsDiff(r.value, both.0, both.1)
  {
    hide KeysMap, ConvertToTarTime, ValueOf, IsDiff;
    var oldKeys := AllKeysMap(oldEntry);
    var newKeys := AllKeysMap(newEntry);
    if ("tar_time" in oldKeys || "tar_time" in newKeys) && ("time" in oldKeys || "time" in newKeys) {
      var oldHadTime, newHadTime := "time" in oldKeys, "time" in newKeys;
      var oldTime: KeyVal := if oldHadTime then oldKeys["time"] else "";
      var newTime: KeyVal := if newHadTime then newKeys["time"] else "";
      oldKeys := oldKeys - {"time"};
      newKeys := newKeys - {"time"};
      if oldHadTime && "tar_time" !in oldKeys {
        var tarTime := ConvertToTarTime(ValueOf(oldTime));
        if tarTime.Err? {
          return Err(BadTime(tarTime.error));
        }
        oldKeys := oldKeys["tar_time" := tarTime.value];
      } else if newHadTime && "tar_time" !in newKeys {
        var tarTime := ConvertToTarTime(ValueOf(newTime));
        if tarTime.Err? {
          return Err(BadTime(tarTime.error));
        }
        newKeys := newKeys["tar_time" := tarTime.value];
      }
    }
    var results := DiffKeys(oldKeys, newKeys);
    return Ok(results);
  }

  // ---------- a diff is a patch ----------

  predicate WellKeyed(m: Keys) {
    forall k :: k in m ==> KeywordOf(m[k]) == k
  }

  function Values(m: Keys): map<Keyword, Bytes> {
    map k | k in m :: ValueOf(m[k])
  }

  function ApplyDelta(m: map<Keyword, Bytes>, d: KeyDelta): map<Keyword, Bytes> {
    if d.diff == Missing then m - {d.name} else m[d.name := d.now]
  }

  function Apply(m: map<Keyword, Bytes>, deltas: seq<KeyDelta>): map<Keyword, Bytes> {
    if deltas == [] then m else ApplyDelta(Apply(m, deltas[..|deltas| - 1]), deltas[|deltas| - 1])
  }

  lemma {:induction false} ApplyAt(m: map<Keyword, Bytes>, deltas: seq<KeyDelta>, k: Keyword)
    requires OnePerName(deltas)
    ensures (forall i :: 0 <= i < |deltas| ==> deltas[i].name != k) ==>
              (k in Apply(m, deltas) <==> k in m) && (k in m ==> Apply(m, deltas)[k] == m[k])
    ensures forall i :: 0 <= i < |deltas| && deltas[i].name == k ==>
              (k in Apply(m, deltas) <==> deltas[i].diff != Missing)
              && (deltas[i].diff != Missing ==> Apply(m, deltas)[k] == deltas[i].now)
  {
    if deltas != [] {
      ApplyAt(m, deltas[..|deltas| - 1], k);
    }
  }

  /** Applying the deltas to the old values gives exactly the new values. */
  lemma {:induction false} DiffIsPatch(deltas: seq<KeyDelta>, old_: Keys, new_: Keys)
    requires WellKeyed(old_) && WellKeyed(new_) && IsDiff(deltas, old_, new_)
    ensures Apply(Values(old_), deltas) == Values(new_)
  {
    hide KeywordOf, ValueOf;
    var patched := Apply(Values(old_), deltas);
    forall k
      ensures k in patched <==> k in Values(new_)
      ensures k in patched ==> patched[k] == Values(new_)[k]
    {
      ApplyAt(Values(old_), deltas, k);
      if k in old_ || k in new_ {
        if DeltaOf(old_, new_, k).Some? {
          var i :| 0 <= i < |deltas| && deltas[i] == DeltaOf(old_, new_, k).value;
        }
      }
    }
  }

  lemma KeysMapWellKeyed(e: Entry)
    ensures WellKeyed(KeysMap(e))
  {
    hide KeywordOf;
    forall k | k in KeysMap(e)
      ensures KeywordOf(KeysMap(e)[k]) == k
    {
      MapOfIsLookup(AllKeys(e), k);
      LookupFacts(AllKeys(e), k);
    }
  }

  lemma {:induction false} NormalisedWellKeyed(old_: Keys, new_: Keys)
    requires WellKeyed(old_) && WellKeyed(new_) && Normalised(old_, new_).Ok?
    ensures WellKeyed(Normalised(old_, new_).value.0) && WellKeyed(Normalised(old_, new_).value.1)
  {
    if NeedsTarTime(old_, new_) {
      AsTarTimeWellKeyed(old_);
      AsTarTimeWellKeyed(new_);
    }
  }

  lemma {:induction false} AsTarTimeWellKeyed(m: Keys)
    requires WellKeyed(m) && AsTarTime(m).Ok?
    ensures WellKeyed(AsTarTime(m).value)
  {
    hide KeywordOf, ValueOf, TarTimeKeyVal, ScanInt;
    if "time" in m && "tar_time" !in m {
      TarTimeValue(ScanInt(ValueOf(m["time"])).value.0);
    }
  }

  /** For any two entries: the deltas turn the old entry's normalised values into the new entry's. */
  lemma {:induction false} EntryDiffIsPatch(oldEntry: Entry, newEntry: Entry, deltas: seq<KeyDelta>)
    requires Normalised(KeysMap(oldEntry), KeysMap(newEntry)).Ok?
    requires var both := Normalised(KeysMap(oldEntry), KeysMap(newEntry)).value; IsDiff(deltas, both.0, both.1)
    ensures var both := Normalised(KeysMap(oldEntry), KeysMap(newEntry)).value;
      Apply(Values(both.0), deltas) == Values(both.1)
  {
    hide WellKeyed, IsDiff, KeysMap;
    KeysMapWellKeyed(oldEntry);
    KeysMapWellKeyed(newEntry);
    NormalisedWellKeyed(KeysMap(oldEntry), KeysMap(newEntry));
    var both := Normalised(KeysMap(oldEntry), KeysMap(newEntry)).value;
    DiffIsPatch(deltas, both.0, both.1);
  }

  // ---------- exchanging the sides ----------

  function SwapType(d: DiffType): DiffType {
    match d case Missing => Extra case Extra => Missing case _ => d
  }

  function SwapKey(d: KeyDelta): KeyDelta {
    KeyDelta(SwapType(d.diff), d.name, d.now, d.was)
  }

  function SwapKeys(ds: set<KeyDelta>): set<KeyDelta> {
    set d | d in ds :: SwapKey(d)
  }

  function KeySet(ds: seq<KeyDelta>): set<KeyDelta> {
    set d | d in ds
  }

  /** The two conversions never apply together, so the sides are normalised alike either way round. */
  lemma NormalisedSwaps(a: Keys, b: Keys)
    ensures Normalised(a, b).Ok? <==> Normalised(b, a).Ok?
    ensures Normalised(a, b).Ok? ==>
      Normalised(b, a).value == (Normalised(a, b).value.1, Normalised(a, b).value.0)
  {
  }

  lemma DeltaSwaps(a: Keys, b: Keys, k: Keyword)
    requires k in a || k in b
    ensures DeltaOf(b, a, k) == match DeltaOf(a, b, k) case Some(d) => Some(SwapKey(d)) case None => None
  {
  }

  lemma DiffSwaps(ds: seq<KeyDelta>, es: seq<KeyDelta>, a: Keys, b: Keys)
    requires IsDiff(ds, a, b) && IsDiff(es, b, a)
    ensures KeySet(es) == SwapKeys(KeySet(ds))
  {
    hide DeltaOf;
    forall d | d in SwapKeys(KeySet(ds))
      ensures d in KeySet(es)
    {
      var e :| e in ds && d == SwapKey(e);
      DeltaSwaps(a, b, e.name);
    }
    forall d | d in KeySet(es)
      ensures d in SwapKeys(KeySet(ds))
    {
      DeltaSwaps(b, a, d.name);
      var e := DeltaOf(a, b, d.name).value;
      assert SwapKey(e) == d;
    }
  }

  // ---------- whole manifests ----------

  /** The entries by path; a later entry for the same path wins. */
  function EntryMap(entries: seq<Entry>): Result<map<Bytes, Entry>, VisError> {
    if entries == [] then Ok(map[])
    else
      var before :- EntryMap(entries[..|entries| - 1]);
      var e := entries[|entries| - 1];
      if e.kind == RelativeType || e.kind == FullType then
        var path :- Path(e);
        Ok(before[path := e])
      else Ok(before)
  }

  /** A missing manifest is an empty one. */
  function EntryMapOf(dh: Option<seq<Entry>>): Result<map<Bytes, Entry>, VisError> {
    match dh case None => Ok(map[]) case Some(entries) => EntryMap(entries)
  }

  method ToEntryMap(dh: Option<seq<Entry>>) returns (r: Result<map<Bytes, Entry>, VisError>)
    ensures r == EntryMapOf(dh)
  {
    hide Path;
    if dh.None? {
      return Ok(map[]);
    }
    var entries := dh.value;
    var m: map<Bytes, Entry> := map[];
    for i := 0 to |entries|
      invariant EntryMap(entries[..i]) == Ok(m)
    {
      assert entries[..i + 1][..i] == entries[..i];
      var e := entries[i];
      if e.kind == RelativeType || e.kind == FullType {
        var path := Path(e);
        if path.Err? {
          BadPathFails(entries, i + 1);
          return Err(path.error);
        }
        m := m[path.value := e];
      }
    }
    assert entries[..|entries|] == entries;
    return Ok(m);
  }

  /** The first path that does not decode is the answer. */
  lemma {:induction false} BadPathFails(entries: seq<Entry>, n: nat)
    requires n <= |entries| && EntryMap(entries[..n]).Err?
    ensures EntryMap(entries) == EntryMap(entries[..n])
    decreases |entries| - n
  {
    if n < |entries| {
      assert entries[..n + 1][..n] == entries[..n];
      BadPathFails(entries, n + 1);
    } else {
      assert entries[..n] == entries;
    }
  }

  /** The requested keywords, where "time" and "tar_time" stand for each other. */
  predicate Kept(name: Keyword, keys: Option<seq<Keyword>>) {
    keys.None? ||
    (var p := Prefix(name);
     p in keys.value || (p == "time" && "tar_time" in keys.value) || (p == "tar_time" && "time" in keys.value))
  }

  function Filtered(deltas: seq<KeyDelta>, keys: Option<seq<Keyword>>): seq<KeyDelta> {
    if deltas == [] then []
    else
      var d := deltas[|deltas| - 1];
      Filtered(deltas[..|deltas| - 1], keys) + if Kept(d.name, keys) then [d] else []
  }

  lemma {:induction false} FilteredSet(deltas: seq<KeyDelta>, keys: Option<seq<Keyword>>)
    ensures KeySet(Filtered(deltas, keys)) == set d | d in KeySet(deltas) && Kept(d.name, keys)
    ensures OnePerName(deltas) ==> OnePerName(Filtered(deltas, keys))
  {
    hide Kept;
    if deltas != [] {
      var n := |deltas| - 1;
      var rest := Filtered(deltas[..n], keys);
      FilteredSet(deltas[..n], keys);
      assert deltas == deltas[..n] + [deltas[n]];
      assert forall i :: 0 <= i < |rest| ==> rest[i] in KeySet(rest);
      var kept := if Kept(deltas[n].name, keys) then [deltas[n]] else [];
      KeySetConcat(deltas[..n], [deltas[n]]);
      KeySetConcat(rest, kept);
      assert KeySet([deltas[n]]) == {deltas[n]} && KeySet(kept) == if Kept(deltas[n].name, keys) then {deltas[n]} else {};
    }
  }

  lemma KeySetConcat(a: seq<KeyDelta>, b: seq<KeyDelta>)
    ensures KeySet(a + b) == KeySet(a) + KeySet(b)
  {
    assert forall d :: d in a + b <==> d in a || d in b;
  }

  /** The requested keywords in which two entries differ. */
  ghost predicate IsChange(changed: seq<KeyDelta>, a: Entry, b: Entry, keys: Option<seq<Keyword>>) {
    exists deltas :: changed == Filtered(deltas, keys) && IsEntryDiff(deltas, a, b)
  }

  ghost predicate IsEntryDiff(deltas: seq<KeyDelta>, a: Entry, b: Entry) {
    var both := Normalised(KeysMap(a), KeysMap(b));
    both.Ok? && IsDiff(deltas, both.value.0, both.value.1)
  }

  predicate Comparable(a: Entry, b: Entry) {
    Normalised(KeysMap(a), KeysMap(b)).Ok?
  }

  type Entries_ = map<Bytes, Entry>

  predicate AllComparable(o: Entries_, n: Entries_) {
    forall p :: p in o && p in n ==> Comparable(o[p], n[p])
  }

  /** The result d is right for its path. */
  ghost predicate IsRight(d: InodeDelta, o: Entries_, n: Entries_, keys: Option<seq<Keyword>>, same: bool) {
    if d.path in o && d.path !in n then d == InodeDelta(Missing, d.path, Some(o[d.path]), None, [])
    else if d.path !in o && d.path in n then d == InodeDelta(Extra, d.path, None, Some(n[d.path]), [])
    else
      && d.path in o && d.path in n
      && d.was == Some(o[d.path]) && d.now == Some(n[d.path])
      && IsChange(d.keys, o[d.path], n[d.path], keys)
      && d.diff == (if d.keys != [] then Modified else Same) && (d.diff == Same ==> same)
  }

  predicate OnePerPath(results: seq<InodeDelta>) {
    forall i, j :: 0 <= i < j < |results| ==> results[i].path != results[j].path
  }

  predicate Reported(results: seq<InodeDelta>, p: Bytes) {
    exists i :: 0 <= i < |results| && results[i].path == p
  }

  /** A path of the union goes unreported only if both sides have it and nothing requested changed. */
  ghost predicate MayOmit(o: Entries_, n: Entries_, keys: Option<seq<Keyword>>, same: bool, p: Bytes) {
    p in o && p in n && !same && IsChange([], o[p], n[p], keys)
  }

  ghost predicate IsComparison(results: seq<InodeDelta>, o: Entries_, n: Entries_, keys: Option<seq<Keyword>>, same: bool) {
    && OnePerPath(results)
    && (forall i :: 0 <= i < |results| ==> IsRight(results[i], o, n, keys, same))
    && (forall p :: p in o || p in n ==> Reported(results, p) || MayOmit(o, n, keys, same, p))
  }

  ghost predicate IsAnswer(r: Result<seq<InodeDelta>, CompareError>, oldDh: Option<seq<Entry>>, newDh: Option<seq<Entry>>,
                           keys: Option<seq<Keyword>>, same: bool)
  {
    var o, n := EntryMapOf(oldDh), EntryMapOf(newDh);
    if o.Err? then r == Err(BadPath(o.error))
    else if n.Err? then r == Err(BadPath(n.error))
    else if !AllComparable(o.value, n.value) then r.Err? && r.error.BadTime?
    else r.Ok? && IsComparison(r.value, o.value, n.value, keys, same)
  }

  method FilterDeltas(deltas: seq<KeyDelta>, keys: Option<seq<Keyword>>) returns (changed: seq<KeyDelta>)
    ensures changed == Filtered(deltas, keys)
  {
    changed := [];
    for i := 0 to |deltas|
      invariant changed == Filtered(deltas[..i], keys)
    {
      assert deltas[..i + 1][..i] == deltas[..i];
      if Kept(deltas[i].name, keys) {
        changed := changed + [deltas[i]];
      }
    }
    assert deltas[..|deltas|] == deltas;
  }

  /** The verdict on one path. */
  method ComparePath(o: Entries_, n: Entries_, keys: Option<seq<Keyword>>, same: bool, p: Bytes)
    returns (err: Option<CompareError>, found: Option<InodeDelta>)
    requires p in o || p in n
    ensures err.Some? <==> p in o && p in n && !Comparable(o[p], n[p])
    ensures err.Some? ==> err.value.BadTime?
    ensures err.None? && found.Some? ==> found.value.path == p && IsRight(found.value, o, n, keys, same)
    ensures err.None? && found.None? ==> MayOmit(o, n, keys, same, p)
  {
    hide KeysMap, IsDiff, AsTarTime, Filtered;
    if p !in n {
      return None, Some(InodeDelta(Missing, p, Some(o[p]), None, []));
    }
    if p !in o {
      return None, Some(InodeDelta(Extra, p, None, Some(n[p]), []));
    }
    var deltas := CompareEntry(o[p], n[p]);
    if deltas.Err? {
      NormaliseErrors(KeysMap(o[p]), KeysMap(n[p]));
      return Some(deltas.error), None;
    }
    var changed := FilterDeltas(deltas.value, keys);
    assert IsEntryDiff(deltas.value, o[p], n[p]);
    assert IsChange(changed, o[p], n[p], keys);
    if |changed| > 0 {
      return None, Some(InodeDelta(Modified, p, Some(o[p]), Some(n[p]), changed));
    } else if same {
      return None, Some(InodeDelta(Same, p, Some(o[p]), Some(n[p]), changed));
    }
    return None, None;
  }

  lemma NormaliseErrors(a: Keys, b: Keys)
    ensures Normalised(a, b).Err? ==> Normalised(a, b).error.BadTime?
  {
  }

  /** compare, the workhorse of Compare and CompareSame. */
  method CompareManifests(oldDh: Option<seq<Entry>>, newDh: Option<seq<Entry>>, keys: Option<seq<Keyword>>, same: bool)
    returns (r: Result<seq<InodeDelta>, CompareError>)
    ensures IsAnswer(r, oldDh, newDh, keys, same)
  {
    hide IsRight, MayOmit, Comparable;
    var oldEntries := ToEntryMap(oldDh);
    if oldEntries.Err? {
      return Err(BadPath(oldEntries.error));
    }
    var newEntries := ToEntryMap(newDh);
    if newEntries.Err? {
      return Err(BadPath(newEntries.error));
    }
    var o, n := oldEntries.value, newEntries.value;
    var results: seq<InodeDelta> := [];
    var seen: set<Bytes> := {};
    var all := o.Keys + n.Keys;
    while seen != all
      invariant seen <= all && OnePerPath(results)
      invariant forall i :: 0 <= i < |results| ==> results[i].path in seen && IsRight(results[i], o, n, keys, same)
      invariant forall p :: p in seen ==> Reported(results, p) || MayOmit(o, n, keys, same, p)
      invariant forall p :: p in seen && p in o && p in n ==> Comparable(o[p], n[p])
      decreases all - seen
    {
      SomeLeft(all, seen);
      var p :| p in all && p !in seen;
      var err, found := ComparePath(o, n, keys, same, p);
      if err.Some? {
        return Err(err.value);
      }
      if found.Some? {
        ReportedMore(results, found.value);
        results := results + [found.value];
      }
      seen := seen + {p};
    }
    return Ok(results);
  }

  lemma ReportedMore(results: seq<InodeDelta>, d: InodeDelta)
    ensures forall p :: Reported(results, p) ==> Reported(results + [d], p)
    ensures Reported(results + [d], d.path)
  {
    forall p | Reported(results, p)
      ensures Reported(results + [d], p)
    {
      var i :| 0 <= i < |results| && results[i].path == p;
      assert (results + [d])[i].path == p;
    }
    assert (results + [d])[|results|] == d;
  }
}
