/** The entries of a manifest, entry.go.  No entry reached through a Parent or Set pointer of a
    walked or parsed manifest is written once it has been appended, so entries are values here. */
module Entries {
  import opened GoBytes
  import opened GoStrings
  import opened Govis
  import opened Keywords
  import opened Paths

  datatype EntryType = SignatureType | BlankType | CommentType | SpecialType | RelativeType | DotDotType | FullType

  datatype Entry = Entry(
    parent: Option<Entry>,
    setLine: Option<Entry>,
    pos: nat,
    raw: Bytes,
    name: Bytes,
    keywords: seq<KeyVal>,
    kind: EntryType)

  const TYPE_DIR: KeyVal := "type=dir"

  function Path(e: Entry): Result<Bytes, VisError> {
    var decoded :- Decode(e.name, DEFAULT_VIS_FLAGS);
    var name := CleanPath(decoded);
    if e.parent.None? || e.kind == FullType then Ok(name)
    else
      var above :- Path(e.parent.value);
      Ok(CleanPath(JoinPath(above, name)))
  }

  /** The key-values in force for the entry: its own win over those of its /set line. */
  function AllKeys(e: Entry): seq<KeyVal> {
    match e.setLine case Some(s) => Merged(s.keywords, e.keywords) case None => e.keywords
  }

  function KeysMap(e: Entry): map<Keyword, KeyVal> {
    MapOf(AllKeys(e))
  }

  function FirstOfType(kvs: seq<KeyVal>): Option<KeyVal> {
    if kvs == [] then None
    else if Prefix(KeywordOf(kvs[0])) == "type" then Some(kvs[0])
    else FirstOfType(kvs[1..])
  }

  predicate IsDir(e: Entry) {
    var t := FirstOfType(AllKeys(e));
    t.Some? && ValueOf(t.value) == "dir"
  }

  /** Entry.String */
  function Line(e: Entry): Bytes {
    if e.raw != "" then e.raw
    else if e.kind == BlankType then ""
    else if e.kind == DotDotType then e.name
    else
      var text := e.name + [' '] + Join(e.keywords, ' ');
      if e.kind == SpecialType || e.kind == FullType || TYPE_DIR in e.keywords then text
      else if e.parent.Some? then "    " + text
      else text
  }

  method AllKeysMap(e: Entry) returns (keyMap: map<Keyword, KeyVal>)
    ensures keyMap == KeysMap(e)
  {
    var all := e.keywords;
    if e.setLine.Some? {
      all := MergeKeyValSet(e.setLine.value.keywords, e.keywords);
    }
    keyMap := map[];
    for i := 0 to |all|
      invariant keyMap == MapOf(all[..i])
    {
      assert all[..i + 1][..i] == all[..i];
      keyMap := keyMap[KeywordOf(all[i]) := all[i]];
    }
    assert all[..|all|] == all;
  }

  /** What is in force is the /set line's map overridden by the entry's own. */
  lemma KeysMapIs(e: Entry)
    ensures KeysMap(e) == (if e.setLine.Some? then MapOf(e.setLine.value.keywords) else map[]) + MapOf(e.keywords)
  {
    if e.setLine.Some? {
      MergedIsOverride(e.setLine.value.keywords, e.keywords);
    }
  }

  // ---------- paths ----------

  /** No path ever climbs, whatever the names in the manifest decode to. */
  lemma {:induction false} PathNeverUp(e: Entry)
    ensures Path(e).Ok? ==> ".." !in Split(Path(e).value, '/') && CleanPath(Path(e).value) == Path(e).value
  {
    if Path(e).Ok? {
      var name := CleanPath(Decode(e.name, DEFAULT_VIS_FLAGS).value);
      var before := if e.parent.None? || e.kind == FullType
                    then Decode(e.name, DEFAULT_VIS_FLAGS).value
                    else JoinPath(Path(e.parent.value).value, name);
      CleanPathNeverUp(before);
      CleanPathIdempotent(before);
    }
  }

  /** A relative entry lies in its parent's directory: its segments are the parent's, then its own name's. */
  lemma {:induction false} PathBelowParent(e: Entry)
    requires Path(e).Ok? && e.parent.Some? && e.kind != FullType
    requires Path(e.parent.value).value != ""
    ensures Under(Path(e).value, Path(e.parent.value).value)
    ensures var name := Decode(e.name, DEFAULT_VIS_FLAGS).value;
      Segments(Path(e).value)
        == Segments(Path(e.parent.value).value) + if name == "" then [] else SafeSegments(name)
  {
    PathNeverUp(e.parent.value);
    CleanBelow(Path(e.parent.value).value, Decode(e.name, DEFAULT_VIS_FLAGS).value);
  }

  /** The path of a full entry, or of one in no directory, is its decoded name, cleaned; it fails when the name or one above
      does not decode. */
  lemma {:induction false} PathAlone(e: Entry)
    requires e.parent.None? || e.kind == FullType
    ensures match Decode(e.name, DEFAULT_VIS_FLAGS)
      case Ok(name) => Path(e) == Ok(CleanPath(name))
      case Err(error) => Path(e) == Err(error)
  {
  }

  // ---------- lines ----------

  /** A raw line prints as it is; a special line, a full path and a directory that says so begin at the margin, and any other
      entry below a directory four spaces in; name and key-values are separated by single spaces. */
  lemma LinePrinted(e: Entry)
    ensures e.raw != "" ==> Line(e) == e.raw
    ensures e.raw == "" && e.kind == BlankType ==> Line(e) == ""
    ensures e.raw == "" && (e.kind == RelativeType || e.kind == FullType || e.kind == SpecialType) ==>
      var indent := if e.kind == RelativeType && e.parent.Some? && "type=dir" !in e.keywords then "    " else "";
      Line(e) == indent + Join([e.name] + (if e.keywords == [] then [""] else e.keywords), ' ')
  {
    var kvs := if e.keywords == [] then [""] else e.keywords;
    assert ([e.name] + kvs)[1..] == kvs;
    assert Join(kvs, ' ') == Join(e.keywords, ' ');
    var text := Join([e.name] + kvs, ' ');
    assert text == e.name + [' '] + Join(kvs, ' ') && "" + text == text;
  }
}
