/** When ParseSpec indexes past the fields of a line, and what holds of the entries it answers. */
module SpecLaws {
  import opened GoBytes
  import opened GoStrings
  import opened Keywords
  import opened Entries
  import opened Manifest
  import opened Printing
  import opened Spec
  import Paths

  // ---------- lines that fold into white space ----------

  /** Nothing but white space characters. */
  predicate IsWhite(s: Bytes)
    decreases |s|
  {
    s == [] || (SpaceLength(s) > 0 && IsWhite(s[SpaceLength(s)..]))
  }

  predicate IsSlashes(s: Bytes) {
    forall i :: 0 <= i < |s| ==> s[i] == '\\'
  }

  /** The number of backslashes the line ends in. */
  function EndSlashes(s: Bytes): (n: nat)
    ensures n <= |s| && forall i :: |s| - n <= i < |s| ==> s[i] == '\\'
    ensures n < |s| ==> s[|s| - n - 1] != '\\'
  {
    if s == [] || s[|s| - 1] != '\\' then 0 else 1 + EndSlashes(s[..|s| - 1])
  }

  /** The line without the backslashes it ends in. */
  function Stem(s: Bytes): Bytes {
    s[..|s| - EndSlashes(s)]
  }

  /** What a line leaves of itself, and the backslashes after it, fold with the following lines into white
      space: at the end of the text backslashes go; one backslash takes the next line, whose stem is joined,
      even within a character; of more, one takes a line of backslashes only, which count with the others. */
  predicate Vanishes(left: Bytes, count: nat, rest: seq<Bytes>)
    decreases rest
  {
    if count == 0 || rest == [] then IsWhite(left)
    else if count == 1 then Vanishes(left + Stem(rest[0]), EndSlashes(rest[0]), rest[1..])
    else IsSlashes(rest[0]) && Vanishes(left, count - 1 + |rest[0]|, rest[1..])
  }

  /** The line ends in backslashes, and folds into white space. */
  predicate Hollow(lines: seq<Bytes>)
    requires lines != []
  {
    EndSlashes(lines[0]) >= 1 && Vanishes(Stem(lines[0]), EndSlashes(lines[0]), lines[1..])
  }

  lemma {:induction false} WhiteBytes(s: Bytes, c: Byte)
    requires IsWhite(s) && c as int < 128 && !IsSpace(c)
    ensures c !in s
    decreases |s|
  {
    if s != [] {
      var n := SpaceLength(s);
      WhiteBytes(s[n..], c);
      assert s == s[..n] + s[n..];
    }
  }

  lemma {:induction false} VanishesBytes(left: Bytes, count: nat, rest: seq<Bytes>, c: Byte)
    requires c in left && c as int < 128 && !IsSpace(c)
    ensures !Vanishes(left, count, rest)
    decreases rest
  {
    if count == 0 || rest == [] {
      if IsWhite(left) {
        WhiteBytes(left, c);
      }
    } else if count == 1 {
      VanishesBytes(left + Stem(rest[0]), EndSlashes(rest[0]), rest[1..], c);
    } else {
      VanishesBytes(left, count - 1 + |rest[0]|, rest[1..], c);
    }
  }

  lemma {:induction false} EndOfJoin(t: Bytes, next: Bytes)
    ensures EndSlashes(t + next) == if IsSlashes(next) then EndSlashes(t) + |next| else EndSlashes(next)
  {
    if next == [] {
      assert t + next == t;
    } else {
      var n := |next| - 1;
      assert (t + next)[..|t + next| - 1] == t + next[..n];
      EndOfJoin(t, next[..n]);
      assert IsSlashes(next) <==> IsSlashes(next[..n]) && next[n] == '\\';
    }
  }

  lemma AllSlashes(s: Bytes)
    ensures IsSlashes(s) ==> EndSlashes(s) == |s|
  {
  }

  lemma DropSlash(str: Bytes)
    requires HasSuffix(str, "\\")
    ensures EndSlashes(str) == EndSlashes(str[..|str| - 1]) + 1 && Stem(str) == Stem(str[..|str| - 1])
  {
    assert str[|str| - 1] == str[|str| - 1..][0];
  }

  lemma NoSlashes(str: Bytes)
    requires !HasSuffix(str, "\\")
    ensures EndSlashes(str) == 0 && Stem(str) == str
  {
    assert str != [] ==> str[|str| - 1..] == [str[|str| - 1]];
  }

  /** The rest of a line and the next one, against the backslashes that are left. */
  lemma {:induction false} JoinVanishes(t: Bytes, rest: seq<Bytes>)
    requires rest != []
    ensures Vanishes(Stem(t + rest[0]), EndSlashes(t + rest[0]), rest[1..]) <==> Vanishes(Stem(t), EndSlashes(t) + 1, rest)
  {
    StemOfJoin(t, rest[0]);
    hide EndSlashes, IsWhite, Stem, IsSlashes;
    if EndSlashes(t) > 0 && !IsSlashes(rest[0]) {
      VanishesBytes(Stem(t + rest[0]), EndSlashes(t + rest[0]), rest[1..], '\\');
    }
  }

  lemma {:induction false} StemOfJoin(t: Bytes, next: Bytes)
    ensures EndSlashes(t + next) == if IsSlashes(next) then EndSlashes(t) + |next| else EndSlashes(next)
    ensures EndSlashes(t) == 0 ==> Stem(t) == t && Stem(t + next) == t + Stem(next) && EndSlashes(t + next) == EndSlashes(next)
    ensures IsSlashes(next) ==> Stem(t + next) == Stem(t)
    ensures EndSlashes(t) > 0 && !IsSlashes(next) ==> '\\' in Stem(t + next)
  {
    EndOfJoin(t, next);
    AllSlashes(next);
    hide EndSlashes, IsSlashes;
    var n := EndSlashes(next);
    if IsSlashes(next) {
      assert (t + next)[..|t| - EndSlashes(t)] == t[..|t| - EndSlashes(t)];
    } else {
      assert (t + next)[..|t| + |next| - n] == t + next[..|next| - n];
      if EndSlashes(t) > 0 {
        assert (t + next[..|next| - n])[|t| - 1] == t[|t| - 1];
      }
    }
    assert t[..|t|] == t;
  }

  lemma {:induction false} WhiteUnfold(str: Bytes, rest: seq<Bytes>)
    ensures IsWhite(Unfold(str, rest).0) <==> Vanishes(Stem(str), EndSlashes(str), rest)
    decreases |rest|, |str|
  {
    hide IsWhite, EndSlashes, HasSuffix, Stem;
    if !HasSuffix(str, "\\") {
      NoSlashes(str);
    } else {
      EndsSomehow(str);
      var t := str[..|str| - 1];
      DropSlash(str);
      if rest == [] {
        WhiteUnfold(t, []);
      } else {
        WhiteUnfold(t + rest[0], rest[1..]);
        JoinVanishes(t, rest);
      }
    }
  }

  lemma EndsSomehow(str: Bytes)
    requires HasSuffix(str, "\\")
    ensures str != []
  {
  }

  // ---------- one statement ----------

  lemma {:induction false} NoFieldsIsWhite(s: Bytes)
    ensures Fields(s) == [] <==> IsWhite(s)
    decreases |s|
  {
    if s != [] && SpaceLength(s) > 0 {
      NoFieldsIsWhite(s[SpaceLength(s)..]);
    }
  }

  lemma {:induction false} FirstFieldBytes(s: Bytes, c: Byte)
    requires Fields(s) != [] && c in Fields(s)[0]
    ensures c in s
    decreases |s|
  {
    if SpaceLength(s) > 0 {
      FirstFieldBytes(s[SpaceLength(s)..], c);
    }
  }

  lemma {:induction false} TrimmedBytes(s: Bytes)
    ensures TrimBlanks(s) != [] ==> TrimBlanks(s)[0] in s
  {
    if s != [] && (s[0] == ' ' || s[0] == '\t') {
      TrimmedBytes(s[1..]);
    }
  }

  /** A line that folds into white space has no ASCII but white space and the backslashes at its end. */
  lemma HollowBytes(str: Bytes, rest: seq<Bytes>, c: Byte)
    requires EndSlashes(str) >= 1 && Vanishes(Stem(str), EndSlashes(str), rest)
    requires c as int < 128 && !IsSpace(c) && c != '\\'
    ensures c !in str && '\\' in str
  {
    hide IsSpace, Vanishes;
    var n := |str| - EndSlashes(str);
    assert str[|str| - 1] == '\\';
    if c in str {
      var i :| 0 <= i < |str| && str[i] == c;
      assert i < n && Stem(str)[i] == c;
      VanishesBytes(Stem(str), EndSlashes(str), rest, c);
    }
  }

  /** So it is no comment, no special line and no "..". */
  lemma HollowStarts(str: Bytes, rest: seq<Bytes>)
    requires EndSlashes(str) >= 1 && Vanishes(Stem(str), EndSlashes(str), rest)
    ensures str != "" && !HasPrefix(str, "/") && !HasPrefix(TrimBlanks(str), "#")
    ensures Fields(str) != [] && Fields(str)[0] != ".."
  {
    HollowBytes(str, rest, '#');
    HollowBytes(str, rest, '/');
    HollowBytes(str, rest, '.');
    hide Fields, EndSlashes, Vanishes, TrimBlanks, IsWhite, IsSpace, Stem;
    NoFieldsIsWhite(str);
    if IsWhite(str) {
      WhiteBytes(str, '\\');
    }
    TrimmedBytes(str);
    if TrimBlanks(str) != [] {
      FirstByte(TrimBlanks(str), '#');
    }
    FirstByte(str, '/');
    if Fields(str) != [] && Fields(str)[0] == ".." {
      FirstFieldBytes(str, '.');
    }
  }

  /** A statement makes the parser index past its fields exactly when its line is hollow. */
  lemma {:induction false} CrashIsHollow(lines: seq<Bytes>)
    requires lines != []
    ensures ReadOne(lines).Crash? <==> Hollow(lines)
  {
    hide Fields, Unfold, TrimBlanks, Stem, IsWhite, EndSlashes, Vanishes, SaysDir, Paths.Clean;
    var str, rest := lines[0], lines[1..];
    WhiteUnfold(str, rest);
    NoFieldsIsWhite(Unfold(str, rest).0);
    if Hollow(lines) {
      HollowStarts(str, rest);
    }
    if ReadOne(lines).Crash? {
      if HasPrefix(str, "/") {
        NotSpecial(str, rest);
      }
      UnfoldedAsIs(str, rest);
      NoFieldsIsWhite(str);
    }
  }

  lemma {:induction false} SlashStays(str: Bytes, rest: seq<Bytes>)
    requires str != [] && str[0] == '/'
    ensures var joined := Unfold(str, rest).0; joined != [] && joined[0] == '/'
    decreases |rest|, |str|
  {
    if HasSuffix(str, "\\") {
      assert str[|str| - 1] == '\\';
      SlashStays(if rest == [] then str[..|str| - 1] else str[..|str| - 1] + rest[0], if rest == [] then [] else rest[1..]);
    }
  }

  /** A special line keeps its slash, and so a field. */
  lemma NotSpecial(str: Bytes, rest: seq<Bytes>)
    requires HasPrefix(str, "/")
    ensures Fields(Unfold(str, rest).0) != []
  {
    hide Unfold, Fields, IsWhite;
    assert str[0] == str[..1][0];
    SlashStays(str, rest);
    var joined := Unfold(str, rest).0;
    NoFieldsIsWhite(joined);
    if IsWhite(joined) {
      WhiteBytes(joined, '/');
    }
  }

  lemma UnfoldedAsIs(str: Bytes, rest: seq<Bytes>)
    ensures EndSlashes(str) == 0 ==> Unfold(str, rest).0 == str
  {
    assert HasSuffix(str, "\\") ==> str[|str| - 1] == str[|str| - 1..][0];
  }

  // ---------- the whole text ----------

  lemma {:induction false} UnfoldRest(str: Bytes, rest: seq<Bytes>)
    ensures Unfold(str, rest).1 == rest[|rest| - |Unfold(str, rest).1|..]
    decreases |rest|, |str|
  {
    if HasSuffix(str, "\\") {
      if rest == [] {
        UnfoldRest(str[..|str| - 1], []);
      } else {
        UnfoldRest(str[..|str| - 1] + rest[0], rest[1..]);
      }
    }
  }

  /** The lines one statement takes, with those folded into it. */
  function Taken(lines: seq<Bytes>): (n: nat)
    requires lines != [] && !ReadOne(lines).Crash?
    ensures 1 <= n <= |lines|
  {
    |lines| - |ReadOne(lines).rest|
  }

  lemma TakenOff(lines: seq<Bytes>)
    requires lines != [] && !ReadOne(lines).Crash?
    ensures ReadOne(lines).rest == lines[Taken(lines)..]
  {
    hide Fields, TrimBlanks, SaysDir, Paths.Clean, Unfold, HasPrefix;
    UnfoldRest(lines[0], lines[1..]);
  }

  /** Line i is the first of a statement: the lines before it are taken by whole statements. */
  predicate StartsAt(lines: seq<Bytes>, i: nat)
    decreases |lines|
  {
    i == 0 || (lines != [] && !ReadOne(lines).Crash? && Taken(lines) <= i && StartsAt(lines[Taken(lines)..], i - Taken(lines)))
  }

  /** The parser fails exactly when a hollow line stands where a statement starts. */
  lemma {:induction false} FailsExactly(lines: seq<Bytes>)
    ensures Statements(lines).Err? <==> exists i :: 0 <= i < |lines| && StartsAt(lines, i) && Hollow(lines[i..])
    decreases |lines|
  {
    hide ReadOne, Hollow;
    if lines != [] {
      CrashIsHollow(lines);
      assert lines[0..] == lines && StartsAt(lines, 0);
      if !ReadOne(lines).Crash? {
        var n, tail := Taken(lines), lines[Taken(lines)..];
        TakenOff(lines);
        FailsExactly(tail);
        if Statements(lines).Err? {
          var i :| 0 <= i < |tail| && StartsAt(tail, i) && Hollow(tail[i..]);
          assert tail[i..] == lines[n + i..] && StartsAt(lines, n + i);
        }
        if i :| 0 <= i < |lines| && StartsAt(lines, i) && Hollow(lines[i..]) {
          assert i >= n && lines[i..] == tail[i - n..];
        }
      }
    }
  }

  const BACKSLASH: Bytes := ['\\']

  /** U+00A0, in two bytes. */
  const NO_BREAK_SPACE: Bytes := [0xC2 as char, 0xA0 as char]

  lemma HollowLines(first: Bytes, second: Bytes)
    requires IsWhite(first + second) && EndSlashes(first) == EndSlashes(second) == 0
    ensures Hollow([first + BACKSLASH, second])
  {
    EndOfJoin(first, BACKSLASH);
    hide IsWhite, EndSlashes;
    var rest: seq<Bytes> := [second];
    assert (first + BACKSLASH)[..|first|] == first && second[..|second|] == second;
    assert rest[1..] == [] && Vanishes(first + second, 0, []);
    assert Vanishes(first, 1, rest);
    assert [first + BACKSLASH, second][1..] == rest;
  }

  /** One line, a backslash, and a last line. */
  lemma {:induction false} HollowPair(first: Bytes, second: Bytes)
    requires IsWhite(first + second) && IsLine(first + BACKSLASH) && IsLine(second) && EndSlashes(first) == EndSlashes(second) == 0
    ensures Parse(Text([first + BACKSLASH, second])) == Err(IndexOutOfRange)
  {
    hide ReadOne, IsWhite, Text, IsLine, EndSlashes, Hollow, ScanLines;
    var lines: seq<Bytes> := [first + BACKSLASH, second];
    HollowLines(first, second);
    ScanText(lines);
    CrashIsHollow(lines);
  }

  lemma TextOfPair(a: Bytes, b: Bytes)
    ensures Text([a, b]) == a + ['\n'] + b + ['\n']
  {
    var two: seq<Bytes> := [a, b];
    assert two[1..] == [b] && [b][1..] == [];
    assert Text(two[1..]) == b + ['\n'] + Text([b][1..]);
    assert a + ['\n'] + (b + ['\n'] + []) == a + ['\n'] + b + ['\n'];
  }

  /** A backslash and an empty line, the same after a no-break space, a no-break space whose bytes are in two
      lines, and two backslashes at the end of the text. */
  lemma {:induction false} HollowTexts()
    ensures Parse(BACKSLASH + ['\n', '\n']) == Err(IndexOutOfRange)
    ensures Parse(NO_BREAK_SPACE + BACKSLASH + ['\n', '\n']) == Err(IndexOutOfRange)
    ensures Parse([0xC2 as char] + BACKSLASH + ['\n', 0xA0 as char, '\n']) == Err(IndexOutOfRange)
    ensures Parse(BACKSLASH + BACKSLASH) == Err(IndexOutOfRange)
  {
    hide Parse, Text, Statements, ScanLines;
    var lead, trail: Bytes := [0xC2 as char], [0xA0 as char];
    assert NO_BREAK_SPACE[2..] == [] && SpaceLength(NO_BREAK_SPACE) == 2 && IsWhite(NO_BREAK_SPACE);
    TextOfPair([] + BACKSLASH, []);
    TextOfPair(NO_BREAK_SPACE + BACKSLASH, []);
    TextOfPair(lead + BACKSLASH, trail);
    HollowPair([], []);
    assert NO_BREAK_SPACE + [] == NO_BREAK_SPACE == lead + trail;
    HollowPair(NO_BREAK_SPACE, []);
    HollowPair(lead, trail);
    assert [] + BACKSLASH + ['\n'] + [] + ['\n'] == BACKSLASH + ['\n', '\n'];
    assert NO_BREAK_SPACE + BACKSLASH + ['\n'] + [] + ['\n'] == NO_BREAK_SPACE + BACKSLASH + ['\n', '\n'];
    assert lead + BACKSLASH + ['\n'] + trail + ['\n'] == lead + BACKSLASH + ['\n', 0xA0 as char, '\n'];
    TwoBackslashes();
  }

  lemma {:induction false} TwoBackslashes()
    ensures Parse(BACKSLASH + BACKSLASH) == Err(IndexOutOfRange)
  {
    hide ReadOne, Fields;
    var two := BACKSLASH + BACKSLASH;
    assert ScanLines(two) == [two];
    EndOfJoin(BACKSLASH, BACKSLASH);
    AllSlashes(BACKSLASH);
    assert Stem(two) == [];
    CrashIsHollow([two]);
  }

  // ---------- the texts that are kept ----------

  predicate NoNewlines(lines: seq<Bytes>) {
    forall i :: 0 <= i < |lines| ==> '\n' !in lines[i]
  }

  lemma {:induction false} LinesHaveNoNewlines(text: Bytes)
    ensures NoNewlines(ScanLines(text))
    decreases |text|
  {
    if '\n' in text {
      AfterShorter(text);
      LinesHaveNoNewlines(After(text, '\n'));
    }
  }

  predicate NoNewlineKept(item: Item) {
    item.Signature? || item.Comment? || item.DotDot? ==> '\n' !in item.raw
  }

  lemma ReadNoNewline(lines: seq<Bytes>)
    requires lines != [] && '\n' !in lines[0] && ReadOne(lines).Read?
    ensures NoNewlineKept(ReadOne(lines).item)
  {
    hide Fields, TrimBlanks, SaysDir, Paths.Clean, Unfold, HasPrefix;
  }

  /** What is read as it stands is of one line. */
  lemma {:induction false} ReadNoNewlines(lines: seq<Bytes>)
    requires NoNewlines(lines) && Statements(lines).Ok?
    ensures forall i :: 0 <= i < |Statements(lines).value| ==> NoNewlineKept(Statements(lines).value[i])
    decreases |lines|
  {
    hide ReadOne, NoNewlineKept;
    if lines != [] && !ReadOne(lines).Crash? {
      TakenOff(lines);
      ReadNoNewlines(ReadOne(lines).rest);
      if ReadOne(lines).Read? {
        ReadNoNewline(lines);
      }
    }
  }

  // ---------- what a name opens ----------

  /** The last "type" of the key-values says dir. */
  predicate TypeIsDir(kvs: seq<KeyVal>) {
    exists k :: 0 <= k < |kvs| && KeywordOf(kvs[k]) == "type" && ValueOf(kvs[k]) == "dir"
      && forall l :: k < l < |kvs| ==> KeywordOf(kvs[l]) != "type"
  }

  lemma {:induction false} SaysDirIs(kvs: seq<KeyVal>)
    ensures SaysDir(kvs) <==> TypeIsDir(kvs)
  {
    hide KeywordOf, ValueOf;
    if kvs != [] {
      var n := |kvs| - 1;
      SaysDirIs(kvs[..n]);
      if KeywordOf(kvs[n]) != "type" {
        TypeBefore(kvs);
      }
    }
  }

  lemma TypeBefore(kvs: seq<KeyVal>)
    requires kvs != [] && KeywordOf(kvs[|kvs| - 1]) != "type"
    ensures TypeIsDir(kvs) <==> TypeIsDir(kvs[..|kvs| - 1])
  {
    hide KeywordOf, ValueOf;
    var before := kvs[..|kvs| - 1];
    if k :| 0 <= k < |kvs| && KeywordOf(kvs[k]) == "type" && ValueOf(kvs[k]) == "dir"
            && forall l :: k < l < |kvs| ==> KeywordOf(kvs[l]) != "type" {
      assert KeywordOf(before[k]) == "type";
    }
    if k :| 0 <= k < |before| && KeywordOf(before[k]) == "type" && ValueOf(before[k]) == "dir"
            && forall l :: k < l < |before| ==> KeywordOf(before[l]) != "type" {
      assert KeywordOf(kvs[k]) == "type";
    }
  }

  /** Whatever is above others is a relative entry whose own last type says dir; names are clean and a full path has no parent. */
  predicate EntryFits(e: Entry) {
    && (e.parent.Some? ==> e.parent.value.kind == RelativeType && TypeIsDir(e.parent.value.keywords))
    && (e.kind == RelativeType || e.kind == FullType ==> Paths.Clean(e.name) == e.name)
    && (e.kind == FullType ==> e.parent == None)
  }

  predicate ItemFits(item: Item) {
    item.Named? ==> Paths.Clean(item.name) == item.name && item.isDir == SaysDir(item.keywords)
  }

  lemma {:induction false} StatementsFit(lines: seq<Bytes>)
    requires Statements(lines).Ok?
    ensures forall i :: 0 <= i < |Statements(lines).value| ==> ItemFits(Statements(lines).value[i])
    decreases |lines|
  {
    if lines != [] {
      hide ReadOne, SaysDir;
      match ReadOne(lines)
      case Skipped(rest) => StatementsFit(rest);
      case Read(item, rest) =>
        StatementsFit(rest);
        ReadFits(lines);
    }
  }

  lemma ReadFits(lines: seq<Bytes>)
    requires lines != [] && ReadOne(lines).Read?
    ensures ItemFits(ReadOne(lines).item)
  {
    hide Fields, TrimBlanks, SaysDir, Paths.Clean, Unfold;
    var item := ReadOne(lines).item;
    if item.Named? {
      var f := Fields(Unfold(lines[0], lines[1..]).0);
      assert item == NamedItem(f[0], f[1..]);
      Paths.CleanIdempotent(f[0]);
    }
  }

  /** The open directories are relative entries that say so. */
  predicate StackFits(stack: seq<Entry>) {
    forall i :: 0 <= i < |stack| ==> stack[i].kind == RelativeType && TypeIsDir(stack[i].keywords)
  }

  lemma {:induction false} LinkedFits(c: Cursor, items: seq<Item>)
    requires StackFits(c.stack) && (forall i :: 0 <= i < |c.entries| ==> EntryFits(c.entries[i]))
    requires forall i :: 0 <= i < |items| ==> ItemFits(items[i])
    ensures forall i :: 0 <= i < |LinkFrom(c, items).entries| ==> EntryFits(LinkFrom(c, items).entries[i])
    decreases items
  {
    if items != [] {
      hide EntryFits, ItemFits, TypeIsDir;
      assert ItemFits(items[0]);
      PlaceFits(c, items[0]);
      LinkedFits(Place(c, items[0]), items[1..]);
    }
  }

  lemma PlaceFits(c: Cursor, item: Item)
    requires StackFits(c.stack) && ItemFits(item)
    ensures EntryFits(EntryAt(c, item)) && StackFits(Place(c, item).stack)
  {
    hide TypeIsDir, SaysDir, Paths.Clean;
    if item.Named? {
      SaysDirIs(item.keywords);
    }
  }

  /** In parsed text names are cleaned, full paths have no parent and open nothing, and every parent is a relative entry
      whose own last type says dir. */
  lemma {:induction false} ParsedFits(text: Bytes)
    requires Parse(text).Ok?
    ensures forall i :: 0 <= i < |Parse(text).value| ==> EntryFits(Parse(text).value[i])
  {
    hide ScanLines, EntryFits, ItemFits, LinkFrom;
    StatementsFit(ScanLines(text));
    LinkedFits(START, Statements(ScanLines(text)).value);
  }

  // ---------- kinds of lines ----------

  predicate IsBlanks(s: Bytes) {
    forall i :: 0 <= i < |s| ==> s[i] == ' ' || s[i] == '\t'
  }

  lemma {:induction false} TrimsBlanks(lead: Bytes, s: Bytes)
    requires IsBlanks(lead) && (s == [] || (s[0] != ' ' && s[0] != '\t'))
    ensures TrimBlanks(lead + s) == s
  {
    if lead == [] {
      assert lead + s == s;
    } else {
      assert (lead + s)[1..] == lead[1..] + s;
      TrimsBlanks(lead[1..], s);
    }
  }

  lemma {:induction false} FieldsAfterBlanks(lead: Bytes, s: Bytes)
    requires IsBlanks(lead)
    ensures Fields(lead + s) == Fields(s)
  {
    if lead == [] {
      assert lead + s == s;
    } else {
      assert (lead + s)[1..] == lead[1..] + s;
      FieldsAfterBlanks(lead[1..], s);
    }
  }

  /** A line whose first character after blanks is "#" is a comment, kept as it is, or the signature. */
  lemma {:induction false} HashLine(lead: Bytes, text: Bytes, rest: seq<Bytes>)
    requires IsBlanks(lead)
    ensures ReadOne([lead + "#" + text] + rest) ==
      Read(if |text| >= 5 && text[..5] == "mtree" then Signature(lead + "#" + text) else Comment(lead + "#" + text), rest)
    ensures ReadOne([""] + rest) == Read(Blank, rest)
  {
    var str := lead + "#" + text;
    assert str == lead + ("#" + text);
    TrimsBlanks(lead, "#" + text);
    assert ([str] + rest)[1..] == rest && ([""] + rest)[1..] == rest;
    MtreeSign(text);
  }

  lemma MtreeSign(text: Bytes)
    ensures HasPrefix("#" + text, "#mtree") <==> |text| >= 5 && text[..5] == "mtree"
  {
    var s := "#" + text;
    assert "#mtree" == "#" + "mtree";
    if |text| >= 5 {
      assert s[..6] == "#" + text[..5];
      assert ("#" + text[..5])[1..] == text[..5] && ("#" + "mtree")[1..] == "mtree";
    }
  }

  /** A line of words: after no blanks, one that begins with a slash is special; ".." is a ".."; and any other is a name,
      a full path when it has a slash, with key-values. */
  lemma {:induction false} WordsLine(lead: Bytes, words: seq<Bytes>, rest: seq<Bytes>)
    requires IsBlanks(lead) && words != [] && forall i :: 0 <= i < |words| ==> words[i] != [] && IsWord(words[i])
    requires words[0][0] != '#' && words[|words| - 1][|words[|words| - 1]| - 1] != '\\'
    ensures var line := lead + Join(words, ' ');
      ReadOne([line] + rest) ==
        if lead == [] && words[0][0] == '/' then Read(Special(words[0], words[1..]), rest)
        else if words[0] == ".." then Read(DotDot(line), rest)
        else Read(Named('/' in words[0], Paths.Clean(words[0]), words[1..], SaysDir(words[1..])), rest)
  {
    var line := lead + Join(words, ' ');
    LineOfWords(lead, words);
    assert ([line] + rest)[1..] == rest && [line] + rest != [];
    ReadWords(line, words, rest);
  }

  lemma LineOfWords(lead: Bytes, words: seq<Bytes>)
    requires IsBlanks(lead) && words != [] && forall i :: 0 <= i < |words| ==> words[i] != [] && IsWord(words[i])
    requires words[|words| - 1][|words[|words| - 1]| - 1] != '\\'
    ensures var line := lead + Join(words, ' ');
      && line != [] && Fields(line) == words && !HasSuffix(line, "\\") && Unfold(line, []) == (line, [])
      && TrimBlanks(line) != [] && TrimBlanks(line)[0] == words[0][0]
      && (line[0] == '/' <==> lead == [] && words[0][0] == '/')
  {
    hide Fields, IsWord;
    var joined := Join(words, ' ');
    var line := lead + joined;
    JoinEnds(words);
    WordStarts(words[0]);
    TrimsBlanks(lead, joined);
    FieldsOfJoin(words);
    FieldsAfterBlanks(lead, joined);
    assert line[|line| - 1] == joined[|joined| - 1];
    assert !HasSuffix(line, "\\") by {
      assert line[|line| - 1..][0] == line[|line| - 1];
    }
    if lead == [] {
      assert line == joined;
    } else {
      assert line[0] == lead[0];
    }
  }

  lemma ReadWords(line: Bytes, words: seq<Bytes>, rest: seq<Bytes>)
    requires line != [] && words != [] && Fields(line) == words && !HasSuffix(line, "\\")
    requires TrimBlanks(line) != [] && TrimBlanks(line)[0] != '#'
    ensures ReadOne([line] + rest) ==
      if line[0] == '/' then Read(Special(words[0], words[1..]), rest)
      else if words[0] == ".." then Read(DotDot(line), rest)
      else Read(Named('/' in words[0], Paths.Clean(words[0]), words[1..], SaysDir(words[1..])), rest)
  {
    hide Fields, TrimBlanks, SaysDir, Paths.Clean;
    assert ([line] + rest)[1..] == rest;
    assert Unfold(line, rest) == (line, rest);
  }

  lemma WordStarts(w: Bytes)
    requires IsWord(w)
    ensures w != [] && w[0] != ' ' && w[0] != '\t'
  {
    WordBytes(w);
  }

  lemma {:induction false} JoinEnds(words: seq<Bytes>)
    requires words != [] && forall i :: 0 <= i < |words| ==> words[i] != []
    ensures var s := Join(words, ' ');
      s != [] && s[0] == words[0][0] && s[|s| - 1] == words[|words| - 1][|words[|words| - 1]| - 1]
  {
    if |words| > 1 {
      JoinEnds(words[1..]);
    }
  }

  /** A line that ends in a backslash goes on in the next. */
  lemma {:induction false} FoldedLine(str: Bytes, next: Bytes, rest: seq<Bytes>)
    requires !HasSuffix(str + next, "\\")
    ensures Unfold(str + "\\", [next] + rest) == (str + next, rest)
  {
    assert (str + "\\")[..|str|] == str;
    assert ([next] + rest)[1..] == rest;
    assert HasSuffix(str + "\\", "\\");
  }

  /** Lines end at newlines, and lose one carriage return. */
  lemma {:induction false} LineEnds(line: Bytes, rest: Bytes)
    requires '\n' !in line && (line == [] || line[|line| - 1] != '\r')
    ensures ScanLines(line + "\n" + rest) == [line] + ScanLines(rest)
    ensures ScanLines(line + "\r\n" + rest) == [line] + ScanLines(rest)
  {
    hide ScanLines;
    CutsAt(line, rest);
    CutsAt(line + "\r", rest);
    assert line + "\r" + "\n" + rest == line + "\r\n" + rest;
    assert (line + "\r")[..|line|] == line;
  }

  lemma CutsAt(line: Bytes, rest: Bytes)
    requires '\n' !in line
    ensures ScanLines(line + "\n" + rest) == [DropCR(line)] + ScanLines(rest)
  {
    CutAt(line, rest, '\n');
    assert line + "\n" + rest == line + ['\n'] + rest;
    assert (line + "\n" + rest)[|line|] == '\n';
  }
}
