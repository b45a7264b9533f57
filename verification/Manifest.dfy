/**
  The symbol cache manifest: a header, then one "name signature" line per symbol in name order. Reading is
  line by line, with trimming, comments and a format line.
 */
module Manifest {
  import opened Wrappers
  import opened Contract
  import opened Ordering
  import opened Sequences

  datatype Entry = Entry(name: string, sig: string)

  datatype Status = Loaded(entries: map<string, string>) | Outdated(found: nat) | Malformed

  const CACHE_FORMAT_VERSION: nat := 2
  const HEADER: seq<string> := [
    "# polysym cache " + ("manifest - regenerated " + "by POLYSYM_REFRESH=1"),
    "# DO NOT EDIT BY HAND",
    "format=2"]

  // ---------------------------------------------------------------- text helpers

  /** The characters Unicode calls white space. */
  predicate IsWs(c: char) {
    var n := c as int;
    9 <= n <= 13 || n == 0x20 || n == 0x85 || n == 0xA0 || n == 0x1680 || 0x2000 <= n <= 0x200A
    || n == 0x2028 || n == 0x2029 || n == 0x202F || n == 0x205F || n == 0x3000
  }

  function TrimStart(s: string): string { if s != "" && IsWs(s[0]) then TrimStart(s[1..]) else s }

  function TrimEnd(s: string): string {
    if s != "" && IsWs(s[|s| - 1]) then TrimEnd(s[..|s| - 1]) else s
  }

  function Trim(s: string): string { TrimEnd(TrimStart(s)) }

  predicate Tight(s: string) { s == "" || (!IsWs(s[0]) && !IsWs(s[|s| - 1])) }

  lemma {:induction false} TrimStartIsSuffix(s: string)
    ensures |TrimStart(s)| <= |s| && (TrimStart(s) == "" || !IsWs(TrimStart(s)[0]))
    ensures TrimStart(s) == s[|s| - |TrimStart(s)|..]
  {
    if s != "" && IsWs(s[0]) {
      TrimStartIsSuffix(s[1..]);
    }
  }

  lemma {:induction false} TrimEndIsPrefix(s: string)
    ensures |TrimEnd(s)| <= |s| && TrimEnd(s) == s[..|TrimEnd(s)|]
    ensures TrimEnd(s) == "" || !IsWs(TrimEnd(s)[|TrimEnd(s)| - 1])
  {
    if s != "" && IsWs(s[|s| - 1]) {
      TrimEndIsPrefix(s[..|s| - 1]);
    }
  }

  lemma TrimIsTight(s: string)
    ensures Tight(Trim(s)) && |Trim(s)| <= |s| && (Tight(s) ==> Trim(s) == s)
  {
    TrimStartIsSuffix(s);
    TrimEndIsPrefix(TrimStart(s));
  }

  /** Around the first space. */
  function SplitOnce(s: string): Option<(string, string)> {
    if s == "" then None
    else if s[0] == ' ' then Some(("", s[1..]))
    else
      match SplitOnce(s[1..])
      case None => None
      case Some((left, right)) => Some(([s[0]] + left, right))
  }

  lemma {:induction false} SplitOnceParts(s: string)
    ensures SplitOnce(s).Some? ==>
              var (left, right) := SplitOnce(s).value; s == left + (" " + right) && ' ' !in left
  {
    if s != "" {
      assert s == [s[0]] + s[1..];
      if s[0] == ' ' {
        assert s == "" + (" " + s[1..]);
      } else {
        SplitOnceParts(s[1..]);
      }
    }
  }

  lemma {:induction false} SplitsAtFirstSpace(left: string, right: string)
    requires ' ' !in left
    ensures SplitOnce(left + (" " + right)) == Some((left, right))
  {
    if left == "" {
      assert left + (" " + right) == " " + right;
    } else {
      SplitsAtFirstSpace(left[1..], right);
      assert (left + (" " + right))[1..] == left[1..] + (" " + right);
      assert [left[0]] + left[1..] == left;
    }
  }

  predicate IsDigit(c: char) { '0' <= c <= '9' }

  function Decimal(s: string): nat
    requires forall i :: 0 <= i < |s| ==> IsDigit(s[i])
  {
    if s == "" then 0
    else
      assert IsDigit(s[|s| - 1]);
      10 * Decimal(s[..|s| - 1]) + (s[|s| - 1] as int - '0' as int)
  }

  /** `parse::<u32>`: an optional plus, digits, and no overflow. */
  function ParseU32(s: string): Option<nat> {
    var digits := if s != "" && s[0] == '+' then s[1..] else s;
    if digits != "" && (forall i :: 0 <= i < |digits| ==> IsDigit(digits[i])) && Decimal(digits) <= U32_MAX
    then Some(Decimal(digits))
    else None
  }

  // ---------------------------------------------------------------- lines

  /** `lines()`: broken at newlines, one carriage return dropped at each end. */
  function BreakLine(s: string): (string, string) {
    if s == "" then ("", "")
    else if s[0] == '\n' then ("", s[1..])
    else var (line, rest) := BreakLine(s[1..]); ([s[0]] + line, rest)
  }

  lemma {:induction false} BreakLineShrinks(s: string)
    ensures s != "" ==> |BreakLine(s).1| < |s|
  {
    if s != "" && s[0] != '\n' && s[1..] != "" {
      BreakLineShrinks(s[1..]);
    }
  }

  function WithoutCr(line: string): string {
    if line != "" && line[|line| - 1] == '\r' then line[..|line| - 1] else line
  }

  function Lines(s: string): seq<string>
    decreases |s|
  {
    if s == "" then []
    else
      BreakLineShrinks(s);
      var (line, rest) := BreakLine(s);
      [WithoutCr(line)] + Lines(rest)
  }

  function Unlines(lines: seq<string>): string {
    if lines == [] then "" else lines[0] + ("\n" + Unlines(lines[1..]))
  }

  predicate OneLine(line: string) { '\n' !in line && WithoutCr(line) == line }

  lemma {:induction false} BreaksAfterLine(line: string, rest: string)
    requires '\n' !in line
    ensures BreakLine(line + ("\n" + rest)) == (line, rest)
  {
    if line == "" {
      assert line + ("\n" + rest) == "\n" + rest;
    } else {
      BreaksAfterLine(line[1..], rest);
      assert (line + ("\n" + rest))[1..] == line[1..] + ("\n" + rest);
      assert [line[0]] + line[1..] == line;
    }
  }

  lemma {:induction false} LinesUndoUnlines(lines: seq<string>)
    requires forall i :: 0 <= i < |lines| ==> OneLine(lines[i])
    ensures Lines(Unlines(lines)) == lines
  {
    if lines != [] {
      BreaksAfterLine(lines[0], Unlines(lines[1..]));
      LinesUndoUnlines(lines[1..]);
    }
  }

  // ---------------------------------------------------------------- reading

  datatype LineKind = Ignored | FormatLine(version: Option<nat>) | EntryLine(entry: Entry) | BadLine

  function Classify(raw: string): LineKind {
    var line := Trim(raw);
    if line == "" || line[0] == '#' then Ignored
    else if StartsWith(line, "format=") then FormatLine(ParseU32(line[7..]))
    else
      match SplitOnce(line)
      case None => BadLine
      case Some((name, sig)) => EntryLine(Entry(name, Trim(sig)))
  }

  function ReadLines(lines: seq<string>, format: Option<nat>, entries: map<string, string>): Status {
    if lines == [] then
      if format.None? then Malformed
      else if format.value != CACHE_FORMAT_VERSION then Outdated(format.value)
      else Loaded(entries)
    else
      match Classify(lines[0])
      case Ignored => ReadLines(lines[1..], format, entries)
      case FormatLine(None) => Malformed
      case FormatLine(Some(n)) => ReadLines(lines[1..], Some(n), entries)
      case EntryLine(e) => ReadLines(lines[1..], format, entries[e.name := e.sig])
      case BadLine => Malformed
  }

  method ReadManifest(content: string) returns (status: Status)
    ensures status == ReadLines(Lines(content), None, map[])
  {
    var lines := Lines(content);
    var format: Option<nat> := None;
    var entries: map<string, string> := map[];
    for i := 0 to |lines|
      invariant ReadLines(lines, None, map[]) == ReadLines(lines[i..], format, entries)
    {
      assert lines[i..][1..] == lines[i + 1..];
      match Classify(lines[i]) {
        case Ignored =>
        case FormatLine(None) => return Malformed;
        case FormatLine(Some(n)) => format := Some(n);
        case EntryLine(e) => entries := entries[e.name := e.sig];
        case BadLine => return Malformed;
      }
    }
    if format.None? {
      return Malformed;
    }
    if format.value != CACHE_FORMAT_VERSION {
      return Outdated(format.value);
    }
    return Loaded(entries);
  }

  // ---------------------------------------------------------------- writing

  function LineOf(e: Entry): string { e.name + (" " + e.sig) }

  function LinesOf(entries: seq<Entry>): seq<string> {
    if entries == [] then [] else [LineOf(entries[0])] + LinesOf(entries[1..])
  }

  predicate NameSorted(entries: seq<Entry>) {
    forall i, j :: 0 <= i < j < |entries| ==> !Less(entries[j].name, entries[i].name)
  }

  /** Stable: behind every entry of the same name. */
  function InsertByName(e: Entry, sorted: seq<Entry>): seq<Entry> {
    if sorted == [] || Less(e.name, sorted[0].name) then [e] + sorted
    else [sorted[0]] + InsertByName(e, sorted[1..])
  }

  function SortedByName(entries: seq<Entry>): seq<Entry> {
    if entries == [] then []
    else InsertByName(entries[|entries| - 1], SortedByName(entries[..|entries| - 1]))
  }

  /** Signature by name; a repeated name keeps its last signature. */
  function ByName(entries: seq<Entry>): map<string, string> {
    if entries == [] then map[]
    else map[entries[0].name := entries[0].sig] + ByName(entries[1..])
  }

  method WriteManifest(entries: seq<Entry>) returns (content: string)
    ensures content == Unlines(HEADER + LinesOf(SortedByName(entries)))
  {
    var sorted := [];
    for i := 0 to |entries|
      invariant sorted == SortedByName(entries[..i])
    {
      assert entries[..i + 1][..i] == entries[..i];
      sorted := InsertByName(entries[i], sorted);
    }
    assert entries[..|entries|] == entries;
    content := HEADER[0] + "\n" + HEADER[1] + "\n" + HEADER[2] + "\n";
    HeaderText();
    assert HEADER + LinesOf(sorted[..0]) == HEADER;
    for i := 0 to |sorted|
      invariant content == Unlines(HEADER + LinesOf(sorted[..i]))
    {
      assert sorted[..i + 1] == sorted[..i] + [sorted[i]];
      LinesOfAppends(sorted[..i], sorted[i]);
      UnlinesAppends(HEADER + LinesOf(sorted[..i]), LineOf(sorted[i]));
      assert HEADER + (LinesOf(sorted[..i]) + [LineOf(sorted[i])])
          == (HEADER + LinesOf(sorted[..i])) + [LineOf(sorted[i])];
      content := content + (LineOf(sorted[i]) + "\n");
    }
    assert sorted[..|sorted|] == sorted;
  }

  lemma {:induction false} UnlinesAppends(lines: seq<string>, line: string)
    ensures Unlines(lines + [line]) == Unlines(lines) + (line + "\n")
  {
    if lines == [] {
      assert [line][1..] == [];
      assert Unlines([line]) == line + ("\n" + "");
    } else {
      UnlinesAppends(lines[1..], line);
      assert (lines + [line])[1..] == lines[1..] + [line];
      assert lines[0] + ("\n" + (Unlines(lines[1..]) + (line + "\n")))
          == (lines[0] + ("\n" + Unlines(lines[1..]))) + (line + "\n");
    }
  }

  lemma {:induction false} LinesOfAppends(entries: seq<Entry>, e: Entry)
    ensures LinesOf(entries + [e]) == LinesOf(entries) + [LineOf(e)]
  {
    if entries == [] {
      assert [e][1..] == [];
    } else {
      LinesOfAppends(entries[1..], e);
      assert (entries + [e])[1..] == entries[1..] + [e];
    }
  }

  lemma HeaderText()
    ensures Unlines(HEADER) == HEADER[0] + "\n" + HEADER[1] + "\n" + HEADER[2] + "\n"
  {
    UnlinesAppends([], HEADER[0]);
    UnlinesAppends([HEADER[0]], HEADER[1]);
    UnlinesAppends([HEADER[0], HEADER[1]], HEADER[2]);
    assert [] + [HEADER[0]] == [HEADER[0]] && [HEADER[0]] + [HEADER[1]] == [HEADER[0], HEADER[1]];
    assert [HEADER[0], HEADER[1]] + [HEADER[2]] == HEADER;
    assert Unlines([]) == "";
  }

  // ---------------------------------------------------------------- the stable sort keeps what each name maps to

  lemma {:induction false} ByNameKeys(entries: seq<Entry>, name: string)
    requires name in ByName(entries)
    ensures exists i :: 0 <= i < |entries| && entries[i].name == name
  {
    if entries[0].name != name {
      ByNameKeys(entries[1..], name);
      var i :| 0 <= i < |entries[1..]| && entries[1..][i].name == name;
      assert entries[i + 1].name == name;
    }
  }

  lemma SmallerNameIsAbsent(name: string, sorted: seq<Entry>)
    requires NameSorted(sorted) && sorted != [] && Less(name, sorted[0].name)
    ensures name !in ByName(sorted)
  {
    forall i | 0 <= i < |sorted| ensures sorted[i].name != name {
      LessIrreflexive(name);
      assert i == 0 || !Less(sorted[i].name, sorted[0].name);
    }
    if name in ByName(sorted) {
      ByNameKeys(sorted, name);
    }
  }

  lemma {:induction false} InsertKeepsMap(e: Entry, sorted: seq<Entry>)
    requires NameSorted(sorted)
    ensures ByName(InsertByName(e, sorted)) == ByName(sorted)[e.name := e.sig]
  {
    if sorted == [] {
    } else if Less(e.name, sorted[0].name) {
      assert ([e] + sorted)[1..] == sorted;
      SmallerNameIsAbsent(e.name, sorted);
    } else {
      InsertKeepsMap(e, sorted[1..]);
      assert InsertByName(e, sorted)[1..] == InsertByName(e, sorted[1..]);
    }
  }

  lemma {:induction false} InsertMembers(e: Entry, sorted: seq<Entry>, x: Entry)
    ensures x in InsertByName(e, sorted) <==> x == e || x in sorted
  {
    if sorted != [] && !Less(e.name, sorted[0].name) {
      InsertMembers(e, sorted[1..], x);
    }
  }

  lemma {:induction false} InsertKeepsOrder(e: Entry, sorted: seq<Entry>)
    requires NameSorted(sorted)
    ensures NameSorted(InsertByName(e, sorted))
  {
    if sorted == [] {
    } else if Less(e.name, sorted[0].name) {
      forall k | 0 <= k < |sorted| ensures !Less(sorted[k].name, e.name) {
        LessIrreflexive(e.name);
        if Less(sorted[k].name, e.name) {
          LessTransitive(sorted[k].name, e.name, sorted[0].name);
          LessIrreflexive(sorted[0].name);
        }
      }
    } else {
      InsertKeepsOrder(e, sorted[1..]);
      var rest := InsertByName(e, sorted[1..]);
      forall k | 0 <= k < |rest| ensures !Less(rest[k].name, sorted[0].name) {
        InsertMembers(e, sorted[1..], rest[k]);
        if rest[k] in sorted[1..] {
          var m :| 0 <= m < |sorted[1..]| && sorted[1..][m] == rest[k];
          assert !Less(sorted[m + 1].name, sorted[0].name);
        }
      }
    }
  }

  lemma {:induction false} ByNameAppends(entries: seq<Entry>, e: Entry)
    ensures ByName(entries + [e]) == ByName(entries)[e.name := e.sig]
  {
    if entries == [] {
      assert [e][1..] == [];
    } else {
      ByNameAppends(entries[1..], e);
      assert (entries + [e])[1..] == entries[1..] + [e];
    }
  }

  /** Sorting by name, being stable, changes neither the entries nor what each name maps to. */
  lemma {:induction false} SortingKeepsMap(entries: seq<Entry>)
    ensures NameSorted(SortedByName(entries)) && ByName(SortedByName(entries)) == ByName(entries)
    ensures forall e :: e in SortedByName(entries) <==> e in entries
  {
    if entries != [] {
      var n := |entries| - 1;
      var before := SortedByName(entries[..n]);
      SortingKeepsMap(entries[..n]);
      InsertKeepsMap(entries[n], before);
      InsertKeepsOrder(entries[n], before);
      ByNameAppends(entries[..n], entries[n]);
      assert entries == entries[..n] + [entries[n]];
      forall e ensures e in SortedByName(entries) <==> e in entries {
        InsertMembers(entries[n], before, e);
      }
    }
  }

  // ---------------------------------------------------------------- reading undoes writing

  /** A name without spaces that looks neither like a comment nor like the format line, and a tight signature. */
  predicate WellFormed(e: Entry) {
    && e.name != "" && ' ' !in e.name && !IsWs(e.name[0]) && e.name[0] != '#' && !StartsWith(e.name, "format=")
    && e.sig != "" && Tight(e.sig)
  }

  lemma PrefixOfName(e: Entry, line: string)
    requires ' ' !in e.name && line == LineOf(e)
    ensures StartsWith(line, "format=") <==> StartsWith(e.name, "format=")
  {
    if |e.name| < 7 && |line| >= 7 {
      assert line[..7][|e.name|] == ' ';
      assert forall i :: 0 <= i < 7 ==> "format="[i] != ' ';
    } else if |e.name| >= 7 {
      assert line[..7] == e.name[..7];
    }
  }

  lemma LineEnds(name: string, sig: string)
    ensures var line := LineOf(Entry(name, sig));
            line[|line| - 1] == if sig == "" then ' ' else sig[|sig| - 1]
  {
  }

  /** One entry's line reads back as that entry exactly when the entry is well formed. */
  lemma EntryLineReadsBackIff(e: Entry)
    ensures Classify(LineOf(e)) == EntryLine(e) <==> WellFormed(e)
  {
    var raw := LineOf(e);
    TrimIsTight(raw);
    TrimIsTight(e.sig);
    if WellFormed(e) {
      assert raw[0] == e.name[0] && raw[|raw| - 1] == e.sig[|e.sig| - 1];
      SplitsAtFirstSpace(e.name, e.sig);
      PrefixOfName(e, raw);
    }
    if Classify(raw) == EntryLine(e) {
      var line := Trim(raw);
      SplitOnceParts(line);
      var rest := SplitOnce(line).value.1;
      TrimIsTight(rest);
      assert line == LineOf(Entry(e.name, rest));
      PrefixOfName(Entry(e.name, rest), line);
      assert line[0] == if e.name == "" then ' ' else e.name[0];
      assert IsWs(' ');
      LineEnds(e.name, rest);
    }
  }

  lemma MergesOneByOne(acc: map<string, string>, e: Entry, rest: map<string, string>)
    ensures acc[e.name := e.sig] + rest == acc + (map[e.name := e.sig] + rest)
  {
  }

  lemma {:induction false} EntryLinesReadBack(entries: seq<Entry>, format: Option<nat>, acc: map<string, string>)
    requires forall e :: e in entries ==> WellFormed(e)
    ensures ReadLines(LinesOf(entries), format, acc) == ReadLines([], format, acc + ByName(entries))
  {
    if entries == [] {
      assert acc + ByName(entries) == acc;
    } else {
      var e := entries[0];
      EntryLineReadsBackIff(e);
      EntryLinesReadBack(entries[1..], format, acc[e.name := e.sig]);
      MergesOneByOne(acc, e, ByName(entries[1..]));
      assert LinesOf(entries)[1..] == LinesOf(entries[1..]);
    }
  }

  lemma CommentIsIgnored(line: string)
    requires Tight(line) && line != "" && line[0] == '#'
    ensures Classify(line) == Ignored
  {
    TrimIsTight(line);
  }

  lemma FormatLineReads(version: string)
    requires version != "" && Tight("format=" + version)
    ensures Classify("format=" + version) == FormatLine(ParseU32(version))
  {
    var line := "format=" + version;
    TrimIsTight(line);
    assert line[..7] == "format=" && line[7..] == version && line[0] == 'f';
  }

  lemma HeaderClassifies()
    ensures Classify(HEADER[0]) == Ignored && Classify(HEADER[1]) == Ignored
    ensures Classify(HEADER[2]) == FormatLine(Some(CACHE_FORMAT_VERSION))
  {
    var h := HEADER[0];
    assert h[0] == "# polysym cache "[0] && h[|h| - 1] == "by POLYSYM_REFRESH=1"[19];
    CommentIsIgnored(h);
    CommentIsIgnored(HEADER[1]);
    assert HEADER[2] == "format=" + "2";
    FormatLineReads("2");
    assert Decimal("2") == 2 by {
      assert "2"[..0] == "";
    }
  }

  lemma Steps(a: string, b: string, c: string, rest: seq<string>, n: nat)
    requires Classify(a) == Ignored && Classify(b) == Ignored && Classify(c) == FormatLine(Some(n))
    ensures ReadLines([a, b, c] + rest, None, map[]) == ReadLines(rest, Some(n), map[])
  {
    assert ([a, b, c] + rest)[1..] == [b, c] + rest;
    assert ([b, c] + rest)[1..] == [c] + rest;
    assert ([c] + rest)[1..] == rest;
    assert ReadLines([a, b, c] + rest, None, map[]) == ReadLines([b, c] + rest, None, map[]);
    assert ReadLines([b, c] + rest, None, map[]) == ReadLines([c] + rest, None, map[]);
  }

  lemma HeaderReads(rest: seq<string>)
    ensures ReadLines(HEADER + rest, None, map[]) == ReadLines(rest, Some(CACHE_FORMAT_VERSION), map[])
  {
    HeaderClassifies();
    Steps(HEADER[0], HEADER[1], HEADER[2], rest, CACHE_FORMAT_VERSION);
    assert HEADER == [HEADER[0], HEADER[1], HEADER[2]];
  }

  predicate SingleLine(e: Entry) { '\n' !in e.name && '\n' !in e.sig }

  lemma {:induction false} EntryLinesAreLines(entries: seq<Entry>)
    requires forall e :: e in entries ==> WellFormed(e) && SingleLine(e)
    ensures forall i :: 0 <= i < |LinesOf(entries)| ==> OneLine(LinesOf(entries)[i])
  {
    if entries != [] {
      var line := LineOf(entries[0]);
      assert entries[0] in entries;
      assert line[|line| - 1] == entries[0].sig[|entries[0].sig| - 1];
      assert IsWs('\r');
      EntryLinesAreLines(entries[1..]);
    }
  }

  lemma HeaderIsLines()
    ensures OneLine(HEADER[0]) && OneLine(HEADER[1]) && OneLine(HEADER[2])
  {
    var h0, h1, h2 := HEADER[0], HEADER[1], HEADER[2];
    var p0, p1, p2 := "# polysym cache ", "manifest - regenerated ", "by POLYSYM_REFRESH=1";
    assert h0 == p0 + (p1 + p2);
    assert forall i :: 0 <= i < |p0| ==> p0[i] != '\n';
    assert forall i :: 0 <= i < |p1| ==> p1[i] != '\n';
    assert forall i :: 0 <= i < |p2| ==> p2[i] != '\n';
    assert h0[|h0| - 1] == p2[|p2| - 1];
    assert forall i :: 0 <= i < |h1| ==> h1[i] != '\n';
    assert forall i :: 0 <= i < |h2| ==> h2[i] != '\n';
  }

  /** Reading a written manifest gives the map of its entries, a repeated name keeping its last signature. */
  lemma ReadUndoesWrite(entries: seq<Entry>)
    requires forall e :: e in entries ==> WellFormed(e) && SingleLine(e)
    ensures ReadLines(Lines(Unlines(HEADER + LinesOf(SortedByName(entries)))), None, map[]) == Loaded(ByName(entries))
  {
    var sorted := SortedByName(entries);
    SortingKeepsMap(entries);
    assert WellFormedLines(sorted);
    LinesOfManifest(sorted);
    ManifestReads(sorted);
  }

  predicate WellFormedLines(entries: seq<Entry>) { forall e :: e in entries ==> WellFormed(e) && SingleLine(e) }

  lemma LinesOfManifest(entries: seq<Entry>)
    requires WellFormedLines(entries)
    ensures Lines(Unlines(HEADER + LinesOf(entries))) == HEADER + LinesOf(entries)
  {
    EntryLinesAreLines(entries);
    HeaderIsLines();
    LinesUndoUnlines(HEADER + LinesOf(entries));
  }

  lemma ManifestReads(entries: seq<Entry>)
    requires WellFormedLines(entries)
    ensures ReadLines(HEADER + LinesOf(entries), None, map[]) == Loaded(ByName(entries))
  {
    HeaderReads(LinesOf(entries));
    EntryLinesReadBack(entries, Some(CACHE_FORMAT_VERSION), map[]);
    assert map[] + ByName(entries) == ByName(entries);
  }
}
