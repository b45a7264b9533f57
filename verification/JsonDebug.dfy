/**
  The text serde_json's values print as under {:?}, the compact text the logger shows instead, and the
  parser between them. A concrete syntax tree records everything a text may vary in, so that printing and
  parsing are exact inverses.
 */
module JsonDebug {
  import opened Sequences
  import opened Wrappers

  /** `lit` is what stands between the quotes, escapes included; `ws` is whitespace the parser skips. */
  datatype Cst =
    | Null
    | Bool(value: bool)
    | Number(text: string)
    | Str(lit: string)
    | EmptyArray(ws: string)
    | Array(ws: string, items: Items)
    | EmptyObject(ws: string)
    | Object(ws: string, entries: Entries)

  /** A value, the whitespace after it, and what follows: the closing bracket or a comma and more. */
  datatype Items = LastItem(value: Cst, ws: string) | MoreItems(value: Cst, ws: string, rest: Items)

  datatype Entries =
    | LastEntry(key: string, value: Cst, ws: string)
    | MoreEntries(key: string, value: Cst, ws: string, rest: Entries)

  // ---------------------------------------------------------------- lexical classes

  predicate IsSpace(c: char) { c == ' ' || c == '\t' || c == '\n' || c == '\r' || c == '\U{000C}' }

  predicate AllSpace(ws: string) { forall i :: 0 <= i < |ws| ==> IsSpace(ws[i]) }

  /** No bare quote, and every backslash is followed by the character it escapes. */
  predicate WellEscaped(lit: string) {
    if lit == "" then true
    else if lit[0] == '"' then false
    else if lit[0] == '\\' then |lit| >= 2 && WellEscaped(lit[2..])
    else WellEscaped(lit[1..])
  }

  predicate NumberText(text: string) { text != "" && ')' !in text }

  predicate Wf(c: Cst) {
    match c
    case Null => true
    case Bool(_) => true
    case Number(text) => NumberText(text)
    case Str(lit) => WellEscaped(lit)
    case EmptyArray(ws) => AllSpace(ws)
    case Array(ws, items) => AllSpace(ws) && WfItems(items)
    case EmptyObject(ws) => AllSpace(ws)
    case Object(ws, entries) => AllSpace(ws) && WfEntries(entries)
  }

  predicate WfItems(items: Items) {
    Wf(items.value) && AllSpace(items.ws) && (items.MoreItems? ==> WfItems(items.rest))
  }

  predicate WfEntries(entries: Entries) {
    && WellEscaped(entries.key) && Wf(entries.value) && AllSpace(entries.ws)
    && (entries.MoreEntries? ==> WfEntries(entries.rest))
  }

  // ---------------------------------------------------------------- the two texts

  /** The {:?} text of a tree, followed by `tail`. */
  function Print(c: Cst, tail: string): string {
    match c
    case Null => "Null" + tail
    case Bool(b) => (if b then "Bool(true)" else "Bool(false)") + tail
    case Number(text) => "Number(" + (text + (")" + tail))
    case Str(lit) => "String(" + PrintLit(lit, ")" + tail)
    case EmptyArray(ws) => "Array [" + (ws + ("]" + tail))
    case Array(ws, items) => "Array [" + (ws + PrintItems(items, tail))
    case EmptyObject(ws) => "Object {" + (ws + ("}" + tail))
    case Object(ws, entries) => "Object {" + (ws + PrintEntries(entries, tail))
  }

  function PrintLit(lit: string, tail: string): string { "\"" + (lit + ("\"" + tail)) }

  function PrintItems(items: Items, tail: string): string {
    match items
    case LastItem(value, ws) => Print(value, ws + ("]" + tail))
    case MoreItems(value, ws, rest) => Print(value, ws + (", " + PrintItems(rest, tail)))
  }

  function PrintEntries(entries: Entries, tail: string): string {
    match entries
    case LastEntry(key, value, ws) => PrintLit(key, ": " + Print(value, ws + ("}" + tail)))
    case MoreEntries(key, value, ws, rest) =>
      PrintLit(key, ": " + Print(value, ws + (", " + PrintEntries(rest, tail))))
  }

  /** What the logger shows: no type tags, no stray whitespace. */
  function Compact(c: Cst): string
    decreases c, 0
  {
    match c
    case Null => "null"
    case Bool(b) => if b then "true" else "false"
    case Number(text) => text
    case Str(lit) => "\"" + lit + "\""
    case EmptyArray(_) => "[]"
    case Array(_, items) => "[" + CompactItems(items) + "]"
    case EmptyObject(_) => "{}"
    case Object(_, entries) => "{" + CompactEntries(entries) + "}"
  }

  function CompactItems(items: Items): string
    decreases items, 2
  {
    match items
    case LastItem(value, _) => Compact(value)
    case MoreItems(value, _, rest) => Compact(value) + ", " + CompactItems(rest)
  }

  function CompactEntries(entries: Entries): string
    decreases entries, 2
  {
    match entries
    case LastEntry(key, value, _) => CompactPair(key, value)
    case MoreEntries(key, value, _, rest) => CompactPair(key, value) + ", " + CompactEntries(rest)
  }

  function CompactPair(key: string, value: Cst): string
    decreases value, 1
  {
    "\"" + key + "\"" + ": " + Compact(value)
  }

  // ---------------------------------------------------------------- the parser, on what is left of the input

  /** The leading whitespace of `s`, and the rest. */
  function SkipSpace(s: string): (string, string) {
    if s != "" && IsSpace(s[0])
    then var (ws, rest) := SkipSpace(s[1..]); ([s[0]] + ws, rest)
    else ("", s)
  }

  /** Up to the first closing parenthesis. */
  function UntilParen(s: string): (string, string) {
    if s != "" && s[0] != ')'
    then var (text, rest) := UntilParen(s[1..]); ([s[0]] + text, rest)
    else ("", s)
  }

  /** After an opening quote: the literal and what follows its closing quote. */
  function LitBody(s: string): Option<(string, string)> {
    if s == "" then None
    else if s[0] == '"' then Some(("", s[1..]))
    else if s[0] == '\\' then
      if |s| < 2 then None
      else
        match LitBody(s[2..])
        case None => None
        case Some((lit, rest)) => Some((s[..2] + lit, rest))
    else
      match LitBody(s[1..])
      case None => None
      case Some((lit, rest)) => Some(([s[0]] + lit, rest))
  }

  function ParseLit(s: string): Option<(string, string)> {
    if s != "" && s[0] == '"' then LitBody(s[1..]) else None
  }

  lemma {:induction false} LitBodyShrinks(s: string)
    ensures LitBody(s).Some? ==> |LitBody(s).value.1| < |s|
  {
    if s != "" && s[0] == '\\' && |s| >= 2 {
      LitBodyShrinks(s[2..]);
    } else if s != "" && s[0] != '"' {
      LitBodyShrinks(s[1..]);
    }
  }

  lemma {:induction false} SkipSpaceShrinks(s: string)
    ensures |SkipSpace(s).1| <= |s|
  {
    if s != "" && IsSpace(s[0]) {
      SkipSpaceShrinks(s[1..]);
    }
  }

  function ParseValue(s: string): (r: Option<(Cst, string)>)
    ensures r.Some? ==> |r.value.1| < |s|
    decreases |s|, 1
  {
    if StartsWith(s, "Object {") then
      SkipSpaceShrinks(s[8..]);
      var (ws, rest) := SkipSpace(s[8..]);
      if rest != "" && rest[0] == '}' then Some((EmptyObject(ws), rest[1..]))
      else
        match ParseEntries(rest)
        case None => None
        case Some((entries, tail)) => Some((Object(ws, entries), tail))
    else if StartsWith(s, "Array [") then
      SkipSpaceShrinks(s[7..]);
      var (ws, rest) := SkipSpace(s[7..]);
      if rest != "" && rest[0] == ']' then Some((EmptyArray(ws), rest[1..]))
      else
        match ParseItems(rest)
        case None => None
        case Some((items, tail)) => Some((Array(ws, items), tail))
    else if StartsWith(s, "String(") then
      match ParseLit(s[7..])
      case None => None
      case Some((lit, rest)) =>
        LitBodyShrinks(s[8..]);
        assert s[7..][1..] == s[8..];
        if rest != "" && rest[0] == ')' then Some((Str(lit), rest[1..])) else None
    else if StartsWith(s, "Number(") then
      UntilParenShrinks(s[7..]);
      var (text, rest) := UntilParen(s[7..]);
      if text != "" && rest != "" then Some((Number(text), rest[1..])) else None
    else if StartsWith(s, "Bool(true)") then Some((Bool(true), s[10..]))
    else if StartsWith(s, "Bool(false)") then Some((Bool(false), s[11..]))
    else if StartsWith(s, "Null") then Some((Null, s[4..]))
    else None
  }

  lemma {:induction false} UntilParenShrinks(s: string)
    ensures |UntilParen(s).1| <= |s|
    ensures UntilParen(s).1 != "" ==> UntilParen(s).1[0] == ')'
  {
    if s != "" && s[0] != ')' {
      UntilParenShrinks(s[1..]);
    }
  }

  function ParseItems(s: string): (r: Option<(Items, string)>)
    ensures r.Some? ==> |r.value.1| < |s|
    decreases |s|, 2
  {
    match ParseValue(s)
    case None => None
    case Some((value, afterValue)) =>
      SkipSpaceShrinks(afterValue);
      var (ws, rest) := SkipSpace(afterValue);
      if rest != "" && rest[0] == ']' then Some((LastItem(value, ws), rest[1..]))
      else if StartsWith(rest, ", ") then
        match ParseItems(rest[2..])
        case None => None
        case Some((more, tail)) => Some((MoreItems(value, ws, more), tail))
      else None
  }

  /** A key, a colon and a value. */
  function ParsePair(s: string): (r: Option<(string, Cst, string)>)
    ensures r.Some? ==> |r.value.2| < |s|
    decreases |s|, 1
  {
    match ParseLit(s)
    case None => None
    case Some((key, afterKey)) =>
      LitBodyShrinks(s[1..]);
      if !StartsWith(afterKey, ": ") then None
      else
        match ParseValue(afterKey[2..])
        case None => None
        case Some((value, rest)) => Some((key, value, rest))
  }

  function ParseEntries(s: string): (r: Option<(Entries, string)>)
    ensures r.Some? ==> |r.value.1| < |s|
    decreases |s|, 2
  {
    match ParsePair(s)
    case None => None
    case Some((key, value, afterValue)) =>
      SkipSpaceShrinks(afterValue);
      var (ws, rest) := SkipSpace(afterValue);
      if rest != "" && rest[0] == '}' then Some((LastEntry(key, value, ws), rest[1..]))
      else if StartsWith(rest, ", ") then
        match ParseEntries(rest[2..])
        case None => None
        case Some((more, tail)) => Some((MoreEntries(key, value, ws, more), tail))
      else None
  }

  // ---------------------------------------------------------------- parsing undoes printing

  lemma {:induction false} SpaceThenOther(ws: string, rest: string)
    requires AllSpace(ws) && (rest == "" || !IsSpace(rest[0]))
    ensures SkipSpace(ws + rest) == (ws, rest)
  {
    if ws == "" {
      assert ws + rest == rest;
    } else {
      SpaceThenOther(ws[1..], rest);
      assert [ws[0]] + ws[1..] == ws;
      assert (ws + rest)[1..] == ws[1..] + rest;
    }
  }

  lemma {:induction false} NumberThenParen(text: string, tail: string)
    requires ')' !in text
    ensures UntilParen(text + (")" + tail)) == (text, ")" + tail)
  {
    if text == "" {
      assert text + (")" + tail) == ")" + tail;
    } else {
      NumberThenParen(text[1..], tail);
      assert [text[0]] + text[1..] == text;
      assert (text + (")" + tail))[1..] == text[1..] + (")" + tail);
    }
  }

  lemma SplitsAt(s: string, rest: string, n: nat)
    requires n <= |s|
    ensures (s + rest)[n..] == s[n..] + rest && (s + rest)[..n] == s[..n] && s == s[..n] + s[n..]
  {
  }

  lemma {:induction false} LitThenQuote(lit: string, tail: string)
    requires WellEscaped(lit)
    ensures LitBody(lit + ("\"" + tail)) == Some((lit, tail))
  {
    var s := lit + ("\"" + tail);
    if lit == "" {
      assert s == "\"" + tail;
    } else if lit[0] == '\\' {
      LitThenQuote(lit[2..], tail);
      SplitsAt(lit, "\"" + tail, 2);
    } else {
      LitThenQuote(lit[1..], tail);
      SplitsAt(lit, "\"" + tail, 1);
      assert [lit[0]] + lit[1..] == lit;
    }
  }

  lemma ParseLitPrinted(lit: string, tail: string)
    requires WellEscaped(lit)
    ensures ParseLit(PrintLit(lit, tail)) == Some((lit, tail))
  {
    LitThenQuote(lit, tail);
    assert PrintLit(lit, tail)[1..] == lit + ("\"" + tail);
  }

  lemma DropsPrefix(prefix: string, rest: string)
    ensures StartsWith(prefix + rest, prefix) && (prefix + rest)[|prefix|..] == rest
  {
  }

  /** No printed tree starts with whitespace or a closing bracket, so the two forms of a collection never mix up. */
  lemma PrintedStart(c: Cst, tail: string)
    ensures var s := Print(c, tail);
            s != "" && (s[0] == 'N' || s[0] == 'B' || s[0] == 'S' || s[0] == 'A' || s[0] == 'O')
  {
  }

  lemma PrintedItemsStart(items: Items, tail: string)
    ensures var s := PrintItems(items, tail); s != "" && !IsSpace(s[0]) && s[0] != ']'
  {
    match items
    case LastItem(value, ws) => PrintedStart(value, ws + ("]" + tail));
    case MoreItems(value, ws, rest) => PrintedStart(value, ws + (", " + PrintItems(rest, tail)));
  }

  lemma FirstCharDecides(s: string)
    requires s != ""
    ensures s[0] != 'O' ==> !StartsWith(s, "Object {")
    ensures s[0] != 'A' ==> !StartsWith(s, "Array [")
    ensures s[0] != 'S' ==> !StartsWith(s, "String(")
    ensures s[0] != 'N' ==> !StartsWith(s, "Number(") && !StartsWith(s, "Null")
    ensures s[0] != 'B' ==> !StartsWith(s, "Bool(true)") && !StartsWith(s, "Bool(false)")
    ensures StartsWith(s, "Null") ==> !StartsWith(s, "Number(")
    ensures StartsWith(s, "Bool(false)") ==> !StartsWith(s, "Bool(true)")
  {
    assert StartsWith(s, "Object {") ==> s[0] == s[..8][0];
    assert StartsWith(s, "Array [") ==> s[0] == s[..7][0];
    assert StartsWith(s, "String(") ==> s[0] == s[..7][0];
    assert StartsWith(s, "Number(") ==> s[0] == s[..7][0] && s[2] == s[..7][2];
    assert StartsWith(s, "Null") ==> s[0] == s[..4][0] && s[2] == s[..4][2];
    assert StartsWith(s, "Bool(true)") ==> s[0] == s[..10][0] && s[5] == s[..10][5];
    assert StartsWith(s, "Bool(false)") ==> s[0] == s[..11][0] && s[5] == s[..11][5];
  }

  lemma ParseScalarPrinted(c: Cst, tail: string)
    requires Wf(c) && (c.Null? || c.Bool? || c.Number? || c.Str?)
    ensures ParseValue(Print(c, tail)) == Some((c, tail))
  {
    var s := Print(c, tail);
    PrintedStart(c, tail);
    match c
    case Null =>
      DropsPrefix("Null", tail);
      FirstCharDecides(s);
    case Bool(b) =>
      DropsPrefix(if b then "Bool(true)" else "Bool(false)", tail);
      FirstCharDecides(s);
    case Number(text) =>
      DropsPrefix("Number(", text + (")" + tail));
      FirstCharDecides(s);
      NumberThenParen(text, tail);
      assert (")" + tail)[1..] == tail;
    case Str(lit) =>
      DropsPrefix("String(", PrintLit(lit, ")" + tail));
      FirstCharDecides(s);
      ParseLitPrinted(lit, ")" + tail);
      assert (")" + tail)[1..] == tail;
  }

  /** Parsing the {:?} text of any tree gives the tree back and stops exactly where its text ends. */
  lemma {:induction false} ParsePrinted(c: Cst, tail: string)
    requires Wf(c)
    ensures ParseValue(Print(c, tail)) == Some((c, tail))
    decreases c, 0
  {
    var s := Print(c, tail);
    match c
    case EmptyArray(ws) =>
      DropsPrefix("Array [", ws + ("]" + tail));
      SpaceThenOther(ws, "]" + tail);
      FirstCharDecides(s);
      assert ("]" + tail)[1..] == tail;
    case EmptyObject(ws) =>
      DropsPrefix("Object {", ws + ("}" + tail));
      SpaceThenOther(ws, "}" + tail);
      assert ("}" + tail)[1..] == tail;
    case Array(ws, items) =>
      DropsPrefix("Array [", ws + PrintItems(items, tail));
      PrintedItemsStart(items, tail);
      SpaceThenOther(ws, PrintItems(items, tail));
      FirstCharDecides(s);
      ParseItemsPrinted(items, tail);
    case Object(ws, entries) =>
      DropsPrefix("Object {", ws + PrintEntries(entries, tail));
      assert PrintEntries(entries, tail)[0] == '"';
      SpaceThenOther(ws, PrintEntries(entries, tail));
      ParseEntriesPrinted(entries, tail);
    case _ => ParseScalarPrinted(c, tail);
  }

  lemma {:induction false} ParseItemsPrinted(items: Items, tail: string)
    requires WfItems(items)
    ensures ParseItems(PrintItems(items, tail)) == Some((items, tail))
    decreases items, 0
  {
    match items
    case LastItem(value, ws) =>
      ParsePrinted(value, ws + ("]" + tail));
      SpaceThenOther(ws, "]" + tail);
      assert ("]" + tail)[1..] == tail;
    case MoreItems(value, ws, rest) =>
      var more := PrintItems(rest, tail);
      ParsePrinted(value, ws + (", " + more));
      SpaceThenOther(ws, ", " + more);
      DropsPrefix(", ", more);
      ParseItemsPrinted(rest, tail);
  }

  lemma {:induction false} ParseEntriesPrinted(entries: Entries, tail: string)
    requires WfEntries(entries)
    ensures ParseEntries(PrintEntries(entries, tail)) == Some((entries, tail))
    decreases entries, 0
  {
    match entries
    case LastEntry(key, value, ws) =>
      var afterKey := Print(value, ws + ("}" + tail));
      ParseLitPrinted(key, ": " + afterKey);
      DropsPrefix(": ", afterKey);
      ParsePrinted(value, ws + ("}" + tail));
      SpaceThenOther(ws, "}" + tail);
      assert ("}" + tail)[1..] == tail;
    case MoreEntries(key, value, ws, rest) =>
      var more := PrintEntries(rest, tail);
      var afterKey := Print(value, ws + (", " + more));
      ParseLitPrinted(key, ": " + afterKey);
      DropsPrefix(": ", afterKey);
      ParsePrinted(value, ws + (", " + more));
      SpaceThenOther(ws, ", " + more);
      DropsPrefix(", ", more);
      ParseEntriesPrinted(rest, tail);
  }

  // ---------------------------------------------------------------- printing undoes parsing

  lemma {:induction false} SkippedSpace(s: string)
    ensures var (ws, rest) := SkipSpace(s); s == ws + rest && AllSpace(ws)
  {
    if s != "" && IsSpace(s[0]) {
      SkippedSpace(s[1..]);
      var (ws, rest) := SkipSpace(s[1..]);
      assert s == [s[0]] + s[1..];
    }
  }

  lemma {:induction false} TextUntilParen(s: string)
    ensures var (text, rest) := UntilParen(s); s == text + rest && ')' !in text
  {
    if s != "" && s[0] != ')' {
      TextUntilParen(s[1..]);
      assert s == [s[0]] + s[1..];
    }
  }

  lemma TakesPart(s: string, n: nat, part: string, rest: string)
    requires n <= |s| && s[n..] == part + rest
    ensures s == (s[..n] + part) + rest
  {
  }

  lemma {:induction false} LitBodyIsWellEscaped(s: string)
    requires LitBody(s).Some?
    ensures var (lit, rest) := LitBody(s).value; WellEscaped(lit) && s == lit + ("\"" + rest)
  {
    if s[0] == '"' {
      assert s == "" + ("\"" + s[1..]);
    } else if s[0] == '\\' {
      LitBodyIsWellEscaped(s[2..]);
      var (lit, rest) := LitBody(s[2..]).value;
      assert (s[..2] + lit)[2..] == lit;
      TakesPart(s, 2, lit, "\"" + rest);
    } else {
      LitBodyIsWellEscaped(s[1..]);
      var (lit, rest) := LitBody(s[1..]).value;
      assert ([s[0]] + lit)[1..] == lit && [s[0]] == s[..1];
      TakesPart(s, 1, lit, "\"" + rest);
    }
  }

  lemma ParsedLit(s: string)
    requires ParseLit(s).Some?
    ensures var (lit, rest) := ParseLit(s).value; WellEscaped(lit) && s == PrintLit(lit, rest)
  {
    LitBodyIsWellEscaped(s[1..]);
    assert s == "\"" + s[1..];
  }

  lemma SplitsAtPrefix(s: string, prefix: string)
    requires StartsWith(s, prefix)
    ensures s == prefix + s[|prefix|..]
  {
  }

  lemma SplitsAtFirst(s: string)
    requires s != ""
    ensures s == [s[0]] + s[1..]
  {
  }

  /** Whatever the parser accepts is, up to where it stopped, exactly the {:?} text of the tree it returns. */
  lemma {:induction false} ParsedIsPrinted(s: string)
    requires ParseValue(s).Some?
    ensures var (c, tail) := ParseValue(s).value; Wf(c) && s == Print(c, tail)
    decreases |s|, 1
  {
    if StartsWith(s, "Object {") {
      SplitsAtPrefix(s, "Object {");
      SkippedSpace(s[8..]);
      SkipSpaceShrinks(s[8..]);
      var (ws, rest) := SkipSpace(s[8..]);
      if rest != "" && rest[0] == '}' {
        SplitsAtFirst(rest);
      } else {
        ParsedEntriesArePrinted(rest);
      }
    } else if StartsWith(s, "Array [") {
      SplitsAtPrefix(s, "Array [");
      SkippedSpace(s[7..]);
      SkipSpaceShrinks(s[7..]);
      var (ws, rest) := SkipSpace(s[7..]);
      if rest != "" && rest[0] == ']' {
        SplitsAtFirst(rest);
      } else {
        ParsedItemsArePrinted(rest);
      }
    } else {
      ParsedScalarIsPrinted(s);
    }
  }

  lemma ParsedScalarIsPrinted(s: string)
    requires ParseValue(s).Some? && !StartsWith(s, "Object {") && !StartsWith(s, "Array [")
    ensures var (c, tail) := ParseValue(s).value; Wf(c) && s == Print(c, tail)
  {
    if StartsWith(s, "String(") {
      SplitsAtPrefix(s, "String(");
      ParsedLit(s[7..]);
      var (lit, rest) := ParseLit(s[7..]).value;
      SplitsAtFirst(rest);
    } else if StartsWith(s, "Number(") {
      SplitsAtPrefix(s, "Number(");
      TextUntilParen(s[7..]);
      UntilParenShrinks(s[7..]);
      SplitsAtFirst(UntilParen(s[7..]).1);
    } else if StartsWith(s, "Bool(true)") {
      SplitsAtPrefix(s, "Bool(true)");
    } else if StartsWith(s, "Bool(false)") {
      SplitsAtPrefix(s, "Bool(false)");
    } else {
      SplitsAtPrefix(s, "Null");
    }
  }

  lemma {:induction false} ParsedItemsArePrinted(s: string)
    requires ParseItems(s).Some?
    ensures var (items, tail) := ParseItems(s).value; WfItems(items) && s == PrintItems(items, tail)
    decreases |s|, 2
  {
    ParsedIsPrinted(s);
    var (value, afterValue) := ParseValue(s).value;
    SkippedSpace(afterValue);
    SkipSpaceShrinks(afterValue);
    var (ws, rest) := SkipSpace(afterValue);
    if rest != "" && rest[0] == ']' {
      SplitsAtFirst(rest);
    } else {
      SplitsAtPrefix(rest, ", ");
      ParsedItemsArePrinted(rest[2..]);
    }
  }

  lemma {:induction false} ParsedEntriesArePrinted(s: string)
    requires ParseEntries(s).Some?
    ensures var (entries, tail) := ParseEntries(s).value; WfEntries(entries) && s == PrintEntries(entries, tail)
    decreases |s|, 2
  {
    ParsedLit(s);
    LitBodyShrinks(s[1..]);
    var (key, afterKey) := ParseLit(s).value;
    SplitsAtPrefix(afterKey, ": ");
    ParsedIsPrinted(afterKey[2..]);
    var (value, afterValue) := ParseValue(afterKey[2..]).value;
    SkippedSpace(afterValue);
    SkipSpaceShrinks(afterValue);
    var (ws, rest) := SkipSpace(afterValue);
    if rest != "" && rest[0] == '}' {
      SplitsAtFirst(rest);
    } else {
      SplitsAtPrefix(rest, ", ");
      ParsedEntriesArePrinted(rest[2..]);
    }
  }
}
