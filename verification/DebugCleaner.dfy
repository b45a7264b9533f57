/**
  Cleaning a {:?} field value: strip `Some(...)` layers, then rewrite serde_json text. The headline result
  is about JSON values themselves: however deeply wrapped, a value's {:?} text becomes its compact text.
 */
module DebugCleaner {
  import opened Wrappers
  import opened JsonDebug
  import opened JsonDebugParser
  import opened Sequences
  import opened SomeStripper

  // ---------------------------------------------------------------- JSON values and their {:?} text

  datatype Json =
    | JNull
    | JBool(value: bool)
    | JNumber(text: string)
    | JString(content: string)
    | JArray(items: seq<Json>)
    | JObject(fields: seq<Field>)

  datatype Field = Field(key: string, value: Json)

  predicate IsNumberChar(c: char) { '0' <= c <= '9' || c in "+-.eE" }

  predicate JsonNumber(text: string) { text != "" && forall i :: 0 <= i < |text| ==> IsNumberChar(text[i]) }

  predicate Printable(j: Json) {
    match j
    case JNumber(text) => JsonNumber(text)
    case JArray(items) => forall i :: 0 <= i < |items| ==> Printable(items[i])
    case JObject(fields) => forall i :: 0 <= i < |fields| ==> Printable(fields[i].value)
    case _ => true
  }

  function HexDigits(n: nat): string {
    var digit := "0123456789abcdef"[n % 16];
    if n < 16 then [digit] else HexDigits(n / 16) + [digit]
  }

  /** How {:?} writes one character of a string; `shown` says which characters are printable. */
  function EscapeChar(c: char, shown: char -> bool): string {
    if c == '\0' then "\\0"
    else if c == '\t' then "\\t"
    else if c == '\r' then "\\r"
    else if c == '\n' then "\\n"
    else if c == '"' then "\\\""
    else if c == '\\' then "\\\\"
    else if shown(c) then [c]
    else "\\u{" + HexDigits(c as int) + "}"
  }

  function Escape(content: string, shown: char -> bool): string {
    if content == "" then "" else EscapeChar(content[0], shown) + Escape(content[1..], shown)
  }

  function DebugText(j: Json, shown: char -> bool): string
    decreases j, 1
  {
    match j
    case JNull => "Null"
    case JBool(b) => if b then "Bool(true)" else "Bool(false)"
    case JNumber(text) => "Number(" + text + ")"
    case JString(content) => "String(\"" + Escape(content, shown) + "\")"
    case JArray(items) => "Array [" + DebugItems(items, shown) + "]"
    case JObject(fields) => "Object {" + DebugFields(fields, shown) + "}"
  }

  function DebugItems(items: seq<Json>, shown: char -> bool): string
    decreases items, 0
  {
    if items == [] then ""
    else if |items| == 1 then DebugText(items[0], shown)
    else DebugText(items[0], shown) + ", " + DebugItems(items[1..], shown)
  }

  function DebugField(key: string, value: Json, shown: char -> bool): string
    decreases value, 2
  {
    "\"" + Escape(key, shown) + "\": " + DebugText(value, shown)
  }

  function DebugFields(fields: seq<Field>, shown: char -> bool): string
    decreases fields, 0
  {
    if fields == [] then ""
    else if |fields| == 1 then DebugField(fields[0].key, fields[0].value, shown)
    else DebugField(fields[0].key, fields[0].value, shown) + ", " + DebugFields(fields[1..], shown)
  }

  function CompactText(j: Json, shown: char -> bool): string
    decreases j, 1
  {
    match j
    case JNull => "null"
    case JBool(b) => if b then "true" else "false"
    case JNumber(text) => text
    case JString(content) => "\"" + Escape(content, shown) + "\""
    case JArray(items) => "[" + CompactTexts(items, shown) + "]"
    case JObject(fields) => "{" + CompactFields(fields, shown) + "}"
  }

  function CompactTexts(items: seq<Json>, shown: char -> bool): string
    decreases items, 0
  {
    if items == [] then ""
    else if |items| == 1 then CompactText(items[0], shown)
    else CompactText(items[0], shown) + ", " + CompactTexts(items[1..], shown)
  }

  function CompactField(key: string, value: Json, shown: char -> bool): string
    decreases value, 2
  {
    "\"" + Escape(key, shown) + "\"" + ": " + CompactText(value, shown)
  }

  function CompactFields(fields: seq<Field>, shown: char -> bool): string
    decreases fields, 0
  {
    if fields == [] then ""
    else if |fields| == 1 then CompactField(fields[0].key, fields[0].value, shown)
    else CompactField(fields[0].key, fields[0].value, shown) + ", " + CompactFields(fields[1..], shown)
  }

  // ---------------------------------------------------------------- as concrete syntax

  function ToCst(j: Json, shown: char -> bool): Cst
    decreases j, 1
  {
    match j
    case JNull => Null
    case JBool(b) => Bool(b)
    case JNumber(text) => Number(text)
    case JString(content) => Str(Escape(content, shown))
    case JArray(items) => if items == [] then EmptyArray("") else Array("", ToItems(items, shown))
    case JObject(fields) => if fields == [] then EmptyObject("") else Object("", ToEntries(fields, shown))
  }

  function ToItems(items: seq<Json>, shown: char -> bool): Items
    requires items != []
    decreases items, 0
  {
    if |items| == 1 then LastItem(ToCst(items[0], shown), "")
    else MoreItems(ToCst(items[0], shown), "", ToItems(items[1..], shown))
  }

  function ToEntries(fields: seq<Field>, shown: char -> bool): Entries
    requires fields != []
    decreases fields, 0
  {
    var key, value := Escape(fields[0].key, shown), fields[0].value;
    if |fields| == 1 then LastEntry(key, ToCst(value, shown), "")
    else MoreEntries(key, ToCst(value, shown), "", ToEntries(fields[1..], shown))
  }

  lemma {:induction false} PlainRunIsWellEscaped(run: string, rest: string)
    requires '"' !in run && '\\' !in run && WellEscaped(rest)
    ensures WellEscaped(run + rest)
  {
    if run == "" {
      assert run + rest == rest;
    } else {
      PlainRunIsWellEscaped(run[1..], rest);
      assert (run + rest)[1..] == run[1..] + rest;
    }
  }

  lemma {:induction false} HexDigitsArePlain(n: nat)
    ensures '"' !in HexDigits(n) && '\\' !in HexDigits(n)
  {
    if n >= 16 {
      HexDigitsArePlain(n / 16);
    }
  }

  lemma EscapedCharIsWellEscaped(c: char, shown: char -> bool, rest: string)
    requires WellEscaped(rest)
    ensures WellEscaped(EscapeChar(c, shown) + rest)
  {
    var e := EscapeChar(c, shown);
    if e == [c] {
      PlainRunIsWellEscaped(e, rest);
    } else if |e| == 2 {
      assert (e + rest)[2..] == rest;
    } else {
      HexDigitsArePlain(c as int);
      var run := "{" + HexDigits(c as int) + "}";
      PlainRunIsWellEscaped(run, rest);
      assert (e + rest)[2..] == run + rest;
    }
  }

  /** Whatever a string holds, its {:?} form has no bare quote and no dangling backslash. */
  lemma {:induction false} EscapeIsWellEscaped(content: string, shown: char -> bool)
    ensures WellEscaped(Escape(content, shown))
  {
    if content != "" {
      EscapeIsWellEscaped(content[1..], shown);
      EscapedCharIsWellEscaped(content[0], shown, Escape(content[1..], shown));
    }
  }

  /** Numbers hold nothing the depth scan reacts to. */
  predicate PlainNumbers(c: Cst) {
    match c
    case Number(text) => forall i :: 0 <= i < |text| ==> IsPlain(text[i])
    case Array(_, items) => PlainNumbersInItems(items)
    case Object(_, entries) => PlainNumbersInEntries(entries)
    case _ => true
  }

  predicate PlainNumbersInItems(items: Items) {
    PlainNumbers(items.value) && (items.MoreItems? ==> PlainNumbersInItems(items.rest))
  }

  predicate PlainNumbersInEntries(entries: Entries) {
    PlainNumbers(entries.value) && (entries.MoreEntries? ==> PlainNumbersInEntries(entries.rest))
  }

  lemma {:induction false} ToCstIsWf(j: Json, shown: char -> bool)
    requires Printable(j)
    ensures Wf(ToCst(j, shown)) && PlainNumbers(ToCst(j, shown))
    decreases j, 1
  {
    match j
    case JString(content) => EscapeIsWellEscaped(content, shown);
    case JNumber(text) =>
      assert ')' !in text by {
        assert forall i :: 0 <= i < |text| ==> IsNumberChar(text[i]);
      }
    case JArray(items) =>
      if items != [] {
        ToItemsIsWf(items, shown);
      }
    case JObject(fields) =>
      if fields != [] {
        ToEntriesIsWf(fields, shown);
      }
    case _ =>
  }

  lemma {:induction false} ToItemsIsWf(items: seq<Json>, shown: char -> bool)
    requires items != [] && forall i :: 0 <= i < |items| ==> Printable(items[i])
    ensures WfItems(ToItems(items, shown)) && PlainNumbersInItems(ToItems(items, shown))
    decreases items, 0
  {
    ToCstIsWf(items[0], shown);
    if |items| > 1 {
      ToItemsIsWf(items[1..], shown);
    }
  }

  lemma {:induction false} ToEntriesIsWf(fields: seq<Field>, shown: char -> bool)
    requires fields != [] && forall i :: 0 <= i < |fields| ==> Printable(fields[i].value)
    ensures WfEntries(ToEntries(fields, shown)) && PlainNumbersInEntries(ToEntries(fields, shown))
    decreases fields, 0
  {
    EscapeIsWellEscaped(fields[0].key, shown);
    ToCstIsWf(fields[0].value, shown);
    if |fields| > 1 {
      ToEntriesIsWf(fields[1..], shown);
    }
  }

  /** The tree of a value prints as the value's {:?} text. */
  lemma {:induction false} ToCstPrints(j: Json, shown: char -> bool, tail: string)
    ensures Print(ToCst(j, shown), tail) == DebugText(j, shown) + tail
    decreases j, 1
  {
    match j
    case JNull =>
    case JBool(b) =>
    case JNumber(text) =>
    case JString(content) =>
    case JArray(items) =>
      if items == [] {
        assert "Array [" + ("" + ("]" + tail)) == ("Array [" + "" + "]") + tail;
      } else {
        ToItemsPrints(items, shown, tail);
        assert "" + PrintItems(ToItems(items, shown), tail) == PrintItems(ToItems(items, shown), tail);
        ConcatAssociative("Array [", DebugItems(items, shown) + "]", tail);
        ConcatAssociative(DebugItems(items, shown), "]", tail);
        ConcatAssociative("Array [", DebugItems(items, shown), "]");
      }
    case JObject(fields) =>
      if fields == [] {
        assert "Object {" + ("" + ("}" + tail)) == ("Object {" + "" + "}") + tail;
      } else {
        ToEntriesPrints(fields, shown, tail);
        assert "" + PrintEntries(ToEntries(fields, shown), tail) == PrintEntries(ToEntries(fields, shown), tail);
        ConcatAssociative("Object {", DebugFields(fields, shown) + "}", tail);
        ConcatAssociative(DebugFields(fields, shown), "}", tail);
        ConcatAssociative("Object {", DebugFields(fields, shown), "}");
      }
  }

  lemma {:induction false} ToItemsPrints(items: seq<Json>, shown: char -> bool, tail: string)
    requires items != []
    ensures PrintItems(ToItems(items, shown), tail) == DebugItems(items, shown) + ("]" + tail)
    decreases items, 0
  {
    if |items| == 1 {
      ToCstPrints(items[0], shown, "" + ("]" + tail));
      assert "" + ("]" + tail) == "]" + tail;
    } else {
      var more := PrintItems(ToItems(items[1..], shown), tail);
      ToCstPrints(items[0], shown, "" + (", " + more));
      assert "" + (", " + more) == ", " + more;
      ToItemsPrints(items[1..], shown, tail);
      ConcatAssociative(", ", DebugItems(items[1..], shown), "]" + tail);
      ConcatAssociative(DebugText(items[0], shown), ", " + DebugItems(items[1..], shown), "]" + tail);
      ConcatAssociative(DebugText(items[0], shown), ", ", DebugItems(items[1..], shown));
    }
  }

  lemma FieldPrints(key: string, value: string, rest: string)
    ensures PrintLit(key, ": " + (value + rest)) == ("\"" + key + "\": " + value) + rest
  {
    assert PrintLit(key, ": " + (value + rest)) == "\"" + key + "\"" + ": " + value + rest;
    assert "\"" + ": " == "\": ";
    assert "\"" + key + "\"" + ": " == "\"" + key + "\": ";
  }

  lemma {:induction false} ToEntriesPrints(fields: seq<Field>, shown: char -> bool, tail: string)
    requires fields != []
    ensures PrintEntries(ToEntries(fields, shown), tail) == DebugFields(fields, shown) + ("}" + tail)
    decreases fields, 0
  {
    var key, value := Escape(fields[0].key, shown), DebugText(fields[0].value, shown);
    var field := DebugField(fields[0].key, fields[0].value, shown);
    if |fields| == 1 {
      ToCstPrints(fields[0].value, shown, "" + ("}" + tail));
      assert "" + ("}" + tail) == "}" + tail;
      FieldPrints(key, value, "}" + tail);
    } else {
      var more := PrintEntries(ToEntries(fields[1..], shown), tail);
      ToCstPrints(fields[0].value, shown, "" + (", " + more));
      assert "" + (", " + more) == ", " + more;
      FieldPrints(key, value, ", " + more);
      ToEntriesPrints(fields[1..], shown, tail);
      ConcatAssociative(", ", DebugFields(fields[1..], shown), "}" + tail);
      ConcatAssociative(field, ", " + DebugFields(fields[1..], shown), "}" + tail);
      ConcatAssociative(field, ", ", DebugFields(fields[1..], shown));
    }
  }

  lemma {:induction false} ToCstCompacts(j: Json, shown: char -> bool)
    ensures Compact(ToCst(j, shown)) == CompactText(j, shown)
    decreases j, 1
  {
    match j
    case JArray(items) =>
      if items != [] {
        ToItemsCompacts(items, shown);
      }
    case JObject(fields) =>
      if fields != [] {
        ToEntriesCompacts(fields, shown);
      }
    case _ =>
  }

  lemma {:induction false} ToItemsCompacts(items: seq<Json>, shown: char -> bool)
    requires items != []
    ensures CompactItems(ToItems(items, shown)) == CompactTexts(items, shown)
    decreases items, 0
  {
    ToCstCompacts(items[0], shown);
    if |items| > 1 {
      ToItemsCompacts(items[1..], shown);
    }
  }

  lemma {:induction false} ToEntriesCompacts(fields: seq<Field>, shown: char -> bool)
    requires fields != []
    ensures CompactEntries(ToEntries(fields, shown)) == CompactFields(fields, shown)
    decreases fields, 0
  {
    ToCstCompacts(fields[0].value, shown);
    if |fields| > 1 {
      ToEntriesCompacts(fields[1..], shown);
    }
  }

  // ---------------------------------------------------------------- {:?} text is balanced

  lemma {:induction false} BalancedAfterRun(run: string, s: string)
    requires Balanced(s) && forall i :: 0 <= i < |run| ==> IsPlain(run[i])
    ensures Balanced(run + s)
  {
    if run == "" {
      assert run + s == s;
    } else {
      BalancedAfterRun(run[1..], s);
      BalancedAfterChar(run[0], run[1..] + s);
      assert run + s == [run[0]] + (run[1..] + s);
    }
  }

  lemma BalancedAfterLiteral(lit: string, s: string)
    requires WellEscaped(lit) && Balanced(s)
    ensures Balanced(PrintLit(lit, s))
  {
    var b :| WfBody(b) && Text(b, "") == s;
    assert WfBody(Quoted(lit, b)) && Text(Quoted(lit, b), "") == PrintLit(lit, s);
  }

  lemma BalancedAfterParens(inner: string, s: string)
    requires Balanced(inner) && Balanced(s)
    ensures Balanced("(" + (inner + (")" + s)))
  {
    var b :| WfBody(b) && Text(b, "") == inner;
    var rest :| WfBody(rest) && Text(rest, "") == s;
    TextAppends(b, ")" + s);
    assert WfBody(Parens(b, rest)) && Text(Parens(b, rest), "") == "(" + (inner + (")" + s));
  }

  lemma NothingIsBalanced()
    ensures Balanced("")
  {
    assert WfBody(Done) && Text(Done, "") == "";
  }

  lemma TaggedIsBalanced(tag: string, inner: string, tail: string)
    requires Balanced(inner) && Balanced(tail) && forall i :: 0 <= i < |tag| ==> IsPlain(tag[i])
    ensures Balanced(tag + ("(" + (inner + (")" + tail))))
  {
    BalancedAfterParens(inner, tail);
    BalancedAfterRun(tag, "(" + (inner + (")" + tail)));
  }

  lemma TaggedRunIsBalanced(tag: string, word: string, tail: string)
    requires Balanced(tail)
    requires forall i :: 0 <= i < |tag| ==> IsPlain(tag[i])
    requires forall i :: 0 <= i < |word| ==> IsPlain(word[i])
    ensures Balanced(tag + ("(" + (word + (")" + tail))))
  {
    NothingIsBalanced();
    BalancedAfterRun(word, "");
    assert word + "" == word;
    TaggedIsBalanced(tag, word, tail);
  }

  lemma PrintedStringIsBalanced(lit: string, tail: string)
    requires WellEscaped(lit) && Balanced(tail)
    ensures Balanced("String" + ("(" + PrintLit(lit, ")" + tail)))
  {
    NothingIsBalanced();
    BalancedAfterLiteral(lit, "");
    TaggedIsBalanced("String", PrintLit(lit, ""), tail);
    LiteralAppends(lit, "", ")" + tail);
    assert "" + (")" + tail) == ")" + tail;
  }

  lemma PrintedScalarIsBalanced(c: Cst, tail: string)
    requires Wf(c) && PlainNumbers(c) && Balanced(tail) && (c.Bool? || c.Number? || c.Str?)
    ensures Balanced(Print(c, tail))
  {
    match c
    case Bool(b) =>
      var word := if b then "true" else "false";
      TaggedRunIsBalanced("Bool", word, tail);
      assert Print(c, tail) == "Bool" + ("(" + (word + (")" + tail)));
    case Number(text) =>
      TaggedRunIsBalanced("Number", text, tail);
      assert Print(c, tail) == "Number" + ("(" + (text + (")" + tail)));
    case Str(lit) =>
      PrintedStringIsBalanced(lit, tail);
      assert Print(c, tail) == "String" + ("(" + PrintLit(lit, ")" + tail));
  }

  lemma BracketedIsBalanced(open: string, ws: string, rest: string)
    requires (open == "Array [" || open == "Object {") && AllSpace(ws) && Balanced(rest)
    ensures Balanced(open + (ws + rest))
  {
    BalancedAfterRun(ws, rest);
    BalancedAfterRun(open, ws + rest);
  }

  /** The {:?} text of a tree is balanced, so layers around it are recognized. */
  lemma {:induction false} PrintedIsBalanced(c: Cst, tail: string)
    requires Wf(c) && PlainNumbers(c) && Balanced(tail)
    ensures Balanced(Print(c, tail))
    decreases c
  {
    match c
    case Null => BalancedAfterRun("Null", tail);
    case EmptyArray(ws) =>
      BalancedAfterRun("]", tail);
      BracketedIsBalanced("Array [", ws, "]" + tail);
    case EmptyObject(ws) =>
      BalancedAfterRun("}", tail);
      BracketedIsBalanced("Object {", ws, "}" + tail);
    case Array(ws, items) =>
      PrintedItemsAreBalanced(items, tail);
      BracketedIsBalanced("Array [", ws, PrintItems(items, tail));
    case Object(ws, entries) =>
      PrintedEntriesAreBalanced(entries, tail);
      BracketedIsBalanced("Object {", ws, PrintEntries(entries, tail));
    case _ => PrintedScalarIsBalanced(c, tail);
  }

  lemma {:induction false} PrintedItemsAreBalanced(items: Items, tail: string)
    requires WfItems(items) && PlainNumbersInItems(items) && Balanced(tail)
    ensures Balanced(PrintItems(items, tail))
    decreases items
  {
    var after := if items.LastItem? then "]" + tail else ", " + PrintItems(items.rest, tail);
    if items.LastItem? {
      BalancedAfterRun("]", tail);
    } else {
      PrintedItemsAreBalanced(items.rest, tail);
      BalancedAfterRun(", ", PrintItems(items.rest, tail));
    }
    BalancedAfterRun(items.ws, after);
    PrintedIsBalanced(items.value, items.ws + after);
  }

  lemma {:induction false} PrintedEntriesAreBalanced(entries: Entries, tail: string)
    requires WfEntries(entries) && PlainNumbersInEntries(entries) && Balanced(tail)
    ensures Balanced(PrintEntries(entries, tail))
    decreases entries
  {
    var after := if entries.LastEntry? then "}" + tail else ", " + PrintEntries(entries.rest, tail);
    if entries.LastEntry? {
      BalancedAfterRun("}", tail);
    } else {
      PrintedEntriesAreBalanced(entries.rest, tail);
      BalancedAfterRun(", ", PrintEntries(entries.rest, tail));
    }
    BalancedAfterRun(entries.ws, after);
    PrintedIsBalanced(entries.value, entries.ws + after);
    var value := Print(entries.value, entries.ws + after);
    BalancedAfterRun(": ", value);
    BalancedAfterLiteral(entries.key, ": " + value);
  }

  // ---------------------------------------------------------------- cleaning

  datatype Cow = Borrowed | Owned(text: string)

  function CleanText(s: string): string {
    match Rewritten(StripAll(s))
    case Some(text) => text
    case None => StripAll(s)
  }

  method CleanDebugValue(s: string) returns (cow: Cow)
    ensures cow.Owned? ==> cow.text == CleanText(s)
    ensures cow.Borrowed? <==> CleanText(s) == s
  {
    var stripped := StripSomeWrappers(s);
    var rewritten := RewriteJsonDebug(stripped);
    StripShortens(s);
    match rewritten {
      case Some(text) =>
        RewritingChangesText(stripped);
        cow := Owned(text);
      case None =>
        cow := if |stripped| != |s| then Owned(stripped) else Borrowed;
    }
  }

  lemma {:induction false} StripShortens(s: string)
    ensures |StripAll(s)| <= |s| && (|StripAll(s)| == |s| ==> StripAll(s) == s)
    decreases |s|
  {
    if TryStripSome(s).Some? {
      StripShortens(TryStripSome(s).value);
    }
  }

  lemma {:induction false} CompactIsNoLonger(c: Cst, tail: string)
    ensures |Compact(c)| + |tail| <= |Print(c, tail)|
    ensures !c.Null? ==> |Compact(c)| + |tail| < |Print(c, tail)|
    decreases c
  {
    match c
    case Array(ws, items) => CompactItemsIsNoLonger(items, tail);
    case Object(ws, entries) => CompactEntriesIsNoLonger(entries, tail);
    case _ =>
  }

  lemma {:induction false} CompactItemsIsNoLonger(items: Items, tail: string)
    ensures |CompactItems(items)| + |tail| + 1 <= |PrintItems(items, tail)|
    decreases items
  {
    match items
    case LastItem(value, ws) => CompactIsNoLonger(value, ws + ("]" + tail));
    case MoreItems(value, ws, rest) =>
      CompactItemsIsNoLonger(rest, tail);
      CompactIsNoLonger(value, ws + (", " + PrintItems(rest, tail)));
  }

  lemma {:induction false} CompactEntriesIsNoLonger(entries: Entries, tail: string)
    ensures |CompactEntries(entries)| + |tail| + 1 <= |PrintEntries(entries, tail)|
    decreases entries
  {
    match entries
    case LastEntry(key, value, ws) => CompactIsNoLonger(value, ws + ("}" + tail));
    case MoreEntries(key, value, ws, rest) =>
      CompactEntriesIsNoLonger(rest, tail);
      CompactIsNoLonger(value, ws + (", " + PrintEntries(rest, tail)));
  }

  lemma RewritingChangesText(s: string)
    requires Rewritten(s).Some?
    ensures Rewritten(s).value != s && |Rewritten(s).value| <= |s|
  {
    ParsedIsPrinted(s);
    var c := ParseValue(s).value.0;
    CompactIsNoLonger(c, "");
    if c.Null? {
      assert Print(c, "")[0] == 'N' && Compact(c)[0] == 'n';
    }
  }

  /** Every JSON value's {:?} text is rewritten to exactly its compact text. */
  lemma RewritesEveryValue(j: Json, shown: char -> bool)
    requires Printable(j)
    ensures Rewritten(DebugText(j, shown)) == Some(CompactText(j, shown))
  {
    ToCstIsWf(j, shown);
    ToCstPrints(j, shown, "");
    ToCstCompacts(j, shown);
    assert DebugText(j, shown) + "" == DebugText(j, shown);
    RewritesExactlyPrintedTrees(DebugText(j, shown), CompactText(j, shown));
  }

  /**
    The cleaner's promise: a JSON value, wrapped in `Some` any number of times and printed with {:?}, is
    shown as its compact text.
   */
  lemma CleansWrappedValues(n: nat, j: Json, shown: char -> bool)
    requires Printable(j)
    ensures CleanText(Wrapped(n, DebugText(j, shown))) == CompactText(j, shown)
  {
    var text := DebugText(j, shown);
    var c := ToCst(j, shown);
    ToCstIsWf(j, shown);
    ToCstPrints(j, shown, "");
    assert text + "" == text;
    NothingIsBalanced();
    PrintedIsBalanced(c, "");
    StripsAllLayers(n, text);
    PrintedTreeIsNoLayer(c);
    RewritesEveryValue(j, shown);
  }

  lemma PrintedTreeIsNoLayer(c: Cst)
    ensures StripAll(Print(c, "")) == Print(c, "")
  {
    var s := Print(c, "");
    PrintedStart(c, "");
    LayerStart(s);
  }

  lemma LayerStart(s: string)
    ensures StartsWith(s, "Some(") ==> s[0] == 'S' && s[1] == 'o'
  {
    assert StartsWith(s, "Some(") ==> s[0] == s[..5][0] && s[1] == s[..5][1];
  }
}
