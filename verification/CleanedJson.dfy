/**
  When a cleaned value is JSON again. The rewriter copies string literals as {:?} escaped them, so its
  output is the value's JSON text exactly when {:?} and JSON escape every character of it alike.
 */
module CleanedJson {
  import opened JsonDebug
  import opened Sequences
  import opened SomeStripper
  import opened DebugCleaner

  // ---------------------------------------------------------------- JSON text, with a space after each separator

  function JsonEscapeChar(c: char): string {
    if c == '"' then "\\\""
    else if c == '\\' then "\\\\"
    else if c == '\n' then "\\n"
    else if c == '\r' then "\\r"
    else if c == '\t' then "\\t"
    else if c as int == 8 then "\\b"
    else if c as int == 12 then "\\f"
    else if c < ' ' then "\\u00" + ["0123456789abcdef"[c as int / 16], "0123456789abcdef"[c as int % 16]]
    else [c]
  }

  function JsonEscape(content: string): string {
    if content == "" then "" else JsonEscapeChar(content[0]) + JsonEscape(content[1..])
  }

  function JsonText(j: Json): string
    decreases j, 1
  {
    match j
    case JNull => "null"
    case JBool(b) => if b then "true" else "false"
    case JNumber(text) => text
    case JString(content) => "\"" + JsonEscape(content) + "\""
    case JArray(items) => "[" + JsonItems(items) + "]"
    case JObject(fields) => "{" + JsonFields(fields) + "}"
  }

  function JsonItems(items: seq<Json>): string
    decreases items, 0
  {
    if items == [] then ""
    else if |items| == 1 then JsonText(items[0])
    else JsonText(items[0]) + ", " + JsonItems(items[1..])
  }

  function JsonField(key: string, value: Json): string
    decreases value, 2
  {
    "\"" + JsonEscape(key) + "\"" + ": " + JsonText(value)
  }

  function JsonFields(fields: seq<Field>): string
    decreases fields, 0
  {
    if fields == [] then ""
    else if |fields| == 1 then JsonField(fields[0].key, fields[0].value)
    else JsonField(fields[0].key, fields[0].value) + ", " + JsonFields(fields[1..])
  }

  // ---------------------------------------------------------------- where the two escapes agree

  /** Printable characters, and the five that both notations abbreviate alike. */
  predicate PlainlyShown(c: char, shown: char -> bool) { c in "\t\r\n\"\\" || (c >= ' ' && shown(c)) }

  predicate PlainString(content: string, shown: char -> bool) {
    forall i :: 0 <= i < |content| ==> PlainlyShown(content[i], shown)
  }

  /** Every key and every string of the value. */
  predicate Plain(j: Json, shown: char -> bool) {
    match j
    case JString(content) => PlainString(content, shown)
    case JArray(items) => forall i :: 0 <= i < |items| ==> Plain(items[i], shown)
    case JObject(fields) =>
      forall i :: 0 <= i < |fields| ==> PlainString(fields[i].key, shown) && Plain(fields[i].value, shown)
    case _ => true
  }

  /** Where the escapes differ they differ before either ends, so nothing that follows can make up for it. */
  lemma EscapesAlikeIff(c: char, shown: char -> bool)
    ensures var d, e := EscapeChar(c, shown), JsonEscapeChar(c);
            && (PlainlyShown(c, shown) ==> d == e)
            && (!PlainlyShown(c, shown) ==> exists k :: 0 <= k < |d| && k < |e| && d[k] != e[k])
  {
    var d, e := EscapeChar(c, shown), JsonEscapeChar(c);
    if !PlainlyShown(c, shown) {
      if c == '\0' || c as int == 8 || c as int == 12 {
        assert d[0] != e[0] || d[1] != e[1];
      } else if c < ' ' {
        assert d[0] != e[0] || d[2] != e[2];
      } else {
        assert d[0] != e[0];
      }
    }
  }

  lemma Cancels(a: string, x: string, y: string)
    ensures a + x == a + y <==> x == y
  {
    assert (a + x)[|a|..] == x && (a + y)[|a|..] == y;
  }

  lemma DivergedTextsDiffer(d: string, e: string, x: string, y: string, k: nat)
    requires k < |d| && k < |e| && d[k] != e[k]
    ensures d + x != e + y
  {
    assert (d + x)[k] == d[k] && (e + y)[k] == e[k];
  }

  lemma {:induction false} StringsAgree(content: string, shown: char -> bool, x: string, y: string)
    ensures Escape(content, shown) + x == JsonEscape(content) + y ==> PlainString(content, shown) && x == y
    ensures PlainString(content, shown) ==> Escape(content, shown) == JsonEscape(content)
  {
    if content == "" {
      assert "" + x == x && "" + y == y;
    } else {
      var d, e := EscapeChar(content[0], shown), JsonEscapeChar(content[0]);
      var more, jsonMore := Escape(content[1..], shown), JsonEscape(content[1..]);
      EscapesAlikeIff(content[0], shown);
      StringsAgree(content[1..], shown, x, y);
      ConcatAssociative(d, more, x);
      ConcatAssociative(e, jsonMore, y);
      if PlainlyShown(content[0], shown) {
        Cancels(d, more + x, jsonMore + y);
        assert forall i :: 0 < i < |content| ==> content[i] == content[1..][i - 1];
      } else {
        var k :| 0 <= k < |d| && k < |e| && d[k] != e[k];
        DivergedTextsDiffer(d, e, more + x, jsonMore + y, k);
      }
    }
  }

  lemma QuotedAgree(content: string, shown: char -> bool, x: string, y: string)
    ensures ("\"" + Escape(content, shown) + "\"") + x == ("\"" + JsonEscape(content) + "\"") + y
            ==> PlainString(content, shown) && x == y
    ensures PlainString(content, shown) ==> Escape(content, shown) == JsonEscape(content)
  {
    var d, e := Escape(content, shown), JsonEscape(content);
    StringsAgree(content, shown, "\"" + x, "\"" + y);
    BracketsAgree("\"", d, e, "\"", x, y);
  }

  lemma {:induction false} TextsAgree(j: Json, shown: char -> bool, x: string, y: string)
    ensures CompactText(j, shown) + x == JsonText(j) + y ==> Plain(j, shown) && x == y
    ensures Plain(j, shown) ==> CompactText(j, shown) == JsonText(j)
    decreases j, 1
  {
    match j
    case JNull => Cancels("null", x, y);
    case JBool(b) => Cancels(JsonText(j), x, y);
    case JNumber(text) => Cancels(text, x, y);
    case JString(content) => QuotedAgree(content, shown, x, y);
    case JArray(items) =>
      ItemsAgree(items, shown, "]" + x, "]" + y);
      BracketsAgree("[", CompactTexts(items, shown), JsonItems(items), "]", x, y);
    case JObject(fields) =>
      FieldsAgree(fields, shown, "}" + x, "}" + y);
      BracketsAgree("{", CompactFields(fields, shown), JsonFields(fields), "}", x, y);
  }

  lemma BracketsAgree(open: string, a: string, b: string, close: string, x: string, y: string)
    ensures (open + a + close) + x == (open + b + close) + y ==> a + (close + x) == b + (close + y)
    ensures close + x == close + y ==> x == y
  {
    assert (open + a + close) + x == open + (a + (close + x));
    assert (open + b + close) + y == open + (b + (close + y));
    Cancels(open, a + (close + x), b + (close + y));
    Cancels(close, x, y);
  }

  lemma SeparatedAgree(a: string, b: string, more: string, jsonMore: string, x: string, y: string)
    ensures (a + ", " + more) + x == (b + ", " + jsonMore) + y
            ==> a + (", " + (more + x)) == b + (", " + (jsonMore + y))
    ensures ", " + (more + x) == ", " + (jsonMore + y) ==> more + x == jsonMore + y
  {
    assert (a + ", " + more) + x == a + (", " + (more + x));
    assert (b + ", " + jsonMore) + y == b + (", " + (jsonMore + y));
    Cancels(", ", more + x, jsonMore + y);
  }

  lemma {:induction false} ItemsAgree(items: seq<Json>, shown: char -> bool, x: string, y: string)
    ensures CompactTexts(items, shown) + x == JsonItems(items) + y ==> Plain(JArray(items), shown) && x == y
    ensures Plain(JArray(items), shown) ==> CompactTexts(items, shown) == JsonItems(items)
    decreases items, 0
  {
    if items == [] {
      assert "" + x == x && "" + y == y;
    } else if |items| == 1 {
      TextsAgree(items[0], shown, x, y);
    } else {
      var more, jsonMore := CompactTexts(items[1..], shown), JsonItems(items[1..]);
      TextsAgree(items[0], shown, ", " + (more + x), ", " + (jsonMore + y));
      ItemsAgree(items[1..], shown, x, y);
      SeparatedAgree(CompactText(items[0], shown), JsonText(items[0]), more, jsonMore, x, y);
      assert forall i :: 0 < i < |items| ==> items[i] == items[1..][i - 1];
    }
  }

  lemma ColonsAgree(k: string, m: string, a: string, b: string, x: string, y: string)
    ensures (k + ": " + a) + x == (m + ": " + b) + y ==> k + (": " + (a + x)) == m + (": " + (b + y))
    ensures ": " + (a + x) == ": " + (b + y) ==> a + x == b + y
  {
    assert (k + ": " + a) + x == k + (": " + (a + x));
    assert (m + ": " + b) + y == m + (": " + (b + y));
    Cancels(": ", a + x, b + y);
  }

  lemma {:induction false} FieldAgrees(key: string, value: Json, shown: char -> bool, x: string, y: string)
    ensures CompactField(key, value, shown) + x == JsonField(key, value) + y
            ==> PlainString(key, shown) && Plain(value, shown) && x == y
    ensures PlainString(key, shown) && Plain(value, shown) ==> CompactField(key, value, shown) == JsonField(key, value)
    decreases value, 2
  {
    var a, b := CompactText(value, shown), JsonText(value);
    TextsAgree(value, shown, x, y);
    QuotedAgree(key, shown, ": " + (a + x), ": " + (b + y));
    ColonsAgree("\"" + Escape(key, shown) + "\"", "\"" + JsonEscape(key) + "\"", a, b, x, y);
  }

  lemma {:induction false} FieldsAgree(fields: seq<Field>, shown: char -> bool, x: string, y: string)
    ensures CompactFields(fields, shown) + x == JsonFields(fields) + y ==> Plain(JObject(fields), shown) && x == y
    ensures Plain(JObject(fields), shown) ==> CompactFields(fields, shown) == JsonFields(fields)
    decreases fields, 0
  {
    if fields == [] {
      assert "" + x == x && "" + y == y;
    } else if |fields| == 1 {
      FieldAgrees(fields[0].key, fields[0].value, shown, x, y);
    } else {
      var more, jsonMore := CompactFields(fields[1..], shown), JsonFields(fields[1..]);
      FieldAgrees(fields[0].key, fields[0].value, shown, ", " + (more + x), ", " + (jsonMore + y));
      FieldsAgree(fields[1..], shown, x, y);
      SeparatedAgree(CompactField(fields[0].key, fields[0].value, shown), JsonField(fields[0].key, fields[0].value),
                     more, jsonMore, x, y);
      assert forall i :: 0 < i < |fields| ==> fields[i] == fields[1..][i - 1];
    }
  }

  /** However deeply wrapped, a value is shown as its JSON text exactly when all its strings are plain. */
  lemma CleanedIsJsonIff(n: nat, j: Json, shown: char -> bool)
    requires Printable(j)
    ensures CleanText(Wrapped(n, DebugText(j, shown))) == JsonText(j) <==> Plain(j, shown)
  {
    CleansWrappedValues(n, j, shown);
    TextsAgree(j, shown, "", "");
    assert CompactText(j, shown) + "" == CompactText(j, shown) && JsonText(j) + "" == JsonText(j);
  }
}
