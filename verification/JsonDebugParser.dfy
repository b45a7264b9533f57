/**
  The rewriter as it runs: a position into the input and an output that grows. Each method is tied to what
  the specification parser makes of the text that was left when it was called.
 */
module JsonDebugParser {
  import opened Wrappers
  import opened JsonDebug
  import opened Sequences

  /** What a collection loop still has to read: an item first, later a comma and an item. */
  function ItemsFrom(s: string, first: bool): Option<(Items, string)> {
    if first then ParseItems(s)
    else if StartsWith(s, ", ") then ParseItems(s[2..])
    else None
  }

  function EntriesFrom(s: string, first: bool): Option<(Entries, string)> {
    if first then ParseEntries(s)
    else if StartsWith(s, ", ") then ParseEntries(s[2..])
    else None
  }

  function Separator(first: bool): string { if first then "" else ", " }

  /** A loop that has written `out` so far and `rest` to go will produce what reading `whole` produces. */
  predicate StillToRead(whole: Option<(Items, string)>, rest: Option<(Items, string)>, begun: string, out: string) {
    && (whole.Some? <==> rest.Some?)
    && (whole.Some? ==> whole.value.1 == rest.value.1
                        && begun + CompactItems(whole.value.0) == out + CompactItems(rest.value.0))
  }

  predicate StillToReadEntries(whole: Option<(Entries, string)>, rest: Option<(Entries, string)>,
                               begun: string, out: string)
  {
    && (whole.Some? <==> rest.Some?)
    && (whole.Some? ==> whole.value.1 == rest.value.1
                        && begun + CompactEntries(whole.value.0) == out + CompactEntries(rest.value.0))
  }

  predicate StillToCopy(whole: Option<(string, string)>, rest: Option<(string, string)>, begun: string, out: string) {
    && (whole.Some? <==> rest.Some?)
    && (whole.Some? ==> whole.value.1 == rest.value.1 && begun + whole.value.0 == out + rest.value.0)
  }

  /** Copying one character of a literal, or an escape of two. */
  lemma CopiesOn(s: string, n: nat, begun: string, out: string, whole: Option<(string, string)>)
    requires StillToCopy(whole, LitBody(s), begun, out)
    requires s != "" && s[0] != '"' && n == (if s[0] == '\\' then 2 else 1) <= |s|
    ensures StillToCopy(whole, LitBody(s[n..]), begun, out + s[..n])
  {
    TakesFromLiteral(s, n);
    if whole.Some? {
      ConcatAssociative(out, s[..n], LitBody(s[n..]).value.0);
    }
  }

  lemma TakesFromLiteral(s: string, n: nat)
    requires s != "" && s[0] != '"' && n == (if s[0] == '\\' then 2 else 1) <= |s|
    ensures var (all, left) := (LitBody(s), LitBody(s[n..]));
            (all.Some? <==> left.Some?) && (all.Some? ==> all.value == (s[..n] + left.value.0, left.value.1))
  {
    assert [s[0]] == s[..1];
  }

  /** What a loop over items has to do after the value it read first. */
  lemma AfterItem(s: string, c: Cst, rest: string, out: string)
    requires ParseValue(s) == Some((c, rest))
    ensures var after := SkipSpace(rest).1;
            if after != "" && after[0] == ']'
            then ParseItems(s).Some? && ParseItems(s).value.1 == after[1..]
                 && CompactItems(ParseItems(s).value.0) == Compact(c)
            else StillToRead(ParseItems(s), ItemsFrom(after, false), out, out + Compact(c) + ", ")
  {
    var after := SkipSpace(rest).1;
    if !(after != "" && after[0] == ']') && ParseItems(s).Some? {
      var more := ParseItems(after[2..]).value.0;
      ConcatAssociative(out, Compact(c), ", ");
      ConcatAssociative(out, Compact(c) + ", ", CompactItems(more));
    }
  }

  lemma AfterEntry(s: string, key: string, value: Cst, rest: string, out: string)
    requires ParsePair(s) == Some((key, value, rest))
    ensures var after := SkipSpace(rest).1;
            if after != "" && after[0] == '}'
            then ParseEntries(s).Some? && ParseEntries(s).value.1 == after[1..]
                 && CompactEntries(ParseEntries(s).value.0) == CompactPair(key, value)
            else StillToReadEntries(ParseEntries(s), EntriesFrom(after, false),
                                    out, out + CompactPair(key, value) + ", ")
  {
    var after := SkipSpace(rest).1;
    if !(after != "" && after[0] == '}') && ParseEntries(s).Some? {
      var more := ParseEntries(after[2..]).value.0;
      ConcatAssociative(out, CompactPair(key, value), ", ");
      ConcatAssociative(out, CompactPair(key, value) + ", ", CompactEntries(more));
    }
  }

  lemma PairText(out: string, key: string, value: Cst)
    ensures out + "\"" + key + "\"" + ": " + Compact(value) == out + CompactPair(key, value)
  {
  }

  class Parser {
    const input: string
    var pos: nat

    constructor (input: string)
      ensures this.input == input && pos == 0
    {
      this.input := input;
      this.pos := 0;
    }

    predicate Valid()
      reads this
    {
      pos <= |input|
    }

    function Remaining(): string
      requires Valid()
      reads this
    {
      input[pos..]
    }

    function Peek(): Option<char>
      requires Valid()
      reads this
    {
      if pos < |input| then Some(input[pos]) else None
    }

    method Eat(s: string) returns (ok: bool)
      requires Valid()
      modifies this`pos
      ensures Valid()
      ensures ok == StartsWith(old(Remaining()), s)
      ensures Remaining() == if ok then old(Remaining())[|s|..] else old(Remaining())
      ensures pos == if ok then old(pos) + |s| else old(pos)
    {
      ok := pos + |s| <= |input| && input[pos..pos + |s|] == s;
      assert pos + |s| <= |input| ==> input[pos..pos + |s|] == Remaining()[..|s|];
      if ok {
        pos := pos + |s|;
      }
    }

    method SkipWs()
      requires Valid()
      modifies this`pos
      ensures Valid() && pos >= old(pos)
      ensures Remaining() == SkipSpace(old(Remaining())).1
    {
      while pos < |input| && IsSpace(input[pos])
        invariant Valid() && pos >= old(pos)
        invariant SkipSpace(Remaining()).1 == SkipSpace(old(Remaining())).1
      {
        assert Remaining()[1..] == input[pos + 1..];
        pos := pos + 1;
      }
    }

    /** Copies a literal, quotes and escapes included. */
    method ParseRustString(out: string) returns (ok: bool, text: string)
      requires Valid()
      modifies this`pos
      ensures Valid() && pos >= old(pos)
      ensures ok <==> ParseLit(old(Remaining())).Some?
      ensures ok ==> var (lit, rest) := ParseLit(old(Remaining())).value;
                     Remaining() == rest && text == out + "\"" + lit + "\"" && pos > old(pos)
    {
      text := out;
      if Peek() != Some('"') {
        return false, text;
      }
      text := text + "\"";
      assert Remaining()[1..] == input[pos + 1..];
      pos := pos + 1;
      ghost var whole := LitBody(Remaining());
      while true
        invariant Valid() && pos > old(pos)
        invariant StillToCopy(whole, LitBody(Remaining()), out + "\"", text)
        decreases |input| - pos
      {
        match Peek() {
          case None =>
            return false, text;
          case Some(c) =>
            assert Remaining()[1..] == input[pos + 1..];
            if c == '"' {
              text := text + "\"";
              pos := pos + 1;
              return true, text;
            } else if c == '\\' {
              ghost var s, before := Remaining(), text;
              text := text + "\\";
              pos := pos + 1;
              match Peek() {
                case Some(escaped) =>
                  assert s[..2] == "\\" + [escaped] && s[2..] == input[pos + 1..];
                  text := text + [escaped];
                  pos := pos + 1;
                  CopiesOn(s, 2, out + "\"", before, whole);
                  assert text == before + s[..2];
                case None =>
                  return false, text;
              }
            } else {
              ghost var s, before := Remaining(), text;
              text := text + [c];
              pos := pos + 1;
              CopiesOn(s, 1, out + "\"", before, whole);
              assert text == before + s[..1];
            }
        }
      }
    }

    method ParseValue(out: string) returns (ok: bool, text: string)
      requires Valid()
      modifies this`pos
      ensures Valid() && pos >= old(pos)
      ensures ok <==> JsonDebug.ParseValue(old(Remaining())).Some?
      ensures ok ==> var (c, rest) := JsonDebug.ParseValue(old(Remaining())).value;
                     Remaining() == rest && text == out + Compact(c) && pos > old(pos)
      decreases |input| - pos, 1
    {
      ghost var s := Remaining();
      if StartsWith(input[pos..], "Object {") {
        ok, text := ParseObject(out);
      } else if StartsWith(input[pos..], "Array [") {
        ok, text := ParseArray(out);
      } else {
        ok, text := ParseScalar(out);
      }
    }

    method ParseScalar(out: string) returns (ok: bool, text: string)
      requires Valid()
      requires !StartsWith(Remaining(), "Object {") && !StartsWith(Remaining(), "Array [")
      modifies this`pos
      ensures Valid() && pos >= old(pos)
      ensures ok <==> JsonDebug.ParseValue(old(Remaining())).Some?
      ensures ok ==> var (c, rest) := JsonDebug.ParseValue(old(Remaining())).value;
                     Remaining() == rest && text == out + Compact(c) && pos > old(pos)
    {
      ghost var s := Remaining();
      if StartsWith(input[pos..], "String(") {
        ok, text := ParseString(out);
      } else if StartsWith(input[pos..], "Number(") {
        pos := pos + 7;
        assert Remaining() == s[7..];
        ok, text := ParseNumber(out);
      } else if StartsWith(input[pos..], "Bool(true)") {
        pos := pos + 10;
        assert Remaining() == s[10..];
        ok, text := true, out + "true";
      } else if StartsWith(input[pos..], "Bool(false)") {
        pos := pos + 11;
        assert Remaining() == s[11..];
        ok, text := true, out + "false";
      } else if StartsWith(input[pos..], "Null") {
        pos := pos + 4;
        assert Remaining() == s[4..];
        ok, text := true, out + "null";
      } else {
        ok, text := false, out;
      }
    }

    method ParseString(out: string) returns (ok: bool, text: string)
      requires Valid() && StartsWith(Remaining(), "String(")
      modifies this`pos
      ensures Valid() && pos >= old(pos)
      ensures var r := ParseLit(old(Remaining())[7..]);
              && (ok <==> r.Some? && r.value.1 != "" && r.value.1[0] == ')')
              && (ok ==> Remaining() == r.value.1[1..] && text == out + Compact(Str(r.value.0)) && pos > old(pos))
    {
      ghost var s := Remaining();
      pos := pos + 7;
      assert Remaining() == s[7..];
      ok, text := ParseRustString(out);
      if ok {
        ghost var rest := Remaining();
        ok := Eat(")");
        assert StartsWith(rest, ")") <==> rest != "" && rest[0] == ')';
        ghost var lit := ParseLit(s[7..]).value.0;
        ConcatAssociative(out, "\"", lit);
        ConcatAssociative(out, "\"" + lit, "\"");
      }
    }

    method ParseNumber(out: string) returns (ok: bool, text: string)
      requires Valid()
      modifies this`pos
      ensures Valid() && pos >= old(pos)
      ensures var (number, rest) := UntilParen(old(Remaining()));
              (ok <==> number != "" && rest != "") &&
              (ok ==> Remaining() == rest[1..] && text == out + number && pos > old(pos))
    {
      var start := pos;
      while pos < |input| && input[pos] != ')'
        invariant start == old(pos) <= pos <= |input|
        invariant UntilParen(Remaining()).1 == UntilParen(old(Remaining())).1
        invariant UntilParen(old(Remaining())).0 == input[start..pos] + UntilParen(Remaining()).0
      {
        assert Remaining()[1..] == input[pos + 1..];
        assert input[start..pos + 1] == input[start..pos] + [input[pos]];
        pos := pos + 1;
      }
      assert UntilParen(Remaining()) == ("", Remaining());
      var number := input[start..pos];
      text := out + number;
      if number == "" {
        return false, text;
      }
      ghost var rest := Remaining();
      assert StartsWith(rest, ")") <==> rest != "";
      ok := Eat(")");
    }

    method ParseArray(out: string) returns (ok: bool, text: string)
      requires Valid() && StartsWith(Remaining(), "Array [")
      modifies this`pos
      ensures Valid() && pos >= old(pos)
      ensures ok <==> JsonDebug.ParseValue(old(Remaining())).Some?
      ensures ok ==> var (c, rest) := JsonDebug.ParseValue(old(Remaining())).value;
                     Remaining() == rest && text == out + Compact(c) && pos > old(pos)
      decreases |input| - pos, 0
    {
      ghost var s := Remaining();
      FirstCharDecides(s);
      pos := pos + 7;
      assert Remaining() == s[7..];
      text := out + "[";
      SkipWs();
      if Peek() == Some(']') {
        assert Remaining()[1..] == input[pos + 1..];
        pos := pos + 1;
        return true, text + "]";
      }
      ghost var items := ParseItems(Remaining());
      ok, text := ParseArrayItems(text);
      if ok {
        ConcatAssociative(out, "[", CompactItems(items.value.0));
        ConcatAssociative(out, "[" + CompactItems(items.value.0), "]");
      }
    }

    /** The loop over the items, up to and including the closing bracket. */
    method ParseArrayItems(out: string) returns (ok: bool, text: string)
      requires Valid()
      modifies this`pos
      ensures Valid() && pos >= old(pos)
      ensures ok <==> ParseItems(old(Remaining())).Some?
      ensures ok ==> var (items, rest) := ParseItems(old(Remaining())).value;
                     Remaining() == rest && text == out + CompactItems(items) + "]" && pos > old(pos)
      decreases |input| - pos, 3
    {
      ghost var whole := ParseItems(Remaining());
      var first, done := true, false;
      ok, text := true, out;
      while ok && !done
        invariant Valid() && pos >= old(pos) && (done ==> pos > old(pos))
        invariant !ok ==> whole.None?
        invariant done ==> ok && whole.Some? && Remaining() == whole.value.1
                           && text == out + CompactItems(whole.value.0) + "]"
        invariant ok && !done ==> StillToRead(whole, ItemsFrom(Remaining(), first), out, text + Separator(first))
        decreases |input| - pos, ok && !done
      {
        ok, done, text := ParseArrayItem(text, first);
        first := false;
      }
    }

    /** One turn of that loop; `done` when it read the closing bracket. */
    method ParseArrayItem(out: string, first: bool) returns (ok: bool, done: bool, text: string)
      requires Valid()
      modifies this`pos
      ensures Valid() && pos >= old(pos) && (ok ==> pos > old(pos)) && (done ==> ok)
      ensures var whole := ItemsFrom(old(Remaining()), first);
              && (!ok ==> whole.None?)
              && (done ==> whole.Some? && Remaining() == whole.value.1
                           && text == out + Separator(first) + CompactItems(whole.value.0) + "]")
              && (ok && !done ==>
                    StillToRead(whole, ItemsFrom(Remaining(), false), out + Separator(first), text + ", "))
      decreases |input| - pos, 2
    {
      text, done := out, false;
      if !first {
        ok := Eat(", ");
        if !ok {
          return;
        }
        text := text + ", ";
      }
      assert text == out + Separator(first);
      ghost var s := Remaining();
      ok, text := ParseValue(text);
      if !ok {
        return;
      }
      ghost var c, rest := JsonDebug.ParseValue(s).value.0, Remaining();
      AfterItem(s, c, rest, out + Separator(first));
      SkipWs();
      if Peek() == Some(']') {
        assert Remaining()[1..] == input[pos + 1..];
        pos := pos + 1;
        done, text := true, text + "]";
      }
    }

    method ParseObject(out: string) returns (ok: bool, text: string)
      requires Valid() && StartsWith(Remaining(), "Object {")
      modifies this`pos
      ensures Valid() && pos >= old(pos)
      ensures ok <==> JsonDebug.ParseValue(old(Remaining())).Some?
      ensures ok ==> var (c, rest) := JsonDebug.ParseValue(old(Remaining())).value;
                     Remaining() == rest && text == out + Compact(c) && pos > old(pos)
      decreases |input| - pos, 0
    {
      ghost var s := Remaining();
      pos := pos + 8;
      assert Remaining() == s[8..];
      text := out + "{";
      SkipWs();
      if Peek() == Some('}') {
        assert Remaining()[1..] == input[pos + 1..];
        pos := pos + 1;
        return true, text + "}";
      }
      ghost var entries := ParseEntries(Remaining());
      ok, text := ParseObjectEntries(text);
      if ok {
        ConcatAssociative(out, "{", CompactEntries(entries.value.0));
        ConcatAssociative(out, "{" + CompactEntries(entries.value.0), "}");
      }
    }

    /** The loop over the entries, up to and including the closing brace. */
    method ParseObjectEntries(out: string) returns (ok: bool, text: string)
      requires Valid()
      modifies this`pos
      ensures Valid() && pos >= old(pos)
      ensures ok <==> ParseEntries(old(Remaining())).Some?
      ensures ok ==> var (entries, rest) := ParseEntries(old(Remaining())).value;
                     Remaining() == rest && text == out + CompactEntries(entries) + "}" && pos > old(pos)
      decreases |input| - pos, 3
    {
      ghost var whole := ParseEntries(Remaining());
      var first, done := true, false;
      ok, text := true, out;
      while ok && !done
        invariant Valid() && pos >= old(pos) && (done ==> pos > old(pos))
        invariant !ok ==> whole.None?
        invariant done ==> ok && whole.Some? && Remaining() == whole.value.1
                           && text == out + CompactEntries(whole.value.0) + "}"
        invariant ok && !done ==>
                    StillToReadEntries(whole, EntriesFrom(Remaining(), first), out, text + Separator(first))
        decreases |input| - pos, ok && !done
      {
        ok, done, text := ParseObjectEntry(text, first);
        first := false;
      }
    }

    /** A key, the colon after it, and the value. */
    method ParseKeyAndValue(out: string) returns (ok: bool, text: string)
      requires Valid()
      modifies this`pos
      ensures Valid() && pos >= old(pos) && (ok ==> pos > old(pos))
      ensures var r := ParsePair(old(Remaining()));
              && (ok <==> r.Some?)
              && (ok ==> Remaining() == r.value.2 && text == out + CompactPair(r.value.0, r.value.1))
      decreases |input| - pos, 1
    {
      ok, text := ParseRustString(out);
      if !ok {
        return;
      }
      ok := Eat(": ");
      if !ok {
        return;
      }
      var begun := text + ": ";
      ok, text := ParseValue(begun);
      if ok {
        ghost var (key, value, _) := ParsePair(old(Remaining())).value;
        PairText(out, key, value);
      }
    }

    /** One turn of that loop; `done` when it read the closing brace. */
    method ParseObjectEntry(out: string, first: bool) returns (ok: bool, done: bool, text: string)
      requires Valid()
      modifies this`pos
      ensures Valid() && pos >= old(pos) && (ok ==> pos > old(pos)) && (done ==> ok)
      ensures var whole := EntriesFrom(old(Remaining()), first);
              && (!ok ==> whole.None?)
              && (done ==> whole.Some? && Remaining() == whole.value.1
                           && text == out + Separator(first) + CompactEntries(whole.value.0) + "}")
              && (ok && !done ==>
                    StillToReadEntries(whole, EntriesFrom(Remaining(), false), out + Separator(first), text + ", "))
      decreases |input| - pos, 2
    {
      text, done := out, false;
      if !first {
        ok := Eat(", ");
        if !ok {
          return;
        }
        text := text + ", ";
      }
      assert text == out + Separator(first);
      ghost var s := Remaining();
      ok, text := ParseKeyAndValue(text);
      if !ok {
        return;
      }
      ghost var pair, rest := ParsePair(s).value, Remaining();
      AfterEntry(s, pair.0, pair.1, rest, out + Separator(first));
      SkipWs();
      if Peek() == Some('}') {
        assert Remaining()[1..] == input[pos + 1..];
        pos := pos + 1;
        done, text := true, text + "}";
      }
    }
  }

  /** The rewritten text, or nothing when the input is not the {:?} text of a value from end to end. */
  function Rewritten(s: string): Option<string> {
    match ParseValue(s)
    case None => None
    case Some((c, rest)) => if rest == "" then Some(Compact(c)) else None
  }

  method RewriteJsonDebug(s: string) returns (r: Option<string>)
    ensures r == Rewritten(s)
  {
    var p := new Parser(s);
    assert p.Remaining() == s;
    var ok, text := p.ParseValue("");
    assert ok ==> text == Compact(ParseValue(s).value.0);
    assert p.Remaining() == "" <==> p.pos == |s|;
    r := if ok && p.pos == |s| then Some(text) else None;
  }

  /**
    The rewriter's language and its meaning, in one statement: it accepts a string exactly when the string
    is the {:?} text of some tree, and then it returns that tree's compact text.
   */
  lemma RewritesExactlyPrintedTrees(s: string, text: string)
    ensures Rewritten(s) == Some(text) <==> exists c :: Wf(c) && s == Print(c, "") && text == Compact(c)
  {
    if Rewritten(s) == Some(text) {
      ParsedIsPrinted(s);
      var (c, rest) := ParseValue(s).value;
      assert Wf(c) && s == Print(c, "") && text == Compact(c);
    }
    if c :| Wf(c) && s == Print(c, "") && text == Compact(c) {
      ParsePrinted(c, "");
    }
  }
}
