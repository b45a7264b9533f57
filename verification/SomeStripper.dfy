/**
  Stripping `Some(...)` layers from {:?} text. Which parenthesis closes a layer is decided by a scan that
  counts depth and skips string literals; the module characterizes that scan by a grammar of balanced text.
 */
module SomeStripper {
  import opened Wrappers
  import opened JsonDebug
  import opened Sequences

  // ---------------------------------------------------------------- balanced text

  /** Text whose parentheses balance outside string literals, as a tree. */
  datatype Body =
    | Done
    | Plain(c: char, rest: Body)
    | Quoted(lit: string, rest: Body)
    | Parens(inner: Body, rest: Body)

  predicate IsPlain(c: char) { c != '"' && c != '(' && c != ')' }

  predicate WfBody(b: Body) {
    match b
    case Done => true
    case Plain(c, rest) => IsPlain(c) && WfBody(rest)
    case Quoted(lit, rest) => WellEscaped(lit) && WfBody(rest)
    case Parens(inner, rest) => WfBody(inner) && WfBody(rest)
  }

  function Text(b: Body, tail: string): string {
    match b
    case Done => tail
    case Plain(c, rest) => [c] + Text(rest, tail)
    case Quoted(lit, rest) => PrintLit(lit, Text(rest, tail))
    case Parens(inner, rest) => "(" + Text(inner, ")" + Text(rest, tail))
  }

  ghost predicate Balanced(s: string) {
    exists b :: WfBody(b) && Text(b, "") == s
  }

  lemma LiteralAppends(lit: string, rest: string, tail: string)
    ensures PrintLit(lit, rest + tail) == PrintLit(lit, rest) + tail
  {
    ConcatAssociative("\"", rest, tail);
    ConcatAssociative(lit, "\"" + rest, tail);
    ConcatAssociative("\"", lit + ("\"" + rest), tail);
  }

  lemma {:induction false} TextAppends(b: Body, tail: string)
    ensures Text(b, tail) == Text(b, "") + tail
    decreases b, 1
  {
    match b
    case Done =>
    case Plain(c, rest) =>
      TextAppends(rest, tail);
      ConcatAssociative([c], Text(rest, ""), tail);
    case Quoted(lit, rest) =>
      TextAppends(rest, tail);
      LiteralAppends(lit, Text(rest, ""), tail);
    case Parens(inner, rest) =>
      ParensAppend(inner, rest, tail);
  }

  lemma {:induction false} ParensAppend(inner: Body, rest: Body, tail: string)
    ensures Text(Parens(inner, rest), tail) == Text(Parens(inner, rest), "") + tail
    decreases Parens(inner, rest), 0
  {
    var after := Text(rest, "");
    TextAppends(rest, tail);
    TextAppends(inner, ")" + Text(rest, tail));
    TextAppends(inner, ")" + after);
    ConcatAssociative(")", after, tail);
    ConcatAssociative(Text(inner, ""), ")" + after, tail);
    ConcatAssociative("(", Text(inner, "") + (")" + after), tail);
  }

  // ---------------------------------------------------------------- the scan

  function Shifted(k: Option<nat>, offset: nat): Option<nat> {
    if k.Some? then Some(k.value + offset) else None
  }

  /** Index of the parenthesis that brings `depth` open ones down to none. */
  function FindClose(s: string, depth: nat): (k: Option<nat>)
    requires depth > 0
    ensures k.Some? ==> k.value < |s| && s[k.value] == ')'
    decreases |s|
  {
    if s == "" then None
    else if s[0] == '"' then
      match LitBody(s[1..])
      case None => None
      case Some((lit, rest)) =>
        LitBodyIsWellEscaped(s[1..]);
        Shifted(FindClose(rest, depth), |lit| + 2)
    else if s[0] == '(' then Shifted(FindClose(s[1..], depth + 1), 1)
    else if s[0] == ')' then
      if depth == 1 then Some(0) else Shifted(FindClose(s[1..], depth - 1), 1)
    else Shifted(FindClose(s[1..], depth), 1)
  }

  lemma ScanSkipsLiteral(lit: string, rest: string, depth: nat)
    requires WellEscaped(lit) && depth > 0
    ensures FindClose(PrintLit(lit, rest), depth) == Shifted(FindClose(rest, depth), |lit| + 2)
    ensures PrintLit(lit, rest)[|lit| + 2..] == rest
  {
    ParseLitPrinted(lit, rest);
  }

  /** Past a literal whose opening quote is just before `i`, or nothing when it never ends. */
  method SkipLiteral(s: string, i: nat) returns (next: Option<nat>)
    requires i <= |s|
    ensures var body := LitBody(s[i..]);
            && (next.None? <==> body.None?)
            && (body.Some? ==> next.value == i + |body.value.0| + 1 <= |s| && s[next.value..] == body.value.1)
  {
    ghost var body := LitBody(s[i..]);
    var j := i;
    while j < |s| && s[j] != '"'
      invariant i <= j <= |s|
      invariant body.Some? == LitBody(s[j..]).Some?
      invariant body.Some? ==> body.value.1 == LitBody(s[j..]).value.1
                               && |body.value.0| == |LitBody(s[j..]).value.0| + (j - i)
    {
      assert s[j..][1..] == s[j + 1..];
      if s[j] == '\\' {
        if j + 1 == |s| {
          return None;
        }
        assert s[j..][2..] == s[j + 2..];
        j := j + 2;
      } else {
        j := j + 1;
      }
    }
    if j == |s| {
      return None;
    }
    assert s[j..][1..] == s[j + 1..];
    return Some(j + 1);
  }

  /** The scan as it runs: one index, one depth counter, literals skipped. */
  method FindMatchingCloseParen(s: string) returns (k: Option<nat>)
    ensures k == FindClose(s, 1)
  {
    var depth := 1;
    var i := 0;
    assert s[0..] == s;
    while i < |s|
      invariant depth > 0 && ClosesFrom(s, i, depth)
    {
      if s[i] == '"' {
        var next := SkipLiteral(s, i + 1);
        if next.None? {
          NoCloseInLiteral(s, i, depth);
          return None;
        }
        PastLiteral(s, i, depth, next.value);
        i := next.value;
      } else if s[i] == '(' {
        SuffixStep(s, i, depth, depth + 1);
        depth := depth + 1;
        i := i + 1;
      } else if s[i] == ')' {
        SuffixStep(s, i, depth, depth - 1);
        depth := depth - 1;
        if depth == 0 {
          return Some(i);
        }
        i := i + 1;
      } else {
        SuffixStep(s, i, depth, depth);
        i := i + 1;
      }
    }
    return None;
  }

  /** The whole scan, from what is left of it at `i`. */
  predicate ClosesFrom(s: string, i: nat, depth: nat)
    requires depth > 0
  {
    i <= |s| && FindClose(s, 1) == Shifted(FindClose(s[i..], depth), i)
  }

  lemma PastLiteral(s: string, i: nat, depth: nat, next: nat)
    requires i < |s| && depth > 0 && ClosesFrom(s, i, depth) && s[i] == '"' && LitBody(s[i + 1..]).Some?
    requires var (lit, rest) := LitBody(s[i + 1..]).value; next == i + |lit| + 2 <= |s| && s[next..] == rest
    ensures ClosesFrom(s, next, depth)
  {
    assert s[i..][1..] == s[i + 1..];
    var lit := LitBody(s[i + 1..]).value.0;
    assert FindClose(s[i..], depth) == Shifted(FindClose(s[next..], depth), |lit| + 2);
  }

  lemma NoCloseInLiteral(s: string, i: nat, depth: nat)
    requires i < |s| && depth > 0 && ClosesFrom(s, i, depth) && s[i] == '"' && LitBody(s[i + 1..]).None?
    ensures FindClose(s, 1).None?
  {
    assert s[i..][1..] == s[i + 1..];
  }

  /** One character that changes the depth from `depth` to `nextDepth`, or ends the scan. */
  lemma SuffixStep(s: string, i: nat, depth: nat, nextDepth: nat)
    requires i < |s| && depth > 0 && ClosesFrom(s, i, depth) && s[i] != '"'
    requires nextDepth == if s[i] == '(' then depth + 1 else if s[i] == ')' then depth - 1 else depth
    ensures if nextDepth == 0 then FindClose(s, 1) == Some(i) else ClosesFrom(s, i + 1, nextDepth)
  {
    var t := s[i..];
    assert t[1..] == s[i + 1..];
    FirstStep(t, depth);
    if nextDepth > 0 {
      StepOn(s, i, depth, nextDepth);
    }
  }

  lemma FirstStep(s: string, depth: nat)
    requires s != "" && depth > 0
    ensures s[0] == '(' ==> FindClose(s, depth) == Shifted(FindClose(s[1..], depth + 1), 1)
    ensures s[0] == ')' ==>
              FindClose(s, depth) == if depth == 1 then Some(0) else Shifted(FindClose(s[1..], depth - 1), 1)
    ensures IsPlain(s[0]) ==> FindClose(s, depth) == Shifted(FindClose(s[1..], depth), 1)
  {
  }

  lemma StepOn(s: string, i: nat, depth: nat, nextDepth: nat)
    requires i < |s| && depth > 0 && nextDepth > 0 && ClosesFrom(s, i, depth)
    requires FindClose(s[i..], depth) == Shifted(FindClose(s[i + 1..], nextDepth), 1)
    ensures ClosesFrom(s, i + 1, nextDepth)
  {
  }

  lemma ScanSkipsChar(c: char, rest: string, depth: nat)
    requires IsPlain(c) && depth > 0
    ensures FindClose([c] + rest, depth) == Shifted(FindClose(rest, depth), 1)
  {
    assert ([c] + rest)[1..] == rest;
  }

  lemma ScanOpens(rest: string, depth: nat)
    requires depth > 0
    ensures FindClose("(" + rest, depth) == Shifted(FindClose(rest, depth + 1), 1)
    ensures FindClose(")" + rest, depth + 1) == Shifted(FindClose(rest, depth), 1)
  {
    assert ("(" + rest)[1..] == rest;
    assert (")" + rest)[1..] == rest;
  }

  /** A scan of `s` is the scan of its suffix `tail`, shifted by what comes before. */
  predicate ScanReaches(s: string, depth: nat, tail: string, tailDepth: nat)
    requires depth > 0 && tailDepth > 0
  {
    |tail| <= |s| && FindClose(s, depth) == Shifted(FindClose(tail, tailDepth), |s| - |tail|)
  }

  lemma ScanReachesOn(s: string, d: nat, mid: string, e: nat, tail: string, f: nat)
    requires d > 0 && e > 0 && f > 0 && ScanReaches(s, d, mid, e) && ScanReaches(mid, e, tail, f)
    ensures ScanReaches(s, d, tail, f)
  {
  }

  lemma ScanReachesPast(c: char, lit: string, rest: string, depth: nat)
    requires depth > 0
    ensures IsPlain(c) ==> ScanReaches([c] + rest, depth, rest, depth)
    ensures WellEscaped(lit) ==> ScanReaches(PrintLit(lit, rest), depth, rest, depth)
    ensures ScanReaches("(" + rest, depth, rest, depth + 1)
    ensures ScanReaches(")" + rest, depth + 1, rest, depth)
  {
    if IsPlain(c) {
      ScanSkipsChar(c, rest, depth);
    }
    if WellEscaped(lit) {
      ScanSkipsLiteral(lit, rest, depth);
      assert |PrintLit(lit, rest)| == |lit| + 2 + |rest|;
    }
    ScanOpens(rest, depth);
  }

  /** The scan passes over balanced text without changing depth. */
  lemma {:induction false} ScanSkipsBalanced(b: Body, tail: string, depth: nat)
    requires WfBody(b) && depth > 0
    ensures ScanReaches(Text(b, tail), depth, tail, depth)
    decreases b
  {
    match b
    case Done =>
    case Plain(c, rest) =>
      ScanSkipsBalanced(rest, tail, depth);
      ScanReachesPast(c, "", Text(rest, tail), depth);
      ScanReachesOn(Text(b, tail), depth, Text(rest, tail), depth, tail, depth);
    case Quoted(lit, rest) =>
      ScanSkipsBalanced(rest, tail, depth);
      ScanReachesPast('(', lit, Text(rest, tail), depth);
      ScanReachesOn(Text(b, tail), depth, Text(rest, tail), depth, tail, depth);
    case Parens(inner, rest) =>
      var afterInner := ")" + Text(rest, tail);
      ScanReachesPast('(', "", Text(inner, afterInner), depth);
      ScanSkipsBalanced(inner, afterInner, depth + 1);
      ScanReachesOn(Text(b, tail), depth, Text(inner, afterInner), depth + 1, afterInner, depth + 1);
      ScanReachesPast('(', "", Text(rest, tail), depth);
      ScanReachesOn(Text(b, tail), depth, afterInner, depth + 1, Text(rest, tail), depth);
      ScanSkipsBalanced(rest, tail, depth);
      ScanReachesOn(Text(b, tail), depth, Text(rest, tail), depth, tail, depth);
  }

  /** Balanced pieces, each followed by a closing parenthesis. */
  function Join(bodies: seq<Body>, tail: string): string {
    if bodies == [] then tail else Text(bodies[0], ")" + Join(bodies[1..], tail))
  }

  predicate WfBodies(bodies: seq<Body>) { forall i :: 0 <= i < |bodies| ==> WfBody(bodies[i]) }

  lemma DropShift(s: string, rest: string, h: nat, j: nat)
    requires h <= |s| && s[h..] == rest && j < |rest|
    ensures s[h + j + 1..] == rest[j + 1..]
  {
    assert s[h..][j + 1..] == s[h + j + 1..];
  }

  lemma JoinStartsWith(bodies: seq<Body>, first: Body, more: seq<Body>, tail: string)
    requires bodies == [first] + more
    ensures Join(bodies, tail) == Text(first, ")" + Join(more, tail))
  {
    assert bodies[1..] == more;
  }

  /** What the scan accepted reads as one balanced piece per parenthesis it closed. */
  lemma {:induction false} ScannedTextIsBalanced(s: string, depth: nat) returns (bodies: seq<Body>)
    requires depth > 0 && FindClose(s, depth).Some?
    ensures |bodies| == depth && WfBodies(bodies)
    ensures s == Join(bodies, s[FindClose(s, depth).value + 1..])
    decreases |s|
  {
    if s[0] == '"' {
      bodies := ScannedQuotedIsBalanced(s, depth);
    } else if s[0] == '(' {
      bodies := ScannedOpenIsBalanced(s, depth);
    } else if s[0] == ')' {
      bodies := ScannedCloseIsBalanced(s, depth);
    } else {
      bodies := ScannedPlainIsBalanced(s, depth);
    }
  }

  lemma {:induction false} ScannedOpenIsBalanced(s: string, depth: nat) returns (bodies: seq<Body>)
    requires depth > 0 && FindClose(s, depth).Some? && s[0] == '('
    ensures |bodies| == depth && WfBodies(bodies)
    ensures s == Join(bodies, s[FindClose(s, depth).value + 1..])
    decreases |s|, 0
  {
    SplitsAtFirst(s);
    var more := ScannedTextIsBalanced(s[1..], depth + 1);
    DropShift(s, s[1..], 1, FindClose(s[1..], depth + 1).value);
    assert forall i :: 0 < i < |more| ==> WfBody(more[i]);
    assert more[1..][1..] == more[2..];
    bodies := [Parens(more[0], more[1])] + more[2..];
    JoinStartsWith(bodies, Parens(more[0], more[1]), more[2..], s[FindClose(s, depth).value + 1..]);
  }

  lemma {:induction false} ScannedCloseIsBalanced(s: string, depth: nat) returns (bodies: seq<Body>)
    requires depth > 0 && FindClose(s, depth).Some? && s[0] == ')'
    ensures |bodies| == depth && WfBodies(bodies)
    ensures s == Join(bodies, s[FindClose(s, depth).value + 1..])
    decreases |s|, 0
  {
    var tail := s[FindClose(s, depth).value + 1..];
    SplitsAtFirst(s);
    if depth == 1 {
      bodies := [Done];
      JoinStartsWith(bodies, Done, [], tail);
    } else {
      var more := ScannedTextIsBalanced(s[1..], depth - 1);
      DropShift(s, s[1..], 1, FindClose(s[1..], depth - 1).value);
      bodies := [Done] + more;
      JoinStartsWith(bodies, Done, more, tail);
    }
  }

  lemma {:induction false} ScannedPlainIsBalanced(s: string, depth: nat) returns (bodies: seq<Body>)
    requires depth > 0 && FindClose(s, depth).Some? && IsPlain(s[0])
    ensures |bodies| == depth && WfBodies(bodies)
    ensures s == Join(bodies, s[FindClose(s, depth).value + 1..])
    decreases |s|, 0
  {
    SplitsAtFirst(s);
    var more := ScannedTextIsBalanced(s[1..], depth);
    DropShift(s, s[1..], 1, FindClose(s[1..], depth).value);
    assert forall i :: 0 < i < |more| ==> WfBody(more[i]);
    bodies := [Plain(s[0], more[0])] + more[1..];
    JoinStartsWith(bodies, Plain(s[0], more[0]), more[1..], s[FindClose(s, depth).value + 1..]);
  }

  lemma {:induction false} ScannedQuotedIsBalanced(s: string, depth: nat) returns (bodies: seq<Body>)
    requires depth > 0 && FindClose(s, depth).Some? && s != "" && s[0] == '"'
    ensures |bodies| == depth && WfBodies(bodies)
    ensures s == Join(bodies, s[FindClose(s, depth).value + 1..])
    decreases |s|, 0
  {
    var lit, rest := ScannedLiteral(s, depth);
    var more := ScannedTextIsBalanced(rest, depth);
    assert forall i :: 0 < i < |more| ==> WfBody(more[i]);
    bodies := [Quoted(lit, more[0])] + more[1..];
    JoinStartsWith(bodies, Quoted(lit, more[0]), more[1..], rest[FindClose(rest, depth).value + 1..]);
  }

  lemma ScannedLiteral(s: string, depth: nat) returns (lit: string, rest: string)
    requires depth > 0 && FindClose(s, depth).Some? && s != "" && s[0] == '"'
    ensures WellEscaped(lit) && s == PrintLit(lit, rest) && |s| == |lit| + 2 + |rest| && s[|lit| + 2..] == rest
    ensures FindClose(rest, depth).Some? && FindClose(s, depth).value == FindClose(rest, depth).value + (|lit| + 2)
    ensures s[FindClose(s, depth).value + 1..] == rest[FindClose(rest, depth).value + 1..]
  {
    ParsedLit(s);
    lit, rest := ParseLit(s).value.0, ParseLit(s).value.1;
    ScanSkipsLiteral(lit, rest, depth);
    assert |PrintLit(lit, rest)| == |lit| + 2 + |rest|;
    DropShift(s, rest, |lit| + 2, FindClose(rest, depth).value);
  }

  // ---------------------------------------------------------------- stripping layers

  /** One layer removed, or nothing when the text is not exactly one layer. */
  function TryStripSome(s: string): (inner: Option<string>)
    ensures inner.Some? ==> |inner.value| < |s|
  {
    if !StartsWith(s, "Some(") then None
    else
      var inner := s[5..];
      match FindClose(inner, 1)
      case None => None
      case Some(close) => if close == |inner| - 1 then Some(inner[..close]) else None
  }

  /** A layer comes off exactly when what is inside it is balanced text. */
  lemma StripsExactlyBalanced(s: string, inner: string)
    ensures TryStripSome(s) == Some(inner) <==> s == "Some(" + (inner + ")") && Balanced(inner)
  {
    if TryStripSome(s) == Some(inner) {
      SplitsAtPrefix(s, "Some(");
      var bodies := ScannedTextIsBalanced(s[5..], 1);
      assert s[5..] == inner + ")";
      assert s[5..][|inner| + 1..] == "";
      JoinStartsWith(bodies, bodies[0], [], "");
      assert ")" + Join([], "") == ")";
      assert s[5..] == Text(bodies[0], ")");
      TextAppends(bodies[0], ")");
      assert Text(bodies[0], "") == inner;
    }
    if s == "Some(" + (inner + ")") && Balanced(inner) {
      var b :| WfBody(b) && Text(b, "") == inner;
      DropsPrefix("Some(", inner + ")");
      TextAppends(b, ")");
      ScanSkipsBalanced(b, ")", 1);
      assert FindClose(")", 1) == Some(0);
      assert (inner + ")")[..|inner|] == inner;
    }
  }

  function StripAll(s: string): string
    decreases |s|
  {
    match TryStripSome(s)
    case None => s
    case Some(inner) => StripAll(inner)
  }

  method StripSomeWrappers(s: string) returns (stripped: string)
    ensures stripped == StripAll(s)
  {
    stripped := s;
    while true
      invariant StripAll(stripped) == StripAll(s)
      decreases |stripped|
    {
      if !StartsWith(stripped, "Some(") {
        return;
      }
      var inner := stripped[5..];
      var close := FindMatchingCloseParen(inner);
      if close.None? || close.value != |inner| - 1 {
        return;
      }
      stripped := inner[..close.value];
    }
  }

  function Wrapped(n: nat, body: string): string {
    if n == 0 then body else "Some(" + (Wrapped(n - 1, body) + ")")
  }

  lemma BalancedAfterChar(c: char, s: string)
    requires IsPlain(c) && Balanced(s)
    ensures Balanced([c] + s)
  {
    var b :| WfBody(b) && Text(b, "") == s;
    assert WfBody(Plain(c, b)) && Text(Plain(c, b), "") == [c] + s;
  }

  lemma BalancedInParens(s: string)
    requires Balanced(s)
    ensures Balanced("(" + (s + ")"))
  {
    var b :| WfBody(b) && Text(b, "") == s;
    TextAppends(b, ")");
    assert ")" + Text(Done, "") == ")";
    var wrapped := Parens(b, Done);
    assert WfBody(wrapped);
    assert Text(wrapped, "") == "(" + Text(b, ")" + Text(Done, ""));
    assert Text(wrapped, "") == "(" + (s + ")");
  }

  lemma {:induction false} WrappedIsBalanced(n: nat, body: string)
    requires Balanced(body)
    ensures Balanced(Wrapped(n, body))
  {
    if n > 0 {
      WrappedIsBalanced(n - 1, body);
      var s := "(" + (Wrapped(n - 1, body) + ")");
      BalancedInParens(Wrapped(n - 1, body));
      BalancedAfterChar('e', s);
      BalancedAfterChar('m', ['e'] + s);
      BalancedAfterChar('o', ['m'] + (['e'] + s));
      BalancedAfterChar('S', ['o'] + (['m'] + (['e'] + s)));
      assert Wrapped(n, body) == ['S'] + (['o'] + (['m'] + (['e'] + s)));
    }
  }

  /** Any number of layers around balanced text makes no difference. */
  lemma {:induction false} StripsAllLayers(n: nat, body: string)
    requires Balanced(body)
    ensures StripAll(Wrapped(n, body)) == StripAll(body)
  {
    if n > 0 {
      WrappedIsBalanced(n - 1, body);
      var inner := Wrapped(n - 1, body);
      StripsExactlyBalanced("Some(" + (inner + ")"), inner);
      StripsAllLayers(n - 1, body);
    }
  }

  /** A quote character prints with a bare quote, which the scan takes for the start of a literal. */
  lemma QuoteCharIsNotStripped()
    ensures StripAll("Some('\"')") == "Some('\"')"
  {
    var inner := "'\"')";
    assert "Some('\"')"[5..] == inner;
    assert inner[1..] == "\"')" && inner[1..][1..] == "')" && inner[1..][1..][1..] == ")";
    assert LitBody("')").None? by {
      assert "')"[1..] == ")" && ")"[1..] == "";
    }
  }
}
