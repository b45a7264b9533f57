/**
  Per-target log levels. The builder keeps overrides in call order, the configuration sorts them by
  descending prefix length, and an event takes the first that matches. Strings stand for their bytes.
 */
module LogOverrides {
  import opened Wrappers

  type Level = nat

  datatype TargetOverride = TargetOverride(prefix: string, level: Level)

  class LogBuilder {
    var overrides: seq<TargetOverride>

    constructor ()
      ensures overrides == []
    {
      overrides := [];
    }

    method TargetLevel(prefix: string, level: Level)
      modifies this
      ensures overrides == WithLevel(old(overrides), prefix, level)
    {
      for i := 0 to |overrides|
        invariant overrides == old(overrides)
        invariant forall k :: 0 <= k < i ==> overrides[k].prefix != prefix
      {
        if overrides[i].prefix == prefix {
          WithLevelFinds(overrides, prefix, level, i);
          overrides := overrides[i := TargetOverride(prefix, level)];
          return;
        }
      }
      WithLevelAppends(overrides, prefix, level);
      overrides := overrides + [TargetOverride(prefix, level)];
    }
  }

  /** The level of the first override of `prefix` replaced, or a new override at the end. */
  function WithLevel(overrides: seq<TargetOverride>, prefix: string, level: Level): seq<TargetOverride> {
    if overrides == [] then [TargetOverride(prefix, level)]
    else if overrides[0].prefix == prefix then [TargetOverride(prefix, level)] + overrides[1..]
    else [overrides[0]] + WithLevel(overrides[1..], prefix, level)
  }

  lemma {:induction false} WithLevelFinds(overrides: seq<TargetOverride>, prefix: string, level: Level, i: nat)
    requires i < |overrides| && overrides[i].prefix == prefix
    requires forall k :: 0 <= k < i ==> overrides[k].prefix != prefix
    ensures WithLevel(overrides, prefix, level) == overrides[i := TargetOverride(prefix, level)]
  {
    if i > 0 {
      WithLevelFinds(overrides[1..], prefix, level, i - 1);
      assert overrides[i := TargetOverride(prefix, level)]
          == [overrides[0]] + overrides[1..][i - 1 := TargetOverride(prefix, level)];
    }
  }

  lemma {:induction false} WithLevelAppends(overrides: seq<TargetOverride>, prefix: string, level: Level)
    requires forall k :: 0 <= k < |overrides| ==> overrides[k].prefix != prefix
    ensures WithLevel(overrides, prefix, level) == overrides + [TargetOverride(prefix, level)]
  {
    if overrides != [] {
      WithLevelAppends(overrides[1..], prefix, level);
    }
  }

  function Built(calls: seq<TargetOverride>): seq<TargetOverride> {
    if calls == [] then []
    else
      var n := |calls| - 1;
      WithLevel(Built(calls[..n]), calls[n].prefix, calls[n].level)
  }

  /** The level the last call for a prefix set. */
  function LastSet(calls: seq<TargetOverride>, prefix: string): Option<Level> {
    if calls == [] then None
    else
      var n := |calls| - 1;
      if calls[n].prefix == prefix then Some(calls[n].level) else LastSet(calls[..n], prefix)
  }

  predicate OnePerPrefix(overrides: seq<TargetOverride>) {
    forall i, j :: 0 <= i < j < |overrides| ==> overrides[i].prefix != overrides[j].prefix
  }

  lemma {:induction false} WithLevelMembers(overrides: seq<TargetOverride>, prefix: string, level: Level,
                                            o: TargetOverride)
    requires OnePerPrefix(overrides)
    ensures o in WithLevel(overrides, prefix, level)
            <==> o == TargetOverride(prefix, level) || (o in overrides && o.prefix != prefix)
  {
    if overrides != [] {
      assert overrides == [overrides[0]] + overrides[1..];
      if overrides[0].prefix == prefix {
        assert o in overrides[1..] ==> exists k :: 0 < k < |overrides| && overrides[k] == o;
      } else {
        WithLevelMembers(overrides[1..], prefix, level, o);
      }
    }
  }

  lemma {:induction false} WithLevelKeepsOnePerPrefix(overrides: seq<TargetOverride>, prefix: string, level: Level)
    requires OnePerPrefix(overrides)
    ensures OnePerPrefix(WithLevel(overrides, prefix, level))
  {
    if overrides != [] && overrides[0].prefix != prefix {
      WithLevelKeepsOnePerPrefix(overrides[1..], prefix, level);
      var rest := WithLevel(overrides[1..], prefix, level);
      forall k | 0 <= k < |rest| ensures rest[k].prefix != overrides[0].prefix {
        WithLevelMembers(overrides[1..], prefix, level, rest[k]);
        if rest[k] in overrides[1..] {
          var m :| 0 <= m < |overrides[1..]| && overrides[1..][m] == rest[k];
          assert overrides[m + 1].prefix != overrides[0].prefix;
        }
      }
    }
  }

  /** The builder holds one override per prefix, at the level set last. */
  lemma {:induction false} BuiltHoldsLastSet(calls: seq<TargetOverride>, prefix: string, level: Level)
    ensures OnePerPrefix(Built(calls))
    ensures TargetOverride(prefix, level) in Built(calls) <==> LastSet(calls, prefix) == Some(level)
  {
    if calls != [] {
      var n := |calls| - 1;
      BuiltHoldsLastSet(calls[..n], prefix, level);
      WithLevelKeepsOnePerPrefix(Built(calls[..n]), calls[n].prefix, calls[n].level);
      WithLevelMembers(Built(calls[..n]), calls[n].prefix, calls[n].level, TargetOverride(prefix, level));
    }
  }

  // ---------------------------------------------------------------- the sorted configuration

  predicate LongestFirst(overrides: seq<TargetOverride>) {
    forall i, j :: 0 <= i < j < |overrides| ==> |overrides[i].prefix| >= |overrides[j].prefix|
  }

  /** Stable: behind everything at least as long. */
  function InsertByLength(o: TargetOverride, sorted: seq<TargetOverride>): seq<TargetOverride> {
    if sorted == [] || |sorted[0].prefix| < |o.prefix| then [o] + sorted
    else [sorted[0]] + InsertByLength(o, sorted[1..])
  }

  lemma {:induction false} InsertByLengthSorts(o: TargetOverride, sorted: seq<TargetOverride>)
    requires LongestFirst(sorted)
    ensures LongestFirst(InsertByLength(o, sorted))
    ensures multiset(InsertByLength(o, sorted)) == multiset(sorted) + multiset{o}
  {
    if sorted != [] {
      assert sorted == [sorted[0]] + sorted[1..];
      if |sorted[0].prefix| >= |o.prefix| {
        InsertByLengthSorts(o, sorted[1..]);
        var rest := InsertByLength(o, sorted[1..]);
        forall k | 0 <= k < |rest| ensures |sorted[0].prefix| >= |rest[k].prefix| {
          assert rest[k] in multiset(rest);
          assert rest[k] == o || rest[k] in sorted[1..];
        }
      }
    }
  }

  method SortOverrides(overrides: seq<TargetOverride>) returns (sorted: seq<TargetOverride>)
    ensures LongestFirst(sorted) && multiset(sorted) == multiset(overrides)
  {
    sorted := [];
    for i := 0 to |overrides|
      invariant LongestFirst(sorted) && multiset(sorted) == multiset(overrides[..i])
    {
      InsertByLengthSorts(overrides[i], sorted);
      assert overrides[..i + 1] == overrides[..i] + [overrides[i]];
      sorted := InsertByLength(overrides[i], sorted);
    }
    assert overrides[..|overrides|] == overrides;
  }

  // ---------------------------------------------------------------- resolving a target

  /** Exactly the prefix, or the prefix followed by a path separator and anything, even nothing, after it. */
  predicate TargetMatches(target: string, prefix: string) {
    target == prefix ||
    (|target| > |prefix| + 1 && target[..|prefix|] == prefix && target[|prefix|..|prefix| + 2] == "::")
  }

  method EffectiveMinLevel(target: string, overrides: seq<TargetOverride>, global: Level) returns (level: Level)
    ensures level == FirstMatch(target, overrides, global)
  {
    for i := 0 to |overrides|
      invariant FirstMatch(target, overrides, global) == FirstMatch(target, overrides[i..], global)
    {
      assert overrides[i..][1..] == overrides[i + 1..];
      if TargetMatches(target, overrides[i].prefix) {
        return overrides[i].level;
      }
    }
    return global;
  }

  function FirstMatch(target: string, overrides: seq<TargetOverride>, global: Level): Level {
    if overrides == [] then global
    else if TargetMatches(target, overrides[0].prefix) then overrides[0].level
    else FirstMatch(target, overrides[1..], global)
  }

  /** The level set last for the longest prefix that matches, or the global level when none does. */
  ghost predicate IsMostSpecific(calls: seq<TargetOverride>, target: string, global: Level, level: Level) {
    || ((forall p :: TargetMatches(target, p) ==> LastSet(calls, p) == None) && level == global)
    || (exists p :: TargetMatches(target, p) && LastSet(calls, p) == Some(level) && IsLongestMatch(calls, target, p))
  }

  ghost predicate IsLongestMatch(calls: seq<TargetOverride>, target: string, p: string) {
    forall q :: TargetMatches(target, q) && LastSet(calls, q).Some? ==> |q| <= |p|
  }

  lemma {:induction false} FirstMatchIsFirst(target: string, overrides: seq<TargetOverride>, global: Level)
    returns (k: nat)
    ensures k <= |overrides| && forall i :: 0 <= i < k ==> !TargetMatches(target, overrides[i].prefix)
    ensures if k == |overrides| then FirstMatch(target, overrides, global) == global
            else TargetMatches(target, overrides[k].prefix)
                 && FirstMatch(target, overrides, global) == overrides[k].level
  {
    k := 0;
    if overrides != [] && !TargetMatches(target, overrides[0].prefix) {
      k := FirstMatchIsFirst(target, overrides[1..], global);
      k := k + 1;
    }
  }

  /** After any calls in any order, the first match in the sorted overrides is the most specific setting. */
  lemma FirstMatchIsMostSpecific(calls: seq<TargetOverride>, sorted: seq<TargetOverride>, target: string, global: Level)
    requires LongestFirst(sorted) && multiset(sorted) == multiset(Built(calls))
    ensures IsMostSpecific(calls, target, global, FirstMatch(target, sorted, global))
  {
    var k := FirstMatchIsFirst(target, sorted, global);
    forall p | LastSet(calls, p).Some? ensures TargetOverride(p, LastSet(calls, p).value) in sorted {
      BuiltHoldsLastSet(calls, p, LastSet(calls, p).value);
      assert TargetOverride(p, LastSet(calls, p).value) in multiset(Built(calls));
    }
    if k < |sorted| {
      var o := sorted[k];
      assert o in multiset(sorted);
      BuiltHoldsLastSet(calls, o.prefix, o.level);
      forall q | TargetMatches(target, q) && LastSet(calls, q).Some? ensures |q| <= |o.prefix| {
        var i :| 0 <= i < |sorted| && sorted[i] == TargetOverride(q, LastSet(calls, q).value);
      }
      assert IsLongestMatch(calls, target, o.prefix);
    } else {
      forall p | LastSet(calls, p).Some? ensures !TargetMatches(target, p) {
        var i :| 0 <= i < |sorted| && sorted[i] == TargetOverride(p, LastSet(calls, p).value);
      }
    }
  }

  /** Matching prefixes of one target are prefixes of each other, so the longest one is unique. */
  lemma MatchesOfOneLengthAgree(target: string, p: string, q: string)
    requires TargetMatches(target, p) && TargetMatches(target, q) && |p| == |q|
    ensures p == q
  {
    assert target[..|p|] == p && target[..|q|] == q;
  }

  /** Hence the result depends only on the level last set per prefix, not on the order of the calls. */
  lemma CallOrderDoesNotMatter(a: seq<TargetOverride>, b: seq<TargetOverride>, target: string, global: Level,
                               la: Level, lb: Level)
    requires forall p :: LastSet(a, p) == LastSet(b, p)
    requires IsMostSpecific(a, target, global, la) && IsMostSpecific(b, target, global, lb)
    ensures la == lb
  {
    if p :| TargetMatches(target, p) && LastSet(a, p) == Some(la) && IsLongestMatch(a, target, p) {
      assert LastSet(b, p).Some?;
      var q :| TargetMatches(target, q) && LastSet(b, q) == Some(lb) && IsLongestMatch(b, target, q);
      assert LastSet(a, q).Some?;
      MatchesOfOneLengthAgree(target, p, q);
    }
  }
}
