/**
  The echo tracker: pushed rows are remembered for a window of time, and forgotten lazily by the queries
  and by an occasional vacuum. Clock readings are parameters.
 */
module EchoTracker {
  const ECHO_EXPIRY_WINDOW_MS: nat := 5000

  function EchoKey(table: string, entityId: string): string { table + (":" + entityId) }

  class EchoTracker {
    var marks: map<string, nat>
    const window: nat

    constructor WithDefaultWindow()
      ensures marks == map[] && window == ECHO_EXPIRY_WINDOW_MS
    {
      marks := map[];
      window := ECHO_EXPIRY_WINDOW_MS;
    }

    constructor (window: nat)
      ensures marks == map[] && this.window == window
    {
      marks := map[];
      this.window := window;
    }

    method MarkPushed(table: string, entityId: string, now: nat)
      modifies this`marks
      ensures marks == Step(old(marks), window, Mark(EchoKey(table, entityId), now))
    {
      marks := marks[EchoKey(table, entityId) := now];
    }

    method WasRecentlyPushed(table: string, entityId: string, now: nat) returns (recently: bool)
      modifies this`marks
      ensures recently == Answer(old(marks), window, EchoKey(table, entityId), now)
      ensures marks == Step(old(marks), window, Query(EchoKey(table, entityId), now))
    {
      var key := EchoKey(table, entityId);
      if key in marks && Elapsed(marks[key], now) < window {
        return true;
      }
      marks := marks - {key};
      return false;
    }

    method Clear()
      modifies this`marks
      ensures marks == map[]
    {
      marks := map[];
    }

    method Vacuum(now: nat)
      modifies this`marks
      ensures marks == Step(old(marks), window, Event.Vacuum(now))
    {
      marks := map key | key in marks && Elapsed(marks[key], now) < window :: marks[key];
    }
  }

  /** A monotonic clock never shows a negative difference. */
  function Elapsed(since: nat, now: nat): nat { if now >= since then now - since else 0 }

  datatype Event =
    | Mark(key: string, at: nat)
    | Query(key: string, at: nat)
    | Vacuum(at: nat)
    | Clear(at: nat)

  function Answer(marks: map<string, nat>, window: nat, key: string, now: nat): bool {
    key in marks && Elapsed(marks[key], now) < window
  }

  function Step(marks: map<string, nat>, window: nat, e: Event): map<string, nat> {
    match e
    case Mark(key, at) => marks[key := at]
    case Query(key, at) => if Answer(marks, window, key, at) then marks else marks - {key}
    case Vacuum(at) => map key | key in marks && Elapsed(marks[key], at) < window :: marks[key]
    case Clear(_) => map[]
  }

  function Run(tr: seq<Event>, window: nat): map<string, nat> {
    if tr == [] then map[] else Step(Run(tr[..|tr| - 1], window), window, tr[|tr| - 1])
  }

  /** Time moves forward, but a vacuum read the clock before it got the lock, so its reading may be older. */
  predicate TimeOrdered(tr: seq<Event>, now: nat) {
    && (forall i, j :: 0 <= i < j < |tr| && !tr[j].Vacuum? ==> tr[i].at <= tr[j].at)
    && (forall i :: 0 <= i < |tr| ==> tr[i].at <= now)
  }

  /** The row was marked at step i, not cleared since, and the window has not passed. */
  predicate MarkedWithin(tr: seq<Event>, window: nat, key: string, now: nat, i: nat) {
    && i < |tr| && tr[i].Mark? && tr[i].key == key && Elapsed(tr[i].at, now) < window
    && forall j :: i < j < |tr| ==> !tr[j].Clear?
  }

  /** The answer a tracker that never forgot anything would give. */
  ghost predicate Remembered(tr: seq<Event>, window: nat, key: string, now: nat) {
    exists i: nat :: MarkedWithin(tr, window, key, now, i)
  }

  lemma MarkedInPrefix(tr: seq<Event>, window: nat, key: string, now: nat, i: nat)
    requires tr != [] && i < |tr| - 1
    ensures MarkedWithin(tr, window, key, now, i)
            <==> MarkedWithin(tr[..|tr| - 1], window, key, now, i) && !tr[|tr| - 1].Clear?
  {
    var n := |tr| - 1;
    if MarkedWithin(tr[..n], window, key, now, i) && !tr[n].Clear? {
      forall j | i < j < |tr| ensures !tr[j].Clear? {
        assert j < n ==> !tr[..n][j].Clear?;
      }
    }
  }

  /**
    With time moving forward, a query answers as if nothing had ever been forgotten: dropping expired marks
    on a query or in a vacuum, at any moment, cannot be observed.
   */
  lemma {:induction false} ForgettingIsUnobservable(tr: seq<Event>, window: nat, key: string, now: nat)
    requires TimeOrdered(tr, now)
    ensures Answer(Run(tr, window), window, key, now) <==> Remembered(tr, window, key, now)
  {
    if tr == [] {
      assert forall i: nat :: !MarkedWithin(tr, window, key, now, i);
    } else {
      var n := |tr| - 1;
      var before := tr[..n];
      assert TimeOrdered(before, now);
      ForgettingIsUnobservable(before, window, key, now);
      forall i: nat | i < n
        ensures MarkedWithin(tr, window, key, now, i)
                <==> MarkedWithin(before, window, key, now, i) && !tr[n].Clear?
      {
        MarkedInPrefix(tr, window, key, now, i);
      }
      if tr[n] == Mark(key, tr[n].at) {
        MarkAnswers(tr, window, key, now);
      } else {
        assert !MarkedWithin(tr, window, key, now, n);
        assert Remembered(tr, window, key, now) <==> Remembered(before, window, key, now) && !tr[n].Clear?;
      }
    }
  }

  /** Right after a mark, only that mark matters: any older one would have expired sooner. */
  lemma MarkAnswers(tr: seq<Event>, window: nat, key: string, now: nat)
    requires TimeOrdered(tr, now) && tr != [] && tr[|tr| - 1] == Mark(key, tr[|tr| - 1].at)
    ensures Answer(Run(tr, window), window, key, now) <==> Remembered(tr, window, key, now)
  {
    var n := |tr| - 1;
    if Answer(Run(tr, window), window, key, now) {
      assert MarkedWithin(tr, window, key, now, n);
    }
    if i: nat :| MarkedWithin(tr, window, key, now, i) {
      assert tr[i].at <= tr[n].at;
    }
  }

  // ---------------------------------------------------------------- keys

  predicate StartsInside(t1: string, i1: string, t2: string, i2: string) {
    && |t1| + 1 <= |t2| && t2[..|t1| + 1] == t1 + ":"
    && i1 == t2[|t1| + 1..] + (":" + i2)
  }

  lemma SplitKey(t1: string, i1: string, t2: string, i2: string)
    requires EchoKey(t1, i1) == EchoKey(t2, i2) && |t1| <= |t2|
    ensures (t1 == t2 && i1 == i2) || StartsInside(t1, i1, t2, i2)
  {
    var key := EchoKey(t1, i1);
    assert key[..|t1|] == t1 && key[..|t2|] == t2;
    assert t2[..|t1|] == t1;
    assert key[|t1|..] == ":" + i1 && key[|t2|..] == ":" + i2;
    if |t1| == |t2| {
      assert (":" + i1)[1..] == i1 && (":" + i2)[1..] == i2;
    } else {
      assert key[|t1|] == ':' && t2[|t1|] == ':';
      assert t2[..|t1| + 1] == t1 + ":";
      assert key[|t1| + 1..] == i1;
      assert key[|t1| + 1..] == key[|t1| + 1..|t2|] + key[|t2|..];
      assert key[|t1| + 1..|t2|] == t2[|t1| + 1..];
    }
  }

  /** Two rows share a key exactly when one table name runs past the other's colon. */
  lemma KeysCollideIff(t1: string, i1: string, t2: string, i2: string)
    ensures EchoKey(t1, i1) == EchoKey(t2, i2)
            <==> (t1 == t2 && i1 == i2) || StartsInside(t1, i1, t2, i2) || StartsInside(t2, i2, t1, i1)
  {
    if EchoKey(t1, i1) == EchoKey(t2, i2) {
      if |t1| <= |t2| {
        SplitKey(t1, i1, t2, i2);
      } else {
        SplitKey(t2, i2, t1, i1);
      }
    }
    if StartsInside(t1, i1, t2, i2) {
      InsideCollides(t1, i1, t2, i2);
    }
    if StartsInside(t2, i2, t1, i1) {
      InsideCollides(t2, i2, t1, i1);
    }
  }

  lemma InsideCollides(t1: string, i1: string, t2: string, i2: string)
    requires StartsInside(t1, i1, t2, i2)
    ensures EchoKey(t1, i1) == EchoKey(t2, i2)
  {
    var middle := t2[|t1| + 1..];
    assert t2 == (t1 + ":") + middle;
    assert EchoKey(t2, i2) == ((t1 + ":") + middle) + (":" + i2);
    assert EchoKey(t1, i1) == t1 + (":" + (middle + (":" + i2)));
  }

  /** So with colon-free table names, distinct rows never share a key. */
  lemma ColonFreeTablesNeverCollide(t1: string, i1: string, t2: string, i2: string)
    requires ':' !in t1 && ':' !in t2 && EchoKey(t1, i1) == EchoKey(t2, i2)
    ensures t1 == t2 && i1 == i2
  {
    KeysCollideIff(t1, i1, t2, i2);
    InsideHasColon(t1, i1, t2, i2);
    InsideHasColon(t2, i2, t1, i1);
  }

  lemma InsideHasColon(t1: string, i1: string, t2: string, i2: string)
    ensures StartsInside(t1, i1, t2, i2) ==> ':' in t2
  {
    if StartsInside(t1, i1, t2, i2) {
      assert t2[..|t1| + 1][|t1|] == ':' && t2[|t1|] == ':';
    }
  }
}
