/**
  What the coordinator makes of a server's reply: whether the change was delivered, is to be retried, or was
  refused. PostgREST errors are told apart by their text, edge function errors by status and code.
 */
module ServerReplies {
  datatype Reply =
    | NoReply
    | Accepted
    | Undecodable
    | Rejected(status: nat, code: string, message: string)

  datatype Route = Upsert | TombstoneUpdate | Edge

  /** What becomes of the change the reply is about. */
  datatype Fate = Delivered | Retry | Refused(regression: bool)

  const SAME_VERSION := "same-version mutation"
  const REGRESSION := "version regression"

  const PERMANENT_PATTERNS: seq<string> := [
    REGRESSION, "is immutable", SAME_VERSION, "undelete requires version", "string is too long for tsvector",
    "value too long", "violates check constraint", "violates not-null constraint", "violates unique constraint",
    "invalid input syntax"]

  function LowerChar(c: char): char { if 'A' <= c <= 'Z' then (c as int + 32) as char else c }

  function Lower(s: string): string { seq(|s|, i requires 0 <= i < |s| => LowerChar(s[i])) }

  predicate OccursAt(text: string, pattern: string, i: nat) {
    i + |pattern| <= |text| && text[i..i + |pattern|] == pattern
  }

  predicate Contains(text: string, pattern: string) {
    exists i :: 0 <= i <= |text| && OccursAt(text, pattern, i)
  }

  predicate Mentions(message: string, pattern: string) { Contains(Lower(message), pattern) }

  predicate IsPermanentMessage(message: string) {
    exists k :: 0 <= k < |PERMANENT_PATTERNS| && Mentions(message, PERMANENT_PATTERNS[k])
  }

  function Digits(n: nat): string {
    (if n < 10 then "" else Digits(n / 10)) + [(n % 10 + '0' as int) as char]
  }

  function HttpMessage(status: nat, body: string): string { "HTTP " + Digits(status) + ": " + body }

  function ClassifyMessage(message: string): Fate {
    if IsPermanentMessage(message) then Refused(Mentions(message, REGRESSION)) else Retry
  }

  function FateOf(route: Route, reply: Reply): Fate {
    match reply
    case NoReply => Retry
    case Accepted => Delivered
    case Undecodable => if route.Edge? then Refused(false) else Delivered
    case Rejected(status, code, message) =>
      match route
      case Upsert =>
        if Mentions(message, SAME_VERSION) then Delivered else ClassifyMessage(HttpMessage(status, message))
      case TombstoneUpdate => ClassifyMessage(HttpMessage(status, message))
      case Edge =>
        if status == 401 || status == 403 || (500 <= status <= 599 && Lower(code) != "permanent") then Retry
        else Refused(Mentions(message, REGRESSION))
  }

  lemma PrefixKeepsMention(prefix: string, body: string, pattern: string)
    requires Mentions(body, pattern)
    ensures Mentions(prefix + body, pattern)
  {
    var i :| 0 <= i <= |body| && OccursAt(Lower(body), pattern, i);
    assert Lower(prefix + body) == Lower(prefix) + Lower(body);
    assert OccursAt(Lower(prefix + body), pattern, |prefix| + i);
  }

  /**
    An upsert and a tombstone read the same reply the same way, except for the benign same-version rejection:
    the upsert counts it as delivered, the tombstone reports it as an error and does not queue it.
   */
  lemma SameVersionDividesTheRoutes(reply: Reply)
    ensures FateOf(Upsert, reply) == FateOf(TombstoneUpdate, reply)
            <==> !(reply.Rejected? && Mentions(reply.message, SAME_VERSION))
    ensures reply.Rejected? && Mentions(reply.message, SAME_VERSION) ==>
              FateOf(Upsert, reply) == Delivered && FateOf(TombstoneUpdate, reply).Refused?
  {
    if reply.Rejected? && Mentions(reply.message, SAME_VERSION) {
      PrefixKeepsMention("HTTP " + Digits(reply.status) + ": ", reply.message, SAME_VERSION);
      assert PERMANENT_PATTERNS[2] == SAME_VERSION;
    }
  }
}
