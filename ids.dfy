/** Identifiers: the decimal text of a serial number (`Number.prototype.toString`), the
    durable identifiers the store hands out, and the client-side temporary-id rule that
    decides whether a save updates a row in place or inserts a new one. */
module Ids {
  import opened Common

  function DigitChar(d: nat): (c: char)
    requires d < 10
    ensures '0' <= c <= '9'
  {
    (('0' as int) + d) as char
  }

  predicate AllDigits(s: string) {
    forall i :: 0 <= i < |s| ==> '0' <= s[i] <= '9'
  }

  /** Decimal rendering of a non-negative integer, without leading zeros. */
  function NatToString(n: nat): (s: string)
    ensures |s| >= 1 && AllDigits(s)
  {
    if n < 10 then [DigitChar(n)] else NatToString(n / 10) + [DigitChar(n % 10)]
  }

  /** The value of a string of decimal digits: the inverse of `NatToString`. */
  function ParseDigits(s: string): nat
    requires AllDigits(s)
  {
    if s == [] then 0
    else ParseDigits(s[..|s| - 1]) * 10 + (s[|s| - 1] as int - '0' as int)
  }

  lemma {:induction false} ParseNatToString(n: nat)
    ensures ParseDigits(NatToString(n)) == n
  {
    if n >= 10 {
      var s := NatToString(n);
      assert s[..|s| - 1] == NatToString(n / 10);
      ParseNatToString(n / 10);
    }
  }

  lemma NatToStringInjective(a: nat, b: nat)
    ensures NatToString(a) == NatToString(b) ==> a == b
  {
    ParseNatToString(a);
    ParseNatToString(b);
  }

  /** The identifier the store assigns to its `n`-th inserted row (standing in for the
      server-generated UUID). */
  function FreshId(n: nat): string {
    "id-" + NatToString(n)
  }

  lemma FreshIdInjective(a: nat, b: nat)
    ensures FreshId(a) == FreshId(b) ==> a == b
  {
    if FreshId(a) == FreshId(b) {
      assert NatToString(a) == FreshId(a)[3..];
      assert NatToString(b) == FreshId(b)[3..];
      NatToStringInjective(a, b);
    }
  }

  /** The temporary-id rule of `saveLessonScene`, `saveLesson`, `saveUnit` and `saveQuestion`:
      an id updates in place when it is present (non-empty) and starts with none of the
      client-side temporary prefixes; otherwise the save inserts a new row. */
  predicate UpdatesInPlace(id: string, tempPrefixes: seq<string>) {
    id != "" && forall p :: p in tempPrefixes ==> !StartsWith(id, p)
  }

  const SceneTempPrefixes: seq<string> := ["scene_"]
  const LessonTempPrefixes: seq<string> := ["l_"]
  const UnitTempPrefixes: seq<string> := ["u_"]
  const QuestionTempPrefixes: seq<string> := ["temp", "q_"]

  /** `saveQuiz` tests only its prefix: any id not starting with `quiz_`, even the empty one,
      is updated in place. */
  predicate QuizUpdatesInPlace(id: string) {
    !StartsWith(id, "quiz_")
  }

  /** Every identifier the store hands out is durable: saving the returned record again
      updates the same row instead of inserting another. */
  lemma FreshIdIsDurable(n: nat)
    ensures UpdatesInPlace(FreshId(n), SceneTempPrefixes)
    ensures UpdatesInPlace(FreshId(n), LessonTempPrefixes)
    ensures UpdatesInPlace(FreshId(n), UnitTempPrefixes)
    ensures UpdatesInPlace(FreshId(n), QuestionTempPrefixes)
    ensures QuizUpdatesInPlace(FreshId(n))
  {
    var id := FreshId(n);
    assert id[0] == 'i' && id[1] == 'd' && id[2] == '-';
    forall p | p in ["scene_", "l_", "u_", "temp", "q_", "quiz_"] ensures !StartsWith(id, p) {
      assert |p| >= 2 && (p[0] != 'i' || p[1] != 'd');
    }
  }
}
