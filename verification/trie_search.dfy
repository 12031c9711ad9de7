/** The prefix-tree search (TrieSearch) as seen from its callers. Its
    internals are not part of this model: a search is the list of
    registered (pattern, callback) entries, and `matches` reports some
    occurrence of a registered pattern whose callback answers, with no
    assumption about the order in which occurrences are visited. */
module TrieSearch {
  import Occurrence

  /** One `addPattern` call: the pattern and the identity of its callback. */
  datatype Entry<T, C> = Entry(pattern: seq<T>, callback: C)

  /** What a callback does when invoked on a match: claim it (return true),
      decline it (return false), or throw. */
  datatype Answer = Claim | Decline | Throw

  /** Result of one `matches` call: the claiming occurrence, the occurrence
      whose callback threw, or "the subject was exhausted". */
  datatype Outcome = Matched(entry: nat, start: nat) | Threw(entry: nat, start: nat) | Exhausted

  /** Entry `e`'s pattern occurs in `subject` at `start`. */
  ghost predicate Hit<T, C>(entries: seq<Entry<T, C>>, subject: seq<T>, e: int, start: int)
  {
    0 <= e < |entries| && Occurrence.OccursAt(subject, entries[e].pattern, start)
  }

  /** Some occurrence gets the answer `a` from its callback. */
  ghost predicate SomeHitAnswers<T, C>(entries: seq<Entry<T, C>>, subject: seq<T>, answer: (C, nat) -> Answer, a: Answer)
  {
    exists e: nat, start: nat :: Hit(entries, subject, e, start) && answer(entries[e].callback, start) == a
  }

  /** The outcomes `matches` may produce when visiting occurrences in any order:
      it stops at the first callback that claims or throws. */
  ghost predicate Allowed<T, C>(entries: seq<Entry<T, C>>, subject: seq<T>, answer: (C, nat) -> Answer, o: Outcome)
  {
    match o
    case Matched(e, start) => Hit(entries, subject, e, start) && answer(entries[e].callback, start) == Claim
    case Threw(e, start) => Hit(entries, subject, e, start) && answer(entries[e].callback, start) == Throw
    case Exhausted =>
      forall e: nat, start: nat :: Hit(entries, subject, e, start) ==> answer(entries[e].callback, start) == Decline
  }

  /** `matches(subject, parameter)`: the callback answers are fixed by
      `answer`, which receives the callback's identity and the match start. */
  method Matches<T(==), C>(entries: seq<Entry<T, C>>, subject: seq<T>, answer: (C, nat) -> Answer) returns (o: Outcome)
    ensures Allowed(entries, subject, answer, o)
  {
    var e := 0;
    while e < |entries|
      invariant 0 <= e <= |entries|
      invariant forall e': nat, start: nat :: e' < e && Hit(entries, subject, e', start) ==>
                  answer(entries[e'].callback, start) == Decline
    {
      var pattern := entries[e].pattern;
      var start := 0;
      while start + |pattern| <= |subject|
        invariant 0 <= start
        invariant forall s: nat :: s < start && Hit(entries, subject, e, s) ==>
                    answer(entries[e].callback, s) == Decline
      {
        if Occurrence.OccursAt(subject, pattern, start) {
          var a := answer(entries[e].callback, start);
          if a == Claim {
            return Matched(e, start);
          } else if a == Throw {
            return Threw(e, start);
          }
        }
        start := start + 1;
      }
      e := e + 1;
    }
    return Exhausted;
  }

  /** When no callback throws, `matches` claims exactly when some
      occurrence's callback claims, whatever the visiting order. */
  lemma NoThrowMeansClaimIffSomeClaims<T, C>(entries: seq<Entry<T, C>>, subject: seq<T>, answer: (C, nat) -> Answer, o: Outcome)
    requires Allowed(entries, subject, answer, o)
    requires !SomeHitAnswers(entries, subject, answer, Throw)
    ensures o.Matched? <==> SomeHitAnswers(entries, subject, answer, Claim)
    ensures !o.Threw?
  {
  }
}
