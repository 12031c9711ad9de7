/**
 * The pattern the Kotlin enum trackers share: a name is looked up among the
 * enum's values, an unknown name is ignored, and the current value changes,
 * firing one change event, only when the new value differs from it.
 */
module EnumTracker {
  import opened Common

  /** The value whose name is `n`, looked up among `values`. */
  function Lookup<E>(values: seq<E>, name: E -> string, n: string): (r: Option<E>)
    ensures r.Some? ==> r.value in values && name(r.value) == n
    ensures r.None? ==> forall k :: 0 <= k < |values| ==> name(values[k]) != n
  {
    if |values| == 0 then None
    else if name(values[0]) == n then Some(values[0])
    else Lookup(values[1..], name, n)
  }

  /** No two of `values` share a name. */
  ghost predicate NamesDistinct<E>(values: seq<E>, name: E -> string)
  {
    forall i, j :: 0 <= i < j < |values| ==> name(values[i]) != name(values[j])
  }

  /** With distinct names, looking a value up by its own name finds it. */
  lemma {:induction false} LookupRoundTrip<E>(values: seq<E>, name: E -> string, e: E)
    requires e in values && NamesDistinct(values, name)
    ensures Lookup(values, name, name(e)) == Some(e)
  {
    if values[0] != e {
      assert NamesDistinct(values[1..], name) by {
        forall i, j | 0 <= i < j < |values[1..]|
          ensures name(values[1..][i]) != name(values[1..][j])
        {
          assert values[1..][i] == values[i + 1] && values[1..][j] == values[j + 1];
        }
      }
      var k :| 0 <= k < |values| && values[k] == e;
      assert values[1..][k - 1] == e;
      LookupRoundTrip(values[1..], name, e);
      assert name(values[0]) != name(e) by {
        assert name(values[0]) != name(values[k]);
      }
    }
  }

  /** The current value and every change event fired so far. */
  datatype Tracker<E> = Tracker(current: E, events: seq<E>)

  /** Sets the current value from a looked-up name. */
  function Set<E(==)>(t: Tracker<E>, found: Option<E>): (r: Tracker<E>)
    ensures found.None? ==> r == t
    ensures found.Some? ==> r.current == found.value
    ensures r.events == if found.Some? && found.value != t.current then t.events + [found.value] else t.events
  {
    match found
    case None => t
    case Some(v) => if v == t.current then t else Tracker(v, t.events + [v])
  }

  /** Setting the same value twice fires at most one event, and the second
      call changes nothing. */
  lemma SetIdempotent<E>(t: Tracker<E>, found: Option<E>)
    ensures Set(Set(t, found), found) == Set(t, found)
    ensures |Set(Set(t, found), found).events| <= |t.events| + 1
  {
  }

  /** Every event fired carries the value current right after it. */
  ghost predicate EventsTrackCurrent<E>(t: Tracker<E>)
  {
    |t.events| > 0 ==> t.events[|t.events| - 1] == t.current
  }

  /** Setting keeps the last event equal to the current value, and two
      consecutive events always differ. */
  lemma SetKeepsEventsConsistent<E>(t: Tracker<E>, found: Option<E>)
    requires EventsTrackCurrent(t)
    ensures EventsTrackCurrent(Set(t, found))
    ensures var r := Set(t, found);
            |r.events| == |t.events| + 1 && |t.events| > 0 ==> r.events[|r.events| - 2] != r.events[|r.events| - 1]
  {
  }
}
