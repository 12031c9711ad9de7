/** FilterGroupList: an ordered list of groups of one alphabet with a lazily
    built prefix-tree search over all their patterns. */
module FilterGroupLists {
  import opened Common
  import Occurrence
  import opened FilterGroups
  import TrieSearch

  /** The search entries of a list: each pattern with the group owning it. */
  type Search<T> = seq<TrieSearch.Entry<T, FilterGroup<T>>>

  /** The groups, and the search once it has been built. */
  datatype GroupList<T> = GroupList(groups: seq<FilterGroup<T>>, search: Option<Search<T>>)

  /** An empty list, before any `addAll`. */
  function EmptyList<T>(): (l: GroupList<T>)
    ensures |l.groups| == 0 && l.search.None?
  {
    GroupList([], None)
  }

  /** One entry per pattern of `group`, in pattern order. */
  function GroupEntries<T>(group: FilterGroup<T>): (r: Search<T>)
    ensures |r| == |group.filters|
    ensures forall i :: 0 <= i < |r| ==> r[i] == TrieSearch.Entry(group.filters[i], group)
  {
    seq(|group.filters|, i requires 0 <= i < |group.filters| => TrieSearch.Entry(group.filters[i], group))
  }

  /** `entry` registers pattern `p` of a group of `groups` that is not excluded. */
  ghost predicate RegisteredFrom<T>(groups: seq<FilterGroup<T>>, store: Store, entry: TrieSearch.Entry<T, FilterGroup<T>>)
  {
    exists g, p :: 0 <= g < |groups| && 0 <= p < |groups[g].filters|
      && !ExcludeInSearch(groups[g], store)
      && entry == TrieSearch.Entry(groups[g].filters[p], groups[g])
  }

  /** The registration loop shared by `buildSearch` and the engine's
      `filterGroupLists`: every pattern of every group, in order, skipping
      the groups excluded from search. */
  function RegisterGroups<T>(groups: seq<FilterGroup<T>>, store: Store): Search<T>
    decreases |groups|
  {
    if |groups| == 0 then []
    else
      RegisterGroups(groups[..|groups| - 1], store)
      + (if ExcludeInSearch(groups[|groups| - 1], store) then [] else GroupEntries(groups[|groups| - 1]))
  }

  /** Every registered entry is a pattern of a group that is not excluded. */
  lemma {:induction false} RegisterGroupsSound<T>(groups: seq<FilterGroup<T>>, store: Store)
    ensures forall k :: 0 <= k < |RegisterGroups(groups, store)| ==>
      RegisteredFrom(groups, store, RegisterGroups(groups, store)[k])
    decreases |groups|
  {
    if |groups| > 0 {
      var init := groups[..|groups| - 1];
      var last := groups[|groups| - 1];
      var prefix := RegisterGroups(init, store);
      var own := if ExcludeInSearch(last, store) then [] else GroupEntries(last);
      var r := RegisterGroups(groups, store);
      assert r == prefix + own;
      RegisterGroupsSound(init, store);
      forall k | 0 <= k < |r|
        ensures RegisteredFrom(groups, store, r[k])
      {
        if k < |prefix| {
          assert RegisteredFrom(init, store, prefix[k]);
          var g, p :| 0 <= g < |init| && 0 <= p < |init[g].filters|
            && !ExcludeInSearch(init[g], store)
            && prefix[k] == TrieSearch.Entry(init[g].filters[p], init[g]);
          assert groups[g] == init[g];
        } else {
          var p := k - |prefix|;
          assert r[k] == own[p];
          assert own[p] == TrieSearch.Entry(groups[|groups| - 1].filters[p], groups[|groups| - 1]);
        }
      }
    }
  }

  /** Every pattern of every group that is not excluded is registered. */
  lemma {:induction false} RegisterGroupsComplete<T>(groups: seq<FilterGroup<T>>, store: Store)
    ensures forall g, p ::
      0 <= g < |groups| && 0 <= p < |groups[g].filters| && !ExcludeInSearch(groups[g], store)
      ==> TrieSearch.Entry(groups[g].filters[p], groups[g]) in RegisterGroups(groups, store)
    decreases |groups|
  {
    if |groups| > 0 {
      var init := groups[..|groups| - 1];
      var last := groups[|groups| - 1];
      var prefix := RegisterGroups(init, store);
      var own := if ExcludeInSearch(last, store) then [] else GroupEntries(last);
      var r := RegisterGroups(groups, store);
      assert r == prefix + own;
      RegisterGroupsComplete(init, store);
      forall g, p | 0 <= g < |groups| && 0 <= p < |groups[g].filters| && !ExcludeInSearch(groups[g], store)
        ensures TrieSearch.Entry(groups[g].filters[p], groups[g]) in r
      {
        if g < |init| {
          assert groups[g] == init[g];
          assert TrieSearch.Entry(init[g].filters[p], init[g]) in prefix;
        } else {
          assert own[p] == TrieSearch.Entry(groups[g].filters[p], groups[g]);
        }
      }
    }
  }

  /** addAll: appends the groups and discards any built search. */
  function AddAll<T>(list: GroupList<T>, groups: seq<FilterGroup<T>>): (r: GroupList<T>)
    ensures |r.groups| == |list.groups| + |groups|
    ensures r.groups[..|list.groups|] == list.groups
    ensures r.groups[|list.groups|..] == groups
    ensures r.search.None?
  {
    GroupList(list.groups + groups, None)
  }

  /** buildSearch: builds the search once; a built search is kept as is. */
  function BuildSearch<T>(list: GroupList<T>, store: Store): (r: GroupList<T>)
    ensures r.groups == list.groups && r.search.Some?
    ensures list.search.Some? ==> r == list
    ensures list.search.None? ==> forall k :: 0 <= k < |r.search.value| ==> RegisteredFrom(list.groups, store, r.search.value[k])
    ensures list.search.None? ==>
      forall g, p :: 0 <= g < |list.groups| && 0 <= p < |list.groups[g].filters| && !ExcludeInSearch(list.groups[g], store)
        ==> TrieSearch.Entry(list.groups[g].filters[p], list.groups[g]) in r.search.value
  {
    if list.search.Some? then list
    else
      RegisterGroupsSound(list.groups, store);
      RegisterGroupsComplete(list.groups, store);
      GroupList(list.groups, Some(RegisterGroups(list.groups, store)))
  }

  /** The callback registered for a group: it re-reads the group's setting
      when it fires, and claims the match only if the group is still enabled. */
  function GroupCallback<T>(store: Store): (FilterGroup<T>, nat) -> TrieSearch.Answer
  {
    (g: FilterGroup<T>, start: nat) => if IsEnabled(g, store) then TrieSearch.Claim else TrieSearch.Decline
  }

  /** Some entry of `search` whose group is enabled occurs in `subject`. */
  ghost predicate EnabledPatternOccurs<T>(search: Search<T>, store: Store, subject: seq<T>)
  {
    exists e, start :: 0 <= e < |search| && IsEnabled(search[e].callback, store)
      && Occurrence.OccursAt(subject, search[e].pattern, start)
  }

  /** FilterGroupList.check: builds the search if needed, then reports an
      occurrence of a registered pattern whose group is enabled now, as the
      group's setting, the start and the pattern length; otherwise the
      default no-match result. */
  method Check<T(==)>(list: GroupList<T>, store: Store, subject: seq<T>) returns (r: GroupResult, list': GroupList<T>)
    ensures list' == BuildSearch(list, store)
    ensures IsFiltered(r) <==> EnabledPatternOccurs(list'.search.value, store, subject)
    ensures !IsFiltered(r) ==> r == NoMatch()
    ensures IsFiltered(r) ==> exists e, start ::
      && 0 <= e < |list'.search.value|
      && IsEnabled(list'.search.value[e].callback, store)
      && Occurrence.OccursAt(subject, list'.search.value[e].pattern, start)
      && r == GroupResult(list'.search.value[e].callback.setting, start, |list'.search.value[e].pattern|)
  {
    list' := BuildSearch(list, store);
    var search := list'.search.value;
    var o := TrieSearch.Matches(search, subject, GroupCallback(store));
    if o.Matched? {
      r := GroupResult(search[o.entry].callback.setting, o.start, |search[o.entry].pattern|);
    } else {
      r := NoMatch();
      if EnabledPatternOccurs(search, store, subject) {
        var e, start :| 0 <= e < |search| && IsEnabled(search[e].callback, store)
          && Occurrence.OccursAt(subject, search[e].pattern, start);
        assert TrieSearch.Hit(search, subject, e, start);
      }
    }
  }

  /** On a list whose search has not been built yet, `check` reports a match
      exactly when a pattern of a currently enabled group occurs. */
  lemma FreshCheckMatchesEnabledGroups<T>(list: GroupList<T>, store: Store, subject: seq<T>)
    requires list.search.None?
    ensures EnabledPatternOccurs(BuildSearch(list, store).search.value, store, subject) <==>
      exists g, p, start :: 0 <= g < |list.groups| && 0 <= p < |list.groups[g].filters|
        && IsEnabled(list.groups[g], store)
        && Occurrence.OccursAt(subject, list.groups[g].filters[p], start)
  {
    var search := BuildSearch(list, store).search.value;
    if EnabledPatternOccurs(search, store, subject) {
      var e, start :| 0 <= e < |search| && IsEnabled(search[e].callback, store)
        && Occurrence.OccursAt(subject, search[e].pattern, start);
      var g, p :| 0 <= g < |list.groups| && 0 <= p < |list.groups[g].filters|
        && !ExcludeInSearch(list.groups[g], store)
        && search[e] == TrieSearch.Entry(list.groups[g].filters[p], list.groups[g]);
      assert IsEnabled(list.groups[g], store);
    }
    if exists g, p, start :: 0 <= g < |list.groups| && 0 <= p < |list.groups[g].filters|
        && IsEnabled(list.groups[g], store)
        && Occurrence.OccursAt(subject, list.groups[g].filters[p], start)
    {
      var g, p, start :| 0 <= g < |list.groups| && 0 <= p < |list.groups[g].filters|
        && IsEnabled(list.groups[g], store)
        && Occurrence.OccursAt(subject, list.groups[g].filters[p], start);
      var entry := TrieSearch.Entry(list.groups[g].filters[p], list.groups[g]);
      assert RegisteredFrom(list.groups, store, entry);
      var e :| 0 <= e < |search| && search[e] == entry;
      assert IsEnabled(search[e].callback, store);
    }
  }
}
