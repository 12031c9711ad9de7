/** FilterGroup and its two concrete kinds: StringFilterGroup (text
    patterns) and ByteArrayFilterGroup (byte patterns searched with KMP),
    together with the FilterGroupResult they return. */
module FilterGroups {
  import opened Common
  import Occurrence
  import Kmp

  /** A SettingsEnum entry that gates a group. `rebootApp` is true when a
      change of the setting only takes effect after an app restart. */
  datatype SettingKey = SettingKey(name: string, rebootApp: bool)

  /** The current boolean value of every setting. */
  type Store = SettingKey -> bool

  /** A flag-gated bundle of patterns. A null setting means "always enabled". */
  datatype FilterGroup<T> = FilterGroup(setting: Option<SettingKey>, filters: seq<seq<T>>)

  /** The constructor: a group must have at least one pattern. */
  function NewFilterGroup<T>(setting: Option<SettingKey>, filters: seq<seq<T>>): (r: Result<FilterGroup<T>>)
    ensures r.Err? <==> |filters| == 0
    ensures r.Err? ==> r.error == IllegalArgument
    ensures r.Ok? ==> r.value.setting == setting && r.value.filters == filters
  {
    if |filters| == 0 then Err(IllegalArgument) else Ok(FilterGroup(setting, filters))
  }

  predicate IsEnabled<T>(group: FilterGroup<T>, store: Store)
  {
    group.setting.None? || store(group.setting.value)
  }

  /** Left out of a prefix-tree search: disabled, and the setting only
      changes on restart. */
  predicate ExcludeInSearch<T>(group: FilterGroup<T>, store: Store)
  {
    !IsEnabled(group, store) && group.setting.value.rebootApp
  }

  /** A group is excluded exactly when it has a restart-only setting that is off;
      a group without a setting is never excluded. */
  lemma ExcludeInSearchMeaning<T>(group: FilterGroup<T>, store: Store)
    ensures ExcludeInSearch(group, store) <==>
      group.setting.Some? && !store(group.setting.value) && group.setting.value.rebootApp
    ensures ExcludeInSearch(group, store) ==> !IsEnabled(group, store)
    ensures group.setting.None? ==> IsEnabled(group, store) && !ExcludeInSearch(group, store)
  {
  }

  /** FilterGroupResult: the matching group's setting, the 0-based start of
      the match (-1 for none) and the length of the matched pattern. */
  datatype GroupResult = GroupResult(setting: Option<SettingKey>, matchedIndex: int, matchedLength: int)

  /** The no-argument constructor. */
  function NoMatch(): (r: GroupResult)
    ensures !IsFiltered(r)
    ensures r.setting.None? && r.matchedLength == 0
  {
    GroupResult(None, -1, 0)
  }

  predicate IsFiltered(r: GroupResult)
  {
    r.matchedIndex >= 0
  }

  // ---------------------------------------------------------------- strings

  /** Pattern `i` is the first, in array order, that contains `subject`. */
  ghost predicate FirstContaining(patterns: seq<string>, subject: string, i: int)
  {
    && 0 <= i < |patterns|
    && Occurrence.Occurs(patterns[i], subject)
    && forall k :: 0 <= k < i ==> !Occurrence.Occurs(patterns[k], subject)
  }

  /** StringFilterGroup.check. Note the direction of the search: it looks
      for the SUBJECT inside each PATTERN (`pattern.indexOf(string)`), and the
      reported length is that of the pattern. */
  method StringCheck(group: FilterGroup<char>, store: Store, subject: string) returns (r: GroupResult)
    ensures r.setting == group.setting
    ensures !IsFiltered(r) ==> r.matchedIndex == -1 && r.matchedLength == 0
    ensures !IsFiltered(r) <==>
      || !IsEnabled(group, store)
      || |subject| == 0
      || forall i :: 0 <= i < |group.filters| ==> !Occurrence.Occurs(group.filters[i], subject)
    ensures IsFiltered(r) ==> exists i ::
      && FirstContaining(group.filters, subject, i)
      && r.matchedLength == |group.filters[i]|
      && Occurrence.OccursAt(group.filters[i], subject, r.matchedIndex)
      && forall s :: 0 <= s < r.matchedIndex ==> !Occurrence.OccursAt(group.filters[i], subject, s)
  {
    var matchedIndex := -1;
    var matchedLength := 0;
    if IsEnabled(group, store) {
      var i := 0;
      while i < |group.filters|
        invariant 0 <= i <= |group.filters|
        invariant |subject| > 0 ==> forall k :: 0 <= k < i ==> !Occurrence.Occurs(group.filters[k], subject)
      {
        var pattern := group.filters[i];
        if |subject| != 0 {
          var indexOf := Occurrence.IndexOf(pattern, subject);
          Occurrence.IndexOfIsFirstOccurrence(pattern, subject);
          if indexOf >= 0 {
            matchedIndex := indexOf;
            matchedLength := |pattern|;
            assert FirstContaining(group.filters, subject, i);
            break;
          }
        }
        i := i + 1;
      }
    }
    return GroupResult(group.setting, matchedIndex, matchedLength);
  }

  // ------------------------------------------------------------------ bytes

  /** A ByteArrayFilterGroup: the group plus its lazily built failure tables. */
  datatype ByteArrayFilterGroup = ByteArrayFilterGroup(group: FilterGroup<Byte>, failurePatterns: Option<seq<seq<int>>>)

  /** Once built, there is one failure table per pattern, each correct. */
  ghost predicate Valid(g: ByteArrayFilterGroup)
  {
    g.failurePatterns.Some? ==>
      && |g.failurePatterns.value| == |g.group.filters|
      && forall i :: 0 <= i < |g.group.filters| ==>
           Kmp.IsFailureTable(g.group.filters[i], g.failurePatterns.value[i])
  }

  /** The constructor: no failure tables yet. */
  function NewByteArrayFilterGroup(setting: Option<SettingKey>, filters: seq<seq<Byte>>): (r: Result<ByteArrayFilterGroup>)
    ensures r.Err? <==> |filters| == 0
    ensures r.Ok? ==> Valid(r.value) && r.value.failurePatterns.None?
    ensures r.Ok? ==> r.value.group == FilterGroup(setting, filters)
  {
    if |filters| == 0 then Err(IllegalArgument)
    else Ok(ByteArrayFilterGroup(FilterGroup(setting, filters), None))
  }

  /** buildFailurePatterns: builds the tables once; an existing set is kept. */
  method BuildFailurePatterns(g: ByteArrayFilterGroup) returns (g': ByteArrayFilterGroup)
    requires Valid(g)
    ensures Valid(g') && g'.failurePatterns.Some?
    ensures g'.group == g.group
    ensures g.failurePatterns.Some? ==> g' == g
  {
    if g.failurePatterns.Some? {
      return g;
    }
    var tables: seq<seq<int>> := [];
    var i := 0;
    while i < |g.group.filters|
      invariant 0 <= i <= |g.group.filters|
      invariant |tables| == i
      invariant forall k :: 0 <= k < i ==> Kmp.IsFailureTable(g.group.filters[k], tables[k])
    {
      var failure := Kmp.CreateFailurePattern(g.group.filters[i]);
      tables := tables + [failure];
      i := i + 1;
    }
    return ByteArrayFilterGroup(g.group, Some(tables));
  }

  /** KMP reports a match for this pattern: it is non-empty and occurs. */
  ghost predicate Found(data: seq<Byte>, pattern: seq<Byte>)
  {
    |pattern| > 0 && Occurrence.Occurs(data, pattern)
  }

  /** KMP throws for this pattern: it is empty and there is data to read. */
  predicate Throws(data: seq<Byte>, pattern: seq<Byte>)
  {
    |pattern| == 0 && |data| > 0
  }

  /** ByteArrayFilterGroup.check: the first pattern, in array order, that
      occurs in `bytes`, with its first offset and its length; failure tables
      are built on the first enabled check and never replaced. */
  method ByteCheck(g: ByteArrayFilterGroup, store: Store, bytes: seq<Byte>) returns (r: Result<GroupResult>, g': ByteArrayFilterGroup)
    requires Valid(g)
    ensures Valid(g') && g'.group == g.group
    ensures g.failurePatterns.Some? ==> g' == g
    ensures !IsEnabled(g.group, store) ==> g' == g && r == Ok(GroupResult(g.group.setting, -1, 0))
    ensures IsEnabled(g.group, store) ==> g'.failurePatterns.Some?
    ensures r.Ok? ==> r.value.setting == g.group.setting
    ensures r.Err? <==>
      && IsEnabled(g.group, store)
      && exists i :: 0 <= i < |g.group.filters| && Throws(bytes, g.group.filters[i])
           && forall k :: 0 <= k < i ==> !Found(bytes, g.group.filters[k])
    ensures r.Ok? && IsEnabled(g.group, store) ==>
      (!IsFiltered(r.value) <==> forall i :: 0 <= i < |g.group.filters| ==> !Found(bytes, g.group.filters[i]))
    ensures r.Ok? && !IsFiltered(r.value) ==> r.value == GroupResult(g.group.setting, -1, 0)
    ensures r.Ok? && IsFiltered(r.value) ==> exists i ::
      && 0 <= i < |g.group.filters|
      && Found(bytes, g.group.filters[i])
      && (forall k :: 0 <= k < i ==> !Found(bytes, g.group.filters[k]))
      && r.value.matchedIndex == Occurrence.IndexOf(bytes, g.group.filters[i])
      && r.value.matchedLength == |g.group.filters[i]|
  {
    var matchedLength := 0;
    var matchedIndex := -1;
    g' := g;
    if IsEnabled(g.group, store) {
      if g.failurePatterns.None? {
        g' := BuildFailurePatterns(g);
      }
      var filters := g.group.filters;
      var tables := g'.failurePatterns.value;
      var i := 0;
      while i < |filters|
        invariant 0 <= i <= |filters|
        invariant forall k :: 0 <= k < i ==> !Found(bytes, filters[k]) && !Throws(bytes, filters[k])
        invariant matchedIndex == -1
      {
        var filter := filters[i];
        var found := Kmp.IndexOf(bytes, filter, tables[i]);
        if found.Err? {
          assert Throws(bytes, filter);
          return Err(found.error), g';
        }
        matchedIndex := found.value;
        if |filter| > 0 {
          Occurrence.IndexOfIsFirstOccurrence(bytes, filter);
        }
        if matchedIndex >= 0 {
          matchedLength := |filter|;
          assert Found(bytes, filter);
          break;
        }
        i := i + 1;
      }
    }
    return Ok(GroupResult(g.group.setting, matchedIndex, matchedLength)), g';
  }
}
