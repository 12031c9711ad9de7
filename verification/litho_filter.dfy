/** LithoFilterPatch: the registered Filters, the three engine-level search
    trees (identifier, path, all values), the per-thread buffer slot and the
    top-level `filter` decision. */
module LithoFilter {
  import opened Common
  import Occurrence
  import opened FilterGroups
  import FilterGroupLists
  import TrieSearch

  /** Which of a Filter's three group lists, and which search tree. */
  datatype Role = IdentifierRole | PathRole | AllValueRole

  /** LithoFilterParameters: the strings of one `filter` call and the buffer. */
  datatype Parameters = Parameters(path: string, identifier: Option<string>, allValue: string, protoBuffer: seq<Byte>)

  /** A Filter's `isFiltered`: the default confirms every match; an override
      decides from the parameters, the matched list and group and the match
      start, and may throw. */
  datatype Policy =
    | AlwaysFilter
    | Override(decide: (Parameters, Role, FilterGroup<char>, nat) -> TrieSearch.Answer)

  /** A Filter: its three string group lists and its `isFiltered` policy. */
  datatype Filter = Filter(
    identifierGroups: seq<FilterGroup<char>>,
    pathGroups: seq<FilterGroup<char>>,
    allValueGroups: seq<FilterGroup<char>>,
    policy: Policy)

  function GroupsOf(filter: Filter, role: Role): seq<FilterGroup<char>>
  {
    match role
    case IdentifierRole => filter.identifierGroups
    case PathRole => filter.pathGroups
    case AllValueRole => filter.allValueGroups
  }

  /** The identity of a callback added by `filterGroupLists`: the index of
      its Filter in the registered array, the list it came from and its group. */
  datatype EngineCallback = EngineCallback(filter: nat, role: Role, group: FilterGroup<char>)

  type Tree = seq<TrieSearch.Entry<char, EngineCallback>>

  /** The registered filters and the three engine-level trees. */
  datatype Engine = Engine(filters: seq<Filter>, identifierTree: Tree, pathTree: Tree, allValueTree: Tree)

  function TreeOf(engine: Engine, role: Role): Tree
  {
    match role
    case IdentifierRole => engine.identifierTree
    case PathRole => engine.pathTree
    case AllValueRole => engine.allValueTree
  }

  // ------------------------------------------------------------ registration

  /** Tags the entries of one group list with their Filter and role. */
  function Tag(entries: FilterGroupLists.Search<char>, filter: nat, role: Role): (r: Tree)
    ensures |r| == |entries|
    ensures forall k :: 0 <= k < |r| ==>
      r[k] == TrieSearch.Entry(entries[k].pattern, EngineCallback(filter, role, entries[k].callback))
  {
    seq(|entries|, k requires 0 <= k < |entries| =>
      TrieSearch.Entry(entries[k].pattern, EngineCallback(filter, role, entries[k].callback)))
  }

  /** filterGroupLists: appends one Filter's list to a tree, skipping the
      groups excluded from search. */
  function FilterGroupListsInto(tree: Tree, filters: seq<Filter>, index: nat, role: Role, store: Store): Tree
    requires index < |filters|
  {
    tree + Tag(FilterGroupLists.RegisterGroups(GroupsOf(filters[index], role), store), index, role)
  }

  /** The static initialiser: for each Filter in order, its identifier, path
      and all-value lists, each into the tree of the same role. */
  function Register(filters: seq<Filter>, count: nat, store: Store): Engine
    requires count <= |filters|
    decreases count
  {
    if count == 0 then Engine(filters, [], [], [])
    else
      var e := Register(filters, count - 1, store);
      var i := count - 1;
      Engine(filters,
        FilterGroupListsInto(e.identifierTree, filters, i, IdentifierRole, store),
        FilterGroupListsInto(e.pathTree, filters, i, PathRole, store),
        FilterGroupListsInto(e.allValueTree, filters, i, AllValueRole, store))
  }

  function StaticInit(filters: seq<Filter>, store: Store): Engine
  {
    Register(filters, |filters|, store)
  }

  /** Entry `entry` of the `role` tree comes from a pattern of a group, not
      excluded at registration, of the `role` list of a filter below `count`. */
  ghost predicate RegisteredIn(filters: seq<Filter>, count: nat, role: Role, store: Store, entry: TrieSearch.Entry<char, EngineCallback>)
  {
    exists f, g, p :: 0 <= f < count && f < |filters|
      && 0 <= g < |GroupsOf(filters[f], role)| && 0 <= p < |GroupsOf(filters[f], role)[g].filters|
      && !ExcludeInSearch(GroupsOf(filters[f], role)[g], store)
      && entry == TrieSearch.Entry(GroupsOf(filters[f], role)[g].filters[p],
                                   EngineCallback(f, role, GroupsOf(filters[f], role)[g]))
  }

  /** Registering one more filter appends its tagged entries to each tree. */
  lemma RegisterStep(filters: seq<Filter>, count: nat, role: Role, store: Store)
    requires 0 < count <= |filters|
    ensures Register(filters, count, store).filters == filters
    ensures TreeOf(Register(filters, count, store), role) ==
      TreeOf(Register(filters, count - 1, store), role)
      + Tag(FilterGroupLists.RegisterGroups(GroupsOf(filters[count - 1], role), store), count - 1, role)
  {
  }

  /** Every entry of a tree is a pattern of a non-excluded group of that role. */
  lemma RegisterSound(filters: seq<Filter>, count: nat, role: Role, store: Store)
    requires count <= |filters|
    ensures forall k :: 0 <= k < |TreeOf(Register(filters, count, store), role)| ==>
      RegisteredIn(filters, count, role, store, TreeOf(Register(filters, count, store), role)[k])
  {
    forall k | 0 <= k < |TreeOf(Register(filters, count, store), role)|
      ensures RegisteredIn(filters, count, role, store, TreeOf(Register(filters, count, store), role)[k])
    {
      RegisterSoundAt(filters, count, role, store, k);
    }
  }

  /** Entry `k` of a tree is a pattern of a non-excluded group of that role. */
  lemma {:induction false} RegisterSoundAt(filters: seq<Filter>, count: nat, role: Role, store: Store, k: nat)
    requires count <= |filters|
    requires k < |TreeOf(Register(filters, count, store), role)|
    ensures RegisteredIn(filters, count, role, store, TreeOf(Register(filters, count, store), role)[k])
    decreases count
  {
    var entry := TreeOf(Register(filters, count, store), role)[k];
    var i, earlier := RegisterEntryOrigin(filters, count, role, store, k);
    if earlier {
      RegisterSoundAt(filters, i, role, store, k);
      RegisteredInGrows(filters, i, count, role, store, entry);
    } else {
      TaggedIsRegistered(filters, i, count, role, store, k - |TreeOf(Register(filters, i, store), role)|, entry);
    }
  }

  /** Entry `k` of a tree either was already there before the last filter
      was registered, or is one of the entries that filter added. */
  lemma RegisterEntryOrigin(filters: seq<Filter>, count: nat, role: Role, store: Store, k: nat)
    returns (i: nat, earlier: bool)
    requires count <= |filters|
    requires k < |TreeOf(Register(filters, count, store), role)|
    ensures i + 1 == count
    ensures earlier ==> (k < |TreeOf(Register(filters, i, store), role)| &&
      TreeOf(Register(filters, count, store), role)[k] == TreeOf(Register(filters, i, store), role)[k])
    ensures !earlier ==>
      var q := k - |TreeOf(Register(filters, i, store), role)|;
      0 <= q < |FilterGroupLists.RegisterGroups(GroupsOf(filters[i], role), store)| &&
      TreeOf(Register(filters, count, store), role)[k] ==
        Tag(FilterGroupLists.RegisterGroups(GroupsOf(filters[i], role), store), i, role)[q]
  {
    i := count - 1;
    RegisterStep(filters, count, role, store);
    earlier := k < |TreeOf(Register(filters, i, store), role)|;
  }

  /** A tree entry registered among fewer filters is registered among more. */
  lemma RegisteredInGrows(filters: seq<Filter>, i: nat, count: nat, role: Role, store: Store, entry: TrieSearch.Entry<char, EngineCallback>)
    requires i <= count
    requires RegisteredIn(filters, i, role, store, entry)
    ensures RegisteredIn(filters, count, role, store, entry)
  {
    var f, g, p :| 0 <= f < i && f < |filters|
      && 0 <= g < |GroupsOf(filters[f], role)| && 0 <= p < |GroupsOf(filters[f], role)[g].filters|
      && !ExcludeInSearch(GroupsOf(filters[f], role)[g], store)
      && entry == TrieSearch.Entry(GroupsOf(filters[f], role)[g].filters[p],
                                   EngineCallback(f, role, GroupsOf(filters[f], role)[g]));
  }

  /** The entries filter `i` adds are registered once it is counted. */
  lemma TaggedIsRegistered(filters: seq<Filter>, i: nat, count: nat, role: Role, store: Store, q: nat,
                           entry: TrieSearch.Entry<char, EngineCallback>)
    requires i < count <= |filters|
    requires q < |FilterGroupLists.RegisterGroups(GroupsOf(filters[i], role), store)|
    requires entry == Tag(FilterGroupLists.RegisterGroups(GroupsOf(filters[i], role), store), i, role)[q]
    ensures RegisteredIn(filters, count, role, store, entry)
  {
    var groups := GroupsOf(filters[i], role);
    var own := FilterGroupLists.RegisterGroups(groups, store);
    FilterGroupLists.RegisterGroupsSound(groups, store);
    assert FilterGroupLists.RegisteredFrom(groups, store, own[q]);
    var g, p :| 0 <= g < |groups| && 0 <= p < |groups[g].filters|
      && !ExcludeInSearch(groups[g], store)
      && own[q] == TrieSearch.Entry(groups[g].filters[p], groups[g]);
    assert Tag(own, i, role)[q] == TrieSearch.Entry(groups[g].filters[p], EngineCallback(i, role, groups[g]));
  }

  /** The tagged entry for pattern `p` of group `g` of filter `f`'s `role` list. */
  function EntryFor(filters: seq<Filter>, f: nat, role: Role, g: nat, p: nat): TrieSearch.Entry<char, EngineCallback>
    requires f < |filters| && g < |GroupsOf(filters[f], role)| && p < |GroupsOf(filters[f], role)[g].filters|
  {
    var group := GroupsOf(filters[f], role)[g];
    TrieSearch.Entry(group.filters[p], EngineCallback(f, role, group))
  }

  /** One pattern of a non-excluded group stays in the tree as more filters register. */
  lemma {:induction false} RegisterCompleteOne(filters: seq<Filter>, count: nat, role: Role, store: Store, f: nat, g: nat, p: nat)
    requires f < count <= |filters|
    requires g < |GroupsOf(filters[f], role)| && p < |GroupsOf(filters[f], role)[g].filters|
    requires !ExcludeInSearch(GroupsOf(filters[f], role)[g], store)
    ensures EntryFor(filters, f, role, g, p) in TreeOf(Register(filters, count, store), role)
    decreases count
  {
    var i := count - 1;
    var target := EntryFor(filters, f, role, g, p);
    var before := TreeOf(Register(filters, i, store), role);
    var tagged := Tag(FilterGroupLists.RegisterGroups(GroupsOf(filters[i], role), store), i, role);
    assert target in before + tagged by {
      if f < i {
        RegisterCompleteOne(filters, i, role, store, f, g, p);
      } else {
        TaggedContains(GroupsOf(filters[i], role), store, i, role, g, p);
      }
    }
    RegisterStep(filters, count, role, store);
  }

  /** A registered group pattern appears, tagged, in its filter's contribution. */
  lemma TaggedContains(groups: seq<FilterGroup<char>>, store: Store, index: nat, role: Role, g: nat, p: nat)
    requires g < |groups| && p < |groups[g].filters|
    requires !ExcludeInSearch(groups[g], store)
    ensures TrieSearch.Entry(groups[g].filters[p], EngineCallback(index, role, groups[g]))
            in Tag(FilterGroupLists.RegisterGroups(groups, store), index, role)
  {
    var own := FilterGroupLists.RegisterGroups(groups, store);
    FilterGroupLists.RegisterGroupsComplete(groups, store);
    var entry := TrieSearch.Entry(groups[g].filters[p], groups[g]);
    assert entry in own;
    var q :| 0 <= q < |own| && own[q] == entry;
    assert Tag(own, index, role)[q] == TrieSearch.Entry(groups[g].filters[p], EngineCallback(index, role, groups[g]));
  }

  /** Every pattern of every non-excluded group of that role is in the tree. */
  lemma RegisterComplete(filters: seq<Filter>, count: nat, role: Role, store: Store)
    requires count <= |filters|
    ensures forall f, g, p ::
      0 <= f < count && 0 <= g < |GroupsOf(filters[f], role)| && 0 <= p < |GroupsOf(filters[f], role)[g].filters|
      && !ExcludeInSearch(GroupsOf(filters[f], role)[g], store)
      ==> EntryFor(filters, f, role, g, p) in TreeOf(Register(filters, count, store), role)
  {
    forall f, g, p |
      0 <= f < count && 0 <= g < |GroupsOf(filters[f], role)| && 0 <= p < |GroupsOf(filters[f], role)[g].filters|
      && !ExcludeInSearch(GroupsOf(filters[f], role)[g], store)
      ensures EntryFor(filters, f, role, g, p) in TreeOf(Register(filters, count, store), role)
    {
      RegisterCompleteOne(filters, count, role, store, f, g, p);
    }
  }

  // ---------------------------------------------------------------- buffers

  /** The ByteBuffer handed to `setProtoBuffer`; `hasArray` is false for a
      buffer without an accessible backing array. */
  datatype ByteBuffer = ByteBuffer(hasArray: bool, content: seq<Byte>)

  /** One thread's ThreadLocal slot: the last buffer it set, if any. */
  type BufferSlot = Option<ByteBuffer>

  /** setProtoBuffer: a null buffer is ignored and the previous one kept. */
  function SetProtoBuffer(slot: BufferSlot, buffer: Option<ByteBuffer>): (r: BufferSlot)
    ensures buffer.None? ==> r == slot
    ensures buffer.Some? ==> r == buffer
  {
    if buffer.None? then slot else buffer
  }

  /** The buffers of all threads; setting one thread's slot leaves the others alone. */
  function SetProtoBufferOn(slots: map<nat, ByteBuffer>, thread: nat, buffer: Option<ByteBuffer>): (r: map<nat, ByteBuffer>)
    ensures forall t :: t != thread ==> (t in r <==> t in slots)
    ensures forall t :: t != thread && t in slots ==> r[t] == slots[t]
    ensures buffer.Some? ==> thread in r && r[thread] == buffer.value
    ensures buffer.None? ==> r == slots
  {
    if buffer.None? then slots else slots[thread := buffer.value]
  }

  /** Folds `setProtoBuffer` over a sequence of calls on one thread. */
  function SetAll(slot: BufferSlot, calls: seq<Option<ByteBuffer>>): BufferSlot
    decreases |calls|
  {
    if |calls| == 0 then slot
    else SetAll(SetProtoBuffer(slot, calls[0]), calls[1..])
  }

  /** The last non-null buffer of a call sequence, or `fallback` if none. */
  function LastNonNull(calls: seq<Option<ByteBuffer>>, fallback: BufferSlot): BufferSlot
    decreases |calls|
  {
    if |calls| == 0 then fallback
    else if calls[|calls| - 1].Some? then calls[|calls| - 1]
    else LastNonNull(calls[..|calls| - 1], fallback)
  }

  /** After any sequence of `setProtoBuffer` calls, the slot holds the last
      non-null buffer passed (or what it held before, if all were null). */
  lemma {:induction false} SlotKeepsLastNonNull(slot: BufferSlot, calls: seq<Option<ByteBuffer>>)
    ensures SetAll(slot, calls) == LastNonNull(calls, slot)
    decreases |calls|
  {
    if |calls| > 0 {
      var rest := calls[1..];
      SlotKeepsLastNonNull(SetProtoBuffer(slot, calls[0]), rest);
      LastNonNullOfCons(calls[0], rest, slot);
      assert calls == [calls[0]] + rest;
    }
  }

  lemma {:induction false} LastNonNullOfCons(first: Option<ByteBuffer>, rest: seq<Option<ByteBuffer>>, fallback: BufferSlot)
    ensures LastNonNull([first] + rest, fallback) == LastNonNull(rest, SetProtoBuffer(fallback, first))
    decreases |rest|
  {
    if |rest| == 0 {
    } else {
      var all := [first] + rest;
      assert all[..|all| - 1] == [first] + rest[..|rest| - 1];
      LastNonNullOfCons(first, rest[..|rest| - 1], fallback);
    }
  }

  /** The array `filter` searches with: the buffer's array, or an empty
      array when no buffer was set or it has no accessible array. */
  function BufferArray(slot: BufferSlot): (r: seq<Byte>)
    ensures slot.Some? && slot.value.hasArray ==> r == slot.value.content
    ensures slot.None? || !slot.value.hasArray ==> r == []
  {
    if slot.None? || !slot.value.hasArray then [] else slot.value.content
  }

  // ---------------------------------------------------------------- filter

  /** `isFiltered` of a Filter with the given policy. */
  function PolicyAnswer(policy: Policy, params: Parameters, role: Role, group: FilterGroup<char>, start: nat): TrieSearch.Answer
  {
    match policy
    case AlwaysFilter => TrieSearch.Claim
    case Override(decide) => decide(params, role, group, start)
  }

  /** The callback added by `filterGroupLists`: it declines when its group
      is now disabled, and otherwise answers what the Filter's `isFiltered` does. */
  function EngineAnswer(filters: seq<Filter>, store: Store, params: Parameters): (EngineCallback, nat) -> TrieSearch.Answer
  {
    (c: EngineCallback, start: nat) =>
      if !IsEnabled(c.group, store) then TrieSearch.Decline
      else if c.filter < |filters| then PolicyAnswer(filters[c.filter].policy, params, c.role, c.group, start)
      else TrieSearch.Decline
  }

  /** The string a tree searches. */
  function SubjectOf(params: Parameters, role: Role): string
  {
    match role
    case IdentifierRole => if params.identifier.Some? then params.identifier.value else ""
    case PathRole => params.path
    case AllValueRole => params.allValue
  }

  /** The trees consulted, in order: the identifier tree only for a non-null identifier. */
  function Consulted(params: Parameters): (roles: seq<Role>)
    ensures roles == if params.identifier.Some? then [IdentifierRole, PathRole, AllValueRole] else [PathRole, AllValueRole]
  {
    (if params.identifier.Some? then [IdentifierRole] else []) + [PathRole, AllValueRole]
  }

  /** `filtered` is a result the consulted trees may produce: a tree whose
      search claims decides true, one whose search throws decides false (the
      exception is caught), and an exhausted search passes on to the next tree. */
  ghost predicate ConsultResult(engine: Engine, store: Store, params: Parameters, roles: seq<Role>, filtered: bool)
    decreases |roles|
  {
    if |roles| == 0 then !filtered
    else
      exists o ::
        && TrieSearch.Allowed(TreeOf(engine, roles[0]), SubjectOf(params, roles[0]), EngineAnswer(engine.filters, store, params), o)
        && match o
         case Matched(_, _) => filtered
         case Threw(_, _) => !filtered
         case Exhausted => ConsultResult(engine, store, params, roles[1..], filtered)
  }

  /** A decision `filter` may return for these parameters. */
  ghost predicate Decision(engine: Engine, store: Store, params: Parameters, filtered: bool)
  {
    if |params.path| == 0 then !filtered
    else ConsultResult(engine, store, params, Consulted(params), filtered)
  }

  /** LithoFilterPatch.filter. `slot` is the calling thread's buffer slot. */
  method FilterDecision(engine: Engine, store: Store, slot: BufferSlot, path: string, identifier: Option<string>, allValue: string)
    returns (filtered: bool)
    ensures |path| == 0 ==> !filtered
    ensures Decision(engine, store, Parameters(path, identifier, allValue, BufferArray(slot)), filtered)
  {
    if |path| == 0 {
      return false;
    }
    var params := Parameters(path, identifier, allValue, BufferArray(slot));
    var answer := EngineAnswer(engine.filters, store, params);
    var roles := Consulted(params);
    var k := 0;
    while k < |roles|
      invariant 0 <= k <= |roles|
      invariant forall b :: ConsultResult(engine, store, params, roles[k..], b) ==> ConsultResult(engine, store, params, roles, b)
    {
      var role := roles[k];
      var o := TrieSearch.Matches(TreeOf(engine, role), SubjectOf(params, role), answer);
      if o.Matched? {
        assert ConsultResult(engine, store, params, roles[k..], true);
        return true;
      }
      if o.Threw? {
        assert ConsultResult(engine, store, params, roles[k..], false);
        return false;
      }
      assert roles[k..][1..] == roles[k + 1..];
      forall b | ConsultResult(engine, store, params, roles[k + 1..], b)
        ensures ConsultResult(engine, store, params, roles[k..], b)
      {
      }
      k := k + 1;
    }
    assert ConsultResult(engine, store, params, roles[k..], false);
    return false;
  }

  // ------------------------------------------------------------ properties

  /** Every callback of every tree names a registered filter. */
  ghost predicate WellTagged(engine: Engine)
  {
    forall role: Role, k :: 0 <= k < |TreeOf(engine, role)| ==> TreeOf(engine, role)[k].callback.filter < |engine.filters|
  }

  /** The static initialiser only registers callbacks of existing filters. */
  lemma StaticInitWellTagged(filters: seq<Filter>, store: Store)
    ensures StaticInit(filters, store).filters == filters
    ensures WellTagged(StaticInit(filters, store))
  {
    var engine := StaticInit(filters, store);
    if |filters| > 0 {
      RegisterStep(filters, |filters|, IdentifierRole, store);
    }
    forall role: Role, k | 0 <= k < |TreeOf(engine, role)|
      ensures TreeOf(engine, role)[k].callback.filter < |engine.filters|
    {
      RegisterSound(filters, |filters|, role, store);
      assert RegisteredIn(filters, |filters|, role, store, TreeOf(engine, role)[k]);
    }
  }

  /** No registered filter overrides `isFiltered`. */
  predicate AllDefaultPolicies(engine: Engine)
  {
    forall f :: 0 <= f < |engine.filters| ==> engine.filters[f].policy.AlwaysFilter?
  }

  /** A pattern of a currently enabled group occurs in the string `role`'s tree searches. */
  ghost predicate EnabledHit(engine: Engine, store: Store, params: Parameters, role: Role)
  {
    exists e: nat, start: nat :: TrieSearch.Hit(TreeOf(engine, role), SubjectOf(params, role), e, start)
      && IsEnabled(TreeOf(engine, role)[e].callback.group, store)
  }

  /** With default policies the callbacks never throw and claim exactly the
      matches of enabled groups, so each consulted tree is deterministic. */
  lemma {:induction false} ConsultDefault(engine: Engine, store: Store, params: Parameters, roles: seq<Role>, filtered: bool)
    requires WellTagged(engine) && AllDefaultPolicies(engine)
    requires ConsultResult(engine, store, params, roles, filtered)
    ensures filtered <==> exists k :: 0 <= k < |roles| && EnabledHit(engine, store, params, roles[k])
    decreases |roles|
  {
    if |roles| > 0 {
      var role := roles[0];
      var tree := TreeOf(engine, role);
      var subject := SubjectOf(params, role);
      var answer := EngineAnswer(engine.filters, store, params);
      var o :| TrieSearch.Allowed(tree, subject, answer, o)
        && match o
           case Matched(_, _) => filtered
           case Threw(_, _) => !filtered
           case Exhausted => ConsultResult(engine, store, params, roles[1..], filtered);
      forall e: nat, start: nat | TrieSearch.Hit(tree, subject, e, start)
        ensures answer(tree[e].callback, start) == (if IsEnabled(tree[e].callback.group, store) then TrieSearch.Claim else TrieSearch.Decline)
      {
        assert tree[e].callback.filter < |engine.filters|;
      }
      TrieSearch.NoThrowMeansClaimIffSomeClaims(tree, subject, answer, o);
      if o.Matched? {
        assert TrieSearch.Hit(tree, subject, o.entry, o.start);
        assert EnabledHit(engine, store, params, roles[0]);
      } else {
        ConsultDefault(engine, store, params, roles[1..], filtered);
        assert !EnabledHit(engine, store, params, roles[0]);
        if filtered {
          var k :| 0 <= k < |roles[1..]| && EnabledHit(engine, store, params, roles[1..][k]);
          assert roles[k + 1] == roles[1..][k];
        } else {
          forall k | 0 <= k < |roles|
            ensures !EnabledHit(engine, store, params, roles[k])
          {
            if k > 0 {
              assert roles[k] == roles[1..][k - 1];
            }
          }
        }
      }
    }
  }

  /** With default policies, `filter` hides a component exactly when its
      path is non-empty and a pattern of a currently enabled group occurs in
      the identifier (when present), the path or the all-value text. */
  lemma DefaultFilterDecision(engine: Engine, store: Store, params: Parameters, filtered: bool)
    requires WellTagged(engine) && AllDefaultPolicies(engine)
    requires Decision(engine, store, params, filtered)
    ensures filtered <==>
      && |params.path| > 0
      && ((params.identifier.Some? && EnabledHit(engine, store, params, IdentifierRole))
          || EnabledHit(engine, store, params, PathRole)
          || EnabledHit(engine, store, params, AllValueRole))
  {
    if |params.path| > 0 {
      var roles := Consulted(params);
      ConsultDefault(engine, store, params, roles, filtered);
      if params.identifier.Some? {
        assert roles[0] == IdentifierRole && roles[1] == PathRole && roles[2] == AllValueRole;
      } else {
        assert roles[0] == PathRole && roles[1] == AllValueRole;
      }
    }
  }

  /** Fail open: when a callback of the first consulted tree throws and none
      there claims, `filter` returns false whatever the later trees hold. */
  lemma FirstTreeThrowFailsOpen(engine: Engine, store: Store, params: Parameters, filtered: bool)
    requires |params.path| > 0
    requires Decision(engine, store, params, filtered)
    requires TrieSearch.SomeHitAnswers(TreeOf(engine, Consulted(params)[0]), SubjectOf(params, Consulted(params)[0]),
               EngineAnswer(engine.filters, store, params), TrieSearch.Throw)
    requires !TrieSearch.SomeHitAnswers(TreeOf(engine, Consulted(params)[0]), SubjectOf(params, Consulted(params)[0]),
               EngineAnswer(engine.filters, store, params), TrieSearch.Claim)
    ensures !filtered
  {
    var role := Consulted(params)[0];
    var tree := TreeOf(engine, role);
    var subject := SubjectOf(params, role);
    var answer := EngineAnswer(engine.filters, store, params);
    var o :| TrieSearch.Allowed(tree, subject, answer, o)
      && match o
         case Matched(_, _) => filtered
         case Threw(_, _) => !filtered
         case Exhausted => ConsultResult(engine, store, params, Consulted(params)[1..], filtered);
    var e: nat, start: nat :| TrieSearch.Hit(tree, subject, e, start) && answer(tree[e].callback, start) == TrieSearch.Throw;
    if o.Exhausted? {
      assert false;
    }
  }
}
