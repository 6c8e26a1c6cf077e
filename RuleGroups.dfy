/** The rule-group operations of the options page
    (src/options/hooks/useRuleGroups.ts). Each handler builds the new list
    of groups it passes to `onUpdateRuleGroups`; here that list is the
    result. `uuidv4()` is a stream `uuid` of fresh ids, numbered in the order
    the handler calls it, `confirm()` is the user's answer `confirmed`, and
    the clock `createReverseRule` reads is the ISO string `iso`. */
module RuleGroups {
  import opened Types
  import RuleUtils

  /** `Pick<RuleGroup, 'id' | 'name'>` */
  datatype GroupRef = GroupRef(id: string, name: string)

  /** `Omit<RuleGroup, 'id' | 'rules'>` */
  datatype GroupData = GroupData(name: string, enabled: bool)

  // ---------------------------------------------------------------------
  // The three list shapes the handlers use
  // ---------------------------------------------------------------------

  /** `xs.map(x => sel(x) ? f(x) : x)` */
  function MapWhere<T>(xs: seq<T>, sel: T -> bool, f: T -> T): (r: seq<T>)
    ensures |r| == |xs|
    ensures forall i :: 0 <= i < |xs| ==> r[i] == if sel(xs[i]) then f(xs[i]) else xs[i]
    decreases |xs|
  {
    if xs == [] then []
    else [if sel(xs[0]) then f(xs[0]) else xs[0]] + MapWhere(xs[1..], sel, f)
  }

  /** `xs.filter(x => !drop(x))` */
  function Without<T>(xs: seq<T>, drop: T -> bool): (r: seq<T>)
    ensures |r| <= |xs|
    decreases |xs|
  {
    if xs == [] then []
    else (if drop(xs[0]) then [] else [xs[0]]) + Without(xs[1..], drop)
  }

  /** The filter keeps exactly the entries not dropped. */
  lemma {:induction false} WithoutMembers<T(!new)>(xs: seq<T>, drop: T -> bool)
    ensures forall x :: x in Without(xs, drop) <==> x in xs && !drop(x)
    decreases |xs|
  {
    if xs != [] {
      WithoutMembers(xs[1..], drop);
      assert forall x :: x in xs <==> x == xs[0] || x in xs[1..];
    }
  }

  /** Filtering distributes over concatenation, so the kept entries stay in
      their order. */
  lemma {:induction false} WithoutAppend<T>(a: seq<T>, b: seq<T>, drop: T -> bool)
    ensures Without(a + b, drop) == Without(a, drop) + Without(b, drop)
    decreases |a|
  {
    if a == [] {
      assert a + b == b;
    } else {
      var head := if drop(a[0]) then [] else [a[0]];
      assert (a + b)[0] == a[0] && (a + b)[1..] == a[1..] + b;
      assert Without(a + b, drop) == head + Without(a[1..] + b, drop);
      WithoutAppend(a[1..], b, drop);
      assert Without(a, drop) == head + Without(a[1..], drop);
    }
  }

  /** Filtering out nothing changes nothing. */
  lemma {:induction false} WithoutNothing<T>(xs: seq<T>, drop: T -> bool)
    requires forall i :: 0 <= i < |xs| ==> !drop(xs[i])
    ensures Without(xs, drop) == xs
    decreases |xs|
  {
    if xs != [] {
      WithoutNothing(xs[1..], drop);
      assert xs == [xs[0]] + xs[1..];
    }
  }

  /** How many of `groups` carry the id `id`. */
  function CountId(groups: seq<RuleGroup>, id: string): nat
    decreases |groups|
  {
    if groups == [] then 0
    else (if groups[0].id == id then 1 else 0) + CountId(groups[1..], id)
  }

  /** The map of lines 104-115 and 122-144: each group with the id gets the
      rules `extra(c)` appended, where `c` counts the groups with the id
      before it (so `extra` can tell which fresh ids are still unused). */
  function AppendWhere(groups: seq<RuleGroup>, groupId: string, extra: nat -> seq<Rule>, c: nat)
    : (r: seq<RuleGroup>)
    ensures |r| == |groups|
    decreases |groups|
  {
    if groups == [] then []
    else if groups[0].id == groupId then
      [groups[0].(rules := groups[0].rules + extra(c))] + AppendWhere(groups[1..], groupId, extra, c + 1)
    else [groups[0]] + AppendWhere(groups[1..], groupId, extra, c)
  }

  /** Group `i` receives `extra` of the number of earlier groups with the id. */
  lemma {:induction false} AppendWhereAt(groups: seq<RuleGroup>, groupId: string, extra: nat -> seq<Rule>,
                                         c: nat, i: nat)
    requires i < |groups|
    ensures AppendWhere(groups, groupId, extra, c)[i]
         == if groups[i].id == groupId
            then groups[i].(rules := groups[i].rules + extra(c + CountId(groups[..i], groupId)))
            else groups[i]
    decreases i
  {
    if i == 0 {
      assert groups[..0] == [];
    } else {
      var m := if groups[0].id == groupId then 1 else 0;
      AppendWhereAt(groups[1..], groupId, extra, c + m, i - 1);
      assert groups[..i][1..] == groups[1..][..i - 1];
      assert CountId(groups[..i], groupId) == m + CountId(groups[1..][..i - 1], groupId);
    }
  }

  // ---------------------------------------------------------------------
  // Toggling (lines 80-100)
  // ---------------------------------------------------------------------

  /** `handleToggleGroup` */
  function ToggleGroup(groups: seq<RuleGroup>, groupId: string): (r: seq<RuleGroup>)
    ensures |r| == |groups|
    ensures forall i :: 0 <= i < |groups| ==>
      && r[i].id == groups[i].id && r[i].name == groups[i].name && r[i].rules == groups[i].rules
      && (r[i].enabled <==> if groups[i].id == groupId then !groups[i].enabled else groups[i].enabled)
  {
    MapWhere(groups, (g: RuleGroup) => g.id == groupId, (g: RuleGroup) => g.(enabled := !g.enabled))
  }

  /** Toggling a group twice restores the list. */
  lemma ToggleGroupTwice(groups: seq<RuleGroup>, groupId: string)
    ensures ToggleGroup(ToggleGroup(groups, groupId), groupId) == groups
  {
    var twice := ToggleGroup(ToggleGroup(groups, groupId), groupId);
    assert forall i :: 0 <= i < |groups| ==> twice[i] == groups[i];
  }

  /** `group.rules.map(rule => rule.id === ruleId ? { ...rule, enabled: !rule.enabled } : rule)` */
  function ToggleRuleIn(rules: seq<Rule>, ruleId: string): seq<Rule> {
    MapWhere(rules, (x: Rule) => x.id == ruleId, (x: Rule) => x.(enabled := !x.enabled))
  }

  /** `handleToggleRule` */
  function ToggleRule(groups: seq<RuleGroup>, groupId: string, ruleId: string): (r: seq<RuleGroup>)
    ensures |r| == |groups|
    ensures forall i :: 0 <= i < |groups| ==>
      && r[i].id == groups[i].id && r[i].name == groups[i].name && r[i].enabled == groups[i].enabled
      && |r[i].rules| == |groups[i].rules|
    ensures forall i, j :: 0 <= i < |groups| && 0 <= j < |groups[i].rules| ==>
      var x := groups[i].rules[j];
      r[i].rules[j] == if groups[i].id == groupId && x.id == ruleId then x.(enabled := !x.enabled) else x
  {
    MapWhere(groups, (g: RuleGroup) => g.id == groupId, (g: RuleGroup) => g.(rules := ToggleRuleIn(g.rules, ruleId)))
  }

  /** Toggling a rule twice restores the list. */
  lemma ToggleRuleTwice(groups: seq<RuleGroup>, groupId: string, ruleId: string)
    ensures ToggleRule(ToggleRule(groups, groupId, ruleId), groupId, ruleId) == groups
  {
    var twice := ToggleRule(ToggleRule(groups, groupId, ruleId), groupId, ruleId);
    forall i | 0 <= i < |groups| ensures twice[i] == groups[i] {
      assert twice[i].rules == groups[i].rules;
    }
  }

  // ---------------------------------------------------------------------
  // Adding rules (lines 103-147)
  // ---------------------------------------------------------------------

  /** `handleCreateReverseRule`: every group with the id gets
      `createReverseRule(rule)` appended under a fresh id. */
  function AddReverseRule(groups: seq<RuleGroup>, groupId: string, rule: Rule, iso: string,
                          uuid: nat -> string): (r: seq<RuleGroup>)
    ensures |r| == |groups|
  {
    AppendWhere(groups, groupId, (c: nat) => [RuleUtils.CreateReverseRule(rule, iso).WithId(uuid(c))], 0)
  }

  /** How many fresh ids `handleSaveRule` uses per target group. */
  function IdsPerGroup(createReverse: bool): nat {
    if createReverse then 2 else 1
  }

  /** The rules `handleSaveRule` appends to the target group that comes
      after `c` others: the new rule, then its reverse if asked for, with
      the next unused fresh ids. */
  function NewRules(data: RuleData, createReverse: bool, iso: string, uuid: nat -> string, c: nat): seq<Rule> {
    var k := IdsPerGroup(createReverse) * c;
    var newRule := data.WithId(uuid(k));
    [newRule] + if createReverse then [RuleUtils.CreateReverseRule(newRule, iso).WithId(uuid(k + 1))] else []
  }

  /** `handleSaveRule` */
  function SaveRule(groups: seq<RuleGroup>, groupId: string, data: RuleData, createReverse: bool,
                    iso: string, uuid: nat -> string): (r: seq<RuleGroup>)
    ensures |r| == |groups|
  {
    AppendWhere(groups, groupId, (c: nat) => NewRules(data, createReverse, iso, uuid, c), 0)
  }

  /** The reverse rule lands at the end of each target group, with a fresh
      id; every other group, and the rules already there, are untouched. */
  lemma AddReverseRuleAt(groups: seq<RuleGroup>, groupId: string, rule: Rule, iso: string,
                         uuid: nat -> string, i: nat)
    requires i < |groups|
    ensures var r := AddReverseRule(groups, groupId, rule, iso, uuid);
            && r[i].id == groups[i].id && r[i].name == groups[i].name && r[i].enabled == groups[i].enabled
            && (groups[i].id != groupId ==> r[i] == groups[i])
            && (groups[i].id == groupId ==>
                  r[i].rules == groups[i].rules
                                + [RuleUtils.CreateReverseRule(rule, iso).WithId(uuid(CountId(groups[..i], groupId)))])
  {
    AppendWhereAt(groups, groupId, (c: nat) => [RuleUtils.CreateReverseRule(rule, iso).WithId(uuid(c))], 0, i);
  }

  /** In each target group the earlier rules keep their places, the new rule
      follows them with a fresh id, and, when asked for, its reverse follows
      with the next fresh id: the group grows by one or two rules. */
  lemma SaveRuleAt(groups: seq<RuleGroup>, groupId: string, data: RuleData, createReverse: bool,
                   iso: string, uuid: nat -> string, i: nat)
    requires i < |groups|
    ensures var r := SaveRule(groups, groupId, data, createReverse, iso, uuid);
            var n := |groups[i].rules|;
            && r[i].id == groups[i].id && r[i].name == groups[i].name && r[i].enabled == groups[i].enabled
            && (groups[i].id != groupId ==> r[i] == groups[i])
            && (groups[i].id == groupId ==>
                  var k := IdsPerGroup(createReverse) * CountId(groups[..i], groupId);
                  && |r[i].rules| == n + IdsPerGroup(createReverse)
                  && r[i].rules[..n] == groups[i].rules
                  && r[i].rules[n] == data.WithId(uuid(k))
                  && (createReverse ==>
                        r[i].rules[n + 1] == RuleUtils.CreateReverseRule(data.WithId(uuid(k)), iso).WithId(uuid(k + 1))))
  {
    AppendWhereAt(groups, groupId, (c: nat) => NewRules(data, createReverse, iso, uuid, c), 0, i);
    if groups[i].id == groupId {
      var r := SaveRule(groups, groupId, data, createReverse, iso, uuid);
      var added := NewRules(data, createReverse, iso, uuid, CountId(groups[..i], groupId));
      assert r[i].rules == groups[i].rules + added;
      assert r[i].rules[..|groups[i].rules|] == groups[i].rules;
      assert r[i].rules[|groups[i].rules|] == added[0];
    }
  }

  /** A saved rule and its reverse point in opposite directions: saving a
      simple rule `d → t` with a reverse adds the simple rule `t → d`. */
  lemma SavedReverseIsSimple(data: RuleData, iso: string, id: string, d: string, t: string)
    requires RuleUtils.IsDomainText(d) && RuleUtils.IsDomainText(t)
    requires data.fromPattern == RuleUtils.FromPrefix + RuleUtils.Escape(d) + RuleUtils.FromSuffix
    requires data.toPattern == RuleUtils.ToPrefix + t + RuleUtils.ToSuffix
    ensures var rev := RuleUtils.CreateReverseRule(data.WithId(id), iso);
            RuleUtils.IsSimpleDomainPattern(rev.fromPattern, rev.toPattern) == RuleUtils.Simple(t, d)
  {
    var rule := data.WithId(id);
    RuleUtils.EscapingKeepsDomainText(d);
    RuleUtils.SimpleShapesRecognised(RuleUtils.Escape(d), t);
    RuleUtils.UnescapeEscape(d);
    RuleUtils.ReverseOfSimpleIsSimple(rule, iso);
  }

  // ---------------------------------------------------------------------
  // Updating and deleting (lines 72-77, 150-176)
  // ---------------------------------------------------------------------

  /** `handleUpdateRule` */
  function UpdateRule(groups: seq<RuleGroup>, groupId: string, updated: Rule): (r: seq<RuleGroup>)
    ensures |r| == |groups|
    ensures forall i :: 0 <= i < |groups| ==>
      && r[i].id == groups[i].id && r[i].name == groups[i].name && r[i].enabled == groups[i].enabled
      && |r[i].rules| == |groups[i].rules|
    ensures forall i, j :: 0 <= i < |groups| && 0 <= j < |groups[i].rules| ==>
      r[i].rules[j] == if groups[i].id == groupId && groups[i].rules[j].id == updated.id
                       then updated else groups[i].rules[j]
  {
    MapWhere(groups, (g: RuleGroup) => g.id == groupId,
             (g: RuleGroup) => g.(rules := MapWhere(g.rules, (x: Rule) => x.id == updated.id, (x: Rule) => updated)))
  }

  /** Updating keeps every rule's id in place, and a second identical update
      changes nothing more. */
  lemma UpdateRuleKeepsIds(groups: seq<RuleGroup>, groupId: string, updated: Rule)
    ensures var r := UpdateRule(groups, groupId, updated);
            forall i, j :: 0 <= i < |groups| && 0 <= j < |groups[i].rules| ==> r[i].rules[j].id == groups[i].rules[j].id
    ensures UpdateRule(UpdateRule(groups, groupId, updated), groupId, updated) == UpdateRule(groups, groupId, updated)
  {
    var once := UpdateRule(groups, groupId, updated);
    var twice := UpdateRule(once, groupId, updated);
    forall i | 0 <= i < |groups| ensures twice[i] == once[i] {
      assert twice[i].rules == once[i].rules;
    }
  }

  /** `group.rules.filter(rule => rule.id !== ruleId)` */
  function RemoveRule(rules: seq<Rule>, ruleId: string): (r: seq<Rule>)
    ensures forall x :: x in r <==> x in rules && x.id != ruleId
  {
    WithoutMembers(rules, (x: Rule) => x.id == ruleId);
    Without(rules, (x: Rule) => x.id == ruleId)
  }

  /** `handleDeleteRule`: `None` when the user cancels (nothing is saved). */
  function DeleteRule(groups: seq<RuleGroup>, groupId: string, ruleId: string, confirmed: bool)
    : (r: Option<seq<RuleGroup>>)
    ensures r.Some? <==> confirmed
    ensures r.Some? ==> |r.value| == |groups|
    ensures r.Some? ==> forall i :: 0 <= i < |groups| ==>
      && r.value[i].id == groups[i].id && r.value[i].name == groups[i].name
      && r.value[i].enabled == groups[i].enabled
      && (groups[i].id != groupId ==> r.value[i] == groups[i])
      && (groups[i].id == groupId ==>
            forall x :: x in r.value[i].rules <==> x in groups[i].rules && x.id != ruleId)
  {
    if confirmed then
      Some(MapWhere(groups, (g: RuleGroup) => g.id == groupId, (g: RuleGroup) => g.(rules := RemoveRule(g.rules, ruleId))))
    else None
  }

  /** `handleDeleteGroup`: `None` when the user cancels. */
  function DeleteGroup(groups: seq<RuleGroup>, groupId: string, confirmed: bool): (r: Option<seq<RuleGroup>>)
    ensures r.Some? <==> confirmed
    ensures r.Some? ==> forall g :: g in r.value <==> g in groups && g.id != groupId
  {
    WithoutMembers(groups, (g: RuleGroup) => g.id == groupId);
    if confirmed then Some(Without(groups, (g: RuleGroup) => g.id == groupId)) else None
  }

  /** Deleting keeps the remaining entries in their order: the result for a
      list cut in two is the results for the halves, joined. */
  lemma DeletionKeepsOrder(a: seq<RuleGroup>, b: seq<RuleGroup>, groupId: string, rules1: seq<Rule>,
                           rules2: seq<Rule>, ruleId: string)
    ensures DeleteGroup(a + b, groupId, true).value
         == DeleteGroup(a, groupId, true).value + DeleteGroup(b, groupId, true).value
    ensures RemoveRule(rules1 + rules2, ruleId) == RemoveRule(rules1, ruleId) + RemoveRule(rules2, ruleId)
  {
    WithoutAppend(a, b, (g: RuleGroup) => g.id == groupId);
    WithoutAppend(rules1, rules2, (x: Rule) => x.id == ruleId);
  }

  /** A `groupId` no group has leaves every map-based handler's list as it
      was, and so does deleting an absent group. */
  lemma UnknownGroupChangesNothing(groups: seq<RuleGroup>, groupId: string, ruleId: string, updated: Rule,
                                   rule: Rule, data: RuleData, createReverse: bool, iso: string,
                                   uuid: nat -> string)
    requires forall i :: 0 <= i < |groups| ==> groups[i].id != groupId
    ensures ToggleGroup(groups, groupId) == groups
    ensures ToggleRule(groups, groupId, ruleId) == groups
    ensures UpdateRule(groups, groupId, updated) == groups
    ensures DeleteRule(groups, groupId, ruleId, true) == Some(groups)
    ensures AddReverseRule(groups, groupId, rule, iso, uuid) == groups
    ensures SaveRule(groups, groupId, data, createReverse, iso, uuid) == groups
    ensures DeleteGroup(groups, groupId, true) == Some(groups)
  {
    assert ToggleGroup(groups, groupId) == groups;
    assert UpdateRule(groups, groupId, updated) == groups;
    assert DeleteRule(groups, groupId, ruleId, true).value == groups;
    forall i | 0 <= i < |groups| ensures AddReverseRule(groups, groupId, rule, iso, uuid)[i] == groups[i] {
      AddReverseRuleAt(groups, groupId, rule, iso, uuid, i);
    }
    forall i | 0 <= i < |groups| ensures SaveRule(groups, groupId, data, createReverse, iso, uuid)[i] == groups[i] {
      SaveRuleAt(groups, groupId, data, createReverse, iso, uuid, i);
    }
    WithoutNothing(groups, (g: RuleGroup) => g.id == groupId);
  }

  // ---------------------------------------------------------------------
  // Saving a group (lines 50-69)
  // ---------------------------------------------------------------------

  /** The list `handleSaveGroup` saves: an edit overwrites the name and flag
      of the groups with the edited id; otherwise a new empty group is
      appended under a fresh id. */
  function SaveGroup(editing: Option<GroupRef>, groups: seq<RuleGroup>, data: GroupData, freshId: string)
    : (r: seq<RuleGroup>)
    ensures editing.None? ==> r == groups + [RuleGroup(freshId, data.name, data.enabled, [])]
    ensures editing.Some? ==> |r| == |groups| && forall i :: 0 <= i < |groups| ==>
      && r[i].id == groups[i].id && r[i].rules == groups[i].rules
      && (groups[i].id == editing.value.id ==> r[i].name == data.name && r[i].enabled == data.enabled)
      && (groups[i].id != editing.value.id ==> r[i] == groups[i])
  {
    match editing
    case Some(e) =>
      MapWhere(groups, (g: RuleGroup) => g.id == e.id, (g: RuleGroup) => g.(name := data.name, enabled := data.enabled))
    case None => groups + [RuleGroup(freshId, data.name, data.enabled, [])]
  }

  /** `isAddingGroup` and `editingGroup`, the hook's own state. */
  class GroupEditor {
    var isAddingGroup: bool
    var editingGroup: Option<GroupRef>

    /** A group is only ever being edited while the group form is open. */
    predicate Valid()
      reads this
    {
      editingGroup.Some? ==> isAddingGroup
    }

    constructor()
      ensures Valid() && !isAddingGroup && editingGroup == None
    {
      isAddingGroup, editingGroup := false, None;
    }

    method HandleAddGroup()
      modifies this
      ensures Valid() && isAddingGroup && editingGroup == None
    {
      isAddingGroup := true;
      editingGroup := None;
    }

    method HandleEditGroup(group: GroupRef)
      modifies this
      ensures Valid() && isAddingGroup && editingGroup == Some(group)
    {
      editingGroup := Some(group);
      isAddingGroup := true;
    }

    method HandleCancelGroupEdit()
      modifies this
      ensures Valid() && !isAddingGroup && editingGroup == None
    {
      isAddingGroup := false;
      editingGroup := None;
    }

    /** Saves the group being edited, or a new one, and closes the form. */
    method HandleSaveGroup(groups: seq<RuleGroup>, data: GroupData, freshId: string)
      returns (updated: seq<RuleGroup>)
      modifies this
      ensures updated == SaveGroup(old(editingGroup), groups, data, freshId)
      ensures Valid() && !isAddingGroup && editingGroup == None
    {
      updated := SaveGroup(editingGroup, groups, data, freshId);
      isAddingGroup := false;
      editingGroup := None;
    }
  }
}
