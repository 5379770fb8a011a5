/**
 * The rule editor of the popup: the rule and group lists, the selected group and the
 * view of the rules in that group. Every edit addresses a rule by its index in the
 * current view, computes the new list and commits it to the page state and the store.
 */
module Popup {
  import opened Wrappers
  import opened Text
  import opened Engines
  import opened Types
  import opened Storage
  import opened Sequences

  /** The rule is shown under the selected group: every rule under 'all', else the group's members. */
  predicate InView(rule: Rule, selectedGroup: string) {
    selectedGroup == "all" || rule.group == Some(selectedGroup)
  }

  /** `rules.filter(rule => selectedGroup === 'all' || rule.group === selectedGroup)` */
  function Visible(rules: seq<Rule>, selectedGroup: string): seq<Rule> {
    Filter(rules, rule => InView(rule, selectedGroup))
  }

  /**
   * The view holds the rules of the selected group and only those, in list order and each
   * as many times as the list holds it; under 'all' it is the whole list.
   */
  lemma VisibleSpec(rules: seq<Rule>, selectedGroup: string)
    ensures var v := Visible(rules, selectedGroup);
            && SubsequenceOf(v, rules)
            && (forall i :: 0 <= i < |v| ==> InView(v[i], selectedGroup))
            && (forall i :: 0 <= i < |rules| && InView(rules[i], selectedGroup) ==> rules[i] in v)
            && (forall x :: multiset(v)[x] == if InView(x, selectedGroup) then multiset(rules)[x] else 0)
            && (selectedGroup == "all" ==> v == rules)
  {
    var keep := (rule: Rule) => InView(rule, selectedGroup);
    var v := Visible(rules, selectedGroup);
    FilterIsSubsequence(rules, keep);
    FilterMultiset(rules, keep);
    forall i | 0 <= i < |v|
      ensures InView(v[i], selectedGroup)
    {
      FilterAccepts(rules, keep, i);
    }
    forall i | 0 <= i < |rules| && InView(rules[i], selectedGroup)
      ensures rules[i] in v
    {
      FilterKeeps(rules, keep, i);
    }
    if selectedGroup == "all" {
      FilterKeepsAll(rules, keep);
    }
  }

  /** The view of a non-empty list: its head when in view, then the view of its tail. */
  lemma VisibleCons(rules: seq<Rule>, selectedGroup: string)
    requires rules != []
    ensures Visible(rules, selectedGroup) ==
              (if InView(rules[0], selectedGroup) then [rules[0]] else []) + Visible(rules[1..], selectedGroup)
  {
  }

  /**
   * `rules.findIndex(r => r === filteredRules[index])`: the list position of the rule at
   * view index `index`, or -1 when the index is outside the view. The comparison is by
   * object identity, and every element of the list is a distinct object, so the position
   * found is that of the index-th rule in view.
   */
  function ViewPosition(rules: seq<Rule>, selectedGroup: string, index: int): (p: int)
    ensures -1 <= p < |rules|
    decreases |rules|
  {
    if rules == [] || index < 0 then -1
    else if InView(rules[0], selectedGroup) && index == 0 then 0
    else
      var q := ViewPosition(rules[1..], selectedGroup, if InView(rules[0], selectedGroup) then index - 1 else index);
      if q < 0 then -1 else q + 1
  }

  /**
   * The position is found exactly when the index is in the view; then the rule there is
   * the index-th rule in view, and exactly `index` rules in view come before it.
   */
  lemma {:induction false} ViewPositionSpec(rules: seq<Rule>, selectedGroup: string, index: int)
    ensures var p := ViewPosition(rules, selectedGroup, index);
            var v := Visible(rules, selectedGroup);
            && (p == -1 <==> !(0 <= index < |v|))
            && (p >= 0 ==> InView(rules[p], selectedGroup) && rules[p] == v[index] && |Visible(rules[..p], selectedGroup)| == index)
    decreases |rules|
  {
    if rules != [] && index >= 0 {
      VisibleCons(rules, selectedGroup);
      var p := ViewPosition(rules, selectedGroup, index);
      var head := InView(rules[0], selectedGroup);
      if head && index == 0 {
        assert Visible(rules[..0], selectedGroup) == [];
      } else {
        var index' := if head then index - 1 else index;
        ViewPositionSpec(rules[1..], selectedGroup, index');
        if p >= 0 {
          var prefix := rules[..p];
          VisibleCons(prefix, selectedGroup);
          assert prefix[0] == rules[0];
          assert prefix[1..] == rules[1..][..p - 1];
        }
      }
    }
  }

  /** One rule property as the editor sets it (`{ ...rule, [field]: value }`). */
  datatype RuleField =
    | SetEnabled(enabled: bool)
    | SetType(ruleType: RuleType)
    | SetGroup(group: Option<string>)
    | SetUrlPattern(urlPattern: string)
    | SetHeaderName(headerName: string)
    | SetMatchValue(matchValue: string)
    | SetParamName(paramName: string)

  /** The rule with one property replaced; the captured `lastValue` is never touched. */
  function WithField(rule: Rule, f: RuleField): (r: Rule)
    ensures r.lastValue == rule.lastValue
    ensures !f.SetEnabled? ==> r.enabled == rule.enabled
    ensures !f.SetType? ==> r.ruleType == rule.ruleType
    ensures !f.SetGroup? ==> r.group == rule.group
    ensures !f.SetUrlPattern? ==> r.urlPattern == rule.urlPattern
    ensures !f.SetHeaderName? ==> r.headerName == rule.headerName
    ensures !f.SetMatchValue? ==> r.matchValue == rule.matchValue
    ensures !f.SetParamName? ==> r.paramName == rule.paramName
  {
    match f
    case SetEnabled(v) => rule.(enabled := v)
    case SetType(v) => rule.(ruleType := v)
    case SetGroup(v) => rule.(group := v)
    case SetUrlPattern(v) => rule.(urlPattern := v)
    case SetHeaderName(v) => rule.(headerName := v)
    case SetMatchValue(v) => rule.(matchValue := Some(v))
    case SetParamName(v) => rule.(paramName := Some(v))
  }

  /** The list after `updateRule(index, field, value)`. */
  function UpdatedRules(rules: seq<Rule>, selectedGroup: string, index: int, f: RuleField): seq<Rule> {
    var p := ViewPosition(rules, selectedGroup, index);
    if p < 0 then rules else rules[p := WithField(rules[p], f)]
  }

  /**
   * An update changes one property of the index-th rule in view and nothing else; an
   * index outside the view leaves the list as it is.
   */
  lemma UpdateRuleSpec(rules: seq<Rule>, selectedGroup: string, index: int, f: RuleField)
    ensures var r := UpdatedRules(rules, selectedGroup, index, f);
            var v := Visible(rules, selectedGroup);
            var p := ViewPosition(rules, selectedGroup, index);
            && |r| == |rules|
            && (!(0 <= index < |v|) ==> r == rules)
            && (0 <= index < |v| ==>
                  && 0 <= p < |rules| && rules[p] == v[index]
                  && r[p] == WithField(v[index], f)
                  && forall i :: 0 <= i < |rules| && i != p ==> r[i] == rules[i])
  {
    ViewPositionSpec(rules, selectedGroup, index);
  }

  /** The list after `deleteRule(index)`. */
  function DeletedRules(rules: seq<Rule>, selectedGroup: string, index: int): seq<Rule> {
    var p := ViewPosition(rules, selectedGroup, index);
    if p < 0 then rules else rules[..p] + rules[p + 1..]
  }

  /**
   * A delete removes exactly the index-th rule in view: the list loses that one rule and
   * keeps the others in order, and the view loses exactly its index-th entry. An index
   * outside the view leaves the list as it is.
   */
  lemma DeleteRuleSpec(rules: seq<Rule>, selectedGroup: string, index: int)
    ensures var r := DeletedRules(rules, selectedGroup, index);
            var v := Visible(rules, selectedGroup);
            var p := ViewPosition(rules, selectedGroup, index);
            && (!(0 <= index < |v|) ==> r == rules)
            && (0 <= index < |v| ==>
                  && 0 <= p < |rules| && rules[p] == v[index]
                  && r == rules[..p] + rules[p + 1..]
                  && Visible(r, selectedGroup) == v[..index] + v[index + 1..])
  {
    var r := DeletedRules(rules, selectedGroup, index);
    var v := Visible(rules, selectedGroup);
    var p := ViewPosition(rules, selectedGroup, index);
    ViewPositionSpec(rules, selectedGroup, index);
    if p >= 0 {
      assert r == rules[..p] + rules[p + 1..];
      assert Visible(r, selectedGroup) == v[..index] + v[index + 1..] by {
        assert |Visible(rules[..p], selectedGroup)| == index;
        ViewSplit(rules, p, selectedGroup);
      }
    } else {
      assert r == rules;
    }
  }

  /** Removing a rule in view at list position `p` removes the view's entry for it. */
  lemma ViewSplit(rules: seq<Rule>, p: nat, selectedGroup: string)
    requires p < |rules| && InView(rules[p], selectedGroup)
    ensures var v := Visible(rules, selectedGroup);
            var k := |Visible(rules[..p], selectedGroup)|;
            && k < |v|
            && v[..k] + v[k + 1..] == Visible(rules[..p] + rules[p + 1..], selectedGroup)
  {
    var keep := (r: Rule) => InView(r, selectedGroup);
    var before := rules[..p];
    var after := rules[p + 1..];
    assert rules == (before + [rules[p]]) + after;
    FilterAppend(before + [rules[p]], after, keep);
    FilterAppend(before, [rules[p]], keep);
    FilterAppend(before, after, keep);
    assert Filter([rules[p]], keep) == [rules[p]];
    var fb := Filter(before, keep);
    var fa := Filter(after, keep);
    var v := fb + [rules[p]] + fa;
    assert v[..|fb|] == fb;
    assert v[|fb| + 1..] == fa;
  }

  /** The rule `addRule` creates: an enabled, empty `header` rule in the selected group (none under 'all'). */
  function NewRule(selectedGroup: string): Rule {
    Rule(Header, "", "", None, None, true, if selectedGroup == "all" then None else Some(selectedGroup), None)
  }

  /** The added rule appears at the end of the current view. */
  lemma AddedRuleInView(rules: seq<Rule>, selectedGroup: string)
    ensures Visible(rules + [NewRule(selectedGroup)], selectedGroup) == Visible(rules, selectedGroup) + [NewRule(selectedGroup)]
  {
    FilterAppend(rules, [NewRule(selectedGroup)], rule => InView(rule, selectedGroup));
  }

  /** The group list after `addGroup` with the typed name and the id `Date.now().toString()`. */
  function GroupsAdded(groups: seq<RuleGroup>, name: string, id: string): seq<RuleGroup> {
    if IsBlank(name) then groups else groups + [RuleGroup(id, Trim(name), None)]
  }

  /**
   * A blank name (empty or only white space) adds nothing; otherwise exactly one group is
   * appended, whose name is non-empty, is the typed name without its surrounding white
   * space, and neither starts nor ends with white space.
   */
  lemma AddGroupSpec(groups: seq<RuleGroup>, name: string, id: string)
    ensures (forall i :: 0 <= i < |name| ==> IsJsSpace(name[i])) ==> GroupsAdded(groups, name, id) == groups
    ensures !IsBlank(name) ==>
              var r := GroupsAdded(groups, name, id);
              && |r| == |groups| + 1 && r[..|groups|] == groups
              && r[|groups|] == RuleGroup(id, Trim(name), None)
              && Trim(name) != ""
              && !IsJsSpace(Trim(name)[0]) && !IsJsSpace(Trim(name)[|Trim(name)| - 1])
  {
    BlankIffAllSpace(name);
    if !IsBlank(name) {
      TrimmedEnds(name);
      var r := GroupsAdded(groups, name, id);
      assert r == groups + [RuleGroup(id, Trim(name), None)];
      assert r[..|groups|] == groups;
    }
  }

  /** The option chosen in the group-delete dialog. */
  datatype DeleteOption = Ungroup | DeleteRules

  /** The group named in the pending delete dialog. */
  datatype GroupRef = GroupRef(id: string, name: string)

  /** `groups.filter(g => g.id !== groupId)` */
  function GroupsWithout(groups: seq<RuleGroup>, groupId: string): seq<RuleGroup> {
    Filter(groups, (g: RuleGroup) => g.id != groupId)
  }

  /** The rule list after deleting group `groupId`: the members are kept or dropped per the option, then ungrouped members lose their group. */
  function RulesAfterGroupDelete(rules: seq<Rule>, groupId: string, option: DeleteOption): seq<Rule> {
    var kept := Filter(rules, (rule: Rule) => rule.group != Some(groupId) || option == Ungroup);
    seq(|kept|, i requires 0 <= i < |kept| =>
      if kept[i].group == Some(groupId) && option == Ungroup then kept[i].(group := None) else kept[i])
  }

  /** 'ungroup' keeps every rule in place and only clears the group of the members. */
  lemma UngroupSpec(rules: seq<Rule>, groupId: string)
    ensures var r := RulesAfterGroupDelete(rules, groupId, Ungroup);
            && |r| == |rules|
            && forall i :: 0 <= i < |rules| ==>
                 r[i] == (if rules[i].group == Some(groupId) then rules[i].(group := None) else rules[i])
  {
    FilterKeepsAll(rules, (rule: Rule) => rule.group != Some(groupId) || Ungroup == Ungroup);
  }

  /** 'delete' drops the members and keeps every other rule, unchanged, in order and as often as it occurs. */
  lemma DeleteMembersSpec(rules: seq<Rule>, groupId: string)
    ensures var r := RulesAfterGroupDelete(rules, groupId, DeleteRules);
            && SubsequenceOf(r, rules)
            && (forall i :: 0 <= i < |r| ==> r[i].group != Some(groupId))
            && (forall i :: 0 <= i < |rules| && rules[i].group != Some(groupId) ==> rules[i] in r)
            && (forall x :: multiset(r)[x] == if x.group != Some(groupId) then multiset(rules)[x] else 0)
  {
    var keep := (rule: Rule) => rule.group != Some(groupId) || DeleteRules == Ungroup;
    var kept := Filter(rules, keep);
    var r := RulesAfterGroupDelete(rules, groupId, DeleteRules);
    assert r == kept;
    FilterIsSubsequence(rules, keep);
    FilterMultiset(rules, keep);
    forall i | 0 <= i < |r|
      ensures r[i].group != Some(groupId)
    {
      FilterAccepts(rules, keep, i);
    }
    forall i | 0 <= i < |rules| && rules[i].group != Some(groupId)
      ensures rules[i] in r
    {
      FilterKeeps(rules, keep, i);
    }
  }

  /** Whichever option is chosen, no rule is left in the deleted group. */
  lemma NoRuleLeftInGroup(rules: seq<Rule>, groupId: string, option: DeleteOption)
    ensures forall i :: 0 <= i < |RulesAfterGroupDelete(rules, groupId, option)| ==>
              RulesAfterGroupDelete(rules, groupId, option)[i].group != Some(groupId)
  {
    if option == DeleteRules {
      DeleteMembersSpec(rules, groupId);
    }
  }

  /** `a > b` for two `getTime()` results; every comparison with NaN is false. */
  predicate Later(a: Option<int>, b: Option<int>) {
    a.Some? && b.Some? && a.value > b.value
  }

  /** `rules.some(rule => rule.lastValue && time(rule.lastValue.timestamp) > current)` */
  function AnyLater(e: Engines, rules: seq<Rule>, current: Option<int>): bool {
    if rules == [] then false
    else (rules[0].lastValue.Some? && Later(e.dateTime(rules[0].lastValue.value.timestamp), current))
         || AnyLater(e, rules[1..], current)
  }

  /** `isLatestMatch(currentRule)` against the current list and selected group. */
  function IsLatestMatch(e: Engines, rules: seq<Rule>, selectedGroup: string, current: Rule): bool {
    if current.lastValue.None? then false
    else !AnyLater(e, Visible(rules, selectedGroup), e.dateTime(current.lastValue.value.timestamp))
  }

  /** `AnyLater` holds exactly when some rule has a captured value with a strictly later time. */
  lemma {:induction false} AnyLaterSpec(e: Engines, rules: seq<Rule>, current: Option<int>)
    ensures AnyLater(e, rules, current) <==>
              exists i :: 0 <= i < |rules| && rules[i].lastValue.Some? && Later(e.dateTime(rules[i].lastValue.value.timestamp), current)
  {
    if rules != [] {
      AnyLaterSpec(e, rules[1..], current);
      if AnyLater(e, rules[1..], current) {
        var i :| 0 <= i < |rules[1..]| && rules[1..][i].lastValue.Some? && Later(e.dateTime(rules[1..][i].lastValue.value.timestamp), current);
        assert rules[i + 1] == rules[1..][i];
      }
      if exists i :: 0 <= i < |rules| && rules[i].lastValue.Some? && Later(e.dateTime(rules[i].lastValue.value.timestamp), current) {
        var i :| 0 <= i < |rules| && rules[i].lastValue.Some? && Later(e.dateTime(rules[i].lastValue.value.timestamp), current);
        if i > 0 {
          assert rules[1..][i - 1] == rules[i];
        }
      }
    }
  }

  /**
   * A rule is the latest match exactly when it has a captured value and no rule in view
   * has one with a strictly later time. A rule whose own time does not parse is therefore
   * always highlighted, since nothing compares later than NaN.
   */
  lemma IsLatestMatchSpec(e: Engines, rules: seq<Rule>, selectedGroup: string, current: Rule)
    ensures var v := Visible(rules, selectedGroup);
            IsLatestMatch(e, rules, selectedGroup, current) <==>
              && current.lastValue.Some?
              && forall i :: 0 <= i < |v| && v[i].lastValue.Some? ==>
                   !Later(e.dateTime(v[i].lastValue.value.timestamp), e.dateTime(current.lastValue.value.timestamp))
    ensures current.lastValue.Some? && e.dateTime(current.lastValue.value.timestamp).None? ==>
              IsLatestMatch(e, rules, selectedGroup, current)
  {
    if current.lastValue.Some? {
      AnyLaterSpec(e, Visible(rules, selectedGroup), e.dateTime(current.lastValue.value.timestamp));
    }
  }

  /** The popup page's state: what it shows and what it last wrote to the store. */
  class PopupPage {
    const store: LocalStore
    var rules: seq<Rule>
    var groups: seq<RuleGroup>
    var selectedGroup: string
    var newGroupName: string
    var deleteGroupInfo: Option<GroupRef>

    /** What the page shows is what a reload would show (an empty selection reloads as 'all'). */
    predicate Synced()
      reads this, store
    {
      && RulesIn(store.data) == rules
      && GroupsIn(store.data) == groups
      && SelectedGroupIn(store.data) == (if selectedGroup == "" then "all" else selectedGroup)
    }

    /** The page as it opens and loads the rules, the groups and the selected group. */
    constructor (store: LocalStore)
      ensures this.store == store
      ensures rules == RulesIn(store.data) && groups == GroupsIn(store.data) && selectedGroup == SelectedGroupIn(store.data)
      ensures newGroupName == "" && deleteGroupInfo.None?
      ensures Synced()
    {
      this.store := store;
      rules := RulesIn(store.data);
      groups := GroupsIn(store.data);
      selectedGroup := SelectedGroupIn(store.data);
      newGroupName := "";
      deleteGroupInfo := None;
    }

    /** `saveRules(newRules)` */
    method SaveRules(newRules: seq<Rule>)
      modifies this, store
      ensures rules == newRules
      ensures store.data == old(store.data)[RulesKey := StoredRules(newRules)]
      ensures groups == old(groups) && selectedGroup == old(selectedGroup)
      ensures newGroupName == old(newGroupName) && deleteGroupInfo == old(deleteGroupInfo)
      ensures old(Synced()) ==> Synced()
    {
      rules := newRules;
      store.Set(RulesKey, StoredRules(newRules));
    }

    /** `saveGroups(newGroups)` */
    method SaveGroups(newGroups: seq<RuleGroup>)
      modifies this, store
      ensures groups == newGroups
      ensures store.data == old(store.data)[GroupsKey := StoredGroups(newGroups)]
      ensures rules == old(rules) && selectedGroup == old(selectedGroup)
      ensures newGroupName == old(newGroupName) && deleteGroupInfo == old(deleteGroupInfo)
      ensures old(Synced()) ==> Synced()
    {
      groups := newGroups;
      store.Set(GroupsKey, StoredGroups(newGroups));
    }

    /** `handleGroupChange(value)` */
    method HandleGroupChange(value: string)
      modifies this, store
      ensures selectedGroup == value
      ensures store.data == old(store.data)[SelectedGroupKey := StoredString(value)]
      ensures rules == old(rules) && groups == old(groups)
      ensures newGroupName == old(newGroupName) && deleteGroupInfo == old(deleteGroupInfo)
      ensures old(Synced()) ==> Synced()
    {
      selectedGroup := value;
      store.Set(SelectedGroupKey, StoredString(value));
      SelectedGroupRoundTrip(old(store.data), value);
    }

    /** `addRule()` */
    method AddRule()
      modifies this, store
      ensures rules == old(rules) + [NewRule(old(selectedGroup))]
      ensures store.data == old(store.data)[RulesKey := StoredRules(rules)]
      ensures groups == old(groups) && selectedGroup == old(selectedGroup)
      ensures newGroupName == old(newGroupName) && deleteGroupInfo == old(deleteGroupInfo)
      ensures old(Synced()) ==> Synced()
    {
      var newRule := Rule(Header, "", "", None, None, true, if selectedGroup == "all" then None else Some(selectedGroup), None);
      SaveRules(rules + [newRule]);
    }

    /** `addGroup()`; `now` is `Date.now()`. */
    method AddGroup(now: nat)
      modifies this, store
      ensures groups == GroupsAdded(old(groups), old(newGroupName), NatToDecimal(now))
      ensures IsBlank(old(newGroupName)) ==> store.data == old(store.data) && newGroupName == old(newGroupName)
      ensures !IsBlank(old(newGroupName)) ==> store.data == old(store.data)[GroupsKey := StoredGroups(groups)] && newGroupName == ""
      ensures rules == old(rules) && selectedGroup == old(selectedGroup) && deleteGroupInfo == old(deleteGroupInfo)
      ensures old(Synced()) ==> Synced()
    {
      if IsBlank(newGroupName) {
        // the page shows "group name required"
        return;
      }
      var newGroup := RuleGroup(NatToDecimal(now), Trim(newGroupName), None);
      SaveGroups(groups + [newGroup]);
      newGroupName := "";
    }

    /** `updateRule(index, field, value)` */
    method UpdateRule(index: int, f: RuleField)
      modifies this, store
      ensures rules == UpdatedRules(old(rules), old(selectedGroup), index, f)
      ensures !(0 <= index < |Visible(old(rules), old(selectedGroup))|) ==> store.data == old(store.data)
      ensures 0 <= index < |Visible(old(rules), old(selectedGroup))| ==> store.data == old(store.data)[RulesKey := StoredRules(rules)]
      ensures groups == old(groups) && selectedGroup == old(selectedGroup)
      ensures newGroupName == old(newGroupName) && deleteGroupInfo == old(deleteGroupInfo)
      ensures old(Synced()) ==> Synced()
    {
      ViewPositionSpec(rules, selectedGroup, index);
      var actualIndex := ViewPosition(rules, selectedGroup, index);
      if actualIndex != -1 {
        SaveRules(rules[actualIndex := WithField(rules[actualIndex], f)]);
      }
    }

    /** `deleteRule(index)` */
    method DeleteRule(index: int)
      modifies this, store
      ensures rules == DeletedRules(old(rules), old(selectedGroup), index)
      ensures !(0 <= index < |Visible(old(rules), old(selectedGroup))|) ==> store.data == old(store.data)
      ensures 0 <= index < |Visible(old(rules), old(selectedGroup))| ==> store.data == old(store.data)[RulesKey := StoredRules(rules)]
      ensures groups == old(groups) && selectedGroup == old(selectedGroup)
      ensures newGroupName == old(newGroupName) && deleteGroupInfo == old(deleteGroupInfo)
      ensures old(Synced()) ==> Synced()
    {
      ViewPositionSpec(rules, selectedGroup, index);
      var actualIndex := ViewPosition(rules, selectedGroup, index);
      if actualIndex != -1 {
        SaveRules(rules[..actualIndex] + rules[actualIndex + 1..]);
      }
    }

    /** `handleDeleteGroup(groupId, groupName)`: opens the dialog for that group. */
    method HandleDeleteGroup(groupId: string, groupName: string)
      modifies this
      ensures deleteGroupInfo == Some(GroupRef(groupId, groupName))
      ensures rules == old(rules) && groups == old(groups) && selectedGroup == old(selectedGroup) && newGroupName == old(newGroupName)
    {
      deleteGroupInfo := Some(GroupRef(groupId, groupName));
    }

    /**
     * `handleDeleteGroupConfirm(option)`: without an open dialog nothing happens;
     * otherwise the group is removed, its rules are ungrouped or deleted, the selection
     * falls back to 'all' exactly when the deleted group was selected, and the dialog closes.
     */
    method HandleDeleteGroupConfirm(option: DeleteOption)
      modifies this, store
      ensures old(deleteGroupInfo).None? ==>
                && store.data == old(store.data) && rules == old(rules) && groups == old(groups)
                && selectedGroup == old(selectedGroup) && deleteGroupInfo == old(deleteGroupInfo)
      ensures old(deleteGroupInfo).Some? ==>
                var groupId := old(deleteGroupInfo).value.id;
                && groups == GroupsWithout(old(groups), groupId)
                && rules == RulesAfterGroupDelete(old(rules), groupId, option)
                && selectedGroup == (if old(selectedGroup) == groupId then "all" else old(selectedGroup))
                && deleteGroupInfo.None?
                && store.data == (var d := old(store.data)[GroupsKey := StoredGroups(groups)][RulesKey := StoredRules(rules)];
                                  if old(selectedGroup) == groupId then d[SelectedGroupKey := StoredString("all")] else d)
      ensures newGroupName == old(newGroupName)
      ensures old(Synced()) ==> Synced()
    {
      if deleteGroupInfo.None? {
        return;
      }
      var groupId := deleteGroupInfo.value.id;
      SaveGroups(GroupsWithout(groups, groupId));
      SaveRules(RulesAfterGroupDelete(rules, groupId, option));
      if selectedGroup == groupId {
        HandleGroupChange("all");
      }
      deleteGroupInfo := None;
    }
  }
}
