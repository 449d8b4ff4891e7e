/** The administrator's form for a place's weekly opening hours: a place
    id and a list of weekday rules, each a day name and two "HH:mm" times.
    Validation reports one error triple per rule plus a place error; the
    form is submitted to the store only when validation passes. */
module AvailabilityRuleForm {
  import opened Common
  import opened Text
  import opened Clock
  import opened Entities
  import opened AppContext

  const PlaceRequired := "Place is required"
  const DayRequired := "Day is required"
  const StartTimeRequired := "Start time is required"
  const EndTimeRequired := "End time is required"
  const EndNotAfterStart := "End time must be after start time"
  const DuplicateDay := "Duplicate day"

  /** The rule a new form starts with and the "add rule" button appends. */
  const DefaultRule := WeeklyRule("monday", "10:00", "18:00")

  /** One message per field of a rule; "" means no error. */
  datatype RuleErrors = RuleErrors(day: string, startTime: string, endTime: string)

  const NoRuleErrors := RuleErrors("", "", "")

  datatype FormErrors = FormErrors(placeId: string, rules: seq<RuleErrors>)

  function Blanks(n: nat): (r: seq<RuleErrors>)
    ensures |r| == n && forall k :: 0 <= k < n ==> r[k] == NoRuleErrors
  {
    seq(n, _ => NoRuleErrors)
  }

  // ---------------------------------------------------------------------
  // One rule

  /** A rule passes when its three fields are non-empty and the start time
      sorts strictly before the end time as a string. */
  predicate RuleIsValid(rule: WeeklyRule) {
    rule.day != "" && rule.startTime != "" && rule.endTime != "" && StrLess(rule.startTime, rule.endTime)
  }

  /** The messages a rule receives. A missing end time is reported as
      missing, never as out of order. */
  function RuleErrorsOf(rule: WeeklyRule): RuleErrors {
    RuleErrors(
      if rule.day == "" then DayRequired else "",
      if rule.startTime == "" then StartTimeRequired else "",
      if rule.endTime == "" then EndTimeRequired
      else if rule.startTime != "" && !StrLess(rule.startTime, rule.endTime) then EndNotAfterStart
      else "")
  }

  /** `validateRule`: each check clears the flag and writes its field's
      message; the order check overwrites the end-time message. */
  method ValidateRule(rule: WeeklyRule) returns (isValid: bool, ruleErrors: RuleErrors)
    ensures isValid == RuleIsValid(rule)
    ensures ruleErrors == RuleErrorsOf(rule)
  {
    ruleErrors := NoRuleErrors;
    isValid := true;
    if rule.day == "" {
      ruleErrors := ruleErrors.(day := DayRequired);
      isValid := false;
    }
    if rule.startTime == "" {
      ruleErrors := ruleErrors.(startTime := StartTimeRequired);
      isValid := false;
    }
    if rule.endTime == "" {
      ruleErrors := ruleErrors.(endTime := EndTimeRequired);
      isValid := false;
    }
    if rule.startTime != "" && rule.endTime != "" && !StrLess(rule.startTime, rule.endTime) {
      ruleErrors := ruleErrors.(endTime := EndNotAfterStart);
      isValid := false;
    }
  }

  /** A rule is valid exactly when it receives no message. */
  lemma RuleValidIffNoErrors(rule: WeeklyRule)
    ensures RuleIsValid(rule) <==> RuleErrorsOf(rule) == NoRuleErrors
  {
  }

  /** Equal times are rejected; for well-formed times the string test is
      the chronological one, so a valid rule opens a non-empty window. */
  lemma ValidRuleOpensWindow(rule: WeeklyRule)
    requires ParseTime(rule.startTime).Some? && ParseTime(rule.endTime).Some?
    ensures RuleIsValid(rule) <==> rule.day != "" && ParseTime(rule.startTime).value < ParseTime(rule.endTime).value
  {
    TimeStringOrder(rule.startTime, rule.endTime);
  }

  // ---------------------------------------------------------------------
  // Duplicate days

  function Days(rules: seq<WeeklyRule>): (days: seq<string>)
    ensures |days| == |rules| && forall k :: 0 <= k < |rules| ==> days[k] == rules[k].day
  {
    seq(|rules|, k requires 0 <= k < |rules| => rules[k].day)
  }

  /** `days.indexOf(day)`. */
  function IndexOf(days: seq<string>, day: string): (r: int)
    ensures -1 <= r < |days|
    ensures r >= 0 ==> days[r] == day
    ensures forall j :: 0 <= j < |days| && (r < 0 || j < r) ==> days[j] != day
  {
    FindIndex(days, d => d == day)
  }

  /** The entry at `index` repeats an earlier day (the test that marks it). */
  predicate DuplicateFlagged(days: seq<string>, index: int)
    requires 0 <= index < |days|
  {
    IndexOf(days, days[index]) != index && IndexOf(days, days[index]) > -1
  }

  /** `days.some((day, index) => days.indexOf(day) !== index)`. */
  predicate HasDuplicates(days: seq<string>) {
    exists index :: 0 <= index < |days| && IndexOf(days, days[index]) != index
  }

  /** An entry is marked exactly when an earlier entry has the same day
      string; the first occurrence of a day is never marked. */
  lemma DuplicateFlaggedIffEarlier(days: seq<string>, index: int)
    requires 0 <= index < |days|
    ensures DuplicateFlagged(days, index) ==>
      0 <= IndexOf(days, days[index]) < index && days[IndexOf(days, days[index])] == days[index]
    ensures forall j :: 0 <= j < index && days[j] == days[index] ==> DuplicateFlagged(days, index)
    ensures (forall j :: 0 <= j < index ==> days[j] != days[index]) ==> !DuplicateFlagged(days, index)
  {
  }

  /** The list has a duplicate exactly when two positions share a day. */
  lemma HasDuplicatesIffRepeat(days: seq<string>)
    ensures (forall i, j :: 0 <= i < j < |days| ==> days[i] != days[j]) ==> !HasDuplicates(days)
    ensures forall i, j :: 0 <= i < j < |days| && days[i] == days[j] ==> HasDuplicates(days)
  {
    forall i, j | 0 <= i < j < |days| && days[i] == days[j] ensures HasDuplicates(days) {
      assert IndexOf(days, days[j]) != j;
    }
  }

  // ---------------------------------------------------------------------
  // The whole form

  /** `validate` returns true exactly when a place is chosen, every rule
      passes and no day string repeats. */
  predicate FormIsValid(placeId: Id, rules: seq<WeeklyRule>) {
    && placeId != ""
    && (forall k :: 0 <= k < |rules| ==> RuleIsValid(rules[k]))
    && !HasDuplicates(Days(rules))
  }

  /** A rule's messages, with the day message replaced when it repeats an
      earlier day. */
  function MarkedRuleErrors(rules: seq<WeeklyRule>, k: int): RuleErrors
    requires 0 <= k < |rules|
  {
    if DuplicateFlagged(Days(rules), k) then RuleErrorsOf(rules[k]).(day := DuplicateDay)
    else RuleErrorsOf(rules[k])
  }

  /** The messages `validate` stores. */
  function FormErrorsOf(placeId: Id, rules: seq<WeeklyRule>): (e: FormErrors)
    ensures |e.rules| == |rules|
  {
    FormErrors(
      if placeId == "" then PlaceRequired else "",
      seq(|rules|, k requires 0 <= k < |rules| => MarkedRuleErrors(rules, k)))
  }

  /** `validate`: every rule is checked and gets its own entry, then, if any
      day repeats, the repeats are marked. */
  method ValidateForm(placeId: Id, rules: seq<WeeklyRule>) returns (formIsValid: bool, tempErrors: FormErrors)
    ensures formIsValid == FormIsValid(placeId, rules)
    ensures tempErrors == FormErrorsOf(placeId, rules)
  {
    formIsValid := true;
    tempErrors := FormErrors("", Blanks(|rules|));
    if placeId == "" {
      tempErrors := tempErrors.(placeId := PlaceRequired);
      formIsValid := false;
    }
    for index := 0 to |rules|
      invariant |tempErrors.rules| == |rules|
      invariant tempErrors.placeId == FormErrorsOf(placeId, rules).placeId
      invariant forall k :: 0 <= k < index ==> tempErrors.rules[k] == RuleErrorsOf(rules[k])
      invariant formIsValid == (placeId != "" && forall k :: 0 <= k < index ==> RuleIsValid(rules[k]))
    {
      var isValid, ruleErrors := ValidateRule(rules[index]);
      tempErrors := tempErrors.(rules := tempErrors.rules[index := ruleErrors]);
      if !isValid {
        formIsValid := false;
      }
    }
    var days := Days(rules);
    var hasDuplicates := HasDuplicates(days);
    if hasDuplicates {
      formIsValid := false;
      tempErrors := MarkDuplicates(placeId, rules, tempErrors);
    } else {
      forall k | 0 <= k < |rules| ensures tempErrors.rules[k] == MarkedRuleErrors(rules, k) {
        assert !DuplicateFlagged(days, k);
      }
      assert tempErrors.rules == FormErrorsOf(placeId, rules).rules;
    }
  }

  /** The second pass of `validate`: the day message of every rule that
      repeats an earlier day becomes 'Duplicate day'. */
  method MarkDuplicates(placeId: Id, rules: seq<WeeklyRule>, checked: FormErrors) returns (tempErrors: FormErrors)
    requires checked.placeId == FormErrorsOf(placeId, rules).placeId
    requires |checked.rules| == |rules| && forall k :: 0 <= k < |rules| ==> checked.rules[k] == RuleErrorsOf(rules[k])
    ensures tempErrors == FormErrorsOf(placeId, rules)
  {
    var days := Days(rules);
    tempErrors := checked;
    for index := 0 to |rules|
      invariant |tempErrors.rules| == |rules|
      invariant tempErrors.placeId == checked.placeId
      invariant forall k :: 0 <= k < index ==> tempErrors.rules[k] == MarkedRuleErrors(rules, k)
      invariant forall k :: index <= k < |rules| ==> tempErrors.rules[k] == RuleErrorsOf(rules[k])
    {
      if IndexOf(days, rules[index].day) != index && IndexOf(days, rules[index].day) > -1 {
        tempErrors := tempErrors.(rules := tempErrors.rules[index := tempErrors.rules[index].(day := DuplicateDay)]);
      }
    }
    assert tempErrors.rules == FormErrorsOf(placeId, rules).rules;
  }

  /** The form is valid exactly when validation leaves every message empty. */
  lemma FormValidIffNoErrors(placeId: Id, rules: seq<WeeklyRule>)
    ensures FormIsValid(placeId, rules) <==> FormErrorsOf(placeId, rules) == FormErrors("", Blanks(|rules|))
  {
    var e := FormErrorsOf(placeId, rules);
    var days := Days(rules);
    if e == FormErrors("", Blanks(|rules|)) {
      forall k | 0 <= k < |rules| ensures RuleIsValid(rules[k]) && !DuplicateFlagged(days, k) {
        assert e.rules[k] == NoRuleErrors;
        RuleValidIffNoErrors(rules[k]);
      }
    }
    if FormIsValid(placeId, rules) {
      forall k | 0 <= k < |rules| ensures e.rules[k] == NoRuleErrors {
        RuleValidIffNoErrors(rules[k]);
        assert !DuplicateFlagged(days, k);
      }
    }
  }

  /** Two rules with the same day string make the form invalid, and the
      later one is marked 'Duplicate day'. */
  lemma DuplicateDayInvalidates(placeId: Id, rules: seq<WeeklyRule>, i: int, j: int)
    requires 0 <= i < j < |rules| && rules[i].day == rules[j].day
    ensures !FormIsValid(placeId, rules)
    ensures FormErrorsOf(placeId, rules).rules[j].day == DuplicateDay
  {
    var days := Days(rules);
    HasDuplicatesIffRepeat(days);
    DuplicateFlaggedIffEarlier(days, j);
  }

  // ---------------------------------------------------------------------
  // Editing the rule list

  datatype RuleField = Day | StartTime | EndTime

  function FieldOf(rule: WeeklyRule, field: RuleField): string {
    match field
    case Day => rule.day
    case StartTime => rule.startTime
    case EndTime => rule.endTime
  }

  /** `{ ...rule, [field]: value }`. */
  function WithField(rule: WeeklyRule, field: RuleField, value: string): (r: WeeklyRule)
    ensures FieldOf(r, field) == value
    ensures forall other :: other != field ==> FieldOf(r, other) == FieldOf(rule, other)
  {
    match field
    case Day => rule.(day := value)
    case StartTime => rule.(startTime := value)
    case EndTime => rule.(endTime := value)
  }

  /** `rules.filter((_, i) => i !== index)`, walked from position `from`. */
  function WithoutPosition(rules: seq<WeeklyRule>, index: int, from: int): (r: seq<WeeklyRule>)
    decreases |rules|
  {
    if |rules| == 0 then []
    else (if from == index then [] else [rules[0]]) + WithoutPosition(rules[1..], index, from + 1)
  }

  function WithRuleRemoved(rules: seq<WeeklyRule>, index: int): seq<WeeklyRule> {
    WithoutPosition(rules, index, 0)
  }

  lemma {:induction false} WithoutPositionSplits(rules: seq<WeeklyRule>, index: int, from: int)
    ensures WithoutPosition(rules, index, from)
         == if from <= index < from + |rules| then rules[..index - from] + rules[index - from + 1..] else rules
    decreases |rules|
  {
    if |rules| > 0 {
      WithoutPositionSplits(rules[1..], index, from + 1);
      if from == index {
        assert rules[..0] + rules[1..] == rules[1..];
      } else if from < index < from + |rules| {
        assert [rules[0]] + (rules[1..][..index - from - 1] + rules[1..][index - from..])
            == rules[..index - from] + rules[index - from + 1..];
      } else {
        assert [rules[0]] + rules[1..] == rules;
      }
    }
  }

  /** Removing drops exactly the rule at `index` and keeps the others in
      order; an index outside the list changes nothing. */
  lemma RemoveRuleExact(rules: seq<WeeklyRule>, index: int)
    ensures 0 <= index < |rules| ==> WithRuleRemoved(rules, index) == rules[..index] + rules[index + 1..]
    ensures 0 <= index < |rules| ==> |WithRuleRemoved(rules, index)| == |rules| - 1
    ensures !(0 <= index < |rules|) ==> WithRuleRemoved(rules, index) == rules
  {
    WithoutPositionSplits(rules, index, 0);
  }

  // ---------------------------------------------------------------------
  // The form's state

  /** The state of one open rule form. `editingRule` is the stored record
      being edited, if any. */
  class RuleFormState {
    const editingRule: Option<AvailabilityRule>
    var placeId: Id
    var rules: seq<WeeklyRule>
    var errors: FormErrors

    /** An edit form starts from the record; a new form from no place and
        the default rule. Each rule starts with empty messages. */
    constructor (editingRule: Option<AvailabilityRule>)
      ensures this.editingRule == editingRule
      ensures editingRule.Some? ==> placeId == editingRule.value.data.placeId && rules == editingRule.value.data.rules
      ensures editingRule.None? ==> placeId == "" && rules == [DefaultRule]
      ensures errors == FormErrors("", Blanks(|rules|))
    {
      var initialRules := if editingRule.Some? then editingRule.value.data.rules else [DefaultRule];
      this.editingRule := editingRule;
      placeId := if editingRule.Some? then editingRule.value.data.placeId else "";
      rules := initialRules;
      errors := FormErrors("", Blanks(|initialRules|));
    }

    method SetPlaceId(value: Id)
      modifies this
      ensures placeId == value && rules == old(rules) && errors == old(errors)
    {
      placeId := value;
    }

    /** Every change of the list's length clears the rule messages. */
    method SetRules(newRules: seq<WeeklyRule>)
      modifies this
      ensures rules == newRules && placeId == old(placeId)
      ensures errors == if |newRules| != |old(rules)| then old(errors).(rules := Blanks(|newRules|)) else old(errors)
    {
      var lengthChanged := |newRules| != |rules|;
      rules := newRules;
      if lengthChanged {
        errors := errors.(rules := Blanks(|rules|));
      }
    }

    /** `handleAddRule`: append the default rule. */
    method HandleAddRule()
      modifies this
      ensures rules == old(rules) + [DefaultRule] && placeId == old(placeId)
      ensures errors == old(errors).(rules := Blanks(|rules|))
    {
      SetRules(rules + [DefaultRule]);
    }

    /** `handleRemoveRule`. */
    method HandleRemoveRule(index: int)
      modifies this
      ensures rules == WithRuleRemoved(old(rules), index) && placeId == old(placeId)
      ensures errors == if 0 <= index < |old(rules)| then old(errors).(rules := Blanks(|rules|)) else old(errors)
    {
      RemoveRuleExact(rules, index);
      SetRules(WithRuleRemoved(rules, index));
    }

    /** `handleRuleChange`: only rendered rules can be edited. */
    method HandleRuleChange(index: int, field: RuleField, value: string)
      requires 0 <= index < |rules|
      modifies this
      ensures rules == old(rules)[index := WithField(old(rules)[index], field, value)]
      ensures placeId == old(placeId) && errors == old(errors)
    {
      var updatedRules := rules;
      updatedRules := updatedRules[index := WithField(updatedRules[index], field, value)];
      SetRules(updatedRules);
    }

    /** `validate`: store the messages and report the verdict. */
    method Validate() returns (formIsValid: bool)
      modifies this
      ensures formIsValid == FormIsValid(placeId, rules)
      ensures errors == FormErrorsOf(placeId, rules)
      ensures placeId == old(placeId) && rules == old(rules)
    {
      var tempErrors;
      formIsValid, tempErrors := ValidateForm(placeId, rules);
      errors := tempErrors;
    }

    /** `handleSubmit`: nothing reaches the store unless the form is valid;
        an edit replaces the edited record, a new rule set is appended under
        `newId`, and only after an add does the form return to its initial
        content. */
    method HandleSubmit(store: AppStore, newId: Id)
      modifies this, store
      ensures store.places == old(store.places) && store.bookings == old(store.bookings)
      ensures !FormIsValid(old(placeId), old(rules)) ==>
        && store.availabilityRules == old(store.availabilityRules)
        && placeId == old(placeId) && rules == old(rules)
        && errors == FormErrorsOf(placeId, rules)
      ensures FormIsValid(old(placeId), old(rules)) && editingRule.Some? ==>
        && store.availabilityRules
           == Updated(old(store.availabilityRules), editingRule.value.id, RuleSet(old(placeId), old(rules)))
        && placeId == old(placeId) && rules == old(rules)
        && errors == FormErrors("", Blanks(|rules|))
      ensures FormIsValid(old(placeId), old(rules)) && editingRule.None? ==>
        && store.availabilityRules == Appended(old(store.availabilityRules), newId, RuleSet(old(placeId), old(rules)))
        && placeId == "" && rules == [DefaultRule]
        && errors == FormErrors("", Blanks(1))
    {
      var ok := Validate();
      if !ok {
        return;
      }
      FormValidIffNoErrors(placeId, rules);
      var ruleData := RuleSet(placeId, rules);
      match editingRule
      case Some(r) =>
        store.UpdateAvailabilityRule(r.id, ruleData);
      case None =>
        store.AddAvailabilityRule(ruleData, newId);
        SetPlaceId("");
        SetRules([DefaultRule]);
    }
  }
}
