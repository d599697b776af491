/**
 * The rule callbacks the application passes to the "fix" screen: each is an
 * updater from the previous rules to the next ones.
 */
module RuleEdits {
  import opened FrontendTypes
  import Persistence

  /** `onUpdateRules(category, from, to)`: `rules[category][from] = to`. */
  function UpdateRule(rules: Rules, cat: Category, from: string, to: string): (r: Rules)
    ensures MappingOf(r, cat) == MappingOf(rules, cat)[from := to]
    ensures r.hidden == rules.hidden
    ensures forall c :: c != cat ==> MappingOf(r, c) == MappingOf(rules, c)
  {
    WithMapping(rules, cat, MappingOf(rules, cat)[from := to])
  }

  /** `onRemoveRule(category, from)`: deletes the one key. */
  function RemoveRule(rules: Rules, cat: Category, from: string): (r: Rules)
    ensures MappingOf(r, cat) == MappingOf(rules, cat) - {from}
    ensures r.hidden == rules.hidden
    ensures forall c :: c != cat ==> MappingOf(r, c) == MappingOf(rules, c)
  {
    WithMapping(rules, cat, MappingOf(rules, cat) - {from})
  }

  /** `onToggleHide(category, value)`: `hidden[category][value] = !hidden[category][value]`. */
  function ToggleHide(rules: Rules, cat: Category, value: string): (r: Rules)
    ensures HiddenOf(r, cat) == HiddenOf(rules, cat)[value := !IsHidden(HiddenOf(rules, cat), value)]
    ensures forall c :: MappingOf(r, c) == MappingOf(rules, c)
    ensures forall c :: c != cat ==> HiddenOf(r, c) == HiddenOf(rules, c)
  {
    var h := HiddenOf(rules, cat);
    WithHidden(rules, cat, h[value := !IsHidden(h, value)])
  }

  /** `onResetRules`: back to the empty rules. */
  function ResetRules(): (r: Rules)
    ensures forall c :: MappingOf(r, c) == map[] && HiddenOf(r, c) == map[]
  {
    Persistence.DefaultRules()
  }

  /** Removing a rule just set takes the mapping back to the old one without that key. */
  lemma UpdateThenRemove(rules: Rules, cat: Category, from: string, to: string)
    ensures MappingOf(RemoveRule(UpdateRule(rules, cat, from, to), cat, from), cat) == MappingOf(rules, cat) - {from}
    ensures RemoveRule(UpdateRule(rules, cat, from, to), cat, from).hidden == rules.hidden
  {
  }

  /** Toggling hides a value exactly when it was shown, and toggling twice shows what was shown. */
  lemma ToggleFlips(rules: Rules, cat: Category, value: string, other: string)
    ensures IsHidden(HiddenOf(ToggleHide(rules, cat, value), cat), value) == !IsHidden(HiddenOf(rules, cat), value)
    ensures other != value ==>
      IsHidden(HiddenOf(ToggleHide(rules, cat, value), cat), other) == IsHidden(HiddenOf(rules, cat), other)
    ensures IsHidden(HiddenOf(ToggleHide(ToggleHide(rules, cat, value), cat, value), cat), other) ==
      IsHidden(HiddenOf(rules, cat), other)
  {
  }
}
