/** The airtime purchase form: a network, a preset or a custom amount, a
    phone number, and a purchase that resets the form once confirmed. */
module Airtime {
  import opened Wrappers

  /** The form's four `useState` values. `customAmount` is kept as the value
      `parseInt` gives for the typed text: `None` stands for an empty or
      unparseable field (NaN). */
  datatype Form = Form(
    network: Option<string>,
    presetAmount: Option<int>,
    customAmount: Option<int>,
    phoneNumber: string)

  /** The `networks` ids. */
  const Networks: seq<string> := ["mtn", "airtel", "glo", "9mobile"]

  /** The `amounts` preset buttons. */
  const PresetAmounts: seq<int> := [100, 200, 500, 1000, 2000, 5000]

  /** The form on first render and after a confirmed purchase. */
  const InitialForm: Form := Form(None, None, None, "")

  /** JavaScript truthiness of a number that may be missing: present and
      non-zero (NaN is `None`). */
  predicate TruthyNumber(n: Option<int>) {
    n.Some? && n.value != 0
  }

  /** `selectedAmount || parseInt(customAmount) || 0`: a truthy preset wins,
      a non-zero amount always comes from one of the two fields, and the
      amount is 0 exactly when neither field holds a non-zero number. */
  function FinalAmount(f: Form): (amount: int)
    ensures TruthyNumber(f.presetAmount) ==> amount == f.presetAmount.value
    ensures amount != 0 ==> f.presetAmount == Some(amount) || f.customAmount == Some(amount)
    ensures amount == 0 <==> !TruthyNumber(f.presetAmount) && !TruthyNumber(f.customAmount)
  {
    if TruthyNumber(f.presetAmount) then f.presetAmount.value
    else if TruthyNumber(f.customAmount) then f.customAmount.value
    else 0
  }

  /** The amount section is rendered only once a network is chosen. */
  predicate AmountSelectorShown(f: Form) {
    f.network.Some?
  }

  /** The purchase button: a positive amount and a non-empty phone number.
      The chosen network plays no part. */
  predicate PurchaseShown(f: Form) {
    FinalAmount(f) > 0 && f.phoneNumber != ""
  }

  /** The user's actions on the form. `confirmed` is the answer to the
      purchase confirmation dialog. */
  datatype Action =
    | PickNetwork(id: string)
    | PickPreset(amount: int)
    | TypeCustom(parsed: Option<int>)
    | TypePhone(text: string)
    | Purchase(confirmed: bool)

  /** Whether the control for an action is on screen. */
  predicate Available(f: Form, a: Action) {
    match a
    case PickNetwork(id) => id in Networks
    case PickPreset(amount) => AmountSelectorShown(f) && amount in PresetAmounts
    case TypeCustom(_) => AmountSelectorShown(f)
    case TypePhone(_) => true
    case Purchase(_) => PurchaseShown(f)
  }

  /** The handlers. A preset clears the custom field, typing a custom amount
      clears the preset, neither touches the network or the phone number,
      picking a network or typing a phone number sets only that field, and a
      confirmed purchase resets all four fields; a cancelled one changes
      nothing. */
  function Step(f: Form, a: Action): (r: Form)
    ensures a.PickPreset? ==> r.presetAmount == Some(a.amount) && r.customAmount.None?
    ensures a.TypeCustom? ==> r.presetAmount.None? && r.customAmount == a.parsed
    ensures a.Purchase? && a.confirmed ==> r == InitialForm
    ensures a.Purchase? && !a.confirmed ==> r == f
    ensures a.PickNetwork? ==> r == f.(network := Some(a.id))
    ensures a.TypePhone? ==> r == f.(phoneNumber := a.text)
    ensures a.PickPreset? || a.TypeCustom? ==> r.network == f.network && r.phoneNumber == f.phoneNumber
  {
    match a
    case PickNetwork(id) => f.(network := Some(id))
    case PickPreset(amount) => f.(presetAmount := Some(amount), customAmount := None)
    case TypeCustom(parsed) => f.(customAmount := parsed, presetAmount := None)
    case TypePhone(text) => f.(phoneNumber := text)
    case Purchase(confirmed) => if confirmed then InitialForm else f
  }

  /** What every form reachable through the on-screen controls satisfies:
      at most one amount source is set, a preset is one of the listed
      amounts, and an amount is only ever set once a network is. */
  predicate Reachable(f: Form) {
    && !(f.presetAmount.Some? && f.customAmount.Some?)
    && (f.presetAmount.Some? ==> f.presetAmount.value in PresetAmounts)
    && (f.presetAmount.Some? || f.customAmount.Some? ==> f.network.Some?)
  }

  lemma StepPreservesReachable(f: Form, a: Action)
    requires Reachable(f)
    requires Available(f, a)
    ensures Reachable(Step(f, a))
  {
  }

  /** A sequence of actions, each taken only when its control is shown;
      actions whose control is not shown have no effect. */
  function Run(f: Form, actions: seq<Action>): Form
    decreases |actions|
  {
    if |actions| == 0 then f
    else Run(if Available(f, actions[0]) then Step(f, actions[0]) else f, actions[1..])
  }

  /** The empty form the page starts with is reachable. */
  lemma InitialReachable()
    ensures Reachable(InitialForm)
  {
  }

  /** From a reachable form (in particular the initial one), no sequence of
      on-screen actions sets both a preset and a custom amount, or an amount
      without a network. */
  lemma {:induction false} RunPreservesReachable(f: Form, actions: seq<Action>)
    requires Reachable(f)
    ensures Reachable(Run(f, actions))
    decreases |actions|
  {
    if |actions| > 0 {
      var next := if Available(f, actions[0]) then Step(f, actions[0]) else f;
      if Available(f, actions[0]) {
        StepPreservesReachable(f, actions[0]);
      }
      RunPreservesReachable(next, actions[1..]);
    }
  }

  /** Picking a preset makes it the amount to buy; typing a custom amount
      makes its parsed value the amount if non-zero, and 0 otherwise. */
  lemma AmountFollowsLastChoice(f: Form, amount: int, parsed: Option<int>)
    requires amount in PresetAmounts
    ensures FinalAmount(Step(f, PickPreset(amount))) == amount
    ensures FinalAmount(Step(f, TypeCustom(parsed))) == (if TruthyNumber(parsed) then parsed.value else 0)
  {
  }

  /** A truthy preset makes the custom field irrelevant. */
  lemma PresetTakesPrecedence(f: Form, custom: Option<int>)
    requires TruthyNumber(f.presetAmount)
    ensures FinalAmount(f.(customAmount := custom)) == FinalAmount(f)
  {
  }

  /** The purchase button ignores the network: changing it never changes
      whether the button is shown. */
  lemma PurchaseIgnoresNetwork(f: Form, network: Option<string>)
    ensures PurchaseShown(f.(network := network)) == PurchaseShown(f)
  {
  }

  /** A confirmed purchase returns the form to its first-render state, where
      the amount section and the purchase button are both hidden. */
  lemma PurchaseResets(f: Form)
    requires PurchaseShown(f)
    ensures Step(f, Purchase(true)) == InitialForm
    ensures !AmountSelectorShown(Step(f, Purchase(true)))
    ensures !PurchaseShown(Step(f, Purchase(true)))
    ensures FinalAmount(Step(f, Purchase(true))) == 0
  {
  }

  /** Every preset is positive, so a picked preset always counts as chosen. */
  lemma PresetsPositive()
    ensures |PresetAmounts| == 6
    ensures forall i :: 0 <= i < |PresetAmounts| ==> PresetAmounts[i] > 0
  {
  }
}
