/** The security settings page: five options, three of them on/off switches
    backed by a map from option id to state. */
module Security {
  import opened Wrappers

  /** A row of `securityOptions`: its id and whether it has `toggle: true`. */
  datatype SecurityOption = SecurityOption(id: int, title: string, toggle: bool)

  /** What a "Manage" button does when clicked. */
  datatype Handler = ChangePassword

  /** The control rendered at the end of a row. */
  datatype Control =
    | Switch(target: int)               // calls handleToggle(option.id)
    | Manage(onClick: Option<Handler>)  // `undefined` handler when None

  /** The `securityOptions` table. */
  const SecurityOptions: seq<SecurityOption> := [
    SecurityOption(1, "Change Password", false),
    SecurityOption(2, "Two-Factor Authentication", true),
    SecurityOption(3, "Biometric Login", true),
    SecurityOption(4, "Device Management", false),
    SecurityOption(5, "Security Notifications", true)
  ]

  /** `useState({ 2: false, 3: false, 5: true })`. */
  const InitialToggles: map<int, bool> := map[2 := false, 3 := false, 5 := true]

  /** `prev[id]` read as a boolean: a missing key is `undefined`, i.e. false. */
  function IsOn(toggles: map<int, bool>, id: int): bool {
    id in toggles && toggles[id]
  }

  /** handleToggle: `{ ...prev, [id]: !prev[id] }`. The entry for `id` is
      negated (a missing entry becomes true) and every other entry is kept. */
  function Toggle(toggles: map<int, bool>, id: int): (r: map<int, bool>)
    ensures r.Keys == toggles.Keys + {id}
    ensures IsOn(r, id) != IsOn(toggles, id)
    ensures forall k | k in toggles && k != id :: r[k] == toggles[k]
  {
    toggles[id := !IsOn(toggles, id)]
  }

  /** Toggling an existing entry twice restores the map. */
  lemma ToggleTwice(toggles: map<int, bool>, id: int)
    requires id in toggles
    ensures Toggle(Toggle(toggles, id), id) == toggles
  {
  }

  /** Toggling a missing entry twice does not restore the map: it leaves the
      entry present and off. */
  lemma ToggleTwiceMissing(toggles: map<int, bool>, id: int)
    requires id !in toggles
    ensures Toggle(Toggle(toggles, id), id) == toggles[id := false]
    ensures Toggle(Toggle(toggles, id), id) != toggles
  {
    assert id in Toggle(Toggle(toggles, id), id);
  }

  /** The control a row renders: a switch for `toggle: true`, otherwise a
      "Manage" button whose handler exists only for option 1. */
  function ControlFor(option: SecurityOption): (c: Control)
    ensures c.Switch? <==> option.toggle
    ensures c.Switch? ==> c.target == option.id
    ensures c.Manage? ==> (c.onClick.Some? <==> option.id == 1)
  {
    if option.toggle then Switch(option.id)
    else Manage(if option.id == 1 then Some(ChangePassword) else None)
  }

  /** The ids the switches act on: exactly the keys of the initial map, 2, 3
      and 5. Option 1's button opens the change-password dialog, option 4's
      does nothing. */
  lemma ControlsOfThePage()
    ensures (set i | 0 <= i < |SecurityOptions| && ControlFor(SecurityOptions[i]).Switch? :: SecurityOptions[i].id)
            == InitialToggles.Keys == {2, 3, 5}
    ensures ControlFor(SecurityOptions[0]) == Manage(Some(ChangePassword))
    ensures ControlFor(SecurityOptions[3]) == Manage(None)
  {
    var switches := set i | 0 <= i < |SecurityOptions| && ControlFor(SecurityOptions[i]).Switch? :: SecurityOptions[i].id;
    assert SecurityOptions[1].id == 2 && SecurityOptions[2].id == 3 && SecurityOptions[4].id == 5;
    assert 2 in switches && 3 in switches && 5 in switches;
  }

  /** A sequence of switch presses. */
  function Presses(toggles: map<int, bool>, ids: seq<int>): map<int, bool>
    decreases |ids|
  {
    if |ids| == 0 then toggles else Presses(Toggle(toggles, ids[0]), ids[1..])
  }

  /** Presses on the page's switches never add or drop a key: the map keeps
      exactly the entries 2, 3 and 5. */
  lemma {:induction false} PressesKeepKeys(toggles: map<int, bool>, ids: seq<int>)
    requires toggles.Keys == {2, 3, 5}
    requires forall i :: 0 <= i < |ids| ==> ids[i] in {2, 3, 5}
    ensures Presses(toggles, ids).Keys == {2, 3, 5}
    decreases |ids|
  {
    if |ids| > 0 {
      PressesKeepKeys(Toggle(toggles, ids[0]), ids[1..]);
    }
  }
}
