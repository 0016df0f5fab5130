/**
 The button-driven menu of the temperature controller (Temp_control_mcu/main.c).

 The firmware keeps its user-interface state in seven `uint8_t` globals. The
 edge-triggered Mode button (INT0) moves between the boot splash, the
 temperature screen and the menu; the three level-sampled buttons on port B
 (Next, Select, Back) navigate the menu and edit the two set-points
 `max_temp` and `min_temp`, but only while the menu is shown.
 */
module Menu {
  import opened Uint8
  import opened Options

  /** The seven globals. `fMode`: 0 boot splash, 1 temperature screen, 2 menu.
      `mMode`: highlighted menu category. `subMenu`: non-zero while a sub-menu is open.
      `mVar`: variable shown in the sub-menu (1 = max_temp, 2 = min_temp).
      `mSelect`: 0 while browsing, otherwise the variable being edited. */
  datatype State = State(
    fMode: u8,
    mMode: u8,
    subMenu: u8,
    mVar: u8,
    mSelect: u8,
    maxTemp: u8,
    minTemp: u8)

  /** Display modes. */
  const Boot: u8 := 0
  const TemperatureScreen: u8 := 1
  const MenuScreen: u8 := 2

  /** Number of menu categories `mMode` cycles through. */
  const Categories: u8 := 4

  /** Largest value an editable variable takes; one more wraps to 0. */
  const MaxValue: u8 := 99

  /** The values the globals hold at power-up. The start-up copy of the measured
      temperature into `max_temp` and `min_temp` copies `temp`, which is 0 and is
      never written anywhere else. */
  const Initial: State := State(Boot, 0, 0, 1, 0, 0, 0)

  /** Navigation levels. */
  predicate AtTop(s: State) { s.subMenu == 0 }
  predicate Browsing(s: State) { s.subMenu != 0 && s.mSelect == 0 }
  predicate Editing(s: State) { s.subMenu != 0 && s.mSelect != 0 }

  /** The value the sub-menu is showing. */
  function Selected(s: State): u8
  {
    if s.mVar == 1 then s.maxTemp else if s.mVar == 2 then s.minTemp else 0
  }

  /** The invariant every reachable state keeps: fields in range, an edit only
      inside an open sub-menu, and the edited variable is the one shown. */
  predicate Valid(s: State)
  {
    && s.fMode <= MenuScreen
    && s.mMode < Categories
    && s.subMenu <= 1
    && (s.mVar == 1 || s.mVar == 2)
    && (s.mSelect == 0 || s.mSelect == s.mVar)
    && (s.mSelect != 0 ==> s.subMenu != 0)
    && s.maxTemp <= MaxValue
    && s.minTemp <= MaxValue
  }

  /** Reference definitions of the editing arithmetic on 0..99: counting modulo 100. */
  function Succ100(v: int): int { (v + 1) % 100 }
  function Pred100(v: int): int { (v + 99) % 100 }

  // ---------------------------------------------------------------------------
  // Editing a value
  // ---------------------------------------------------------------------------

  /** `x += 1; if (x > 99) x = 0;` on a `uint8_t`. */
  function Inc(v: u8): (r: u8)
    ensures r <= MaxValue
    ensures v < MaxValue ==> r == v + 1
    ensures v >= MaxValue ==> r == 0
  {
    var w := Wrap(v + 1);
    if w > MaxValue then 0 else w
  }

  /** `if (x <= 0) x = 100; x -= 1;` on a `uint8_t`. */
  function Dec(v: u8): (r: u8)
    ensures v <= MaxValue ==> r <= MaxValue
    ensures v == 0 ==> r == MaxValue
    ensures v > 0 ==> r == v - 1
  {
    var w: u8 := if v <= 0 then 100 else v;
    Wrap(w - 1)
  }

  /** On 0..99 the two edits are counting up and down modulo 100. */
  lemma IncDecAreMod100(v: u8)
    requires v <= MaxValue
    ensures Inc(v) == Succ100(v)
    ensures Dec(v) == Pred100(v)
  {
  }

  /** On 0..99 increment and decrement undo each other. */
  lemma IncDecInverse(v: u8)
    requires v <= MaxValue
    ensures Dec(Inc(v)) == v
    ensures Inc(Dec(v)) == v
  {
  }

  function IncTimes(v: u8, k: nat): u8
  {
    if k == 0 then v else Inc(IncTimes(v, k - 1))
  }

  function DecTimes(v: u8, k: nat): u8
  {
    if k == 0 then v else Dec(DecTimes(v, k - 1))
  }

  /** k presses of the increment add k modulo 100. */
  lemma {:induction false} IncTimesAddsMod100(v: u8, k: nat)
    requires v <= MaxValue
    ensures IncTimes(v, k) == (v + k) % 100
  {
    if k > 0 {
      IncTimesAddsMod100(v, k - 1);
      var w := IncTimes(v, k - 1);
      IncDecAreMod100(w);
    }
  }

  /** k presses of the decrement subtract k modulo 100. */
  lemma {:induction false} DecTimesSubtractsMod100(v: u8, k: nat)
    requires v <= MaxValue
    ensures DecTimes(v, k) == (v - k) % 100
  {
    if k > 0 {
      DecTimesSubtractsMod100(v, k - 1);
      var w := DecTimes(v, k - 1);
      IncDecAreMod100(w);
    }
  }

  // ---------------------------------------------------------------------------
  // The Mode button
  // ---------------------------------------------------------------------------

  /** The INT0 handler: `fMode = 1 + (fMode % 2)`. It leaves the boot splash for
      the temperature screen and afterwards toggles between temperature screen
      and menu; the navigation state is kept across the toggle. */
  function ModePressed(s: State): (r: State)
    ensures r.fMode == TemperatureScreen || r.fMode == MenuScreen
    ensures r.fMode % 2 != s.fMode % 2
    ensures r == s.(fMode := r.fMode)
    ensures Valid(s) ==> Valid(r)
  {
    s.(fMode := 1 + s.fMode % 2)
  }

  /** After the splash, two Mode presses come back to the same state. */
  lemma ModePressedToggles(s: State)
    requires s.fMode == TemperatureScreen || s.fMode == MenuScreen
    ensures ModePressed(s).fMode != s.fMode
    ensures ModePressed(ModePressed(s)) == s
  {
  }

  // ---------------------------------------------------------------------------
  // The poll-sampled buttons, as handled while the menu is shown
  // ---------------------------------------------------------------------------

  /** Next (PB0). */
  function Next(s: State): (r: State)
    ensures r.fMode == s.fMode && r.subMenu == s.subMenu && r.mSelect == s.mSelect
    ensures AtTop(s) ==> r == s.(mMode := r.mMode) && r.mMode < Categories
                         && (r.mMode - s.mMode - 1) % Categories == 0
    ensures Browsing(s) ==> r == s.(mVar := r.mVar) && (r.mVar == 1 || r.mVar == 2)
                            && (s.mVar == 1 || s.mVar == 2 ==> r.mVar != s.mVar)
    ensures Editing(s) ==> r.mMode == s.mMode && r.mVar == s.mVar
                           && Selected(r) == (if s.mVar == 1 || s.mVar == 2 then Inc(Selected(s)) else Selected(s))
                           && (s.mVar != 1 ==> r.maxTemp == s.maxTemp)
                           && (s.mVar != 2 ==> r.minTemp == s.minTemp)
    ensures Valid(s) ==> Valid(r)
  {
    if s.subMenu == 0 then
      s.(mMode := (s.mMode + 1) % Categories)
    else if s.mSelect == 0 then
      s.(mVar := 1 + s.mVar % 2)
    else if s.mVar == 1 then
      s.(maxTemp := Inc(s.maxTemp))
    else if s.mVar == 2 then
      s.(minTemp := Inc(s.minTemp))
    else
      s
  }

  /** Select (PB1). */
  function Select(s: State): (r: State)
    ensures r.fMode == s.fMode && r.mMode == s.mMode && r.mVar == s.mVar
    ensures AtTop(s) ==> r == s.(subMenu := 1) && !AtTop(r)
    ensures Browsing(s) ==> r == s.(mSelect := s.mVar)
    ensures Valid(s) && Browsing(s) ==> Editing(r) && r.mSelect == s.mVar
    ensures Editing(s) ==> r.subMenu == s.subMenu && r.mSelect == s.mSelect
                           && Selected(r) == (if s.mVar == 1 || s.mVar == 2 then Dec(Selected(s)) else Selected(s))
                           && (s.mVar != 1 ==> r.maxTemp == s.maxTemp)
                           && (s.mVar != 2 ==> r.minTemp == s.minTemp)
    ensures Valid(s) ==> Valid(r)
  {
    if s.subMenu == 0 then
      s.(subMenu := 1)
    else if s.mSelect == 0 then
      s.(mSelect := s.mVar)
    else if s.mVar == 1 then
      s.(maxTemp := Dec(s.maxTemp))
    else if s.mVar == 2 then
      s.(minTemp := Dec(s.minTemp))
    else
      s
  }

  /** Back (PB2): leaves editing first, otherwise closes the sub-menu. */
  function Back(s: State): (r: State)
    ensures r.mSelect == 0
    ensures r == s.(mSelect := r.mSelect, subMenu := r.subMenu)
    ensures s.mSelect != 0 ==> r.subMenu == s.subMenu
    ensures s.mSelect == 0 ==> AtTop(r)
    ensures Valid(s) ==> Valid(r)
  {
    if s.mSelect != 0 then
      s.(mSelect := 0)
    else if s.subMenu != 0 then
      s.(subMenu := 0)
    else
      s
  }

  /** Four Nexts at the top level run once around the categories. */
  lemma {:induction false} NextCyclesCategories(s: State, k: nat)
    requires AtTop(s) && s.mMode < Categories
    ensures Presses(s, NextButton, k) == s.(mMode := (s.mMode + k) % Categories)
  {
    if k > 0 {
      NextCyclesCategories(s, k - 1);
      var m := (s.mMode + k - 1) % Categories;
      var t := s.(mMode := m);
      assert Presses(s, NextButton, k) == Next(t);
      assert (m + 1) % Categories == (s.mMode + k) % Categories;
    }
  }

  /** k Nexts while editing add k modulo 100 to the edited variable only. */
  lemma {:induction false} NextWhileEditingCounts(s: State, k: nat)
    requires Valid(s) && Editing(s)
    ensures Presses(s, NextButton, k) == (if s.mVar == 1 then s.(maxTemp := IncTimes(s.maxTemp, k))
                                          else s.(minTemp := IncTimes(s.minTemp, k)))
  {
    if k > 0 {
      NextWhileEditingCounts(s, k - 1);
    }
  }

  /** Back undoes Select on the way into the menu. */
  lemma BackUndoesSelect(s: State)
    requires Valid(s) && !Editing(s)
    ensures Back(Select(s)) == s
  {
  }

  /** While editing, Select (decrement) and Next (increment) undo each other. */
  lemma EditsUndoEachOther(s: State)
    requires Valid(s) && Editing(s)
    ensures Next(Select(s)) == s
    ensures Select(Next(s)) == s
  {
    IncDecInverse(s.maxTemp);
    IncDecInverse(s.minTemp);
  }

  /** At most two Backs reach the top level, and further Backs change nothing. */
  lemma BackReachesTop(s: State)
    ensures AtTop(Back(Back(s))) && Back(Back(s)).mSelect == 0
    ensures Back(Back(Back(s))) == Back(Back(s))
  {
  }

  // ---------------------------------------------------------------------------
  // One iteration of the main loop
  // ---------------------------------------------------------------------------

  datatype Button = NextButton | SelectButton | BackButton

  /** The three port-B lines in one loop iteration; true means held down
      (the line reads low). */
  datatype Pins = Pins(pb0: bool, pb1: bool, pb2: bool)

  predicate Down(p: Pins, b: Button)
  {
    match b
    case NextButton => p.pb0
    case SelectButton => p.pb1
    case BackButton => p.pb2
  }

  /** Priority of a button in the loop's if / else-if chain; lower is tested first. */
  function Rank(b: Button): nat
  {
    match b
    case NextButton => 0
    case SelectButton => 1
    case BackButton => 2
  }

  /** The one button the loop handles: the highest-priority one held down. */
  function Pressed(p: Pins): (r: Option<Button>)
    ensures r.Some? ==> Down(p, r.value)
    ensures r.Some? ==> forall b :: Rank(b) < Rank(r.value) ==> !Down(p, b)
    ensures r.None? <==> forall b :: !Down(p, b)
  {
    if p.pb0 then assert Down(p, NextButton); Some(NextButton)
    else if p.pb1 then assert Down(p, SelectButton); Some(SelectButton)
    else if p.pb2 then assert Down(p, BackButton); Some(BackButton)
    else None
  }

  function Handle(s: State, b: Button): State
  {
    match b
    case NextButton => Next(s)
    case SelectButton => Select(s)
    case BackButton => Back(s)
  }

  /** The same button pressed k times in a row. */
  function Presses(s: State, b: Button, k: nat): State
  {
    if k == 0 then s else Handle(Presses(s, b, k - 1), b)
  }

  /** The button-dispatch part of one loop iteration: only the menu screen
      reacts, and only to the highest-priority button held. */
  function Poll(s: State, p: Pins): (r: State)
    ensures s.fMode != MenuScreen ==> r == s
    ensures Pressed(p).None? ==> r == s
    ensures s.fMode == MenuScreen && Pressed(p).Some? ==> r == Handle(s, Pressed(p).value)
    ensures r.fMode == s.fMode
    ensures Valid(s) ==> Valid(r)
  {
    if s.fMode != MenuScreen then s
    else
      match Pressed(p)
      case None => s
      case Some(b) => Handle(s, b)
  }

  /** Only the highest-priority held button has an effect: the lower ones are ignored. */
  lemma PollIgnoresLowerButtons(s: State, p: Pins, q: Pins)
    requires Pressed(p).Some? && Down(q, Pressed(p).value)
    requires forall b :: Rank(b) < Rank(Pressed(p).value) ==> !Down(q, b)
    ensures Poll(s, p) == Poll(s, q)
  {
  }

  lemma InitialValid()
    ensures Valid(Initial)
    ensures Initial.fMode == Boot && AtTop(Initial)
  {
  }
}
