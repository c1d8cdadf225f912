/**
  The UI state of the page shell: two independent flags, `open` for the
  mobile navigation drawer and `dark` for the colour scheme, both false when
  the shell mounts. Three user actions change them: the theme button, the
  menu button, and following a link inside the drawer. The parts of the
  rendered page that depend on the state are collected in `View`.
 */
module Shell {

  datatype State = State(open: bool, dark: bool)

  /** The state right after mounting: drawer closed, light scheme. */
  const Initial: State := State(false, false)

  datatype Action =
    | ToggleTheme          // theme button: `setDark(!dark)`
    | ToggleMenu           // menu button: `setOpen(!open)`
    | NavigateFromDrawer   // a drawer link's click handler: `setOpen(false)`

  /** One state update. Each action touches only its own flag. */
  function Step(s: State, a: Action): (t: State)
    ensures a == ToggleTheme ==> t.dark != s.dark
    ensures a == ToggleMenu ==> t.open != s.open
    ensures a == NavigateFromDrawer ==> !t.open
    ensures a != ToggleTheme ==> t.dark == s.dark
    ensures a == ToggleTheme ==> t.open == s.open
  {
    match a
    case ToggleTheme => s.(dark := !s.dark)
    case ToggleMenu => s.(open := !s.open)
    case NavigateFromDrawer => s.(open := false)
  }

  /** The state after a sequence of user actions, first to last. */
  function Run(s: State, acts: seq<Action>): State
    decreases |acts|
  {
    if acts == [] then s else Run(Step(s, acts[0]), acts[1..])
  }

  /** Number of occurrences of `a` in `acts`. */
  function Count(acts: seq<Action>, a: Action): nat {
    if acts == [] then 0
    else (if acts[0] == a then 1 else 0) + Count(acts[1..], a)
  }

  predicate Odd(n: nat) {
    n % 2 == 1
  }

  // ---------------------------------------------------------------------
  // Single steps
  // ---------------------------------------------------------------------

  /** Pressing the theme button twice restores the state. */
  lemma ToggleThemeTwice(s: State)
    ensures Step(Step(s, ToggleTheme), ToggleTheme) == s
  {
  }

  /** Pressing the menu button twice restores the state. */
  lemma ToggleMenuTwice(s: State)
    ensures Step(Step(s, ToggleMenu), ToggleMenu) == s
  {
  }

  /** Following a drawer link closes the drawer from any state, keeps the
      colour scheme, and doing it again changes nothing more. */
  lemma NavigateCloses(s: State)
    ensures Step(s, NavigateFromDrawer) == State(false, s.dark)
    ensures Step(Step(s, NavigateFromDrawer), NavigateFromDrawer) == Step(s, NavigateFromDrawer)
  {
  }

  /** The theme toggle commutes with the drawer actions: the two flags are
      independent. */
  lemma ThemeCommutes(s: State, a: Action)
    ensures Step(Step(s, ToggleTheme), a) == Step(Step(s, a), ToggleTheme)
  {
  }

  // ---------------------------------------------------------------------
  // Sequences of actions
  // ---------------------------------------------------------------------

  lemma {:induction false} RunAppend(s: State, xs: seq<Action>, ys: seq<Action>)
    ensures Run(s, xs + ys) == Run(Run(s, xs), ys)
    decreases |xs|
  {
    if xs == [] {
      assert xs + ys == ys;
    } else {
      assert (xs + ys)[1..] == xs[1..] + ys;
      RunAppend(Step(s, xs[0]), xs[1..], ys);
    }
  }

  /** The colour scheme depends only on how many times the theme button was
      pressed: it is dark exactly when it started dark and was pressed an
      even number of times, or started light and was pressed an odd number. */
  lemma {:induction false} ThemeParity(s: State, acts: seq<Action>)
    ensures Run(s, acts).dark == (s.dark != Odd(Count(acts, ToggleTheme)))
    decreases |acts|
  {
    if acts != [] {
      ThemeParity(Step(s, acts[0]), acts[1..]);
    }
  }

  /** The drawer flag after any sequence of actions does not depend on the
      colour scheme, nor the colour scheme on the drawer flag. */
  lemma {:induction false} FlagsIndependent(s: State, acts: seq<Action>, d: bool, o: bool)
    ensures Run(s, acts).open == Run(s.(dark := d), acts).open
    ensures Run(s, acts).dark == Run(s.(open := o), acts).dark
    decreases |acts|
  {
    if acts != [] {
      var a := acts[0];
      assert Step(s.(dark := d), a) == Step(s, a).(dark := Step(s.(dark := d), a).dark);
      assert Step(s.(open := o), a) == Step(s, a).(open := Step(s.(open := o), a).open);
      FlagsIndependent(Step(s, a), acts[1..], Step(s.(dark := d), a).dark, Step(s.(open := o), a).open);
    }
  }

  /** Whatever happened before, following a drawer link last leaves the
      drawer closed. */
  lemma ClosedAfterNavigate(s: State, acts: seq<Action>)
    ensures !Run(s, acts + [NavigateFromDrawer]).open
    ensures Run(s, acts + [NavigateFromDrawer]).dark == Run(s, acts).dark
  {
    RunAppend(s, acts, [NavigateFromDrawer]);
  }

  /** Every combination of the two flags can be reached from the initial
      state, in at most two actions. */
  lemma AllReachable(t: State)
    ensures exists acts: seq<Action> :: |acts| <= 2 && Run(Initial, acts) == t
  {
    var acts: seq<Action> :=
      if t.open && t.dark then [ToggleMenu, ToggleTheme]
      else if t.open then [ToggleMenu]
      else if t.dark then [ToggleTheme]
      else [];
    if |acts| > 0 {
      assert Run(Initial, acts) == Run(Step(Initial, acts[0]), acts[1..]);
    }
    if |acts| > 1 {
      assert acts[1..][1..] == [];
    }
    assert Run(Initial, acts) == t;
  }

  // ---------------------------------------------------------------------
  // What the state shows
  // ---------------------------------------------------------------------

  datatype Icon = Sun | Moon | Close | Menu

  /** The state-dependent parts of the page: the class on the root element
      that switches every `dark:` style, the theme button's icon, the menu
      button's icon, and whether the drawer is slid in. */
  datatype View = View(rootClass: string, themeIcon: Icon, menuIcon: Icon, drawerShown: bool)

  function Render(s: State): View {
    View(if s.dark then "dark" else "",
         if s.dark then Sun else Moon,
         if s.open then Close else Menu,
         s.open)
  }

  /** The view shows the whole state: different states render differently,
      so no toggle can leave a half-applied scheme behind. */
  lemma RenderInjective(s: State, t: State)
    ensures Render(s) == Render(t) <==> s == t
  {
  }

  /** The theme button changes the scheme class and its own icon and nothing
      else of the view; a second press gives back the same view. */
  lemma ToggleThemeView(s: State)
    ensures var v, w := Render(s), Render(Step(s, ToggleTheme));
      && v.rootClass != w.rootClass
      && v.themeIcon != w.themeIcon
      && v.menuIcon == w.menuIcon
      && v.drawerShown == w.drawerShown
    ensures Render(Step(Step(s, ToggleTheme), ToggleTheme)) == Render(s)
  {
  }

  /** Mounting renders the light scheme with the drawer hidden. */
  lemma InitialView()
    ensures Render(Initial) == View("", Moon, Menu, false)
  {
  }
}
