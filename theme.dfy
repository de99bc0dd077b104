/** The colour scheme: a persisted light/dark mode, a toggle, and the effect that keeps
    the document root's `dark` class in step with the mode. */
module Theme {
  import opened Wrappers
  import opened Types

  /** `prev.mode === "light" ? "dark" : "light"`. */
  function Flip(mode: ThemeMode): (r: ThemeMode)
    ensures r != mode
  {
    if mode == Light then Dark else Light
  }

  /** Toggling twice restores the mode. */
  lemma FlipInvolution(mode: ThemeMode)
    ensures Flip(Flip(mode)) == mode
  {
  }

  /** The root's classes after the effect: `dark` added in dark mode and removed in light
      mode, every other class untouched. */
  function RootClasses(classes: set<string>, mode: ThemeMode): (r: set<string>)
    ensures "dark" in r <==> mode == Dark
    ensures r - {"dark"} == classes - {"dark"}
  {
    if mode == Dark then classes + {"dark"} else classes - {"dark"}
  }

  /** Running the effect again changes nothing. */
  lemma RootClassesIdempotent(classes: set<string>, mode: ThemeMode)
    ensures RootClasses(RootClasses(classes, mode), mode) == RootClasses(classes, mode)
  {
  }

  /** The mode after `toggles` toggles from `start`: unchanged after an even number,
      flipped after an odd number. */
  function ModeAfter(start: ThemeMode, toggles: nat): (r: ThemeMode)
    ensures toggles % 2 == 0 ==> r == start
    ensures toggles % 2 == 1 ==> r == Flip(start)
  {
    if toggles == 0 then start else Flip(ModeAfter(start, toggles - 1))
  }

  class ThemeProvider {
    var theme: ThemeState
    var rootClasses: set<string>

    /** The stored theme, or light; the effect runs once on mount. */
    constructor (stored: Option<ThemeState>, classes: set<string>)
      ensures theme == stored.GetOr(ThemeState(Light))
      ensures rootClasses == RootClasses(classes, theme.mode)
      ensures InStep()
    {
      theme := stored.GetOr(ThemeState(Light));
      rootClasses := RootClasses(classes, stored.GetOr(ThemeState(Light)).mode);
    }

    /** `toggleTheme`, followed by the effect the mode change triggers. */
    method ToggleTheme()
      modifies this`theme, this`rootClasses
      ensures theme == ThemeState(Flip(old(theme.mode)))
      ensures rootClasses == RootClasses(old(rootClasses), theme.mode)
      ensures InStep()
    {
      theme := ThemeState(Flip(theme.mode));
      rootClasses := RootClasses(rootClasses, theme.mode);
    }

    /** The root shows the dark class exactly in dark mode. */
    predicate InStep()
      reads this
    {
      "dark" in rootClasses <==> theme.mode == Dark
    }
  }
}
