/**
 * The theme provider (src/context/ThemeContext.jsx): the initial theme from
 * saved storage, then the system preference, then `light`; the toggle; and
 * the effect that mirrors the theme onto the root element's `dark` class and
 * into storage. The browser is represented by an `Environment` value and by
 * fields for the root class and the stored item.
 */
module Theme {
  import opened JsText

  /** `localStorage.getItem('theme')`: no `localStorage`, a read that throws, or the item (`""` when missing or empty). */
  datatype StorageRead = NoStorage | StorageThrows | Item(saved: string)

  /** `matchMedia('(prefers-color-scheme: dark)').matches`: no `matchMedia`, a query that throws, or its answer. */
  datatype MediaRead = NoMedia | MediaThrows | Matches(dark: bool)

  /**
   * What the initialiser can see. The media query is only reached when no
   * theme was saved, so a throwing query never hides a saved theme.
   */
  datatype Environment = Environment(storage: StorageRead, media: MediaRead)

  function HasSaved(env: Environment): bool
  {
    env.storage.Item? && env.storage.saved != ""
  }

  /** The `useState` initialiser; any throw lands in the `catch`, which gives `light`. */
  function InitialTheme(env: Environment): string
  {
    if env.storage == StorageThrows then "light"
    else if HasSaved(env) then env.storage.saved
    else if env.media.Matches? && env.media.dark then "dark"
    else "light"
  }

  /**
   * A saved theme wins, whatever its text; without one the theme is `dark`
   * exactly when storage did not throw and the system answers that it
   * prefers dark, and `light` otherwise.
   */
  lemma InitialThemeSpec(env: Environment)
    ensures InitialTheme(env) != ""
    ensures HasSaved(env) ==> InitialTheme(env) == env.storage.saved
    ensures !HasSaved(env) ==>
      (InitialTheme(env) == "dark" <==> env.storage != StorageThrows && env.media == Matches(true))
      && (InitialTheme(env) == "dark" || InitialTheme(env) == "light")
  {
  }

  /** `prev === 'light' ? 'dark' : 'light'`. */
  function Toggle(prev: string): string
  {
    if prev == "light" then "dark" else "light"
  }

  /**
   * A toggle always lands on `light` or `dark`, on `dark` only from `light`;
   * on those two it is its own inverse, and any other saved text toggles to
   * `light` and then to `dark`.
   */
  lemma ToggleSpec(t: string)
    ensures Toggle(t) == "light" || Toggle(t) == "dark"
    ensures Toggle(t) == "dark" <==> t == "light"
    ensures t == "light" || t == "dark" ==> Toggle(Toggle(t)) == t && Toggle(t) != t
    ensures t != "light" && t != "dark" ==> Toggle(t) == "light" && Toggle(Toggle(t)) == "dark"
  {
  }

  /** What `useTheme` does: the provided context, or the exception it throws outside a provider. */
  datatype UseThemeResult = Provided(theme: string) | Thrown(message: string)

  const OutsideProviderMessage: string := "useTheme must be used within ThemeProvider"

  function UseTheme(context: Option<string>): (r: UseThemeResult)
    ensures r.Thrown? <==> context.None?
    ensures r.Thrown? ==> r.message == OutsideProviderMessage
    ensures r.Provided? ==> r.theme == context.value
  {
    if context.None? then Thrown(OutsideProviderMessage) else Provided(context.value)
  }

  class ThemeProvider {
    var theme: string
    /** Whether the root element's class list holds `dark`. */
    var rootDark: bool
    /** The `theme` item in storage. */
    var stored: Option<string>
    const storageAvailable: bool

    /** After every effect run the root class and storage agree with the theme. */
    ghost predicate Valid()
      reads this
    {
      && rootDark == (theme == "dark")
      && (storageAvailable ==> stored == Some(theme))
    }

    /** Mounting: the initialiser, then the effect's first run. */
    constructor(env: Environment, rootDark: bool)
      ensures Valid()
      ensures theme == InitialTheme(env)
      ensures storageAvailable == env.storage.Item?
      ensures !storageAvailable ==> stored.None?
    {
      theme := InitialTheme(env);
      storageAvailable := env.storage.Item?;
      stored := if HasSaved(env) then Some(env.storage.saved) else None;
      this.rootDark := rootDark;
      new;
      ApplyTheme();
    }

    /** The effect on `[theme]`: set or remove the root class, then save the theme if storage exists. */
    method ApplyTheme()
      modifies this
      ensures theme == old(theme) && Valid()
      ensures !storageAvailable ==> stored == old(stored)
    {
      rootDark := theme == "dark";
      if storageAvailable {
        stored := Some(theme);
      }
    }

    /** `toggleTheme`, followed by the effect the state change triggers. */
    method ToggleTheme()
      modifies this
      ensures theme == Toggle(old(theme)) && Valid()
      ensures !storageAvailable ==> stored == old(stored)
    {
      theme := Toggle(theme);
      ApplyTheme();
    }
  }
}
