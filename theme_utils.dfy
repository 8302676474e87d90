/** Theme selection from ThemeUtils. */
module ThemeUtils {

  /** The AppCompatDelegate night-mode constants. */
  const ModeNightFollowSystem: int := -1
  const ModeNightNo: int := 1
  const ModeNightYes: int := 2

  /** `themeToNightMode`: "light" and "dark" are matched exactly; every other string follows the system. */
  function ThemeToNightMode(theme: string): (mode: int)
    ensures mode in {ModeNightNo, ModeNightYes, ModeNightFollowSystem}
    ensures mode == ModeNightNo <==> theme == "light"
    ensures mode == ModeNightYes <==> theme == "dark"
  {
    match theme
    case "light" => ModeNightNo
    case "dark" => ModeNightYes
    case _ => ModeNightFollowSystem
  }

  /** Names the settings screen offers and near misses: only the exact lower-case names select a fixed mode. */
  lemma OtherThemesFollowSystem()
    ensures ThemeToNightMode("system") == ModeNightFollowSystem
    ensures ThemeToNightMode("") == ModeNightFollowSystem
    ensures ThemeToNightMode("Light") == ModeNightFollowSystem
    ensures ThemeToNightMode("DARK") == ModeNightFollowSystem
  {
  }
}
