/** The one piece of logic modelled from SettingsScreen: the theme picker's night-mode choice. */
module SettingsScreen {
  import ThemeUtils

  /** The inline `when (code)` the theme menu applies when an entry is picked. */
  function PickedNightMode(code: string): (mode: int)
    ensures mode == ThemeUtils.ThemeToNightMode(code)
  {
    match code
    case "light" => ThemeUtils.ModeNightNo
    case "dark" => ThemeUtils.ModeNightYes
    case _ => ThemeUtils.ModeNightFollowSystem
  }
}
