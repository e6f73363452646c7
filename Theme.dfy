/** The theme preference and the colour scheme it selects
    (`getColorScheme()`, written out identically in ContentView and in
    SettingsView). */
module Theme {
  import opened Wrappers

  datatype ColorScheme = Light | Dark

  /** The preferences offered by the theme selector, in on-screen order. */
  const Choices: seq<string> := ["System", "Light", "Dark"]

  /** The colour scheme a stored theme preference asks for; `None` means
      "follow the system setting". */
  function ColorSchemeFor(preference: string): (scheme: Option<ColorScheme>)
    ensures scheme == Some(Light) <==> preference == "Light"
    ensures scheme == Some(Dark) <==> preference == "Dark"
  {
    match preference
    case "Light" => Some(Light)
    case "Dark" => Some(Dark)
    case _ => None
  }

  /** Every string other than the two names, "System" and the empty string
      among them, leaves the scheme to the system. */
  lemma OtherPreferencesFollowSystem(preference: string)
    requires preference != "Light" && preference != "Dark"
    ensures ColorSchemeFor(preference) == None
  {
  }

  /** The three choices of the selector give system, light and dark. */
  lemma ChoicesSelect()
    ensures ColorSchemeFor(Choices[0]) == None
    ensures ColorSchemeFor(Choices[1]) == Some(Light)
    ensures ColorSchemeFor(Choices[2]) == Some(Dark)
  {
  }
}
