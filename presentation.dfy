/** Display text for the cover's category, and the light/dark theme switch. */
module Presentation {

  /** The display names of the known category keys. */
  const Categories: map<string, string> := map[
    "menuiserie" := "Menuiserie",
    "plomberie" := "Plomberie",
    "electricite" := "\U{00C9}lectricit\U{00E9}",
    "maconnerie" := "Ma\U{00E7}onnerie",
    "decoration" := "D\U{00E9}coration",
    "jardinage" := "Jardinage",
    "renovation" := "R\U{00E9}novation"
  ]

  /** The category as shown on the cover: the display name of a known key
      (the lookup falls back to the key when the name is empty, which none
      is), or the key itself otherwise. */
  function CategoryName(key: string): (r: string)
    ensures key in Categories ==> r == Categories[key]
    ensures key !in Categories ==> r == key
  {
    if key in Categories && Categories[key] != "" then Categories[key] else key
  }

  /** What the cover shows for two known keys and for an unknown one. */
  lemma CategoryNameExamples()
    ensures CategoryName("electricite") == "\U{00C9}lectricit\U{00E9}"
    ensures CategoryName("menuiserie") == "Menuiserie"
    ensures CategoryName("unknown") == "unknown"
  {
  }

  /** The theme after a toggle: "light" from "dark", and "dark" from
      anything else. */
  function ToggledTheme(current: string): (r: string)
    ensures r == "light" || r == "dark"
    ensures r == "light" <==> current == "dark"
  {
    if current == "dark" then "light" else "dark"
  }

  /** Toggling twice gives back the theme exactly when it was one of the two
      known themes. */
  lemma ToggleTwice(current: string)
    ensures ToggledTheme(ToggledTheme(current)) == current <==> current == "light" || current == "dark"
  {
  }
}
