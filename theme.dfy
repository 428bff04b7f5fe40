/**
 * The light/dark theme switch. Only the flip itself is modelled: the
 * attribute it reads and the preference it stores are outside the model.
 */
module Theme {
  import opened Wrappers

  const Dark: string := "dark"
  const Light: string := "light"

  /**
   * The theme that follows `current`, the page's `data-theme` attribute
   * (None when the attribute is not set): dark becomes light, and anything
   * else, including no attribute at all, becomes dark.
   */
  function Toggle(current: Option<string>): (next: string)
    ensures next == Dark || next == Light
    ensures next == Light <==> current == Some(Dark)
    ensures current != Some(next)
  {
    if current == Some(Dark) then Light else Dark
  }

  /**
   * Toggling twice restores the theme exactly when the theme was one of the
   * two known ones; from anything else two toggles end on light.
   */
  lemma ToggleTwice(current: Option<string>)
    ensures Toggle(Some(Toggle(current))) == Light <==> current != Some(Dark)
    ensures Some(Toggle(Some(Toggle(current)))) == current <==> current == Some(Dark) || current == Some(Light)
  {
  }
}
