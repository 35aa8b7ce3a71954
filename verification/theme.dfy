/** The light/dark theme flag and the token it is stored under. */
module Theme {
  import opened Wrappers

  /** The flag read back from the stored token: dark exactly when the store
      holds the token "dark"; an absent token or any other token means light. */
  function DecodeTheme(stored: Option<string>): (dark: bool)
    ensures stored == None ==> !dark
    ensures forall t :: stored == Some(t) && t != "dark" ==> !dark
    ensures dark <==> stored == Some("dark")
  {
    stored == Some("dark")
  }

  /** The token written for a flag. It is one of the two canonical tokens and
      reads back as the same flag. */
  function EncodeTheme(dark: bool): (token: string)
    ensures token == "dark" || token == "light"
    ensures DecodeTheme(Some(token)) == dark
  {
    if dark then "dark" else "light"
  }
}
