/** The two small input rules of the interactive loop: the theme cycle and the goose mode names. */
module Modes {
  import opened Wrappers
  import opened Text

  datatype Theme = Light | Dark | Ansi

  /** The theme toggle: Light, then Dark, then Ansi, then Light again. */
  function NextTheme(t: Theme): (n: Theme)
    ensures n != t
  {
    match t
    case Light => Dark
    case Dark => Ansi
    case Ansi => Light
  }

  /** Toggling three times returns to the start, and never sooner. */
  lemma ThemeCycle(t: Theme)
    ensures NextTheme(NextTheme(NextTheme(t))) == t
    ensures NextTheme(NextTheme(t)) != t
  {
  }

  datatype GooseMode = Auto | Approve | Chat

  /** The string stored under `GOOSE_MODE`. */
  function ModeName(m: GooseMode): string {
    match m
    case Auto => "auto"
    case Approve => "approve"
    case Chat => "chat"
  }

  /**
   * The mode command's check: lower-case the input and accept only the three
   * mode names.
   */
  function ParseMode(s: string): (r: Option<GooseMode>)
    ensures r.Some? <==> ToLowerAscii(s) in {"auto", "approve", "chat"}
    ensures r.Some? ==> ModeName(r.value) == ToLowerAscii(s)
  {
    var lower := ToLowerAscii(s);
    if lower == "auto" then Some(Auto)
    else if lower == "approve" then Some(Approve)
    else if lower == "chat" then Some(Chat)
    else None
  }

  /** Every mode's name is accepted and read back as that mode; case does not matter. */
  lemma ParseModeName(m: GooseMode, s: string)
    ensures ParseMode(ModeName(m)) == Some(m)
    ensures ParseMode(ToLowerAscii(s)) == ParseMode(s)
  {
    ToLowerAsciiOfLower(ModeName(m));
    ToLowerAsciiIdempotent(s);
  }
}
