/** The preview of a code block in the studio's rich-text content. */
module StudioBlock {
  import opened Wrappers
  import opened JsText
  import opened StudioValues

  /** `code ? `${code.split('\n').length} lines` : 'No code provided yet'`. */
  function CodeSubtitle(code: string): (subtitle: string)
    ensures code == "" ==> subtitle == "No code provided yet"
    ensures code != "" ==> |subtitle| > 6 && subtitle[|subtitle| - 6..] == " lines"
  {
    if code != "" then NatToString(SplitLength(code, '\n')) + " lines" else "No code provided yet"
  }

  /** A non-empty code block's subtitle counts one line more than it has line breaks. */
  lemma CodeLineCount(code: string)
    requires code != ""
    ensures var subtitle := CodeSubtitle(code);
      && AllDigits(subtitle[..|subtitle| - 6])
      && DigitsValue(subtitle[..|subtitle| - 6]) == CountChar(code, '\n') + 1 >= 1
  {
    var digits := NatToString(SplitLength(code, '\n'));
    assert CodeSubtitle(code)[..|CodeSubtitle(code)| - 6] == digits;
    NatToStringValue(SplitLength(code, '\n'));
  }

  /**
   * The code-block preview: the title, or "Code (<language>)" with a null or
   * missing language read as "plaintext" (an empty one stays empty).
   */
  function CodePreview(title: string, language: Option<string>, code: string): (p: Preview)
    ensures title != "" ==> p.title == title
    ensures title == "" && language.None? ==> p.title == "Code (plaintext)"
    ensures title == "" && language.Some? ==> p.title == "Code (" + language.value + ")"
    ensures p.subtitle == CodeSubtitle(code)
  {
    Preview(OrElse(title, "Code (" + language.GetOr("plaintext") + ")"), CodeSubtitle(code))
  }
}
