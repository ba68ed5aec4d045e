/** The studio's `song` document: the duration formatter and the list preview. */
module StudioSong {
  import opened Wrappers
  import opened JsText
  import opened StudioValues

  /**
   * `formatDuration(seconds)` for a whole number of seconds; `None` is a
   * missing duration. The result is minutes, `:`, and two-digit seconds
   * below 60.
   */
  function FormatDuration(seconds: Option<int>): (text: string)
    ensures seconds.None? || seconds.value <= 0 ==> text == "0:00"
    ensures |text| >= 4 && text[|text| - 3] == ':'
    ensures AllDigits(text[..|text| - 3]) && AllDigits(text[|text| - 2..])
    ensures DigitsValue(text[|text| - 2..]) < 60
  {
    if seconds.None? || seconds.value <= 0 then
      assert DigitsValue("00") == 0 by {
        assert "00"[..1] == "0";
      }
      "0:00"
    else
      var mins := seconds.value / 60;
      var secs := seconds.value % 60;
      PadDigitsValue(secs, 2);
      var text := NatToString(mins) + ":" + PadDigits(secs, 2);
      assert text[..|text| - 3] == NatToString(mins);
      assert text[|text| - 2..] == PadDigits(secs, 2);
      text
  }

  /** Reads a `m:ss` duration back as a number of seconds. */
  function ParseDuration(text: string): nat
    requires |text| >= 4 && text[|text| - 3] == ':'
    requires AllDigits(text[..|text| - 3]) && AllDigits(text[|text| - 2..])
  {
    DigitsValue(text[..|text| - 3]) * 60 + DigitsValue(text[|text| - 2..])
  }

  /** Reading a formatted positive duration back gives the number of seconds. */
  lemma DurationRoundTrip(seconds: int)
    requires seconds > 0
    ensures ParseDuration(FormatDuration(Some(seconds))) == seconds
  {
    var mins := seconds / 60;
    var secs := seconds % 60;
    var text := FormatDuration(Some(seconds));
    assert text == NatToString(mins) + ":" + PadDigits(secs, 2);
    assert text[..|text| - 3] == NatToString(mins);
    assert text[|text| - 2..] == PadDigits(secs, 2);
    NatToStringValue(mins);
    PadDigitsValue(secs, 2);
  }

  /**
   * The song preview: the title or "Untitled song"; the artist or "Unknown
   * artist", the separator, and the formatted duration.
   */
  function SongPreview(title: string, artist: string, duration: Option<int>): (p: Preview)
    ensures p.title == if title != "" then title else "Untitled song"
    ensures var who := if artist != "" then artist else "Unknown artist";
      && StartsWith(p.subtitle, who + Separator)
      && p.subtitle[|who| + |Separator|..] == FormatDuration(duration)
  {
    var who := OrElse(artist, "Unknown artist");
    var subtitle := who + Separator + FormatDuration(duration);
    assert subtitle[..|who| + |Separator|] == who + Separator;
    Preview(OrElse(title, "Untitled song"), subtitle)
  }
}
