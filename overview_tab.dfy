/**
 * Helpers of the overview tab of a training: the extension of a resource
 * file, the absolute URL of a file, and a module duration in minutes shown
 * as `Hh Mmin`.
 */
module OverviewTab {
  import opened Wrappers
  import opened Text
  import opened JsMath

  /** The last element of a non-empty sequence (`pop()`). */
  function Last(s: seq<string>): string
    requires |s| > 0
  {
    s[|s| - 1]
  }

  /**
   * `getExt(r)`: the lower-cased text after the last `.` of the file name,
   * the whole lower-cased name when it has no dot, `""` when there is no file.
   */
  function GetExt(file: Option<string>): (r: string)
    ensures file.None? ==> r == ""
  {
    if file.None? then "" else Lower(Last(Split(file.value, '.')))
  }

  lemma GetExtOfDotted(stem: string, ext: string)
    requires '.' !in ext
    ensures GetExt(Some(stem + "." + ext)) == Lower(ext)
  {
    SplitLast(stem, ext, '.');
  }

  lemma GetExtWithoutDot(name: string)
    requires '.' !in name
    ensures GetExt(Some(name)) == Lower(name)
  {
    SplitNoSep(name, '.');
  }

  const HTTP := "http"

  /** `toAbsolute(url)`: `""` for an empty URL, a URL starting with `http` unchanged, otherwise prefixed by the origin. */
  function ToAbsolute(url: Option<string>, origin: string): (r: string)
    ensures url.None? || url.value == "" ==> r == ""
    ensures url.Some? && StartsWith(url.value, HTTP) ==> r == url.value
    ensures url.Some? && url.value != "" && !StartsWith(url.value, HTTP) ==> r == origin + url.value
  {
    if url.None? || url.value == "" then ""
    else if StartsWith(url.value, HTTP) then url.value
    else origin + url.value
  }

  /** With an `http…` origin, making a URL absolute twice is making it absolute once. */
  lemma ToAbsoluteIdempotent(url: Option<string>, origin: string)
    requires StartsWith(origin, HTTP)
    ensures ToAbsolute(Some(ToAbsolute(url, origin)), origin) == ToAbsolute(url, origin)
  {
    if url.Some? && url.value != "" && !StartsWith(url.value, HTTP) {
      assert (origin + url.value)[..|HTTP|] == origin[..|HTTP|];
    }
  }

  const HOURS_MARK := "h"
  const MINUTES_MARK := "min"

  /**
   * `fmtDuration(d)` for a number of minutes: `""` when it is missing or 0,
   * `"Hh Mmin"` when `H = Math.floor(d / 60)` is not 0, else `"Mmin"`, with
   * `M = d % 60` (JavaScript remainder).
   */
  function FmtDuration(d: Option<int>): string
  {
    if d.None? || d.value == 0 then ""
    else
      var h, m := d.value / 60, JsRem(d.value, 60);
      if h != 0 then IntToStr(h) + HOURS_MARK + " " + IntToStr(m) + MINUTES_MARK
      else IntToStr(m) + MINUTES_MARK
  }

  /** Reading `"Hh Mmin"` or `"Mmin"` back into minutes, the minutes below 60; `None` otherwise. */
  function ReadFmtDuration(text: string): Option<nat>
  {
    var parts := Split(text, ' ');
    if |parts| == 1 then
      match StripSuffix(parts[0], MINUTES_MARK)
      case Some(b) =>
        (match ParseNat(b)
         case Some(m) => if m < 60 then Some(m) else None
         case None => None)
      case None => None
    else if |parts| == 2 then
      match (StripSuffix(parts[0], HOURS_MARK), StripSuffix(parts[1], MINUTES_MARK))
      case (Some(a), Some(b)) =>
        (match (ParseNat(a), ParseNat(b))
         case (Some(h), Some(m)) => if m < 60 then Some(60 * h + m) else None
         case _ => None)
      case _ => None
    else None
  }

  /** A positive number of minutes is shown as whole hours and fewer than 60 minutes that add back up to it. */
  lemma FmtDurationRoundTrip(d: nat)
    requires d > 0
    ensures ReadFmtDuration(FmtDuration(Some(d))) == Some(d)
  {
    var h, m := d / 60, d % 60;
    var mb := NatToStr(m);
    DigitsExclude(mb, ' ');
    StripSuffixAppended(mb, MINUTES_MARK);
    NatToStrParses(m);
    if h != 0 {
      var hb := NatToStr(h);
      var a, b := hb + HOURS_MARK, mb + MINUTES_MARK;
      FmtDurationText(d);
      DigitsExclude(hb, ' ');
      SplitPair(a, b, ' ');
      StripSuffixAppended(hb, HOURS_MARK);
      NatToStrParses(h);
      ReadHoursAndMinutes(a + [' '] + b, a, b, hb, mb, h, m);
    } else {
      FmtDurationText(d);
      SplitNoSep(mb + MINUTES_MARK, ' ');
      ReadMinutesOnly(mb + MINUTES_MARK, mb, m);
    }
  }

  /** The text of a positive duration, written with the rendered whole hours and remaining minutes. */
  lemma FmtDurationText(d: nat)
    requires d > 0
    ensures var h, m := d / 60, d % 60;
      FmtDuration(Some(d)) == if h != 0 then (NatToStr(h) + HOURS_MARK) + [' '] + (NatToStr(m) + MINUTES_MARK)
        else NatToStr(m) + MINUTES_MARK
  {
    var h, m := d / 60, d % 60;
    assert IntToStr(h) == NatToStr(h) && JsRem(d, 60) == m && IntToStr(m) == NatToStr(m);
  }

  /** One word `Mmin`, `M` below 60, reads as `M` minutes. */
  lemma ReadMinutesOnly(text: string, mb: string, m: nat)
    requires Split(text, ' ') == [text] && StripSuffix(text, MINUTES_MARK) == Some(mb)
    requires ParseNat(mb) == Some(m) && m < 60
    ensures ReadFmtDuration(text) == Some(m)
  {
  }

  /** Two words `Hh` and `Mmin`, `M` below 60, read as `60·H + M` minutes. */
  lemma ReadHoursAndMinutes(text: string, a: string, b: string, hb: string, mb: string, h: nat, m: nat)
    requires Split(text, ' ') == [a, b]
    requires StripSuffix(a, HOURS_MARK) == Some(hb) && StripSuffix(b, MINUTES_MARK) == Some(mb)
    requires ParseNat(hb) == Some(h) && ParseNat(mb) == Some(m) && m < 60
    ensures ReadFmtDuration(text) == Some(60 * h + m)
  {
  }
}
