/**
 * The shared `formatDuration` helper: an `HH:MM:SS` duration text shown as
 * French words ("2 heures et 1 minute"), seconds ignored.
 */
module Formatters {
  import opened Wrappers
  import opened Text
  import FormationSerializers

  const HOUR := "heure"
  const MINUTE := "minute"
  const AND := " et "
  const LESS_THAN_A_MINUTE := "Moins d'une minute"

  /** `${n} word`, with a plural `s` exactly when `n > 1`. */
  function Unit(n: int, word: string): (r: string)
    ensures |r| > |word|
    ensures |word| > 0 && word[|word| - 1] != 's' ==> (r[|r| - 1] == 's' <==> n > 1)
  {
    IntToStr(n) + " " + word + (if n > 1 then "s" else "")
  }

  /** `parseInt` gave a number above zero (`NaN > 0` is false). */
  predicate Positive(v: Option<int>)
  {
    v.Some? && v.value > 0
  }

  /** The pieces pushed into `result`: the hours first, then the minutes, each only when positive. */
  function Pieces(hours: Option<int>, minutes: Option<int>): (r: seq<string>)
    ensures |r| == (if Positive(hours) then 1 else 0) + (if Positive(minutes) then 1 else 0)
    ensures Positive(hours) ==> r[0] == Unit(hours.value, HOUR)
    ensures Positive(minutes) ==> r[|r| - 1] == Unit(minutes.value, MINUTE)
  {
    (if Positive(hours) then [Unit(hours.value, HOUR)] else [])
      + (if Positive(minutes) then [Unit(minutes.value, MINUTE)] else [])
  }

  /**
   * `formatDuration(durationString)`; `None` as input stands for a value
   * that is not a string, `None` as result for `null`.
   */
  function FormatDuration(input: Option<string>): (r: Option<string>)
    ensures r.None? <==> input.None? || input.value == "" || |Split(input.value, ':')| < 3
  {
    if input.None? || input.value == "" then None
    else
      var parts := Split(input.value, ':');
      if |parts| < 3 then None
      else
        var pieces := Pieces(ParseIntPrefix(parts[0]), ParseIntPrefix(parts[1]));
        if |pieces| == 0 then Some(LESS_THAN_A_MINUTE) else Some(Join(pieces, AND))
  }

  /** The spoken form of whole hours and minutes, written independently of the parsing. */
  function Spoken(h: nat, m: nat): string
  {
    if h == 0 && m == 0 then LESS_THAN_A_MINUTE
    else if m == 0 then Unit(h, HOUR)
    else if h == 0 then Unit(m, MINUTE)
    else Unit(h, HOUR) + AND + Unit(m, MINUTE)
  }

  /** Only the first two fields matter: the seconds, and anything after them, are ignored. */
  lemma SecondsIgnored(a: string, b: string, c1: string, c2: string)
    requires ':' !in a && ':' !in b
    ensures FormatDuration(Some(a + ":" + b + ":" + c1)) == FormatDuration(Some(a + ":" + b + ":" + c2))
  {
    SplitPrefix(a, b, c1);
    SplitPrefix(a, b, c2);
  }

  lemma SplitPrefix(a: string, b: string, c: string)
    requires ':' !in a && ':' !in b
    ensures var p := Split(a + ":" + b + ":" + c, ':'); |p| >= 3 && p[0] == a && p[1] == b
  {
    assert a + ":" + b + ":" + c == a + [':'] + (b + [':'] + c);
    SplitCons(a, b + [':'] + c, ':');
    SplitCons(b, c, ':');
  }

  /**
   * Reading the backend's `HH:MM:SS` text of `d` seconds gives the spoken
   * whole hours and remaining minutes of `d`.
   */
  lemma ReadsBackendDuration(d: nat)
    ensures FormatDuration(Some(FormationSerializers.FormatHms(Some(d))))
      == Some(Spoken(d / 3600, (d % 3600) / 60))
  {
    var h, m := d / 3600, (d % 3600) / 60;
    HmsFields(d);
    PiecesSpoken(h, m);
  }

  /** The backend text splits into three fields whose first two parse as the hours and minutes. */
  lemma HmsFields(d: nat)
    ensures var p := Split(FormationSerializers.FormatHms(Some(d)), ':');
      |p| == 3 && ParseIntPrefix(p[0]) == Some(d / 3600) && ParseIntPrefix(p[1]) == Some((d % 3600) / 60)
      && JsNumber(p[0]) == Some(d / 3600) && JsNumber(p[1]) == Some((d % 3600) / 60)
  {
    var h, m, sec := d / 3600, (d % 3600) / 60, d % 60;
    assert FormationSerializers.FormatHms(Some(d)) == Pad2(h) + ":" + Pad2(m) + ":" + Pad2(sec);
    FormationSerializers.DigitsHaveNoColon(Pad2(h));
    FormationSerializers.DigitsHaveNoColon(Pad2(m));
    FormationSerializers.DigitsHaveNoColon(Pad2(sec));
    FormationSerializers.SplitThree(Pad2(h), Pad2(m), Pad2(sec));
    Pad2Parses(h);
    Pad2Parses(m);
    ParseIntOfDigits(Pad2(h));
    ParseIntOfDigits(Pad2(m));
  }

  /** Joining the pieces of whole hours and minutes gives their spoken form. */
  lemma PiecesSpoken(h: nat, m: nat)
    ensures var pieces := Pieces(Some(h), Some(m));
      (if |pieces| == 0 then LESS_THAN_A_MINUTE else Join(pieces, AND)) == Spoken(h, m)
  {
    var pieces := Pieces(Some(h), Some(m));
    if h > 0 && m > 0 {
      assert pieces == [Unit(h, HOUR), Unit(m, MINUTE)];
      assert Join(pieces, AND) == Unit(h, HOUR) + AND + Join([Unit(m, MINUTE)], AND);
    }
  }
}
