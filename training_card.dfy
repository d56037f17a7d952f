/**
 * The training card of the catalogue: the short duration text, the status
 * badge, the call-to-action label, and what the card shows of the progress
 * and the content counts.
 */
module TrainingCard {
  import opened Wrappers
  import opened Text
  import FormationSerializers
  import Formatters

  // ------------------------------------------------------------ duration text

  const HOURS_SUFFIX := " h"
  const MINUTES_SUFFIX := " min"

  /** `Number(x) > 0`; `None` stands for `NaN` and for a missing field (`undefined > 0` is false). */
  predicate Positive(v: Option<int>)
  {
    v.Some? && v.value > 0
  }

  /** The `parts` list: `"H h"` when the hours are positive, then `"M min"` when the minutes are. */
  function DurationParts(hours: Option<int>, minutes: Option<int>): (r: seq<string>)
    ensures |r| == (if Positive(hours) then 1 else 0) + (if Positive(minutes) then 1 else 0)
    ensures Positive(hours) ==> r[0] == IntToStr(hours.value) + HOURS_SUFFIX
    ensures Positive(minutes) ==> r[|r| - 1] == IntToStr(minutes.value) + MINUTES_SUFFIX
  {
    (if Positive(hours) then [IntToStr(hours.value) + HOURS_SUFFIX] else [])
      + (if Positive(minutes) then [IntToStr(minutes.value) + MINUTES_SUFFIX] else [])
  }

  /**
   * The card's `formatDuration`: the first two `:`-separated fields read with
   * `Number`, `null` (`None`) for a falsy input or when neither is positive.
   */
  function CardDuration(input: Option<string>): (r: Option<string>)
    ensures input.None? || input.value == "" ==> r.None?
    ensures input.Some? && input.value != "" ==>
      var p := Split(input.value, ':');
      (r.None? <==> !Positive(JsNumber(p[0])) && !(|p| > 1 && Positive(JsNumber(p[1]))))
  {
    if input.None? || input.value == "" then None
    else
      var fields := Split(input.value, ':');
      var hours := JsNumber(fields[0]);
      var minutes := if |fields| > 1 then JsNumber(fields[1]) else None;
      var parts := DurationParts(hours, minutes);
      if |parts| == 0 then None else Some(Join(parts, " "))
  }

  /** The short form of whole hours and minutes, written independently of the parsing. */
  function Short(h: nat, m: nat): Option<string>
  {
    if h == 0 && m == 0 then None
    else if m == 0 then Some(NatToStr(h) + HOURS_SUFFIX)
    else if h == 0 then Some(NatToStr(m) + MINUTES_SUFFIX)
    else Some(NatToStr(h) + HOURS_SUFFIX + " " + NatToStr(m) + MINUTES_SUFFIX)
  }

  /** The card reads the backend's `HH:MM:SS` text of `d` seconds as its whole hours and minutes. */
  lemma ReadsBackendDuration(d: nat)
    ensures CardDuration(Some(FormationSerializers.FormatHms(Some(d)))) == Short(d / 3600, (d % 3600) / 60)
  {
    Formatters.HmsFields(d);
    PartsShort(d / 3600, (d % 3600) / 60);
  }

  /** Joining the parts of whole hours and minutes gives their short form. */
  lemma PartsShort(h: nat, m: nat)
    ensures var parts := DurationParts(Some(h), Some(m));
      (if |parts| == 0 then None else Some(Join(parts, " "))) == Short(h, m)
  {
    var parts := DurationParts(Some(h), Some(m));
    if h > 0 && m > 0 {
      assert parts == [NatToStr(h) + HOURS_SUFFIX, NatToStr(m) + MINUTES_SUFFIX];
      assert Join(parts, " ") == parts[0] + " " + Join([parts[1]], " ");
      assert Join([parts[1]], " ") == parts[1];
      assert Join(parts, " ") == NatToStr(h) + HOURS_SUFFIX + " " + NatToStr(m) + MINUTES_SUFFIX;
      assert Short(h, m) == Some(NatToStr(h) + HOURS_SUFFIX + " " + NatToStr(m) + MINUTES_SUFFIX);
    }
  }

  // ------------------------------------------------------------ status badge

  datatype Badge = Badge(caption: string, className: string)

  const NOUVELLE := "nouvelle"
  const EN_COURS := "en_cours"
  const TERMINEE := "terminee"
  const UNKNOWN_BADGE := Badge("Inconnue", "bg-light text-dark")

  /** `statusMap[statut] ?? statusMap.default`. */
  function StatusBadge(statut: Option<string>): (b: Badge)
    ensures b == UNKNOWN_BADGE <==> statut.None? || statut.value !in {NOUVELLE, EN_COURS, TERMINEE}
  {
    if statut == Some(NOUVELLE) then Badge("Nouvelle", "bg-secondary")
    else if statut == Some(EN_COURS) then Badge("En cours", "bg-primary")
    else if statut == Some(TERMINEE) then Badge("Terminée", "bg-success")
    else UNKNOWN_BADGE
  }

  // ------------------------------------------------------------ card contents

  datatype Cta = Revoir | Commencer | Continuer

  /** The button label: review a finished training, start a new one, continue any other. */
  function CtaLabel(statut: Option<string>): (c: Cta)
    ensures c == Revoir <==> statut == Some(TERMINEE)
    ensures c == Commencer <==> statut == Some(NOUVELLE)
  {
    if statut == Some(TERMINEE) then Revoir
    else if statut == Some(NOUVELLE) then Commencer
    else Continuer
  }

  /** The fields of a training that the card reads; `None` for a missing one. */
  datatype CardInput = CardInput(
    statut: Option<string>,
    progress: Option<int>,
    moduleCount: Option<nat>,
    resourceCount: Option<nat>,
    totalEstimatedTime: Option<string>)

  /** What the card shows; `progress` is `None` when the progress bar is hidden. */
  datatype CardView = CardView(
    badge: Badge,
    cta: Cta,
    progress: Option<int>,
    chapters: nat,
    resources: nat,
    duration: Option<string>)

  function Card(t: CardInput): (v: CardView)
    ensures v.progress.Some? <==> t.statut != Some(NOUVELLE)
    ensures v.progress.Some? && t.progress.None? ==> v.progress == Some(0)
    ensures t.moduleCount.None? ==> v.chapters == 0
    ensures t.resourceCount.None? ==> v.resources == 0
    ensures t.statut != Some(NOUVELLE) && t.progress.Some? ==> v.progress == t.progress
    ensures t.moduleCount.Some? ==> v.chapters == t.moduleCount.value
    ensures t.resourceCount.Some? ==> v.resources == t.resourceCount.value
    ensures v.badge == StatusBadge(t.statut) && v.cta == CtaLabel(t.statut)
    ensures v.duration == CardDuration(t.totalEstimatedTime)
  {
    CardView(
      StatusBadge(t.statut),
      CtaLabel(t.statut),
      if t.statut != Some(NOUVELLE) then Some(t.progress.GetOr(0)) else None,
      t.moduleCount.GetOr(0),
      t.resourceCount.GetOr(0),
      CardDuration(t.totalEstimatedTime))
  }

  /** `{n} module{n > 1 && "s"}`: the plural ending appears only above one. */
  function CountLabel(n: nat, word: string): (r: string)
    ensures |r| > |word|
    ensures |word| > 0 && word[|word| - 1] != 's' ==> (r[|r| - 1] == 's' <==> n > 1)
  {
    NatToStr(n) + " " + word + (if n > 1 then "s" else "")
  }
}
