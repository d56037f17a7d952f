/**
 * The training table of the management screen: one row per training, the
 * duration in minutes shown as `Hh MMm`, and a single "no data" row when
 * the list is empty.
 */
module TrainingTable {
  import opened Wrappers
  import opened Text
  import opened JsMath
  import opened Trainings

  /** `s.padStart(2, "0")`: zeros in front up to two characters; longer strings unchanged. */
  function PadStart2(s: string): (r: string)
    ensures |r| == if |s| >= 2 then |s| else 2
    ensures r[|r| - |s|..] == s
    ensures forall k :: 0 <= k < |r| - |s| ==> r[k] == '0'
  {
    if |s| >= 2 then s else seq(2 - |s|, _ => '0') + s
  }

  const HOURS_MARK := "h"
  const MINUTES_MARK := "m"

  /**
   * `formatDuration(minutes)`: `Math.floor(minutes / 60)` hours and the
   * JavaScript remainder `minutes % 60`, padded to two characters.
   */
  function TableDuration(minutes: int): string
  {
    IntToStr(minutes / 60) + HOURS_MARK + " " + PadStart2(IntToStr(JsRem(minutes, 60))) + MINUTES_MARK
  }

  /** Reading a `Hh MMm` text back into minutes; `None` when it does not have that shape. */
  function ReadTableDuration(text: string): Option<nat>
  {
    var parts := Split(text, ' ');
    if |parts| != 2 then None
    else
      match (StripSuffix(parts[0], HOURS_MARK), StripSuffix(parts[1], MINUTES_MARK))
      case (Some(a), Some(b)) =>
        (match (ParseNat(a), ParseNat(b))
         case (Some(h), Some(m)) => if m < 60 then Some(60 * h + m) else None
         case _ => None)
      case _ => None
  }

  /** For a non-negative duration the minutes field is exactly two zero-padded digits. */
  lemma MinutesTwoDigits(minutes: nat)
    ensures PadStart2(IntToStr(JsRem(minutes, 60))) == Pad2(minutes % 60)
    ensures |Pad2(minutes % 60)| == 2
  {
  }

  /** The text of a non-negative duration reads back as that duration. */
  lemma ReadTableDurationRoundTrip(minutes: nat)
    ensures ReadTableDuration(TableDuration(minutes)) == Some(minutes)
  {
    var h, m := minutes / 60, minutes % 60;
    MinutesTwoDigits(minutes);
    assert TableDuration(minutes) == NatToStr(h) + HOURS_MARK + " " + Pad2(m) + MINUTES_MARK;
    ReadHoursMinutes(h, m);
    assert 60 * h + m == minutes;
  }

  /** `"{h}h {mm}m"` with two-digit minutes below 60 reads as `60·h + m`. */
  lemma ReadHoursMinutes(h: nat, m: nat)
    requires m < 60
    ensures ReadTableDuration(NatToStr(h) + HOURS_MARK + " " + Pad2(m) + MINUTES_MARK) == Some(60 * h + m)
  {
    var a, b := NatToStr(h) + HOURS_MARK, Pad2(m) + MINUTES_MARK;
    assert NatToStr(h) + HOURS_MARK + " " + Pad2(m) + MINUTES_MARK == a + [' '] + b;
    DigitsExclude(NatToStr(h), ' ');
    DigitsExclude(Pad2(m), ' ');
    SplitPair(a, b, ' ');
    StripSuffixAppended(NatToStr(h), HOURS_MARK);
    StripSuffixAppended(Pad2(m), MINUTES_MARK);
    NatToStrParses(h);
    Pad2Parses(m);
  }

  // ------------------------------------------------------------------- rows

  /** The column headers. */
  const HEADERS := ["ID", "Titre", "Département", "Durée", "Créateur", "Statut", "Progression", "Actions"]

  datatype Row = Row(id: int, title: string, department: string, duration: string, createdBy: string, status: string, progress: int)

  datatype TableBody = NoData(colSpan: nat) | Rows(rows: seq<Row>)

  function RowOf(t: Training): (r: Row)
    ensures r.id == t.id && r.progress == t.progress && r.status == t.status
    ensures r.title == t.title && r.department == t.department && r.createdBy == t.createdBy
    ensures r.duration == TableDuration(t.duration)
    ensures t.duration >= 0 ==> ReadTableDuration(r.duration) == Some(t.duration)
  {
    var row := Row(t.id, t.title, t.department, TableDuration(t.duration), t.createdBy, t.status, t.progress);
    if t.duration >= 0 then ReadTableDurationRoundTrip(t.duration); row else row
  }

  /** The table body: one row per training in order, or one row spanning every column. */
  function Body(trainings: seq<Training>): (b: TableBody)
    ensures b.NoData? <==> |trainings| == 0
    ensures b.NoData? ==> b.colSpan == |HEADERS|
    ensures b.Rows? ==> |b.rows| == |trainings|
    ensures b.Rows? ==> forall k :: 0 <= k < |trainings| ==> b.rows[k] == RowOf(trainings[k])
  {
    if |trainings| == 0 then NoData(8) else Rows(seq(|trainings|, k requires 0 <= k < |trainings| => RowOf(trainings[k])))
  }
}
