/**
 * The profile page: the experience text of a number of months, the
 * multipart payload built from the edited profile, and the password-change
 * confirmation check.
 */
module Profile {
  import opened Wrappers
  import opened Text

  // ------------------------------------------------------------ experience

  const FALLBACK := "0 ans, 0 mois"

  /**
   * `getExperienceText(totalMonths)`; `None` stands for a value that is not
   * a number or is `NaN`. Negative counts fall back as well.
   */
  function ExperienceText(totalMonths: Option<int>): (r: string)
    ensures totalMonths.None? || totalMonths.value < 0 ==> r == FALLBACK
  {
    if totalMonths.None? || totalMonths.value < 0 then FALLBACK
    else
      var m := totalMonths.value;
      var years, months := m / 12, m % 12;
      IntToStr(years) + " " + YearsWord(years) + " " + IntToStr(months) + " " + MONTHS
  }

  const MONTHS := "mois"

  /** `an${years > 1 ? 's' : ''},`: the year unit with its comma. */
  function YearsWord(years: int): string
  {
    if years > 1 then "ans," else "an,"
  }

  /**
   * The read-only experience field: `parseInt(value, 10) || 0`, so text that
   * does not start with a number shows as 0 months.
   */
  function ExperienceField(raw: string): string
  {
    ExperienceText(Some(ParseIntPrefix(raw).GetOr(0)))
  }

  /** Reading `"Y an[s], M mois"` back into months, `M` below 12; `None` otherwise. */
  function ReadExperience(text: string): Option<nat>
  {
    var words := Split(text, ' ');
    if |words| != 4 || words[1] !in ["an,", "ans,"] || words[3] != "mois" then None
    else
      match (ParseNat(words[0]), ParseNat(words[2]))
      case (Some(y), Some(m)) => if m < 12 then Some(12 * y + m) else None
      case _ => None
  }

  /** The text of a non-negative month count reads back as that count: `12·years + months`, `months < 12`. */
  lemma ExperienceRoundTrip(m: nat)
    ensures ReadExperience(ExperienceText(Some(m))) == Some(m)
  {
    var years, months := m / 12, m % 12;
    assert ExperienceText(Some(m)) == NatToStr(years) + " " + YearsWord(years) + " " + NatToStr(months) + " " + MONTHS;
    ReadWords(years, months);
  }

  lemma ReadWords(years: nat, months: nat)
    requires months < 12
    ensures ReadExperience(NatToStr(years) + " " + YearsWord(years) + " " + NatToStr(months) + " " + MONTHS)
      == Some(12 * years + months)
  {
    var y, w, mo := NatToStr(years), YearsWord(years), NatToStr(months);
    var text := y + " " + w + " " + mo + " " + MONTHS;
    DigitsExclude(y, ' ');
    DigitsExclude(mo, ' ');
    YearsWordListed(years);
    SplitFour(y, w, mo, MONTHS);
    NatToStrParses(years);
    NatToStrParses(months);
    ReadFourWords(text, y, w, mo, years, months);
  }

  /** Four words in the expected shape read back as `12·years + months`. */
  lemma ReadFourWords(text: string, y: string, w: string, mo: string, years: nat, months: nat)
    requires Split(text, ' ') == [y, w, mo, MONTHS] && w in ["an,", "ans,"] && months < 12
    requires ParseNat(y) == Some(years) && ParseNat(mo) == Some(months)
    ensures ReadExperience(text) == Some(12 * years + months)
  {
  }

  /** The year word is one of the two forms the reader accepts, and holds no space. */
  lemma YearsWordListed(years: int)
    ensures YearsWord(years) in ["an,", "ans,"] && ' ' !in YearsWord(years)
  {
  }

  lemma SplitFour(a: string, b: string, c: string, d: string)
    requires ' ' !in a && ' ' !in b && ' ' !in c && ' ' !in d
    ensures Split(a + " " + b + " " + c + " " + d, ' ') == [a, b, c, d]
  {
    assert a + " " + b + " " + c + " " + d == a + [' '] + (b + [' '] + (c + [' '] + d));
    SplitCons(a, b + [' '] + (c + [' '] + d), ' ');
    SplitCons(b, c + [' '] + d, ' ');
    SplitPair(c, d, ' ');
  }

  /** The plural `s` appears only above one year, so a valid 0 reads `an` while the fallback reads `ans`. */
  lemma ZeroIsNotTheFallback()
    ensures ExperienceText(Some(0)) == "0 an, 0 mois"
    ensures ExperienceText(None) != ExperienceText(Some(0))
  {
    assert NatToStr(0) == "0";
  }

  /** A field that does not hold a number shows as zero months. */
  lemma NonNumericShowsZero(raw: string)
    requires ParseIntPrefix(raw).None?
    ensures ExperienceField(raw) == ExperienceText(Some(0))
  {
  }

  // ------------------------------------------------------------ save payload

  /** A value of the edited profile. */
  datatype Value = Null | Undefined | Str(s: string) | Num(n: int) | File(name: string) | Object

  /** JavaScript truthiness of a value. */
  predicate Truthy(v: Value)
  {
    match v
    case Null => false
    case Undefined => false
    case Str(s) => s != ""
    case Num(n) => n != 0
    case _ => true
  }

  datatype Entry = Entry(key: string, value: Value)

  const PROJET := "projet"
  const FILE_KEYS := {"photo", "ddc"}
  const OPTIONAL_KEYS := {"manager", "backup", "projet"}

  /** What one key of the profile adds to the multipart payload, in order. */
  function EntriesFor(key: string, v: Value): seq<Entry>
  {
    if key == PROJET then []
    else
      (if v == Null || v == Str("") then [Entry(key, Str(""))] else [])
      + (if key in FILE_KEYS then (if v.File? then [Entry(key, v)] else [])
         else if key in OPTIONAL_KEYS then (if Truthy(v) then [Entry(key, v)] else [])
         else if v != Null && v != Undefined then [Entry(key, v)] else [])
  }

  /** The payload of the whole profile: the entries of each key, in key order. */
  function Payload(fields: seq<Entry>): seq<Entry>
  {
    if |fields| == 0 then [] else Payload(fields[..|fields| - 1]) + EntriesFor(fields[|fields| - 1].key, fields[|fields| - 1].value)
  }

  /** `handleSave`: the loop over the profile's keys that fills the `FormData`. */
  method HandleSave(fields: seq<Entry>) returns (sent: seq<Entry>)
    ensures sent == Payload(fields)
  {
    sent := [];
    var i := 0;
    while i < |fields|
      invariant 0 <= i <= |fields|
      invariant sent == Payload(fields[..i])
    {
      assert fields[..i + 1][..i] == fields[..i];
      sent := sent + EntriesFor(fields[i].key, fields[i].value);
      i := i + 1;
    }
    assert fields[..i] == fields;
  }

  /**
   * The entries one key contributes: never any for `projet`; files only as
   * files for `photo`/`ddc`; `manager`/`backup` only when truthy; `null` adds
   * one empty text, and an empty text on an ordinary key is sent twice.
   */
  lemma EntriesForMeaning(key: string, v: Value)
    ensures forall e :: e in EntriesFor(key, v) ==> e.key == key && key != PROJET
    ensures key in FILE_KEYS ==> forall e :: e in EntriesFor(key, v) ==> e.value.File? || e.value == Str("")
    ensures key in OPTIONAL_KEYS ==> forall e :: e in EntriesFor(key, v) ==> Truthy(e.value) || e.value == Str("")
    ensures key !in FILE_KEYS && key !in OPTIONAL_KEYS ==>
      |EntriesFor(key, v)| == (if v == Str("") then 2 else if v == Undefined then 0 else 1)
    ensures v == Null && key != PROJET ==> EntriesFor(key, v) == [Entry(key, Str(""))]
  {
  }

  /** Every entry of the payload comes from a key of the profile, and `projet` is never sent. */
  lemma {:induction false} PayloadKeys(fields: seq<Entry>)
    ensures forall e :: e in Payload(fields) ==> e.key != PROJET
    ensures forall e :: e in Payload(fields) ==> exists k :: 0 <= k < |fields| && fields[k].key == e.key
  {
    if |fields| > 0 {
      var init, last := fields[..|fields| - 1], fields[|fields| - 1];
      PayloadKeys(init);
      EntriesForMeaning(last.key, last.value);
      forall e | e in Payload(fields)
        ensures e.key != PROJET
        ensures exists k :: 0 <= k < |fields| && fields[k].key == e.key
      {
        if e in Payload(init) {
          var k :| 0 <= k < |init| && init[k].key == e.key;
          assert fields[k] == init[k];
        } else {
          assert e in EntriesFor(last.key, last.value);
          assert fields[|fields| - 1].key == e.key;
        }
      }
    }
  }

  // ------------------------------------------------------------ password

  datatype PasswordData = PasswordData(oldPassword: string, newPassword: string, confirmPassword: string)

  /** The outcome of submitting the password form: rejected before any request, or the request sent. */
  datatype PasswordSubmit = Mismatch | Request(oldPassword: string, newPassword: string)

  function SubmitPassword(d: PasswordData): (r: PasswordSubmit)
    ensures r.Mismatch? <==> d.newPassword != d.confirmPassword
    ensures r.Request? ==> r.oldPassword == d.oldPassword && r.newPassword == d.newPassword == d.confirmPassword
  {
    if d.newPassword != d.confirmPassword then Mismatch else Request(d.oldPassword, d.newPassword)
  }
}
