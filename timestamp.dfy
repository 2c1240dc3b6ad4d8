/**
 * Naming of the staging root: `generate_bundled_name` appends a second-resolution
 * timestamp, formatted with chrono's "%Y-%m-%d_%H-%M-%S", to the backup folder's
 * displayed path.  The clock reading is a parameter; only the formatting is modelled.
 */
module Timestamp {
  import opened Wrappers
  import opened Paths

  /** The broken-down fields of a local clock reading. */
  datatype DateTime = DateTime(year: int, month: nat, day: nat, hour: nat, minute: nat, second: nat)

  /** The ranges chrono's date and time types guarantee (a leap second reads as 60). */
  predicate ValidDateTime(t: DateTime) {
    1 <= t.month <= 12 && 1 <= t.day <= 31 && t.hour < 24 && t.minute < 60 && t.second <= 60
  }

  predicate IsDigit(c: char) {
    '0' <= c <= '9'
  }

  function Digit(n: nat): (c: char)
    requires n < 10
    ensures IsDigit(c)
  {
    ('0' as int + n) as char
  }

  function DigitValue(c: char): nat
    requires IsDigit(c)
  {
    c as int - '0' as int
  }

  /** A number below 100 written with exactly two digits ("%m", "%d", "%H", "%M", "%S"). */
  function Pad2(n: nat): string
    requires n < 100
  {
    [Digit(n / 10), Digit(n % 10)]
  }

  /** A number below 10000 written with exactly four digits. */
  function Pad4(n: nat): string
    requires n < 10000
  {
    Pad2(n / 100) + Pad2(n % 100)
  }

  /** The shortest decimal numeral of `n`. */
  function Decimal(n: nat): (s: string)
    ensures |s| > 0 && forall i :: 0 <= i < |s| ==> IsDigit(s[i])
  {
    if n < 10 then [Digit(n)] else Decimal(n / 10) + [Digit(n % 10)]
  }

  /** chrono's "%Y": four zero-padded digits for years 0 to 9999; any other year gets an
      explicit sign and is padded to at least four digits. */
  function YearText(y: int): string {
    if 0 <= y <= 9999 then Pad4(y)
    else
      var magnitude: nat := if y < 0 then -y else y;
      (if y < 0 then "-" else "+") + (if magnitude <= 9999 then Pad4(magnitude) else Decimal(magnitude))
  }

  /** The layout "YYYY-MM-DD_HH-MM-SS": 19 characters, separators at fixed places. */
  predicate StampLayout(s: string) {
    && |s| == 19
    && s[4] == '-' && s[7] == '-' && s[10] == '_' && s[13] == '-' && s[16] == '-'
    && (forall i :: 0 <= i < 19 && i !in {4, 7, 10, 13, 16} ==> IsDigit(s[i]))
  }

  /** chrono's "%Y-%m-%d_%H-%M-%S". */
  function TimestampText(t: DateTime): (s: string)
    requires ValidDateTime(t)
    ensures 0 <= t.year <= 9999 ==> StampLayout(s)
  {
    YearText(t.year) + "-" + Pad2(t.month) + "-" + Pad2(t.day) + "_"
      + Pad2(t.hour) + "-" + Pad2(t.minute) + "-" + Pad2(t.second)
  }

  function Value2(s: string, at: nat): nat
    requires at + 2 <= |s| && IsDigit(s[at]) && IsDigit(s[at + 1])
  {
    10 * DigitValue(s[at]) + DigitValue(s[at + 1])
  }

  /** Reads a timestamp back from its text: the partner of `TimestampText`. */
  function ParseStamp(s: string): (r: Option<DateTime>)
    ensures r.Some? <==> StampLayout(s)
    ensures r.Some? ==> 0 <= r.value.year <= 9999
  {
    if !StampLayout(s) then None
    else Some(DateTime(100 * Value2(s, 0) + Value2(s, 2), Value2(s, 5), Value2(s, 8),
                       Value2(s, 11), Value2(s, 14), Value2(s, 17)))
  }

  lemma Pad2Value(n: nat, s: string, at: nat)
    requires n < 100 && at + 2 <= |s| && s[at..at + 2] == Pad2(n)
    ensures IsDigit(s[at]) && IsDigit(s[at + 1]) && Value2(s, at) == n
  {
    assert s[at] == Pad2(n)[0] && s[at + 1] == Pad2(n)[1];
  }

  /** Formatting a clock reading and reading it back gives the same reading. */
  lemma {:induction false} StampRoundTrip(t: DateTime)
    requires ValidDateTime(t) && 0 <= t.year <= 9999
    ensures ParseStamp(TimestampText(t)) == Some(t)
  {
    var s := TimestampText(t);
    assert s[0..2] == Pad2(t.year / 100);
    assert s[2..4] == Pad2(t.year % 100);
    assert s[5..7] == Pad2(t.month);
    assert s[8..10] == Pad2(t.day);
    assert s[11..13] == Pad2(t.hour);
    assert s[14..16] == Pad2(t.minute);
    assert s[17..19] == Pad2(t.second);
    Pad2Value(t.year / 100, s, 0);
    Pad2Value(t.year % 100, s, 2);
    Pad2Value(t.month, s, 5);
    Pad2Value(t.day, s, 8);
    Pad2Value(t.hour, s, 11);
    Pad2Value(t.minute, s, 14);
    Pad2Value(t.second, s, 17);
  }

  lemma Value2Pad(s: string, at: nat)
    requires at + 2 <= |s| && IsDigit(s[at]) && IsDigit(s[at + 1])
    ensures Pad2(Value2(s, at)) == s[at..at + 2]
  {
    var n := Value2(s, at);
    assert n / 10 == DigitValue(s[at]) && n % 10 == DigitValue(s[at + 1]);
  }

  /** Conversely, every text that parses to a valid reading is that reading's timestamp:
      so the formatting is injective and its image is exactly the 19-character layout. */
  lemma {:induction false} ParseThenFormat(s: string)
    requires ParseStamp(s).Some? && ValidDateTime(ParseStamp(s).value)
    ensures TimestampText(ParseStamp(s).value) == s
  {
    var t := ParseStamp(s).value;
    assert forall i :: i in {0, 1, 2, 3, 5, 6, 8, 9, 11, 12, 14, 15, 17, 18} ==> IsDigit(s[i]);
    Value2Pad(s, 0);
    Value2Pad(s, 2);
    Value2Pad(s, 5);
    Value2Pad(s, 8);
    Value2Pad(s, 11);
    Value2Pad(s, 14);
    Value2Pad(s, 17);
    var hi, lo := Value2(s, 0), Value2(s, 2);
    assert t.year / 100 == hi && t.year % 100 == lo;
    assert YearText(t.year) == s[0..2] + s[2..4] == s[0..4];
    LayoutSplit(s);
  }

  /** A text of the layout is its seven fields joined by its separators. */
  lemma LayoutSplit(s: string)
    requires StampLayout(s)
    ensures s == s[0..4] + "-" + s[5..7] + "-" + s[8..10] + "_" + s[11..13] + "-" + s[14..16] + "-" + s[17..19]
  {
  }

  /** `generate_bundled_name(folder)`: the path whose display is "{folder}-{timestamp}".
      The timestamp is glued to the last component, or becomes the only component. */
  function GenerateBundledName(folder: Path, now: DateTime): (r: Path)
    requires ValidDateTime(now)
    ensures Display(r) == Display(folder) + "-" + TimestampText(now)
    ensures r.absolute == folder.absolute && |r.comps| > 0
    ensures |r.comps| == if |folder.comps| == 0 then 1 else |folder.comps|
  {
    var suffix := "-" + TimestampText(now);
    var n := |folder.comps|;
    assert Display(folder) + "-" + TimestampText(now) == Display(folder) + suffix;
    if n == 0 then
      DisplaySingle(folder, suffix);
      Path(folder.absolute, [suffix])
    else
      DisplayExtendLast(folder, suffix);
      Path(folder.absolute, folder.comps[..n - 1] + [folder.comps[n - 1] + suffix])
  }
}
