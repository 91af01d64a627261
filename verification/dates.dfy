/** The course date `DD-MM-YYYY HH:MM` (internal/deadlines/deadlines.go):
    formatting, parsing with the rules of Go's `time` layout
    "02-01-2006 15:04", and the text and JSON wrappers around them. Dates
    are read on the course's fixed-offset local clock, so a date is its
    calendar fields; seconds and time zones are not part of the model. */
module Dates {
  import opened Wrappers
  import opened Text

  datatype Date = Date(day: nat, month: nat, year: nat, hour: nat, minute: nat)

  predicate IsLeap(year: nat) {
    year % 4 == 0 && (year % 100 != 0 || year % 400 == 0)
  }

  function DaysIn(month: nat, year: nat): nat {
    if month == 2 then (if IsLeap(year) then 29 else 28)
    else if month == 4 || month == 6 || month == 9 || month == 11 then 30
    else 31
  }

  /** A calendar date and a time of day that `time.Date` would not normalise. */
  predicate ValidDate(d: Date) {
    1 <= d.month <= 12 && 1 <= d.day <= DaysIn(d.month, d.year) && d.hour < 24 && d.minute < 60
  }

  // --------------------------------------------------------------- instants

  function DaysBeforeYear(year: nat): int {
    365 * year + (year + 3) / 4 - (year + 99) / 100 + (year + 399) / 400
  }

  function DaysBeforeMonth(month: nat, year: nat): nat {
    if month <= 1 then 0 else DaysBeforeMonth(month - 1, year) + DaysIn(month - 1, year)
  }

  /** Seconds since 00:00 of 1 January of year 0 on the course clock; the
      scorer compares pipeline start times with deadlines in this unit. */
  function Instant(d: Date): int {
    (((DaysBeforeYear(d.year) + DaysBeforeMonth(d.month, d.year) + d.day - 1) * 24 + d.hour) * 60 + d.minute) * 60
  }

  // ------------------------------------------------------------- formatting

  /** `Format("02-01-2006 15:04")`: day, month, hour and minute as two
      digits, the year as at least four. */
  function Format(d: Date): (text: string)
    ensures d.year <= 9999 && ValidDate(d) ==>
      |text| == 16 && text[2] == '-' && text[5] == '-' && text[10] == ' ' && text[13] == ':'
  {
    if d.year <= 9999 && ValidDate(d) then
      LayoutShape(d);
      Layout(d)
    else Layout(d)
  }

  function Layout(d: Date): string {
    PadNat(d.day, 2) + "-" + PadNat(d.month, 2) + "-" + PadNat(d.year, 4) + " "
      + PadNat(d.hour, 2) + ":" + PadNat(d.minute, 2)
  }

  lemma PadWidth(n: nat, w: nat)
    requires 1 <= w && n < Pow10(w)
    ensures |PadNat(n, w)| == w
  {
    NatToStringLength(n, w);
  }

  /** Where each field and separator of a valid date's text lies. */
  lemma LayoutShape(d: Date)
    requires ValidDate(d) && d.year <= 9999
    ensures var t := Layout(d);
      |t| == 16 && t[2] == '-' && t[5] == '-' && t[10] == ' ' && t[13] == ':' &&
      t[0..2] == PadNat(d.day, 2) && t[3..5] == PadNat(d.month, 2) && t[6..10] == PadNat(d.year, 4) &&
      t[11..13] == PadNat(d.hour, 2) && t[14..16] == PadNat(d.minute, 2)
  {
    assert Pow10(2) == 100 && Pow10(4) == 10000;
    var dd, mm, yy, hh, mi := PadNat(d.day, 2), PadNat(d.month, 2), PadNat(d.year, 4), PadNat(d.hour, 2), PadNat(d.minute, 2);
    PadWidth(d.day, 2);
    PadWidth(d.month, 2);
    PadWidth(d.year, 4);
    PadWidth(d.hour, 2);
    PadWidth(d.minute, 2);
    JoinedShape(dd, mm, yy, hh, mi);
  }

  /** Where the five fields sit in the joined layout. */
  lemma JoinedShape(dd: string, mm: string, yy: string, hh: string, mi: string)
    requires |dd| == 2 && |mm| == 2 && |yy| == 4 && |hh| == 2 && |mi| == 2
    ensures var t := dd + "-" + mm + "-" + yy + " " + hh + ":" + mi;
      |t| == 16 && t[2] == '-' && t[5] == '-' && t[10] == ' ' && t[13] == ':' &&
      t[0..2] == dd && t[3..5] == mm && t[6..10] == yy && t[11..13] == hh && t[14..16] == mi
  {
    var t := dd + "-" + mm + "-" + yy + " " + hh + ":" + mi;
    assert t[0..2] == dd;
    assert t[3..5] == mm;
    assert t[6..10] == yy;
    assert t[11..13] == hh;
    assert t[14..16] == mi;
  }

  // ---------------------------------------------------------------- parsing

  /** `k` decimal digits start at position `i`. */
  predicate DigitsAt(s: string, i: nat, k: nat) {
    i + k <= |s| && forall j :: i <= j < i + k ==> IsDigit(s[j])
  }

  function ValueAt(s: string, i: nat, k: nat): nat
    requires DigitsAt(s, i, k)
  {
    DigitsValue(s[i..i + k])
  }

  predicate CharAt(s: string, i: nat, c: char) {
    i < |s| && s[i] == c
  }

  /** The first position at or after `i` that does not hold a space. */
  function SkipSpaces(s: string, i: nat): (j: nat)
    requires i <= |s|
    ensures i <= j <= |s|
    ensures j < |s| ==> s[j] != ' '
    ensures forall k :: i <= k < j ==> s[k] == ' '
    decreases |s| - i
  {
    if i < |s| && s[i] == ' ' then SkipSpaces(s, i + 1) else i
  }

  lemma {:induction false} DigitsValueBound(s: string)
    requires forall i :: 0 <= i < |s| ==> IsDigit(s[i])
    ensures DigitsValue(s) < Pow10(|s|)
    decreases |s|
  {
    if s != [] {
      DigitsValueBound(s[..|s| - 1]);
    }
  }

  const CannotParse := "cannot parse"

  /** `time.ParseInLocation("02-01-2006 15:04", s, loc)`: the day, month and
      minute take exactly two digits, the year exactly four, the hour one or
      two; the layout's space matches one or more spaces; nothing may follow
      the minute; the month, hour and minute are range-checked as they are
      read and the day against its month once everything is read. */
  function Parse(s: string): (r: Result<Date>)
    ensures r.Success? ==> ValidDate(r.value) && r.value.year <= 9999
  {
    if !DigitsAt(s, 0, 2) then Failure(CannotParse)
    else if !CharAt(s, 2, '-') || !DigitsAt(s, 3, 2) then Failure(CannotParse)
    else if !(1 <= ValueAt(s, 3, 2) <= 12) then Failure("month out of range")
    else if !CharAt(s, 5, '-') || !DigitsAt(s, 6, 4) then Failure(CannotParse)
    else if |s| > 10 && s[10] != ' ' then Failure(CannotParse)
    else
      var h := SkipSpaces(s, 10);
      if !DigitsAt(s, h, 1) then Failure(CannotParse)
      else
        var hourLen := if DigitsAt(s, h, 2) then 2 else 1;
        if ValueAt(s, h, hourLen) >= 24 then Failure("hour out of range")
        else if !CharAt(s, h + hourLen, ':') || !DigitsAt(s, h + hourLen + 1, 2) then Failure(CannotParse)
        else if ValueAt(s, h + hourLen + 1, 2) >= 60 then Failure("minute out of range")
        else if |s| > h + hourLen + 3 then Failure("extra text")
        else
          var d := Date(ValueAt(s, 0, 2), ValueAt(s, 3, 2), ValueAt(s, 6, 4),
                        ValueAt(s, h, hourLen), ValueAt(s, h + hourLen + 1, 2));
          if !(1 <= d.day <= DaysIn(d.month, d.year)) then Failure("day out of range")
          else
            DigitsValueBound(s[6..10]);
            Success(d)
  }

  lemma PadValueAt(s: string, i: nat, n: nat, w: nat)
    requires 1 <= w && n < Pow10(w)
    requires i + w <= |s| && s[i..i + w] == PadNat(n, w)
    ensures DigitsAt(s, i, w) && ValueAt(s, i, w) == n
  {
    NatToStringLength(n, w);
    PadNatValue(n, w);
    forall j | i <= j < i + w ensures IsDigit(s[j]) {
      assert s[j] == s[i..i + w][j - i];
    }
  }

  /** Parsing the formatted text gives back the date, for every valid date
      with a four-digit year. */
  lemma ParseFormat(d: Date)
    requires ValidDate(d) && d.year <= 9999
    ensures Parse(Format(d)) == Success(d)
  {
    var s := Format(d);
    LayoutShape(d);
    assert Pow10(2) == 100 && Pow10(4) == 10000;
    PadValueAt(s, 0, d.day, 2);
    PadValueAt(s, 3, d.month, 2);
    PadValueAt(s, 6, d.year, 4);
    PadValueAt(s, 11, d.hour, 2);
    PadValueAt(s, 14, d.minute, 2);
    assert SkipSpaces(s, 11) == 11;
    assert SkipSpaces(s, 10) == 11;
  }

  // ---------------------------------------------------- text and JSON forms

  /** `Date.String` and `Date.MarshalText`. */
  function MarshalText(d: Date): (text: string)
    ensures ValidDate(d) && d.year <= 9999 ==> Parse(text) == Success(d)
  {
    ParseFormatWhenValid(d);
    Format(d)
  }

  lemma ParseFormatWhenValid(d: Date)
    ensures ValidDate(d) && d.year <= 9999 ==> Parse(Format(d)) == Success(d)
  {
    if ValidDate(d) && d.year <= 9999 { ParseFormat(d); }
  }

  /** `Date.UnmarshalText`: white space around the text is ignored. On an
      error the receiver keeps its old value, which the caller holds. */
  function UnmarshalText(buf: string): (r: Result<Date>)
    ensures TrimSpace(buf) == buf ==> r == Parse(buf)
  {
    Parse(TrimSpace(buf))
  }

  /** Padding a text with white space on either side does not change how
      it is read. */
  lemma UnmarshalTextPadded(pre: string, text: string, post: string)
    requires forall i :: 0 <= i < |pre| ==> IsSpace(pre[i])
    requires forall i :: 0 <= i < |post| ==> IsSpace(post[i])
    requires text != [] ==> !IsSpace(text[0]) && !IsSpace(text[|text| - 1])
    ensures UnmarshalText(pre + text + post) == UnmarshalText(text) == Parse(text)
  {
    TrimSpacePadded(pre, text, post);
    TrimSpaceKeepsUnpadded(text);
  }

  lemma UnmarshalMarshalText(d: Date)
    requires ValidDate(d) && d.year <= 9999
    ensures UnmarshalText(MarshalText(d)) == Success(d)
  {
    var s := Format(d);
    assert s[0] == PadNat(d.day, 2)[0] && IsDigit(s[0]);
    assert s[15] == PadNat(d.minute, 2)[1] && IsDigit(s[15]);
    TrimSpaceKeepsUnpadded(s);
  }

  /** `Date.MarshalJSON`: the text between two double quotes. */
  function MarshalJSON(d: Date): (json: string)
    ensures |json| == |MarshalText(d)| + 2
    ensures json[0] == '"' && json[|json| - 1] == '"'
    ensures json[1..|json| - 1] == MarshalText(d)
  {
    "\"" + MarshalText(d) + "\""
  }

  /** What a JSON decoder of a date does: it reads a date or an error, or its
      slice expression is out of range and the process panics. */
  datatype JSONRead = Read(result: Result<Date>) | SlicePanic

  /** `Date.UnmarshalJSON` as written: parses `buf[1:len(buf)-2]`, which drops
      the closing quote and the character before it; shorter than three
      bytes (the empty string `""`, say) the slice expression panics. */
  function UnmarshalJSON(buf: string): (r: JSONRead)
    ensures r.SlicePanic? <==> |buf| < 3
    ensures |buf| >= 3 ==> r == Read(UnmarshalText(buf[1..|buf| - 2]))
  {
    if |buf| < 3 then SlicePanic else Read(UnmarshalText(buf[1..|buf| - 2]))
  }

  /** The JSON empty string crashes the as-written decoder, and the
      corrected one reports it as an unreadable date. */
  lemma EmptyJSONStringPanics()
    ensures UnmarshalJSON("\"\"").SlicePanic?
    ensures UnmarshalJSONQuoted("\"\"") == Read(Parse(""))
    ensures Parse("").Failure?
  {
    assert "\"\""[1..1] == "";
  }

  /** Every accepted text ends in ':' and the two digits of the minute. */
  lemma ParseEndsWithMinute(s: string)
    requires Parse(s).Success?
    ensures |s| >= 3 && s[|s| - 3] == ':' && IsDigit(s[|s| - 2]) && IsDigit(s[|s| - 1])
  {
  }

  /** The digit positions of a formatted valid date. */
  lemma FormatDigits(d: Date)
    requires ValidDate(d) && d.year <= 9999
    ensures var text := Format(d);
      IsDigit(text[0]) && IsDigit(text[12]) && IsDigit(text[14]) && IsDigit(text[15])
  {
    var text := Format(d);
    var dd, mm, yy, hh, mi := PadNat(d.day, 2), PadNat(d.month, 2), PadNat(d.year, 4), PadNat(d.hour, 2), PadNat(d.minute, 2);
    assert text == dd + "-" + mm + "-" + yy + " " + hh + ":" + mi;
    assert text[0] == dd[0] && text[12] == hh[1] && text[14] == mi[0] && text[15] == mi[1];
  }

  /** No marshalled date is read back: the cut text ends in one minute digit. */
  lemma UnmarshalJSONRejectsMarshalJSON(d: Date)
    requires ValidDate(d) && d.year <= 9999
    ensures UnmarshalJSON(MarshalJSON(d)).Read? && UnmarshalJSON(MarshalJSON(d)).result.Failure?
  {
    var text := MarshalText(d);
    var json := MarshalJSON(d);
    var cut := json[1..|json| - 2];
    assert cut == text[..15];
    FormatDigits(d);
    assert cut[0] == text[0] && cut[14] == text[14] && cut[12] == text[12];
    TrimSpaceKeepsUnpadded(cut);
    if Parse(cut).Success? {
      ParseEndsWithMinute(cut);
    }
  }

  /** The evidently intended decoding: the text between the two quotes,
      `buf[1:len(buf)-1]`. Every JSON string has both quotes, so only a
      value shorter than that (which is no string) still panics. */
  function UnmarshalJSONQuoted(buf: string): (r: JSONRead)
    ensures r.SlicePanic? <==> |buf| < 2
    ensures |buf| >= 2 ==> r == Read(UnmarshalText(buf[1..|buf| - 1]))
  {
    if |buf| < 2 then SlicePanic else Read(UnmarshalText(buf[1..|buf| - 1]))
  }

  lemma UnmarshalJSONQuotedRoundTrip(d: Date)
    requires ValidDate(d) && d.year <= 9999
    ensures UnmarshalJSONQuoted(MarshalJSON(d)) == Read(Success(d))
  {
    UnmarshalMarshalText(d);
  }
}
