/** The expense record and its encoding as the fields of a Google Forms POST body
    (`createGoogleFormData` in script.js). Everything here is pure string work. */
module FormEncoding {

  /** One expense as the submit handler gathers it from the form (all values are strings). */
  datatype Expense = Expense(
    amount: string,
    date: string,      // "YYYY-MM-DD" from a date input
    time: string,      // "HH:MM" from a time input
    category: string,
    payment: string,
    necessity: string,
    desc: string,
    fileRef: string    // "File: <name>" or ""; the file itself is never sent
  )

  /** One appended form field: (entry id, value). */
  type Field = (string, string)

  const AmountId: string := "entry.1468814675"
  const CategoryId: string := "entry.1622584561"
  const PaymentId: string := "entry.659650888"
  const NecessityId: string := "entry.1784605128"
  const DescriptionId: string := "entry.1022929564"
  const FileRefId: string := "entry.1061529182"
  const YearId: string := "entry.363553323_year"
  const MonthId: string := "entry.363553323_month"
  const DayId: string := "entry.363553323_day"
  const HourId: string := "entry.1806288007_hour"
  const MinuteId: string := "entry.1806288007_minute"

  /** The entry ids in the order the encoder appends them. */
  const FieldIds: seq<string> :=
    [AmountId, CategoryId, PaymentId, NecessityId, DescriptionId, FileRefId,
     YearId, MonthId, DayId, HourId, MinuteId]

  /** What `FormData.append` stores for a value that JavaScript destructuring left `undefined`. */
  const Undefined: string := "undefined"

  /** Position of the first occurrence of `c` in `s`. */
  function FirstIndexOf(s: string, c: char): (k: nat)
    requires c in s
    ensures k < |s| && s[k] == c
    ensures c !in s[..k]
  {
    if s[0] == c then 0
    else
      assert c in s[1..] by { assert s == [s[0]] + s[1..]; }
      var k' := FirstIndexOf(s[1..], c);
      assert s[..k' + 1] == [s[0]] + s[1..][..k'];
      k' + 1
  }

  /** JavaScript's `s.split(sep)` for a one-character separator: the maximal pieces of `s`
      between separators, so there is always at least one piece and `"".split(sep) == [""]`. */
  function Split(s: string, sep: char): (parts: seq<string>)
    ensures |parts| >= 1
    ensures forall j :: 0 <= j < |parts| ==> sep !in parts[j]
    decreases |s|
  {
    if sep !in s then [s]
    else
      var k := FirstIndexOf(s, sep);
      [s[..k]] + Split(s[k + 1..], sep)
  }

  /** JavaScript's `parts.join(sep)`. */
  function Join(parts: seq<string>, sep: char): string
    requires |parts| >= 1
  {
    if |parts| == 1 then parts[0] else parts[0] + [sep] + Join(parts[1..], sep)
  }

  /** Joining the pieces of a split gives back the original string. */
  lemma {:induction false} JoinOfSplit(s: string, sep: char)
    ensures Join(Split(s, sep), sep) == s
    decreases |s|
  {
    if sep in s {
      var k := FirstIndexOf(s, sep);
      var rest := s[k + 1..];
      JoinOfSplit(rest, sep);
      assert Split(s, sep)[1..] == Split(rest, sep);
      assert s == s[..k] + [sep] + rest;
    }
  }

  /** In `p + [sep] + tail` with `sep` not in `p`, the first separator is the one after `p`. */
  lemma FirstIndexAfterPiece(p: string, sep: char, tail: string)
    requires sep !in p
    ensures sep in p + [sep] + tail
    ensures FirstIndexOf(p + [sep] + tail, sep) == |p|
  {
    var s := p + [sep] + tail;
    assert s[|p|] == sep;
  }

  /** Splitting a join of separator-free pieces gives back the pieces. */
  lemma {:induction false} SplitOfJoin(parts: seq<string>, sep: char)
    requires |parts| >= 1
    requires forall j :: 0 <= j < |parts| ==> sep !in parts[j]
    ensures Split(Join(parts, sep), sep) == parts
  {
    if |parts| > 1 {
      var p, tail := parts[0], Join(parts[1..], sep);
      var s := p + [sep] + tail;
      assert Join(parts, sep) == s;
      FirstIndexAfterPiece(p, sep, tail);
      assert s[..|p|] == p && s[|p| + 1..] == tail;
      SplitOfJoin(parts[1..], sep);
      assert Split(s, sep) == [p] + parts[1..];
    }
  }

  /** The value a JavaScript array destructuring binds at position `k`, as `FormData.append` stores it. */
  function Destructure(parts: seq<string>, k: nat): string
  {
    if k < |parts| then parts[k] else Undefined
  }

  /** The eleven (entry id, value) pairs posted for one expense, in append order. */
  function CreateGoogleFormData(data: Expense): (fields: seq<Field>)
    ensures |fields| == |FieldIds| == 11
    ensures forall k :: 0 <= k < |fields| ==> fields[k].0 == FieldIds[k]
  {
    var date := Split(data.date, '-');
    var time := Split(data.time, ':');
    [ (AmountId, data.amount),
      (CategoryId, data.category),
      (PaymentId, data.payment),
      (NecessityId, data.necessity),
      (DescriptionId, data.desc),
      (FileRefId, data.fileRef),
      (YearId, Destructure(date, 0)),
      (MonthId, Destructure(date, 1)),
      (DayId, Destructure(date, 2)),
      (HourId, Destructure(time, 0)),
      (MinuteId, Destructure(time, 1)) ]
  }

  predicate IsDigit(c: char) { '0' <= c <= '9' }

  /** A date input's value: `YYYY-MM-DD`. */
  predicate IsIsoDate(d: string)
  {
    |d| == 10 && d[4] == '-' && d[7] == '-' &&
    forall k :: 0 <= k < 10 && k != 4 && k != 7 ==> IsDigit(d[k])
  }

  /** A time input's value: `HH:MM`. */
  predicate IsClockTime(t: string)
  {
    |t| == 5 && t[2] == ':' &&
    forall k :: 0 <= k < 5 && k != 2 ==> IsDigit(t[k])
  }

  /** A join of three pieces spelled out. */
  lemma JoinOfThree(parts: seq<string>, sep: char)
    requires |parts| == 3
    ensures Join(parts, sep) == parts[0] + [sep] + parts[1] + [sep] + parts[2]
  {
    var tail := parts[1..];
    assert tail[1..] == [parts[2]];
    assert Join(tail, sep) == parts[1] + [sep] + parts[2];
    assert Join(parts, sep) == parts[0] + [sep] + (parts[1] + [sep] + parts[2]);
  }

  /** When the date has exactly two `-` separators, the posted year, month and day are its
      three pieces, and joining them with `-` gives the date back. */
  lemma DateFieldsRejoin(data: Expense)
    requires |Split(data.date, '-')| == 3
    ensures var f := CreateGoogleFormData(data);
      f[6].1 + "-" + f[7].1 + "-" + f[8].1 == data.date
  {
    var parts := Split(data.date, '-');
    JoinOfSplit(data.date, '-');
    JoinOfThree(parts, '-');
    var f := CreateGoogleFormData(data);
    assert f[6].1 == parts[0] && f[7].1 == parts[1] && f[8].1 == parts[2];
  }

  /** When the time has exactly one `:` separator, the posted hour and minute are its two
      pieces, and joining them with `:` gives the time back. */
  lemma TimeFieldsRejoin(data: Expense)
    requires |Split(data.time, ':')| == 2
    ensures var f := CreateGoogleFormData(data);
      f[9].1 + ":" + f[10].1 == data.time
  {
    var parts := Split(data.time, ':');
    var f := CreateGoogleFormData(data);
    assert f[9].1 == parts[0] && f[10].1 == parts[1];
    JoinOfSplit(data.time, ':');
    assert Join(parts, ':') == parts[0] + [':'] + parts[1];
  }

  /** For a well-formed `YYYY-MM-DD` date and `HH:MM` time the whole wire payload: the six
      plain fields verbatim, then year, month, day, hour and minute as the digit groups. */
  lemma WellFormedPayload(data: Expense)
    requires IsIsoDate(data.date) && IsClockTime(data.time)
    ensures CreateGoogleFormData(data) ==
      [ (AmountId, data.amount), (CategoryId, data.category), (PaymentId, data.payment),
        (NecessityId, data.necessity), (DescriptionId, data.desc), (FileRefId, data.fileRef),
        (YearId, data.date[..4]), (MonthId, data.date[5..7]), (DayId, data.date[8..]),
        (HourId, data.time[..2]), (MinuteId, data.time[3..]) ]
  {
    var d := data.date;
    var dateParts := [d[..4], d[5..7], d[8..]];
    assert Join(dateParts, '-') == d by {
      assert Join(dateParts[1..], '-') == d[5..7] + ['-'] + d[8..] by {
        assert dateParts[1..][1..] == [d[8..]];
      }
      assert d == d[..4] + ['-'] + (d[5..7] + ['-'] + d[8..]);
    }
    forall j | 0 <= j < 3 ensures '-' !in dateParts[j] {
      if j == 0 { assert forall c :: c in d[..4] ==> IsDigit(c); }
      else if j == 1 { assert forall c :: c in d[5..7] ==> IsDigit(c); }
      else { assert forall c :: c in d[8..] ==> IsDigit(c); }
    }
    SplitOfJoin(dateParts, '-');

    var t := data.time;
    var timeParts := [t[..2], t[3..]];
    assert Join(timeParts, ':') == t by {
      assert t == t[..2] + [':'] + t[3..];
    }
    forall j | 0 <= j < 2 ensures ':' !in timeParts[j] {
      if j == 0 { assert forall c :: c in t[..2] ==> IsDigit(c); }
      else { assert forall c :: c in t[3..] ==> IsDigit(c); }
    }
    SplitOfJoin(timeParts, ':');
  }

  /** A date without any `-` is posted whole as the year; month and day go out as "undefined". */
  lemma DateWithoutSeparator(data: Expense)
    requires '-' !in data.date
    ensures var f := CreateGoogleFormData(data);
      f[6].1 == data.date && f[7].1 == Undefined && f[8].1 == Undefined
  {
  }

  /** The date of the offline scenario splits into its year, month and day. */
  lemma ScenarioDateSplit()
    ensures Split("2024-03-01", '-') == ["2024", "03", "01"]
  {
    var parts := ["2024", "03", "01"];
    JoinOfThree(parts, '-');
    assert Join(parts, '-') == "2024-03-01";
    SplitOfJoin(parts, '-');
  }
}
