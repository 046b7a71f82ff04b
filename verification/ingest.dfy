/**
 * Row ingestion of the CSV input: splitting on a separator, the number
 * conversions the loader relies on (`Number`, `parseInt(...) || 0`), the
 * `M/D/Y` date parser and the row filter that turns text lines into records.
 */
module Ingest {
  import opened Wrappers

  /** The canonical location key (rounded latitude and longitude joined by a comma). */
  type LocKey = string

  /** A JavaScript number as far as the date parts go: an integer or NaN. */
  datatype Num = Finite(value: int) | NaN

  /** What `parseCsvDate` hands to the `Date` constructor: month, day and (widened) year. */
  datatype CsvDate = CsvDate(month: Num, day: Num, year: Num)

  /** One kept data row: `(country, key, dateTs, confirmed)`. */
  datatype Record = Record(country: string, key: LocKey, dateTs: int, confirmed: int)

  // ---------------------------------------------------------------------------
  // String.prototype.split with a one-character separator

  function Count(s: string, c: char): nat
  {
    if s == [] then 0 else (if s[0] == c then 1 else 0) + Count(s[1..], c)
  }

  /** `s.split(sep)`: one more part than separators, no part holds the separator. */
  function Split(s: string, sep: char): (parts: seq<string>)
    ensures |parts| == Count(s, sep) + 1
    ensures forall i :: 0 <= i < |parts| ==> sep !in parts[i]
  {
    if s == [] then [""]
    else
      var rest := Split(s[1..], sep);
      if s[0] == sep then [""] + rest
      else [[s[0]] + rest[0]] + rest[1..]
  }

  /** `parts.join(sep)`, the inverse of `Split`. */
  function Join(parts: seq<string>, sep: char): string
    requires |parts| >= 1
  {
    if |parts| == 1 then parts[0] else parts[0] + [sep] + Join(parts[1..], sep)
  }

  lemma {:induction false} JoinConsHead(c: char, parts: seq<string>, sep: char)
    requires |parts| >= 1
    ensures Join([[c] + parts[0]] + parts[1..], sep) == [c] + Join(parts, sep)
  {
    var q := [[c] + parts[0]] + parts[1..];
    assert q[1..] == parts[1..];
  }

  /** Joining the parts of a split gives back the original string. */
  lemma {:induction false} JoinSplit(s: string, sep: char)
    ensures Join(Split(s, sep), sep) == s
  {
    if s != [] {
      var rest := Split(s[1..], sep);
      JoinSplit(s[1..], sep);
      if s[0] == sep {
        assert ([""] + rest)[1..] == rest;
      } else {
        JoinConsHead(s[0], rest, sep);
      }
    }
  }

  lemma {:induction false} SplitNoSeparatorPrefix(a: string, tail: string, sep: char)
    requires sep !in a
    ensures Split(a + tail, sep) == [a + Split(tail, sep)[0]] + Split(tail, sep)[1..]
  {
    if a != [] {
      assert (a + tail)[1..] == a[1..] + tail;
      SplitNoSeparatorPrefix(a[1..], tail, sep);
      assert [a[0]] + (a[1..] + Split(tail, sep)[0]) == a + Split(tail, sep)[0];
    } else {
      assert a + tail == tail;
      assert a + Split(tail, sep)[0] == Split(tail, sep)[0];
    }
  }

  /** Splitting a join of separator-free parts gives back the parts. */
  lemma {:induction false} SplitJoin(parts: seq<string>, sep: char)
    requires |parts| >= 1
    requires forall i :: 0 <= i < |parts| ==> sep !in parts[i]
    ensures Split(Join(parts, sep), sep) == parts
  {
    if |parts| == 1 {
      SplitNoSeparatorPrefix(parts[0], "", sep);
      assert Split("", sep) == [""];
      assert parts[0] + "" == parts[0];
    } else {
      var tail := [sep] + Join(parts[1..], sep);
      assert Join(parts, sep) == parts[0] + tail;
      SplitNoSeparatorPrefix(parts[0], tail, sep);
      SplitJoin(parts[1..], sep);
      assert tail[1..] == Join(parts[1..], sep);
      assert Split(tail, sep) == [""] + parts[1..];
      assert parts[0] + "" == parts[0];
      assert parts == [parts[0]] + parts[1..];
    }
  }

  // ---------------------------------------------------------------------------
  // Decimal digits

  predicate IsDigit(c: char) { '0' <= c <= '9' }

  predicate AllDigits(s: string) { forall i :: 0 <= i < |s| ==> IsDigit(s[i]) }

  /** The value of a string of decimal digits, most significant first. */
  function DigitsValue(s: string): nat
    requires AllDigits(s)
  {
    if s == [] then 0 else DigitsValue(s[..|s| - 1]) * 10 + (s[|s| - 1] - '0') as int
  }

  function DigitChar(d: nat): char
    requires d < 10
  {
    ('0' as int + d) as char
  }

  /** The decimal rendering of a natural number, without leading zeros. */
  function Decimal(n: nat): (s: string)
    ensures |s| >= 1 && AllDigits(s)
  {
    if n < 10 then [DigitChar(n)] else Decimal(n / 10) + [DigitChar(n % 10)]
  }

  /** Reading a rendered number gives the number back. */
  lemma {:induction false} DecimalValue(n: nat)
    ensures DigitsValue(Decimal(n)) == n
  {
    if n >= 10 {
      var s := Decimal(n);
      assert s[..|s| - 1] == Decimal(n / 10);
      DecimalValue(n / 10);
    } else {
      assert Decimal(n)[..0] == "";
    }
  }

  // ---------------------------------------------------------------------------
  // Number(part): the conversion applied to each date part

  /**
   * `Number(s)` for the forms a date part takes: the empty string is 0, an
   * optional sign followed by decimal digits is that integer, anything else NaN.
   */
  function ToNumber(s: string): (r: Num)
    ensures s == "" ==> r == Finite(0)
    ensures r.Finite? ==> forall i :: 0 < i < |s| ==> IsDigit(s[i])
    ensures r.Finite? && r.value < 0 ==> s[0] == '-'
    ensures s != "" && AllDigits(s) ==> r.Finite? && r.value >= 0
  {
    if s == "" then Finite(0)
    else if AllDigits(s) then Finite(DigitsValue(s))
    else if |s| > 1 && (s[0] == '-' || s[0] == '+') && AllDigits(s[1..]) then
      Finite(if s[0] == '-' then -(DigitsValue(s[1..]) as int) else DigitsValue(s[1..]))
    else NaN
  }

  lemma ToNumberDecimal(n: nat)
    ensures ToNumber(Decimal(n)) == Finite(n)
  {
    DecimalValue(n);
  }

  /** A sign before a rendered number: `-` negates it, `+` leaves it as it is. */
  lemma ToNumberSigned(n: nat)
    ensures ToNumber("-" + Decimal(n)) == Finite(-(n as int))
    ensures ToNumber("+" + Decimal(n)) == Finite(n)
  {
    DecimalValue(n);
    var minus, plus := "-" + Decimal(n), "+" + Decimal(n);
    assert minus[1..] == Decimal(n) && plus[1..] == Decimal(n);
    assert minus[0] == '-' && !IsDigit(minus[0]) && !AllDigits(minus);
    assert plus[0] == '+' && !IsDigit(plus[0]) && !AllDigits(plus);
  }

  /** A string of zeros has the value 0. */
  lemma {:induction false} ZerosValue(z: string)
    requires forall i :: 0 <= i < |z| ==> z[i] == '0'
    ensures AllDigits(z) && DigitsValue(z) == 0
  {
    if z != [] {
      ZerosValue(z[..|z| - 1]);
    }
  }

  /** Leading zeros do not change the value of a digit string. */
  lemma {:induction false} LeadingZerosValue(z: string, d: string)
    requires forall i :: 0 <= i < |z| ==> z[i] == '0'
    requires AllDigits(d)
    ensures AllDigits(z + d) && DigitsValue(z + d) == DigitsValue(d)
  {
    ZerosValue(z);
    if d == [] {
      assert z + d == z;
    } else {
      LeadingZerosValue(z, d[..|d| - 1]);
      assert (z + d)[..|z + d| - 1] == z + d[..|d| - 1];
    }
  }

  /** `Number` ignores leading zeros: "01" and "1" are the same month or day. */
  lemma ToNumberLeadingZeros(z: string, d: string)
    requires forall i :: 0 <= i < |z| ==> z[i] == '0'
    requires d != [] && AllDigits(d)
    ensures ToNumber(z + d) == ToNumber(d)
  {
    LeadingZerosValue(z, d);
  }

  /**
   * Outside the empty string and an optional sign followed by one or more
   * digits, the part is not a number.
   */
  lemma ToNumberNaN(s: string)
    requires s != ""
    requires !AllDigits(s)
    requires !(|s| > 1 && (s[0] == '-' || s[0] == '+') && AllDigits(s[1..]))
    ensures ToNumber(s) == NaN
  {
  }

  // ---------------------------------------------------------------------------
  // parseInt(s) || 0: the report count

  /** The white space `parseInt` skips before the number. */
  predicate IsJsSpace(c: char)
  {
    c == ' ' || c == '\t' || c == '\n' || c == '\r' || c == '\U{000B}' || c == '\U{000C}'
    || c == '\U{00A0}' || c == '\U{FEFF}' || c == '\U{2028}' || c == '\U{2029}'
    || c == '\U{1680}' || ('\U{2000}' <= c <= '\U{200A}') || c == '\U{202F}' || c == '\U{205F}' || c == '\U{3000}'
  }

  function TrimStart(s: string): string
  {
    if s != [] && IsJsSpace(s[0]) then TrimStart(s[1..]) else s
  }

  /** `TrimStart` drops a prefix of white space only, and what remains does not start with white space. */
  lemma {:induction false} TrimStartShape(s: string)
    ensures |TrimStart(s)| <= |s| && TrimStart(s) == s[|s| - |TrimStart(s)|..]
    ensures forall i :: 0 <= i < |s| - |TrimStart(s)| ==> IsJsSpace(s[i])
    ensures TrimStart(s) == [] || !IsJsSpace(TrimStart(s)[0])
  {
    if s != [] && IsJsSpace(s[0]) {
      TrimStartShape(s[1..]);
      forall i | 0 <= i < |s| - |TrimStart(s)|
        ensures IsJsSpace(s[i])
      {
        if i > 0 {
          assert s[i] == s[1..][i - 1];
        }
      }
    }
  }

  function LeadingDigits(s: string): (ds: string)
    ensures AllDigits(ds)
  {
    if s != [] && IsDigit(s[0]) then [s[0]] + LeadingDigits(s[1..]) else []
  }

  /**
   * `parseInt(s) || 0`: skip leading white space, read an optional sign and the
   * longest run of decimal digits; no digits (NaN) or zero give 0.
   */
  function ParseIntOrZero(s: string): (r: int)
    ensures TrimStart(s) == [] ==> r == 0
    ensures r < 0 ==> |TrimStart(s)| > 1 && TrimStart(s)[0] == '-'
  {
    var t := TrimStart(s);
    var signed := |t| > 0 && (t[0] == '-' || t[0] == '+');
    var ds := LeadingDigits(if signed then t[1..] else t);
    if ds == [] then 0
    else if signed && t[0] == '-' then -(DigitsValue(ds) as int)
    else DigitsValue(ds)
  }

  lemma {:induction false} LeadingDigitsOf(ds: string, rest: string)
    requires AllDigits(ds)
    requires rest == [] || !IsDigit(rest[0])
    ensures LeadingDigits(ds + rest) == ds
  {
    if ds != [] {
      assert (ds + rest)[1..] == ds[1..] + rest;
      LeadingDigitsOf(ds[1..], rest);
    } else {
      assert ds + rest == rest;
    }
  }

  /** A run of digits followed by a non-digit reads as the run's value. */
  lemma ParseIntOrZeroDigits(ds: string, rest: string)
    requires ds != [] && AllDigits(ds)
    requires rest == [] || !IsDigit(rest[0])
    ensures ParseIntOrZero(ds + rest) == DigitsValue(ds)
  {
    var t := ds + rest;
    LeadingDigitsOf(ds, rest);
    assert t[0] == ds[0] && IsDigit(t[0]);
    assert !IsJsSpace(t[0]);
    assert TrimStart(t) == t;
  }

  /** A minus sign before a run of digits negates the run's value. */
  lemma ParseIntOrZeroNegative(ds: string, rest: string)
    requires ds != [] && AllDigits(ds)
    requires rest == [] || !IsDigit(rest[0])
    ensures ParseIntOrZero("-" + ds + rest) == -(DigitsValue(ds) as int)
  {
    var u := "-" + ds + rest;
    LeadingDigitsOf(ds, rest);
    assert u[0] == '-' && !IsJsSpace(u[0]);
    assert TrimStart(u) == u;
    assert u[1..] == ds + rest;
  }

  /**
   * A count written in decimal reads back as itself, whatever non-digit text
   * follows it; a leading minus sign makes it negative (negative counts are kept).
   */
  lemma ParseIntOrZeroDecimal(n: nat, rest: string)
    requires rest == [] || !IsDigit(rest[0])
    ensures ParseIntOrZero(Decimal(n) + rest) == n
    ensures ParseIntOrZero("-" + Decimal(n) + rest) == -(n as int)
  {
    DecimalValue(n);
    ParseIntOrZeroDigits(Decimal(n), rest);
    ParseIntOrZeroNegative(Decimal(n), rest);
  }

  /** White space before the number is skipped, as `parseInt` does. */
  lemma ParseIntOrZeroSpace(w: string, s: string)
    requires forall i :: 0 <= i < |w| ==> IsJsSpace(w[i])
    ensures ParseIntOrZero(w + s) == ParseIntOrZero(s)
  {
    TrimStartSkips(w, s);
  }

  /** `TrimStart` removes any white space put in front of a string. */
  lemma {:induction false} TrimStartSkips(w: string, s: string)
    requires forall i :: 0 <= i < |w| ==> IsJsSpace(w[i])
    ensures TrimStart(w + s) == TrimStart(s)
  {
    if w != [] {
      assert (w + s)[1..] == w[1..] + s;
      TrimStartSkips(w[1..], s);
    } else {
      assert w + s == s;
    }
  }

  /** A leading plus sign reads like no sign at all. */
  lemma ParseIntOrZeroPlus(ds: string, rest: string)
    requires ds != [] && AllDigits(ds)
    requires rest == [] || !IsDigit(rest[0])
    ensures ParseIntOrZero("+" + ds + rest) == DigitsValue(ds)
  {
    var u := "+" + ds + rest;
    LeadingDigitsOf(ds, rest);
    assert u[0] == '+' && !IsJsSpace(u[0]);
    assert TrimStart(u) == u;
    assert u[1..] == ds + rest;
  }

  /**
   * A field that does not start with a number counts as 0: an empty field, one
   * starting with something other than a digit, white space or a sign, and a
   * sign followed by nothing or by a non-digit (such as "-").
   */
  lemma ParseIntOrZeroNoNumber(s: string)
    requires || s == []
             || (!IsDigit(s[0]) && !IsJsSpace(s[0]) && s[0] != '-' && s[0] != '+')
             || ((s[0] == '-' || s[0] == '+') && (|s| == 1 || !IsDigit(s[1])))
    ensures ParseIntOrZero(s) == 0
  {
    if s != [] {
      assert !IsJsSpace(s[0]);
      assert TrimStart(s) == s;
    }
  }

  // ---------------------------------------------------------------------------
  // parseCsvDate

  /** A year below 100 is read as 2000 + year; NaN is never below 100. */
  function WidenYear(y: Num): (r: Num)
    ensures r.Finite? <==> y.Finite?
    ensures y.Finite? ==> r.value == y.value || r.value == y.value + 2000
    ensures y.Finite? && y.value >= 100 ==> r == y
    ensures y.Finite? && y.value < 100 ==> r == Finite(2000 + y.value)
    ensures y.Finite? && y.value >= 0 ==> r.value >= 100
  {
    if y.Finite? && y.value < 100 then Finite(2000 + y.value) else y
  }

  /**
   * `parseCsvDate`: null for an empty field or one with fewer than two slashes;
   * otherwise the first three slash-separated parts as numbers, year widened.
   */
  function ParseCsvDate(s: string): (r: Option<CsvDate>)
    ensures r.None? <==> s == "" || Count(s, '/') < 2
  {
    if s == "" then None
    else
      var parts := Split(s, '/');
      if |parts| < 3 then None
      else Some(CsvDate(ToNumber(parts[0]), ToNumber(parts[1]), WidenYear(ToNumber(parts[2]))))
  }

  function FormatCsvDate(month: nat, day: nat, year: nat): string
  {
    Decimal(month) + "/" + Decimal(day) + "/" + Decimal(year)
  }

  /** Parsing a rendered `M/D/Y` date gives its numbers back, a two-digit year widened to 20YY. */
  lemma {:induction false} ParseCsvDateFormat(month: nat, day: nat, year: nat)
    ensures ParseCsvDate(FormatCsvDate(month, day, year))
      == Some(CsvDate(Finite(month), Finite(day), Finite(if year < 100 then 2000 + year else year)))
  {
    var parts := [Decimal(month), Decimal(day), Decimal(year)];
    forall i | 0 <= i < 3
      ensures '/' !in parts[i]
    {
      assert AllDigits(parts[i]) && !IsDigit('/');
    }
    assert parts[1..] == [Decimal(day), Decimal(year)];
    assert parts[1..][1..] == [Decimal(year)];
    assert Join(parts[1..], '/') == Decimal(day) + "/" + Decimal(year);
    assert Join(parts, '/') == Decimal(month) + "/" + (Decimal(day) + "/" + Decimal(year));
    assert Join(parts, '/') == FormatCsvDate(month, day, year);
    SplitJoin(parts, '/');
    ToNumberDecimal(month);
    ToNumberDecimal(day);
    ToNumberDecimal(year);
  }

  // ---------------------------------------------------------------------------
  // The file's lines: split on newlines, trimmed, blank lines dropped

  function TrimEnd(s: string): string
  {
    if s != [] && IsJsSpace(s[|s| - 1]) then TrimEnd(s[..|s| - 1]) else s
  }

  /** `TrimEnd` drops a suffix of white space only, and what remains does not end with white space. */
  lemma {:induction false} TrimEndShape(s: string)
    ensures |TrimEnd(s)| <= |s| && TrimEnd(s) == s[..|TrimEnd(s)|]
    ensures forall i :: |TrimEnd(s)| <= i < |s| ==> IsJsSpace(s[i])
    ensures TrimEnd(s) == [] || !IsJsSpace(TrimEnd(s)[|TrimEnd(s)| - 1])
  {
    if s != [] && IsJsSpace(s[|s| - 1]) {
      TrimEndShape(s[..|s| - 1]);
      forall i | |TrimEnd(s)| <= i < |s|
        ensures IsJsSpace(s[i])
      {
        if i < |s| - 1 {
          assert s[i] == s[..|s| - 1][i];
        }
      }
    }
  }

  /** No white space at either end. */
  predicate Trimmed(s: string)
  {
    s == [] || (!IsJsSpace(s[0]) && !IsJsSpace(s[|s| - 1]))
  }

  /** `t` is `s[a..b]`, and everything of `s` outside `a .. b` is white space. */
  predicate StrippedAt(s: string, t: string, a: nat, b: nat)
  {
    && a <= b <= |s| && t == s[a..b]
    && (forall i :: 0 <= i < a ==> IsJsSpace(s[i]))
    && (forall i :: b <= i < |s| ==> IsJsSpace(s[i]))
  }

  /**
   * `s.trim()`: the string without its leading and trailing white space. The
   * result is a slice of `s` with only white space outside it, and has no white
   * space at its ends; these two facts determine it.
   */
  function Trim(s: string): (t: string)
    ensures Trimmed(t)
    ensures exists a, b :: StrippedAt(s, t, a, b)
  {
    var u := TrimStart(s);
    var t := TrimEnd(u);
    TrimStartShape(s);
    TrimEndShape(u);
    assert t == [] || t[0] == u[0];
    var a := |s| - |u|;
    assert t == s[a..a + |t|];
    assert forall i :: a + |t| <= i < |s| ==> s[i] == u[i - a];
    assert StrippedAt(s, t, a, a + |t|);
    t
  }

  /** Trim yields a slice of its argument, so it never introduces a character. */
  lemma TrimWithin(s: string, c: char)
    requires c in Trim(s)
    ensures c in s
  {
    var a: nat, b: nat :| StrippedAt(s, Trim(s), a, b);
    var m :| 0 <= m < |Trim(s)| && Trim(s)[m] == c;
    assert s[a + m] == c;
  }

  /** Trimming leaves a string without white space at its ends unchanged. */
  lemma TrimTrimmed(s: string)
    requires Trimmed(s)
    ensures Trim(s) == s
  {
  }

  /** How many of the parts are not blank once trimmed. */
  function NonBlankCount(parts: seq<string>): (n: nat)
    ensures n <= |parts|
  {
    if parts == [] then 0
    else (if Trim(parts[0]) == "" then 0 else 1) + NonBlankCount(parts[1..])
  }

  /**
   * The non-blank parts, each trimmed, in order: there is one line per
   * non-blank part (`NonBlankAt` places each one).
   */
  function NonBlank(parts: seq<string>): (lines: seq<string>)
    ensures |lines| == NonBlankCount(parts)
    ensures forall i :: 0 <= i < |lines| ==> lines[i] != "" && Trimmed(lines[i])
  {
    if parts == [] then []
    else
      var rest := NonBlank(parts[1..]);
      if Trim(parts[0]) == "" then rest else [Trim(parts[0])] + rest
  }

  /**
   * The loader's line list: `csv.split("\n").map(trim).filter(non-empty)`.
   * Each newline-separated piece that is not blank once trimmed gives one line,
   * trimmed, at the position given by the non-blank pieces before it; so a
   * `\r` before a newline and blank lines are dropped.
   */
  function CsvLines(csv: string): (lines: seq<string>)
    ensures |lines| == NonBlankCount(Split(csv, '\n'))
    ensures forall i :: 0 <= i < |lines| ==> lines[i] != "" && Trimmed(lines[i]) && '\n' !in lines[i]
    ensures forall i :: 0 <= i < |Split(csv, '\n')| && Trim(Split(csv, '\n')[i]) != "" ==>
      NonBlankCount(Split(csv, '\n')[..i]) < |lines| && lines[NonBlankCount(Split(csv, '\n')[..i])] == Trim(Split(csv, '\n')[i])
  {
    var parts := Split(csv, '\n');
    var lines := NonBlank(parts);
    forall i | 0 <= i < |lines|
      ensures '\n' !in lines[i]
    {
      NonBlankNoSeparator(parts, '\n', i);
    }
    forall i | 0 <= i < |parts| && Trim(parts[i]) != ""
      ensures NonBlankCount(parts[..i]) < |lines| && lines[NonBlankCount(parts[..i])] == Trim(parts[i])
    {
      NonBlankAt(parts, i);
    }
    lines
  }

  /**
   * A part that is not blank once trimmed appears, trimmed, as line number
   * "non-blank parts before it": nothing is reordered and nothing else dropped.
   */
  lemma {:induction false} NonBlankAt(parts: seq<string>, i: nat)
    requires i < |parts| && Trim(parts[i]) != ""
    ensures NonBlankCount(parts[..i]) < |NonBlank(parts)|
    ensures NonBlank(parts)[NonBlankCount(parts[..i])] == Trim(parts[i])
  {
    if i > 0 {
      NonBlankAt(parts[1..], i - 1);
      assert parts[..i][1..] == parts[1..][..i - 1];
      assert parts[..i][0] == parts[0];
    }
  }

  lemma {:induction false} NonBlankNoSeparator(parts: seq<string>, sep: char, i: nat)
    requires forall j :: 0 <= j < |parts| ==> sep !in parts[j]
    requires i < |NonBlank(parts)|
    ensures sep !in NonBlank(parts)[i]
  {
    var rest := NonBlank(parts[1..]);
    if Trim(parts[0]) == "" {
      NonBlankNoSeparator(parts[1..], sep, i);
    } else if i > 0 {
      NonBlankNoSeparator(parts[1..], sep, i - 1);
    } else {
      assert sep !in parts[0];
    }
  }

  /** Lines that are already non-blank and trimmed pass through unchanged. */
  lemma {:induction false} NonBlankKeeps(lines: seq<string>)
    requires forall i :: 0 <= i < |lines| ==> lines[i] != "" && Trimmed(lines[i])
    ensures NonBlank(lines) == lines
  {
    if lines != [] {
      TrimTrimmed(lines[0]);
      NonBlankKeeps(lines[1..]);
      assert lines == [lines[0]] + lines[1..];
    }
  }

  /** Writing non-blank trimmed lines one per row and reading the file back gives the same lines. */
  lemma CsvLinesJoin(lines: seq<string>)
    requires |lines| >= 1
    requires forall i :: 0 <= i < |lines| ==> lines[i] != "" && Trimmed(lines[i]) && '\n' !in lines[i]
    ensures CsvLines(Join(lines, '\n')) == lines
  {
    SplitJoin(lines, '\n');
    NonBlankKeeps(lines);
  }

  // ---------------------------------------------------------------------------
  // Rows

  /**
   * One data line: kept when it has at least 7 comma-separated fields, a date
   * field `parseCsvDate` accepts and coordinates `locate` accepts. `locate`
   * stands for `parseFloat` of both coordinates, the NaN test and the rounded
   * key; `stamp` stands for the `Date` constructor followed by `getTime`.
   */
  function ParseRow(line: string, locate: (string, string) -> Option<LocKey>, stamp: CsvDate -> int): Option<Record>
  {
    var cols := Split(line, ',');
    if |cols| < 7 then None
    else
      var loc := locate(cols[3], cols[4]);
      var date := ParseCsvDate(cols[5]);
      var confirmed := ParseIntOrZero(cols[6]);
      if date.None? || loc.None? then None
      else Some(Record(cols[2], loc.value, stamp(date.value), confirmed))
  }

  /**
   * What `ParseRow` keeps and what it records: a line is kept exactly when it
   * has at least 7 fields, a date `parseCsvDate` accepts and coordinates
   * `locate` accepts; the record's country is field 2, its key the located
   * coordinates of fields 3 and 4, its timestamp the stamp of the parsed date
   * in field 5, and its count `parseInt(field 6) || 0`.
   */
  lemma ParseRowMeaning(line: string, locate: (string, string) -> Option<LocKey>, stamp: CsvDate -> int)
    ensures ParseRow(line, locate, stamp).Some? ==> |Split(line, ',')| >= 7
    ensures ParseRow(line, locate, stamp).Some? <==>
      && Count(line, ',') >= 6
      && ParseCsvDate(Split(line, ',')[5]).Some?
      && locate(Split(line, ',')[3], Split(line, ',')[4]).Some?
    ensures var r := ParseRow(line, locate, stamp); r.Some? ==>
      && r.value.country == Split(line, ',')[2]
      && r.value.key == locate(Split(line, ',')[3], Split(line, ',')[4]).value
      && r.value.dateTs == stamp(ParseCsvDate(Split(line, ',')[5]).value)
      && r.value.confirmed == ParseIntOrZero(Split(line, ',')[6])
  {
  }

  /** The loader's row parser, with the coordinate and date conversions fixed. */
  function RowParser(locate: (string, string) -> Option<LocKey>, stamp: CsvDate -> int): string -> Option<Record>
  {
    line => ParseRow(line, locate, stamp)
  }

  /**
   * The records `parse` yields for lines 1 .. n-1 (line 0 is the header), in
   * line order. The loader's parser is `RowParser`; the lemmas below hold for
   * any row parser.
   */
  function KeptRecords(lines: seq<string>, n: nat, parse: string -> Option<Record>): seq<Record>
    requires n <= |lines|
  {
    if n <= 1 then []
    else
      var prev := KeptRecords(lines, n - 1, parse);
      match parse(lines[n - 1])
      case Some(r) => prev + [r]
      case None => prev
  }

  /**
   * The ingestion loop of the loader: every line after the header, parsed and
   * filtered; the loader passes `RowParser(locate, stamp)`.
   */
  method IngestRows(lines: seq<string>, parse: string -> Option<Record>) returns (records: seq<Record>)
    ensures records == KeptRecords(lines, |lines|, parse)
  {
    records := [];
    var i := 1;
    while i < |lines|
      invariant 1 <= i && (|lines| > 0 ==> i <= |lines|)
      invariant records == if |lines| == 0 then [] else KeptRecords(lines, i, parse)
    {
      var row := parse(lines[i]);
      if row.Some? {
        records := records + [row.value];
      }
      i := i + 1;
    }
  }

  /** Every record comes from a data line (never the header) that parses to it. */
  lemma {:induction false} KeptRecordsSound(lines: seq<string>, n: nat, parse: string -> Option<Record>, j: nat)
    requires n <= |lines|
    requires j < |KeptRecords(lines, n, parse)|
    ensures exists i :: 1 <= i < n && parse(lines[i]) == Some(KeptRecords(lines, n, parse)[j])
  {
    var rows := KeptRecords(lines, n, parse);
    var prev := KeptRecords(lines, n - 1, parse);
    var row := parse(lines[n - 1]);
    assert rows == if row.Some? then prev + [row.value] else prev;
    if j < |prev| {
      KeptRecordsSound(lines, n - 1, parse, j);
      var i :| 1 <= i < n - 1 && parse(lines[i]) == Some(prev[j]);
      assert rows[j] == prev[j];
    } else {
      assert row == Some(rows[j]);
    }
  }

  /** Every data line that parses contributes its record. */
  lemma {:induction false} KeptRecordsComplete(lines: seq<string>, n: nat, parse: string -> Option<Record>, i: nat)
    requires 1 <= i < n <= |lines|
    requires parse(lines[i]).Some?
    ensures parse(lines[i]).value in KeptRecords(lines, n, parse)
  {
    if i < n - 1 {
      KeptRecordsComplete(lines, n - 1, parse, i);
    }
  }

  lemma {:induction false} KeptRecordsLength(lines: seq<string>, n: nat, parse: string -> Option<Record>)
    requires n <= |lines|
    ensures |KeptRecords(lines, n, parse)| <= if n == 0 then 0 else n - 1
  {
    if n > 1 {
      KeptRecordsLength(lines, n - 1, parse);
    }
  }

  /** The header line never influences the records. */
  lemma {:induction false} HeaderIgnored(lines: seq<string>, header: string, n: nat, parse: string -> Option<Record>)
    requires 1 <= n <= |lines|
    ensures KeptRecords([header] + lines[1..], n, parse) == KeptRecords(lines, n, parse)
  {
    if n > 1 {
      HeaderIgnored(lines, header, n - 1, parse);
      assert ([header] + lines[1..])[n - 1] == lines[n - 1];
    }
  }
}
