/** The text checkpoint: a header line "total <tab> voltage deadline <tab> resistance deadline" and one
    tab-terminated resistance field per finished cell. Its printer, its parser and the library text
    routines both rely on. Resistances are natural numbers of hundredths. */
module Checkpoint {
  import opened Basics

  const INT_MAX := 0x7fff_ffff
  const BUFFER := 1024

  // ---- Decimal text ----

  predicate IsDigit(c: char) {
    '0' <= c <= '9'
  }

  ghost predicate AllDigits(s: string) {
    forall i :: 0 <= i < |s| ==> IsDigit(s[i])
  }

  function DigitChar(d: nat): (c: char)
    requires d < 10
    ensures IsDigit(c) && DigitValue(c) == d
  {
    ('0' as int + d) as char
  }

  function DigitValue(c: char): nat
    requires IsDigit(c)
  {
    c as int - '0' as int
  }

  /** "%d" and "%ld" of a natural number. */
  function Digits(n: nat): (s: string)
    ensures |s| > 0 && AllDigits(s)
  {
    if n < 10 then [DigitChar(n)] else Digits(n / 10) + [DigitChar(n % 10)]
  }

  /** Length of the leading run of digits. */
  function DigitRun(s: string): (r: nat)
    ensures r <= |s| && AllDigits(s[..r])
  {
    if s == "" || !IsDigit(s[0]) then 0 else 1 + DigitRun(s[1..])
  }

  function Value(s: string): nat
    requires AllDigits(s)
  {
    if s == "" then 0 else 10 * Value(s[..|s| - 1]) + DigitValue(s[|s| - 1])
  }

  function Saturate(n: nat): nat {
    if n > INT_MAX then INT_MAX else n
  }

  /** atoi on a token without sign or blanks; the 32-bit conversion saturates. */
  function Atoi(s: string): nat {
    Saturate(Value(s[..DigitRun(s)]))
  }

  /** "%.2f" of a number of hundredths. */
  function Fixed2(h: nat): string {
    Digits(h / 100) + "." + [DigitChar(h / 10 % 10), DigitChar(h % 10)]
  }

  /** Up to two digits after the point, in hundredths. */
  function Fraction(s: string): nat {
    if s == "" || !IsDigit(s[0]) then 0
    else 10 * DigitValue(s[0]) + (if |s| > 1 && IsDigit(s[1]) then DigitValue(s[1]) else 0)
  }

  /** atof, in hundredths, on a token without sign, blanks or exponent. */
  function Atof(s: string): nat {
    var r := DigitRun(s);
    100 * Value(s[..r]) + (if r < |s| && s[r] == '.' then Fraction(s[r + 1..]) else 0)
  }

  lemma {:induction false} ValueOfDigits(n: nat)
    ensures Value(Digits(n)) == n
  {
    if n < 10 {
      assert Digits(n)[..0] == "";
    } else {
      ValueOfDigits(n / 10);
      assert Digits(n)[..|Digits(n)| - 1] == Digits(n / 10);
    }
  }

  lemma {:induction false} DigitRunStops(d: string, rest: string)
    requires AllDigits(d) && (rest == "" || !IsDigit(rest[0]))
    ensures DigitRun(d + rest) == |d|
  {
    if d == "" {
      assert d + rest == rest;
    } else {
      assert (d + rest)[1..] == d[1..] + rest;
      DigitRunStops(d[1..], rest);
    }
  }

  lemma AtoiOfDigits(n: nat)
    ensures Atoi(Digits(n)) == if n <= 2147483647 then n else 2147483647
  {
    DigitRunStops(Digits(n), "");
    assert Digits(n) + "" == Digits(n);
    assert Digits(n)[..|Digits(n)|] == Digits(n);
    ValueOfDigits(n);
  }

  lemma AtofOfFixed2(h: nat)
    ensures Atof(Fixed2(h)) == h
  {
    var d, f := Digits(h / 100), [DigitChar(h / 10 % 10), DigitChar(h % 10)];
    assert Fixed2(h) == d + ("." + f);
    DigitRunStops(d, "." + f);
    assert Fixed2(h)[..|d|] == d && Fixed2(h)[|d| + 1..] == f;
    ValueOfDigits(h / 100);
  }

  // ---- strsep ----

  /** First position of the delimiter, or the length. */
  function IndexOf(s: string, delim: char): (i: nat)
    ensures i <= |s| && delim !in s[..i] && (i < |s| ==> s[i] == delim)
  {
    if s == "" || s[0] == delim then 0
    else
      var i := IndexOf(s[1..], delim) + 1;
      assert s[..i] == [s[0]] + s[1..][..i - 1];
      i
  }

  datatype Split = Split(token: Option<string>, rest: Option<string>)

  /** One token off the front; a null string yields a null token and stays null. */
  function StrSep(s: Option<string>, delim: char): Split {
    if s.None? then Split(None, None)
    else
      var i := IndexOf(s.value, delim);
      if i == |s.value| then Split(s, None)
      else Split(Some(s.value[..i]), Some(s.value[i + 1..]))
  }

  lemma {:induction false} IndexOfHit(a: string, delim: char, b: string)
    requires delim !in a
    ensures IndexOf(a + [delim] + b, delim) == |a|
  {
    if a != "" {
      assert (a + [delim] + b)[1..] == a[1..] + [delim] + b;
      IndexOfHit(a[1..], delim, b);
    }
  }

  lemma StrSepAt(a: string, delim: char, b: string)
    requires delim !in a
    ensures StrSep(Some(a + [delim] + b), delim) == Split(Some(a), Some(b))
  {
    var s := a + [delim] + b;
    IndexOfHit(a, delim, b);
    assert s[..|a|] == a && s[|a| + 1..] == b;
  }

  lemma StrSepLast(a: string, delim: char)
    requires delim !in a
    ensures StrSep(Some(a), delim) == Split(Some(a), None)
  {
  }

  // ---- The file ----

  function HeaderText(total: nat, tVol: nat, tRes: nat): string {
    Digits(total) + "\t" + (Digits(tVol) + "\t" + Digits(tRes)) + "\n"
  }

  function FieldText(h: nat): string {
    Fixed2(h) + "\t"
  }

  function FieldsText(fields: seq<nat>): string {
    if fields == [] then "" else FieldText(fields[0]) + FieldsText(fields[1..])
  }

  lemma {:induction false} FieldsTextAppend(fields: seq<nat>, h: nat)
    ensures FieldsText(fields + [h]) == FieldsText(fields) + FieldText(h)
  {
    if fields == [] {
      assert [h][1..] == [];
      assert FieldsText([h]) == FieldText(h) + FieldsText([]);
    } else {
      assert (fields + [h])[1..] == fields[1..] + [h];
      FieldsTextAppend(fields[1..], h);
    }
  }

  /** What the parser recovers. */
  datatype Loaded = Loaded(total: nat, tVol: nat, tRes: nat, fields: seq<nat>)

  function Size(p: Option<string>): nat {
    if p.Some? then |p.value| + 1 else 0
  }

  /** Fields up to the first null or empty token. */
  function ParseFields(p: Option<string>): seq<nat>
    decreases Size(p)
  {
    var t := StrSep(p, '\t');
    if t.token.None? || t.token.value == "" then [] else [Atof(t.token.value)] + ParseFields(t.rest)
  }

  function Number(token: Option<string>): nat {
    if token.Some? then Atoi(token.value) else 0
  }

  /** A single read of at most 1024 bytes, then the header line, then the field line. A missing file reads
      like an empty one. */
  function Load(file: string): Loaded {
    var buf := file[..Min(BUFFER, |file|)];
    if buf == "" then Loaded(0, 0, 0, [])
    else
      var line := StrSep(Some(buf), '\n');
      var a := StrSep(line.token, '\t');
      var b := StrSep(a.rest, '\t');
      var c := StrSep(b.rest, '\t');
      Loaded(Number(a.token), Number(b.token), Number(c.token),
             ParseFields(StrSep(line.rest, '\n').token))
  }

  lemma NotInDigits(s: string, c: char)
    requires AllDigits(s) && !IsDigit(c)
    ensures c !in s
  {
  }

  lemma NotInField(h: nat, c: char)
    requires !IsDigit(c) && c != '.'
    ensures c !in Fixed2(h)
  {
    NotInDigits(Digits(h / 100), c);
  }

  lemma {:induction false} NoNewlineInFields(fields: seq<nat>)
    ensures '\n' !in FieldsText(fields)
  {
    if fields != [] {
      NotInField(fields[0], '\n');
      NoNewlineInFields(fields[1..]);
    }
  }

  lemma {:induction false} ParseFieldsText(fields: seq<nat>)
    ensures ParseFields(Some(FieldsText(fields))) == fields
  {
    if fields == [] {
      StrSepLast("", '\t');
    } else {
      NotInField(fields[0], '\t');
      StrSepAt(Fixed2(fields[0]), '\t', FieldsText(fields[1..]));
      assert FieldsText(fields) == Fixed2(fields[0]) + ['\t'] + FieldsText(fields[1..]);
      ParseFieldsText(fields[1..]);
      AtofOfFixed2(fields[0]);
    }
  }

  lemma SplitHeader(total: nat, tVol: nat, tRes: nat)
    ensures var line := Digits(total) + "\t" + (Digits(tVol) + "\t" + Digits(tRes));
            var a := StrSep(Some(line), '\t');
            var b := StrSep(a.rest, '\t');
            var c := StrSep(b.rest, '\t');
            && '\n' !in line
            && a.token == Some(Digits(total)) && b.token == Some(Digits(tVol)) && c.token == Some(Digits(tRes))
  {
    var x, y, z := Digits(total), Digits(tVol), Digits(tRes);
    forall s | s == x || s == y || s == z ensures '\t' !in s && '\n' !in s {
      NotInDigits(s, '\t');
      NotInDigits(s, '\n');
    }
    StrSepAt(x, '\t', y + "\t" + z);
    StrSepAt(y, '\t', z);
    StrSepLast(z, '\t');
  }

  /** Parsing undoes printing for a header followed by any number of fields: the three numbers (as 32-bit
      integers), the count and every value. */
  lemma RoundTrip(total: nat, tVol: nat, tRes: nat, fields: seq<nat>)
    requires |HeaderText(total, tVol, tRes) + FieldsText(fields)| <= 1024
    ensures Load(HeaderText(total, tVol, tRes) + FieldsText(fields))
         == Loaded(Saturate(total), Saturate(tVol), Saturate(tRes), fields)
  {
    var line := Digits(total) + "\t" + (Digits(tVol) + "\t" + Digits(tRes));
    var file := HeaderText(total, tVol, tRes) + FieldsText(fields);
    assert file == line + ['\n'] + FieldsText(fields);
    assert file[..|file|] == file;
    SplitHeader(total, tVol, tRes);
    StrSepAt(line, '\n', FieldsText(fields));
    NoNewlineInFields(fields);
    StrSepLast(FieldsText(fields), '\n');
    ParseFieldsText(fields);
    AtoiOfDigits(total);
    AtoiOfDigits(tVol);
    AtoiOfDigits(tRes);
  }

  /** Fields end at the first empty token, whatever follows it. */
  lemma {:induction false} ParseStopsAtEmpty(fields: seq<nat>, rest: string)
    ensures ParseFields(Some(FieldsText(fields) + "\t" + rest)) == fields
  {
    if fields == [] {
      StrSepAt("", '\t', rest);
      assert FieldsText([]) + "\t" + rest == "" + ['\t'] + rest;
    } else {
      NotInField(fields[0], '\t');
      var more := FieldsText(fields[1..]) + "\t" + rest;
      StrSepAt(Fixed2(fields[0]), '\t', more);
      assert FieldsText(fields) + "\t" + rest == Fixed2(fields[0]) + ['\t'] + more;
      ParseStopsAtEmpty(fields[1..], rest);
      AtofOfFixed2(fields[0]);
    }
  }

  lemma SampleDigits()
    ensures Digits(55) == "55" && Digits(600) == "600" && Digits(9000) == "9000"
  {
    assert Digits(5) == "5" && Digits(6) == "6" && Digits(9) == "9";
    assert Digits(60) == Digits(6) + "0" && Digits(90) == Digits(9) + "0";
    assert Digits(600) == Digits(60) + "0" && Digits(900) == Digits(90) + "0";
  }

  lemma SampleHeader()
    ensures HeaderText(55, 600, 9000) == "55\t600\t9000\n"
  {
    hide Digits;
    SampleDigits();
  }

  lemma SampleField(h: nat)
    requires h < 1000
    ensures FieldText(h) == [DigitChar(h / 100), '.', DigitChar(h / 10 % 10), DigitChar(h % 10), '\t']
  {
  }

  lemma SampleFields()
    ensures FieldsText([206, 5, 0]) == "2.06\t0.05\t0.00\t"
  {
    hide FieldText;
    SampleField(206);
    SampleField(5);
    SampleField(0);
    var all, two, one := [206, 5, 0], [5, 0], [0];
    assert all[1..] == two && two[1..] == one && one[1..] == [];
    assert FieldsText(one) == FieldText(0) + FieldsText([]);
    assert FieldsText(two) == FieldText(5) + FieldsText(one);
    assert FieldsText(all) == FieldText(206) + FieldsText(two);
  }

  /** The file as it is on disk: 55 cells, voltage deadline 600, resistance deadline 9000, and the resistances
      2.06, 0.05 and 0. */
  lemma SampleFile()
    ensures HeaderText(55, 600, 9000) == "55\t600\t9000\n"
    ensures FieldsText([206, 5, 0]) == "2.06\t0.05\t0.00\t"
  {
    SampleHeader();
    SampleFields();
  }

  // ---- Size ----

  function Pow10(k: nat): nat {
    if k == 0 then 1 else 10 * Pow10(k - 1)
  }

  lemma {:induction false} DigitsLength(n: nat, k: nat)
    requires k > 0 && n < Pow10(k)
    ensures |Digits(n)| <= k
  {
    if n >= 10 {
      assert k > 1;
      DigitsLength(n / 10, k - 1);
    }
  }

  lemma HeaderLength(total: nat, tVol: nat, tRes: nat)
    requires total < 100 && tVol <= INT_MAX && tRes <= INT_MAX
    ensures |HeaderText(total, tVol, tRes)| <= 25
  {
    assert Pow10(2) == 100;
    assert Pow10(5) == 100000;
    assert Pow10(10) == 100000 * Pow10(5);
    DigitsLength(total, 2);
    DigitsLength(tVol, 10);
    DigitsLength(tRes, 10);
  }

  lemma {:induction false} FieldsLength(fields: seq<nat>)
    requires forall i :: 0 <= i < |fields| ==> fields[i] < 100000
    ensures |FieldsText(fields)| <= 7 * |fields|
  {
    if fields != [] {
      assert Pow10(3) == 1000;
      DigitsLength(fields[0] / 100, 3);
      FieldsLength(fields[1..]);
    }
  }

  /** Sixty cells of readings the decoder can produce leave room for the terminating zero. */
  lemma CheckpointFits(total: nat, tVol: nat, tRes: nat, fields: seq<nat>)
    requires total <= 60 && tVol <= 2147483647 && tRes <= 2147483647 && |fields| <= 60
    requires forall i :: 0 <= i < |fields| ==> fields[i] < 100000
    ensures |HeaderText(total, tVol, tRes) + FieldsText(fields)| < 1024
  {
    HeaderLength(total, tVol, tRes);
    FieldsLength(fields);
  }
}
