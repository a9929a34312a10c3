/** The few Python string operations the camera server relies on, stated on
    `seq<char>`: `str(int)`, `str.isdigit`, `int(str)`, `str.strip`,
    `str.split(sep)`, `str.splitlines` and the `in` substring test. */
module Text {
  import opened Wrappers

  // ---------------------------------------------------------------------
  // Digits and decimal numerals

  predicate IsDigit(c: char)
  {
    '0' <= c <= '9'
  }

  /** `str.isdigit()` on ASCII text: non-empty and made only of digits. */
  predicate AllDigits(s: string)
  {
    |s| > 0 && forall i :: 0 <= i < |s| ==> IsDigit(s[i])
  }

  function DigitChar(d: nat): (c: char)
    requires d < 10
    ensures IsDigit(c)
  {
    (48 + d) as char
  }

  function DigitValue(c: char): (d: nat)
    requires IsDigit(c)
    ensures d < 10 && DigitChar(d) == c
  {
    (c as int - 48) as nat
  }

  /** The decimal numeral of `n`, as `str(n)` writes it. */
  function Decimal(n: nat): (s: string)
    ensures AllDigits(s)
    ensures s[0] == '0' ==> n == 0 && s == "0"
    decreases n
  {
    if n < 10 then [DigitChar(n)] else Decimal(n / 10) + [DigitChar(n % 10)]
  }

  /** The number a string of digits denotes. */
  function DigitsValue(s: string): nat
    requires forall i :: 0 <= i < |s| ==> IsDigit(s[i])
  {
    if s == [] then 0 else DigitsValue(s[..|s| - 1]) * 10 + DigitValue(s[|s| - 1])
  }

  lemma {:induction false} DecimalValue(n: nat)
    ensures DigitsValue(Decimal(n)) == n
    decreases n
  {
    if n >= 10 {
      DecimalValue(n / 10);
      var s := Decimal(n);
      assert s[..|s| - 1] == Decimal(n / 10);
    }
  }

  /** `str(i)` for a Python int: `int()` reads it back as `i`, and it is all
      digits exactly when `i` is not negative. */
  function IntText(i: int): (s: string)
    ensures ParseInt(s) == Some(i)
    ensures AllDigits(s) <==> i >= 0
  {
    if i < 0 then
      var n: nat := -i;
      ParseIntNegative(n);
      var s := "-" + Decimal(n);
      assert s[0] == '-';
      s
    else
      ParseIntDecimal(i);
      Decimal(i)
  }

  // ---------------------------------------------------------------------
  // Whitespace and str.strip()

  /** Python's `str.isspace()` for one character. */
  predicate IsSpace(c: char)
  {
    || c == ' ' || c == '\t' || c == '\n' || c == '\r'
    || c == '\U{0B}' || c == '\U{0C}' || ('\U{1C}' <= c <= '\U{1F}')
    || c == '\U{85}' || c == '\U{A0}' || c == '\U{1680}'
    || ('\U{2000}' <= c <= '\U{200A}') || c == '\U{2028}' || c == '\U{2029}'
    || c == '\U{202F}' || c == '\U{205F}' || c == '\U{3000}'
  }

  predicate AllSpace(s: string)
  {
    forall i :: 0 <= i < |s| ==> IsSpace(s[i])
  }

  /** The number of whitespace characters that start `s`. */
  function Leading(s: string): (n: nat)
    ensures n <= |s| && AllSpace(s[..n])
    ensures n < |s| ==> !IsSpace(s[n])
  {
    if s != [] && IsSpace(s[0]) then
      var n := 1 + Leading(s[1..]);
      assert s[..n] == [s[0]] + s[1..][..n - 1];
      n
    else 0
  }

  /** The number of whitespace characters that end `s`. */
  function Trailing(s: string): (n: nat)
    ensures n <= |s| && AllSpace(s[|s| - n..])
    ensures n < |s| ==> !IsSpace(s[|s| - n - 1])
  {
    if s != [] && IsSpace(s[|s| - 1]) then
      var n := 1 + Trailing(s[..|s| - 1]);
      assert s[|s| - n..] == s[..|s| - 1][|s| - n..] + [s[|s| - 1]];
      n
    else 0
  }

  /** `str.strip()`: the text between the leading and the trailing whitespace. */
  function Strip(s: string): (r: string)
    ensures Leading(s) + |r| <= |s|
    ensures r == s[Leading(s)..Leading(s) + |r|]
    ensures r != [] ==> !IsSpace(r[0]) && !IsSpace(r[|r| - 1])
  {
    var a := Leading(s);
    var rest := s[a..];
    var b := Trailing(rest);
    assert rest[|rest| - b..] == s[a + (|rest| - b)..];
    assert a == |s| ==> s[..a] == s;
    assert a < |s| ==> !IsSpace(rest[0]) && |rest| - b > 0;
    rest[..|rest| - b]
  }

  lemma {:induction false} LeadingPadded(pad: string, t: string)
    requires AllSpace(pad)
    requires t == [] || !IsSpace(t[0])
    ensures Leading(pad + t) == |pad|
    decreases |pad|
  {
    if pad == [] {
      assert pad + t == t;
    } else {
      LeadingPadded(pad[1..], t);
      assert (pad + t)[1..] == pad[1..] + t;
    }
  }

  /** Leading whitespace is stripped off text that does not end with whitespace. */
  lemma StripPadded(pad: string, t: string)
    requires AllSpace(pad)
    requires |t| > 0 && !IsSpace(t[0]) && !IsSpace(t[|t| - 1])
    ensures Strip(pad + t) == t
  {
    LeadingPadded(pad, t);
    assert (pad + t)[|pad|..] == t;
    assert t[..|t|] == t;
  }

  /** Only whitespace is stripped: what follows the result is all whitespace, and
      the result is empty exactly when the text is all whitespace. */
  lemma StripRemovesSpace(s: string)
    ensures AllSpace(s[Leading(s) + |Strip(s)|..])
    ensures Strip(s) == [] <==> AllSpace(s)
  {
    var a := Leading(s);
    var rest := s[a..];
    var b := Trailing(rest);
    assert rest[|rest| - b..] == s[a + (|rest| - b)..];
    assert a == |s| ==> s[..a] == s;
    assert a < |s| ==> !IsSpace(rest[0]) && |rest| - b > 0;
  }

  /** Text that neither starts nor ends with whitespace is its own strip. */
  lemma StripUnpadded(s: string)
    requires |s| > 0 && !IsSpace(s[0]) && !IsSpace(s[|s| - 1])
    ensures Strip(s) == s
  {
    assert Leading(s) == 0;
    assert s[0..|s|] == s;
  }

  // ---------------------------------------------------------------------
  // Substrings

  ghost predicate OccursAt(t: string, s: string, i: int)
  {
    0 <= i && i + |t| <= |s| && s[i..i + |t|] == t
  }

  /** Python's `t in s` for strings. */
  function Occurs(t: string, s: string): (b: bool)
    ensures b <==> exists i :: OccursAt(t, s, i)
    decreases |s|
  {
    if |s| < |t| then false
    else if s[..|t|] == t then
      assert OccursAt(t, s, 0);
      true
    else
      var b := Occurs(t, s[1..]);
      if b then
        assert exists i :: OccursAt(t, s, i) by {
          var i :| OccursAt(t, s[1..], i);
          assert OccursAt(t, s, i + 1);
        }
        true
      else
        assert forall i :: OccursAt(t, s, i) ==> i == 0 || OccursAt(t, s[1..], i - 1);
        false
  }

  // ---------------------------------------------------------------------
  // str.split(sep) with a one-character separator

  /** The index of the first `c` in `s`, or `|s|` when there is none. */
  function IndexOf(s: string, c: char): (i: nat)
    ensures i <= |s|
    ensures forall j :: 0 <= j < i ==> s[j] != c
    ensures i < |s| ==> s[i] == c
  {
    if s == [] then 0
    else if s[0] == c then 0
    else 1 + IndexOf(s[1..], c)
  }

  /** The pieces of a split, put back together with the separator between them. */
  function Join(pieces: seq<string>, sep: char): string
    requires |pieces| > 0
  {
    if |pieces| == 1 then pieces[0] else pieces[0] + [sep] + Join(pieces[1..], sep)
  }

  /** `s.split(sep)`: the maximal runs of `s` that hold no `sep`, in order. */
  function Split(s: string, sep: char): (pieces: seq<string>)
    ensures |pieces| > 0
    ensures forall k :: 0 <= k < |pieces| ==> sep !in pieces[k]
    ensures Join(pieces, sep) == s
    decreases |s|
  {
    var i := IndexOf(s, sep);
    if i == |s| then
      [s]
    else
      var rest := Split(s[i + 1..], sep);
      assert s == s[..i] + [sep] + s[i + 1..];
      [s[..i]] + rest
  }

  /** Splitting undoes joining pieces that hold no separator. */
  lemma {:induction false} SplitJoin(pieces: seq<string>, sep: char)
    requires |pieces| > 0
    requires forall k :: 0 <= k < |pieces| ==> sep !in pieces[k]
    ensures Split(Join(pieces, sep), sep) == pieces
    decreases |pieces|
  {
    var s := Join(pieces, sep);
    if |pieces| == 1 {
      assert IndexOf(s, sep) == |s|;
    } else {
      SplitJoin(pieces[1..], sep);
      var p := pieces[0];
      assert s == p + [sep] + Join(pieces[1..], sep);
      assert s[|p|] == sep;
      assert forall j :: 0 <= j < |p| ==> s[j] == p[j];
      assert IndexOf(s, sep) == |p|;
      assert s[..|p|] == p;
      assert s[|p| + 1..] == Join(pieces[1..], sep);
    }
  }

  /** `s.split(sep)[-1]`. */
  function LastPiece(s: string, sep: char): string
  {
    var pieces := Split(s, sep);
    pieces[|pieces| - 1]
  }

  /** `r` is the text after the last `sep` of `s`: a suffix of `s` that holds no
      `sep` and is either all of `s` or preceded by one. */
  ghost predicate TextAfterLast(s: string, r: string, sep: char)
  {
    && |r| <= |s| && r == s[|s| - |r|..] && sep !in r
    && (|r| < |s| ==> s[|s| - |r| - 1] == sep)
  }

  /** The last piece is the text after the last separator. */
  lemma {:induction false} LastPieceIsSuffix(s: string, sep: char)
    ensures TextAfterLast(s, LastPiece(s, sep), sep)
    decreases |s|
  {
    var i := IndexOf(s, sep);
    if i == |s| {
      assert Split(s, sep) == [s];
    } else {
      var t := s[i + 1..];
      LastPieceStep(s, sep);
      LastPieceIsSuffix(t, sep);
      AfterLastExtend(s, i, LastPiece(t, sep), sep);
    }
  }

  /** Past the first separator, the last piece is the last piece of the rest. */
  lemma LastPieceStep(s: string, sep: char)
    requires IndexOf(s, sep) < |s|
    ensures LastPiece(s, sep) == LastPiece(s[IndexOf(s, sep) + 1..], sep)
  {
    var i := IndexOf(s, sep);
    assert Split(s, sep) == [s[..i]] + Split(s[i + 1..], sep);
  }

  /** The text after the last separator of the part after a separator is the
      text after the last separator of the whole. */
  lemma AfterLastExtend(s: string, i: nat, r: string, sep: char)
    requires i < |s| && s[i] == sep && TextAfterLast(s[i + 1..], r, sep)
    ensures TextAfterLast(s, r, sep)
  {
    var t := s[i + 1..];
    assert t[|t| - |r|..] == s[|s| - |r|..];
    if |r| == |t| {
      assert s[|s| - |r| - 1] == s[i];
    } else {
      assert s[|s| - |r| - 1] == t[|t| - |r| - 1];
    }
  }

  /** The text after the last separator is determined by the text: a longer
      candidate would hold the separator that precedes the shorter one. */
  lemma TextAfterLastUnique(s: string, r1: string, r2: string, sep: char)
    requires TextAfterLast(s, r1, sep) && TextAfterLast(s, r2, sep)
    ensures r1 == r2
  {
    if |r1| < |r2| {
      assert false;
    } else if |r2| < |r1| {
      assert false;
    }
  }

  // ---------------------------------------------------------------------
  // str.splitlines()

  /** The characters `str.splitlines()` treats as line boundaries ("\r\n" counts as one). */
  predicate IsLineBreak(c: char)
  {
    || c == '\n' || c == '\r' || c == '\U{0B}' || c == '\U{0C}'
    || c == '\U{1C}' || c == '\U{1D}' || c == '\U{1E}' || c == '\U{85}'
    || c == '\U{2028}' || c == '\U{2029}'
  }

  function LineEnd(s: string): (i: nat)
    ensures i <= |s|
    ensures forall j :: 0 <= j < i ==> !IsLineBreak(s[j])
    ensures i < |s| ==> IsLineBreak(s[i])
  {
    if s == [] then 0
    else if IsLineBreak(s[0]) then 0
    else 1 + LineEnd(s[1..])
  }

  predicate NoBreak(line: string)
  {
    forall j :: 0 <= j < |line| ==> !IsLineBreak(line[j])
  }

  /** `s.splitlines()`: the lines of `s` without their line boundaries; a final
      boundary does not start an empty line. */
  function SplitLines(s: string): (lines: seq<string>)
    ensures forall k :: 0 <= k < |lines| ==> NoBreak(lines[k])
    ensures lines == [] <==> s == []
    decreases |s|
  {
    if s == [] then []
    else
      var i := LineEnd(s);
      if i == |s| then [s]
      else
        var width := if s[i] == '\r' && i + 1 < |s| && s[i + 1] == '\n' then 2 else 1;
        [s[..i]] + SplitLines(s[i + width..])
  }

  /** Lines joined by "\n", the last one not empty, split back into the same lines. */
  lemma {:induction false} SplitLinesJoin(lines: seq<string>)
    requires |lines| > 0 && lines[|lines| - 1] != []
    requires forall k :: 0 <= k < |lines| ==> NoBreak(lines[k])
    ensures SplitLines(Join(lines, '\n')) == lines
    decreases |lines|
  {
    var s := Join(lines, '\n');
    if |lines| == 1 {
      assert LineEnd(s) == |s|;
    } else {
      SplitLinesJoin(lines[1..]);
      var p := lines[0];
      var rest := Join(lines[1..], '\n');
      assert s == p + ['\n'] + rest;
      assert forall j :: 0 <= j < |p| ==> s[j] == p[j];
      assert s[|p|] == '\n';
      assert LineEnd(s) == |p|;
      assert s[..|p|] == p;
      assert s[|p| + 1..] == rest;
    }
  }

  /** Lines each ended by "\n" (any of them, the last included, may be empty)
      split back into the same lines: the shape of a command's printed output. */
  lemma {:induction false} SplitLinesTerminated(lines: seq<string>)
    requires |lines| > 0
    requires forall k :: 0 <= k < |lines| ==> NoBreak(lines[k])
    ensures SplitLines(Join(lines, '\n') + "\n") == lines
    decreases |lines|
  {
    var p := lines[0];
    assert NoBreak(p);
    if |lines| == 1 {
      LineAt(p + ['\n'], p, []);
    } else {
      var more := lines[1..];
      assert forall k :: 0 <= k < |more| ==> NoBreak(more[k]) by {
        forall k | 0 <= k < |more| ensures NoBreak(more[k]) {
          assert more[k] == lines[k + 1];
        }
      }
      SplitLinesTerminated(more);
      TerminatedStep(Join(lines, '\n') + "\n", p, Join(more, '\n'), more);
      assert lines == [p] + more;
    }
  }

  lemma TerminatedStep(s: string, p: string, joined: string, more: seq<string>)
    requires NoBreak(p) && s == p + ['\n'] + joined + "\n"
    requires SplitLines(joined + "\n") == more
    ensures SplitLines(s) == [p] + more
  {
    LineAt(s, p, joined + "\n");
  }

  /** A line without breaks, then "\n": the split starts with that line. */
  lemma LineAt(s: string, p: string, rest: string)
    requires NoBreak(p) && s == p + ['\n'] + rest
    ensures SplitLines(s) == [p] + SplitLines(rest)
  {
    assert forall j :: 0 <= j < |p| ==> s[j] == p[j];
    assert s[|p|] == '\n';
    assert LineEnd(s) == |p|;
    assert s[..|p|] == p;
    assert s[|p| + 1..] == rest;
  }

  // ---------------------------------------------------------------------
  // int(str)

  predicate DigitsOrUnderscores(s: string)
  {
    forall i :: 0 <= i < |s| ==> IsDigit(s[i]) || s[i] == '_'
  }

  /** Digits in groups separated by single underscores, as `int()` accepts them. */
  predicate IsNumeral(s: string)
  {
    && |s| > 0 && IsDigit(s[0]) && IsDigit(s[|s| - 1])
    && DigitsOrUnderscores(s)
    && forall i :: 0 <= i < |s| - 1 && s[i] == '_' ==> IsDigit(s[i + 1])
  }

  /** The digits of a numeral, underscores dropped. */
  function WithoutUnderscores(s: string): (r: string)
    requires DigitsOrUnderscores(s)
    ensures forall i :: 0 <= i < |r| ==> IsDigit(r[i])
    ensures (forall i :: 0 <= i < |s| ==> IsDigit(s[i])) ==> r == s
  {
    if s == [] then []
    else (if s[0] == '_' then [] else [s[0]]) + WithoutUnderscores(s[1..])
  }

  /** `int(s)` for a base-10 string: surrounding whitespace, an optional sign,
      then a numeral; `None` where Python raises `ValueError`. */
  function ParseInt(s: string): Option<int>
  {
    var t := Strip(s);
    if |t| > 0 && (t[0] == '-' || t[0] == '+') then
      var body := t[1..];
      if IsNumeral(body) then
        var v: int := DigitsValue(WithoutUnderscores(body));
        Some(if t[0] == '-' then -v else v)
      else None
    else if IsNumeral(t) then
      Some(DigitsValue(WithoutUnderscores(t)))
    else None
  }

  lemma NumeralOfDigits(s: string)
    requires AllDigits(s)
    ensures IsNumeral(s)
  {
  }

  lemma ParseIntDecimal(n: nat)
    ensures ParseInt(Decimal(n)) == Some(n)
  {
    var d := Decimal(n);
    DecimalValue(n);
    NumeralOfDigits(d);
    StripUnpadded(d);
    assert WithoutUnderscores(d) == d;
  }

  lemma ParseIntNegative(n: nat)
    requires n > 0
    ensures ParseInt("-" + Decimal(n)) == Some(-(n as int))
  {
    var d := Decimal(n);
    var s := "-" + d;
    DecimalValue(n);
    NumeralOfDigits(d);
    StripUnpadded(s);
    assert s[1..] == d;
    assert WithoutUnderscores(d) == d;
  }
}
