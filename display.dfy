/** The timer's text display: the `M:SS` rendering written by `updateTimerDisplay`
    and the parse the start button applies to it when it resumes a paused countdown. */
module Display {

  datatype Option<T> = None | Some(value: T)

  predicate IsDigit(c: char) {
    '0' <= c <= '9'
  }

  predicate AllDigits(s: string) {
    forall i :: 0 <= i < |s| ==> IsDigit(s[i])
  }

  function DigitValue(c: char): nat
    requires IsDigit(c)
  {
    (c as int) - ('0' as int)
  }

  function DigitChar(d: nat): (c: char)
    requires d < 10
    ensures IsDigit(c) && DigitValue(c) == d
  {
    (('0' as int) + d) as char
  }

  /** Decimal text of a non-negative integer as JavaScript prints a number:
      no sign and no leading zeros. */
  function NatText(n: nat): (s: string)
    ensures |s| >= 1 && AllDigits(s)
    ensures |s| == 1 <==> n < 10
    ensures s[0] == '0' <==> n == 0
    decreases n
  {
    if n < 10 then [DigitChar(n)] else NatText(n / 10) + [DigitChar(n % 10)]
  }

  /** Decimal text of any integer, with a leading '-' when it is negative. */
  function IntText(n: int): string {
    if n >= 0 then NatText(n) else ['-'] + NatText(-n)
  }

  /** JavaScript's `%`: the remainder takes the sign of the dividend. */
  function JsRem(a: int, b: int): (r: int)
    requires b > 0
    ensures -b < r < b
    ensures a >= 0 ==> r >= 0
    ensures a < 0 ==> r <= 0
    ensures a >= 0 ==> r == a % b
    ensures b == 60 ==> (a - r) % 60 == 0
  {
    if a >= 0 then a % b else -((-a) % b)
  }

  /** The text `updateTimerDisplay(time)` writes: `Math.floor(time / 60)`, a colon,
      a '0' when the remainder is below ten, then the remainder. Dafny's `/` by a
      positive divisor already rounds down, as `Math.floor` does. */
  function Format(time: int): string {
    var minutes := time / 60;
    var seconds := JsRem(time, 60);
    IntText(minutes) + ":" + (if seconds < 10 then "0" else "") + IntText(seconds)
  }

  /** Exactly two decimal digits of a number below 100. */
  function TwoDigits(n: nat): string
    requires n < 100
  {
    [DigitChar(n / 10), DigitChar(n % 10)]
  }

  /** For a non-negative count the display is the minutes, a colon and the seconds
      zero-padded to exactly two digits. */
  lemma FormatLayout(time: int)
    requires time >= 0
    ensures Format(time) == NatText(time / 60) + [':'] + TwoDigits(time % 60)
    ensures |Format(time)| >= 4 && Format(time)[|Format(time)| - 3] == ':'
  {
    var s := time % 60;
    assert JsRem(time, 60) == s;
    if s < 10 {
      assert IntText(s) == [DigitChar(s)];
      assert DigitChar(0) == '0';
      assert "0" + IntText(s) == TwoDigits(s);
    } else {
      assert NatText(s) == NatText(s / 10) + [DigitChar(s % 10)];
      assert NatText(s / 10) == [DigitChar(s / 10)];
      assert IntText(s) == TwoDigits(s);
    }
  }

  /** The text a reset leaves on the display. */
  lemma FormatDefault()
    ensures Format(1200) == "20:00"
  {
  }

  /** The transient text written on the tick that takes the count below zero. */
  lemma FormatMinusOne()
    ensures Format(-1) == "-1:0-1"
  {
  }

  // ---------------------------------------------------------------------------
  // String.prototype.split with a one-character separator

  /** The fields of `s` between occurrences of `sep`, empty fields included. */
  function Split(s: string, sep: char): (fields: seq<string>)
    ensures |fields| >= 1
  {
    if |s| == 0 then [""]
    else
      var rest := Split(s[1..], sep);
      if s[0] == sep then [""] + rest else [[s[0]] + rest[0]] + rest[1..]
  }

  /** The inverse of Split: the fields glued back together with `sep`. */
  function Join(fields: seq<string>, sep: char): string
    requires |fields| >= 1
  {
    if |fields| == 1 then fields[0] else fields[0] + [sep] + Join(fields[1..], sep)
  }

  lemma {:induction false} JoinSplit(s: string, sep: char)
    ensures Join(Split(s, sep), sep) == s
  {
    if |s| > 0 {
      var rest := Split(s[1..], sep);
      JoinSplit(s[1..], sep);
      if s[0] == sep {
        assert ([""] + rest)[1..] == rest;
      } else {
        var fields := [[s[0]] + rest[0]] + rest[1..];
        assert fields[1..] == rest[1..];
        if |rest| > 1 {
          assert Join(rest, sep) == rest[0] + [sep] + Join(rest[1..], sep);
        }
        assert s == [s[0]] + s[1..];
      }
    }
  }

  lemma {:induction false} SplitFieldsHaveNoSeparator(s: string, sep: char)
    ensures forall i :: 0 <= i < |Split(s, sep)| ==> sep !in Split(s, sep)[i]
  {
    if |s| > 0 {
      SplitFieldsHaveNoSeparator(s[1..], sep);
    }
  }

  lemma {:induction false} SplitWithoutSeparator(s: string, sep: char)
    requires sep !in s
    ensures Split(s, sep) == [s]
  {
    if |s| > 0 {
      assert sep !in s[1..] by {
        forall i | 0 <= i < |s[1..]| ensures s[1..][i] != sep {
          assert s[1..][i] == s[i + 1];
        }
      }
      SplitWithoutSeparator(s[1..], sep);
      assert s == [s[0]] + s[1..];
    }
  }

  lemma {:induction false} SplitAfterPrefix(a: string, rest: string, sep: char)
    requires sep !in a
    ensures Split(a + rest, sep) == [a + Split(rest, sep)[0]] + Split(rest, sep)[1..]
  {
    if |a| == 0 {
      assert a + rest == rest;
      var fields := Split(rest, sep);
      assert a + fields[0] == fields[0];
      assert fields == [fields[0]] + fields[1..];
    } else {
      assert (a + rest)[1..] == a[1..] + rest;
      assert sep !in a[1..] by {
        forall i | 0 <= i < |a[1..]| ensures a[1..][i] != sep {
          assert a[1..][i] == a[i + 1];
        }
      }
      SplitAfterPrefix(a[1..], rest, sep);
      assert [a[0]] + (a[1..] + Split(rest, sep)[0]) == a + Split(rest, sep)[0];
    }
  }

  lemma SplitAround(a: string, b: string, sep: char)
    requires sep !in a && sep !in b
    ensures Split(a + [sep] + b, sep) == [a, b]
  {
    assert a + [sep] + b == a + ([sep] + b);
    SplitWithoutSeparator(b, sep);
    assert ([sep] + b)[1..] == b;
    assert Split([sep] + b, sep) == [""] + [b];
    SplitAfterPrefix(a, [sep] + b, sep);
    assert a + "" == a;
  }

  // ---------------------------------------------------------------------------
  // parseInt on a field of the display

  /** The value of a run of decimal digits, most significant first. */
  function DigitsValue(s: string): nat
    requires AllDigits(s)
  {
    if |s| == 0 then 0 else DigitsValue(s[..|s| - 1]) * 10 + DigitValue(s[|s| - 1])
  }

  /** `parseInt` on a field: a non-empty run of decimal digits gives its value;
      every other text is None (where `parseInt` would give NaN or a prefix). */
  function ParseDecimal(s: string): Option<nat> {
    if |s| > 0 && AllDigits(s) then Some(DigitsValue(s)) else None
  }

  lemma {:induction false} NatTextValue(n: nat)
    ensures DigitsValue(NatText(n)) == n
    decreases n
  {
    if n >= 10 {
      var s := NatText(n);
      assert s[..|s| - 1] == NatText(n / 10);
      NatTextValue(n / 10);
    }
  }

  /** The seconds count the start-button handler reads back from the display:
      split on ':', `parseInt` of the first two fields, `minutes * 60 + seconds`. */
  function Parse(text: string): Option<int> {
    var fields := Split(text, ':');
    if |fields| < 2 then None
    else
      match (ParseDecimal(fields[0]), ParseDecimal(fields[1]))
      case (Some(minutes), Some(seconds)) => Some(minutes * 60 + seconds)
      case _ => None
  }

  /** Pause followed by start resumes at exactly the paused count: parsing the
      display gives back the count it renders. */
  lemma ParseFormat(time: int)
    requires time >= 0
    ensures Parse(Format(time)) == Some(time)
  {
    var m, s := time / 60, time % 60;
    FormatLayout(time);
    assert ':' !in NatText(m) by {
      forall i | 0 <= i < |NatText(m)| ensures NatText(m)[i] != ':' {
        assert IsDigit(NatText(m)[i]);
      }
    }
    assert ':' !in TwoDigits(s);
    SplitAround(NatText(m), TwoDigits(s), ':');
    NatTextValue(m);
    var two := TwoDigits(s);
    assert two[..1] == [DigitChar(s / 10)];
    assert two[..1][..0] == [];
    assert DigitsValue(two[..1]) == s / 10;
    assert DigitsValue(two) == (s / 10) * 10 + s % 10;
  }

  /** Different counts are rendered differently. */
  lemma FormatInjective(t1: int, t2: int)
    requires t1 >= 0 && t2 >= 0
    ensures Format(t1) == Format(t2) ==> t1 == t2
  {
    ParseFormat(t1);
    ParseFormat(t2);
  }
}
