/** The text ComputeCorrelations in correlate.py writes for its results: one line per user, "%d (%d,%.2f,%d)\n" when the user has
    a best match and "%d\n" when not. Integers are written as %d writes them;
    the two-decimal rendering of a score is floating-point library code and
    is a parameter `fmt`. */
module Output {
  import opened Matches

  /** The character of one decimal digit. */
  function Digit(d: nat): (c: char)
    requires d < 10
    ensures '0' <= c <= '9'
    ensures c as int - '0' as int == d
  {
    ('0' as int + d) as char
  }

  /** The decimal digits of n, most significant first, without leading zeros. */
  function NatToString(n: nat): (s: string)
    ensures |s| > 0
    ensures forall i :: 0 <= i < |s| ==> '0' <= s[i] <= '9'
    ensures s[0] == '0' <==> n == 0
    ensures n == 0 ==> s == "0"
    decreases n
  {
    if n < 10 then [Digit(n)] else NatToString(n / 10) + [Digit(n % 10)]
  }

  /** %d: an optional minus sign, then the digits of the magnitude. */
  function IntToString(x: int): string
  {
    if x < 0 then "-" + NatToString(-x) else NatToString(x)
  }

  /** What %d writes is non-empty, made of digits and a leading minus sign
      exactly when the number is negative. */
  lemma IntToStringShape(x: int)
    ensures var s := IntToString(x);
      && |s| > 0
      && (forall i :: 0 <= i < |s| ==> s[i] == '-' || '0' <= s[i] <= '9')
      && (s[0] == '-' <==> x < 0)
      && (forall i :: 0 < i < |s| ==> s[i] != '-')
  {
  }

  /** The value of a string of decimal digits, read left to right. */
  function DigitsValue(s: string): int
    decreases |s|
  {
    if s == [] then 0 else DigitsValue(s[..|s| - 1]) * 10 + (s[|s| - 1] as int - '0' as int)
  }

  /** Reading back what %d wrote: an optional minus sign, then digits. */
  function ParseInt(s: string): int
  {
    if |s| > 0 && s[0] == '-' then -DigitsValue(s[1..]) else DigitsValue(s)
  }

  /** The digits read back give the number written. */
  lemma {:induction false} NatToStringRoundTrip(n: nat)
    ensures DigitsValue(NatToString(n)) == n
    decreases n
  {
    if n >= 10 {
      NatToStringRoundTrip(n / 10);
      var s := NatToString(n);
      assert s[..|s| - 1] == NatToString(n / 10);
    }
  }

  /** %d loses nothing: the integer can be read back from its text, so two
      different ids are never written alike. */
  lemma IntToStringRoundTrip(x: int)
    ensures ParseInt(IntToString(x)) == x
  {
    if x < 0 {
      NatToStringRoundTrip(-x);
      assert IntToString(x)[1..] == NatToString(-x);
    } else {
      NatToStringRoundTrip(x);
    }
  }

  /** The text written for one user. */
  function Render(l: Line, fmt: real -> string): string
  {
    match l.best
    case None => IntToString(l.user) + "\n"
    case Some(m) =>
      IntToString(l.user) + " (" + IntToString(m.peer) + "," + fmt(m.pcc) + "," + IntToString(m.ncommon) + ")\n"
  }

  /** Every line starts with the user id, followed by a newline when there is
      no match and by " (" when there is; it always ends with a newline, and
      it holds a parenthesis exactly when there is a match. */
  lemma RenderShape(l: Line, fmt: real -> string)
    ensures var s, id := Render(l, fmt), IntToString(l.user);
      && |s| > |id|
      && s[..|id|] == id
      && (s[|id|] == '\n' <==> l.best.None?)
      && (l.best.Some? ==> s[|id|..|id| + 2] == " (")
      && s[|s| - 1] == '\n'
      && ('(' in s <==> l.best.Some?)
  {
    var s, id := Render(l, fmt), IntToString(l.user);
    IntToStringShape(l.user);
    match l.best
    case None =>
      forall i | 0 <= i < |s| ensures s[i] != '(' {
        if i < |id| {
          assert s[i] == id[i];
        }
      }
    case Some(m) =>
      assert s[|id| + 1] == '(';
  }

  /** The whole output file: the lines written one after the other. */
  function Report(lines: seq<Line>, fmt: real -> string): string
    decreases |lines|
  {
    if lines == [] then "" else Report(lines[..|lines| - 1], fmt) + Render(lines[|lines| - 1], fmt)
  }

  /** Writing one more line appends its text to the file. */
  lemma ReportAppend(lines: seq<Line>, l: Line, fmt: real -> string)
    ensures Report(lines + [l], fmt) == Report(lines, fmt) + Render(l, fmt)
  {
    assert (lines + [l])[..|lines|] == lines;
  }

  /** How many times c occurs in s. */
  function Occurrences(s: string, c: char): nat
    decreases |s|
  {
    if s == [] then 0 else Occurrences(s[..|s| - 1], c) + (if s[|s| - 1] == c then 1 else 0)
  }

  lemma {:induction false} OccurrencesAppend(s: string, t: string, c: char)
    ensures Occurrences(s + t, c) == Occurrences(s, c) + Occurrences(t, c)
    decreases |t|
  {
    if t != [] {
      var n := |t| - 1;
      assert (s + t)[..|s + t| - 1] == s + t[..n];
      OccurrencesAppend(s, t[..n], c);
    } else {
      assert s + t == s;
    }
  }

  lemma {:induction false} OccurrencesAbsent(s: string, c: char)
    requires forall i :: 0 <= i < |s| ==> s[i] != c
    ensures Occurrences(s, c) == 0
    decreases |s|
  {
    if s != [] {
      OccurrencesAbsent(s[..|s| - 1], c);
    }
  }

  /** One line holds exactly one newline, provided the score's rendering has
      none. */
  lemma RenderOneNewline(l: Line, fmt: real -> string)
    requires forall x: real :: '\n' !in fmt(x)
    ensures Occurrences(Render(l, fmt), '\n') == 1
  {
    var id := IntToString(l.user);
    IntToStringShape(l.user);
    OccurrencesAbsent(id, '\n');
    match l.best
    case None =>
      OccurrencesAppend(id, "\n", '\n');
    case Some(m) =>
      var peer, nc, score := IntToString(m.peer), IntToString(m.ncommon), fmt(m.pcc);
      IntToStringShape(m.peer);
      IntToStringShape(m.ncommon);
      OccurrencesAbsent(peer, '\n');
      OccurrencesAbsent(nc, '\n');
      assert forall i :: 0 <= i < |score| ==> score[i] != '\n' by {
        forall i | 0 <= i < |score| ensures score[i] != '\n' {
          assert score[i] in fmt(m.pcc);
        }
      }
      OccurrencesAbsent(score, '\n');
      OccurrencesAppend(id + " (" + peer + "," + score + "," + nc, ")\n", '\n');
      OccurrencesAppend(id + " (" + peer + "," + score + ",", nc, '\n');
      OccurrencesAppend(id + " (" + peer + "," + score, ",", '\n');
      OccurrencesAppend(id + " (" + peer + ",", score, '\n');
      OccurrencesAppend(id + " (" + peer, ",", '\n');
      OccurrencesAppend(id + " (", peer, '\n');
      OccurrencesAppend(id, " (", '\n');
  }

  /** The file holds one line per user: as many newlines as lines. */
  lemma {:induction false} ReportLineCount(lines: seq<Line>, fmt: real -> string)
    requires forall x: real :: '\n' !in fmt(x)
    ensures Occurrences(Report(lines, fmt), '\n') == |lines|
    decreases |lines|
  {
    if lines != [] {
      var n := |lines| - 1;
      ReportLineCount(lines[..n], fmt);
      RenderOneNewline(lines[n], fmt);
      OccurrencesAppend(Report(lines[..n], fmt), Render(lines[n], fmt), '\n');
    }
  }
}
