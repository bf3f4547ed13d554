/** The pieces of Python's string handling that the data-access layer relies on:
    `str.join`, `[x] * n` and `str(int)`; and, to state how many placeholders an
    insert carries, counting a character in a string. */
module Text {

  /** `sep.join(xs)`: the pieces in order, with `sep` between neighbours. */
  function Join(xs: seq<string>, sep: string): string
    decreases |xs|
  {
    if |xs| == 0 then ""
    else if |xs| == 1 then xs[0]
    else xs[0] + sep + Join(xs[1..], sep)
  }

  /** The summed length of the pieces. */
  function TotalLength(xs: seq<string>): nat
    decreases |xs|
  {
    if |xs| == 0 then 0 else |xs[0]| + TotalLength(xs[1..])
  }

  /** Where piece `i` starts inside `Join(xs, sep)`: every earlier piece and one
      separator after each of them. */
  function Start(xs: seq<string>, sep: string, i: nat): nat
    requires i <= |xs|
    decreases i
  {
    if i == 0 then 0 else |xs[0]| + |sep| + Start(xs[1..], sep, i - 1)
  }

  /** A joined string consists of the pieces and exactly `|xs| - 1` separators. */
  lemma {:induction false} JoinLength(xs: seq<string>, sep: string)
    ensures |xs| == 0 ==> Join(xs, sep) == ""
    ensures |xs| > 0 ==> |Join(xs, sep)| == TotalLength(xs) + (|xs| - 1) * |sep|
    decreases |xs|
  {
    if |xs| > 1 {
      JoinLength(xs[1..], sep);
      calc {
        |Join(xs, sep)|;
        |xs[0]| + |sep| + |Join(xs[1..], sep)|;
        |xs[0]| + |sep| + TotalLength(xs[1..]) + (|xs| - 2) * |sep|;
        { assert |sep| + (|xs| - 2) * |sep| == (|xs| - 1) * |sep|; }
        TotalLength(xs) + (|xs| - 1) * |sep|;
      }
    }
  }

  /** `x` occurs in `s` starting at index `at`. */
  predicate PlacedAt(s: string, x: string, at: nat)
  {
    at + |x| <= |s| && s[at..at + |x|] == x
  }

  /** What sits in the right operand of a concatenation sits in the whole,
      shifted by the length of the left operand. */
  lemma PlacedInRight(a: string, b: string, x: string, at: nat)
    requires PlacedAt(b, x, at)
    ensures PlacedAt(a + b, x, |a| + at)
  {
    assert (a + b)[|a| + at..|a| + at + |x|] == b[at..at + |x|];
  }

  /** Piece `i` of `Join(xs, sep)` sits at `Start(xs, sep, i)`, and unless it is the
      last piece it is followed by exactly one separator. */
  lemma {:induction false} JoinAt(xs: seq<string>, sep: string, i: nat)
    requires i < |xs|
    ensures PlacedAt(Join(xs, sep), xs[i], Start(xs, sep, i))
    ensures i + 1 < |xs| ==>
              Start(xs, sep, i + 1) == Start(xs, sep, i) + |xs[i]| + |sep| &&
              PlacedAt(Join(xs, sep), sep, Start(xs, sep, i) + |xs[i]|)
    decreases i
  {
    if |xs| > 1 {
      var pre := xs[0] + sep;
      var rest := Join(xs[1..], sep);
      assert Join(xs, sep) == pre + rest;
      if i == 0 {
        assert Start(xs, sep, 1) == |pre|;
        assert (pre + rest)[..|xs[0]|] == xs[0];
        assert (pre + rest)[|xs[0]|..|pre|] == sep;
      } else {
        var s := Start(xs[1..], sep, i - 1);
        assert Start(xs, sep, i) == |pre| + s;
        assert xs[1..][i - 1] == xs[i];
        JoinAt(xs[1..], sep, i - 1);
        PlacedInRight(pre, rest, xs[i], s);
        if i + 1 < |xs| {
          assert Start(xs, sep, i + 1) == |pre| + Start(xs[1..], sep, i);
          PlacedInRight(pre, rest, sep, s + |xs[i]|);
        }
      }
    }
  }

  /** `[x] * n`. */
  function Repeat(x: string, n: nat): (r: seq<string>)
    ensures |r| == n
    ensures forall i :: 0 <= i < n ==> r[i] == x
  {
    if n == 0 then [] else [x] + Repeat(x, n - 1)
  }

  /** How often `c` occurs in `s`. */
  function CountChar(s: string, c: char): nat
    decreases |s|
  {
    if |s| == 0 then 0 else (if s[0] == c then 1 else 0) + CountChar(s[1..], c)
  }

  lemma {:induction false} CountCharConcat(a: string, b: string, c: char)
    ensures CountChar(a + b, c) == CountChar(a, c) + CountChar(b, c)
    decreases |a|
  {
    if |a| > 0 {
      assert (a + b)[1..] == a[1..] + b;
      CountCharConcat(a[1..], b, c);
    } else {
      assert a + b == b;
    }
  }

  /** A string in which `c` does not occur. */
  predicate Free(s: string, c: char)
  {
    forall k :: 0 <= k < |s| ==> s[k] != c
  }

  lemma {:induction false} FreeCount(s: string, c: char)
    requires Free(s, c)
    ensures CountChar(s, c) == 0
    decreases |s|
  {
    if |s| > 0 {
      FreeCount(s[1..], c);
    }
  }

  /** `', '.join(['?'] * n)`: the placeholder list of an SQL statement with `n`
      bound parameters. */
  function Marks(n: nat): string
  {
    Join(Repeat("?", n), ", ")
  }

  /** The placeholder list holds one `?` per parameter and nothing else but
      the `", "` separators. */
  lemma {:induction false} MarksCount(n: nat)
    ensures CountChar(Marks(n), '?') == n
    ensures n == 0 ==> Marks(n) == ""
    ensures n > 0 ==> |Marks(n)| == 3 * n - 2
    decreases n
  {
    JoinLength(Repeat("?", n), ", ");
    if n > 0 {
      RepeatLength(n);
    }
    assert "?"[1..] == "";
    assert CountChar("?", '?') == 1;
    if n > 1 {
      assert ", "[1..] == " " && " "[1..] == "";
      assert CountChar(", ", '?') == 0;
      MarksCount(n - 1);
      assert Repeat("?", n)[1..] == Repeat("?", n - 1);
      assert Marks(n) == "?" + (", " + Marks(n - 1));
      CountCharConcat("?", ", " + Marks(n - 1), '?');
      CountCharConcat(", ", Marks(n - 1), '?');
    }
  }

  lemma {:induction false} RepeatLength(n: nat)
    ensures TotalLength(Repeat("?", n)) == n
    decreases n
  {
    if n > 0 {
      assert Repeat("?", n)[1..] == Repeat("?", n - 1);
      RepeatLength(n - 1);
    }
  }

  // Decimal notation, as Python's `str` renders an `int`.

  function DigitChar(d: nat): char
    requires d < 10
  {
    "0123456789"[d]
  }

  predicate IsDigit(c: char)
  {
    '0' <= c <= '9'
  }

  function NatToDecimal(n: nat): (s: string)
    ensures |s| > 0
    ensures forall k :: 0 <= k < |s| ==> IsDigit(s[k])
    decreases n
  {
    if n < 10 then [DigitChar(n)] else NatToDecimal(n / 10) + [DigitChar(n % 10)]
  }

  /** `str(i)`: a minus sign for negative numbers, then the digits of `|i|`. */
  function IntToDecimal(i: int): (s: string)
    ensures |s| > 0 && (s[0] == '-' <==> i < 0)
  {
    if i < 0 then "-" + NatToDecimal(-i) else NatToDecimal(i)
  }

  function DigitValue(c: char): nat
    requires IsDigit(c)
  {
    (c as int) - ('0' as int)
  }

  /** Reads decimal digits back as a number (the inverse of `NatToDecimal`). */
  function ParseNat(s: string): nat
    requires forall k :: 0 <= k < |s| ==> IsDigit(s[k])
    decreases |s|
  {
    if |s| == 0 then 0
    else ParseNat(s[..|s| - 1]) * 10 + DigitValue(s[|s| - 1])
  }

  function ParseInt(s: string): int
    requires |s| > 0
    requires s[0] == '-' ==> forall k :: 1 <= k < |s| ==> IsDigit(s[k])
    requires s[0] != '-' ==> forall k :: 0 <= k < |s| ==> IsDigit(s[k])
  {
    if s[0] == '-' then -(ParseNat(s[1..]) as int) else ParseNat(s)
  }

  lemma {:induction false} NatDecimalRoundTrip(n: nat)
    ensures ParseNat(NatToDecimal(n)) == n
    decreases n
  {
    if n >= 10 {
      var s := NatToDecimal(n);
      NatDecimalRoundTrip(n / 10);
      assert s[..|s| - 1] == NatToDecimal(n / 10);
    }
  }

  /** Rendering an integer in decimal loses nothing: it parses back to itself. */
  lemma {:induction false} DecimalRoundTrip(i: int)
    ensures |IntToDecimal(i)| > 0
    ensures ParseInt(IntToDecimal(i)) == i
  {
    if i < 0 {
      var n := NatToDecimal(-i);
      var s := "-" + n;
      assert IntToDecimal(i) == s && s[0] == '-';
      assert s[1..] == n;
      assert forall k :: 1 <= k < |s| ==> s[k] == n[k - 1];
      NatDecimalRoundTrip(-i);
    } else {
      var n := NatToDecimal(i);
      assert IntToDecimal(i) == n;
      assert IsDigit(n[0]);
      NatDecimalRoundTrip(i);
    }
  }
}
