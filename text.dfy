/**
  The pieces of Python's text handling that the logger depends on:
  `sep.join(items)`, `s.split(sep)` (used to read a CSV back) and
  `str(i)` for integers, with its inverse.
 */
module Text {
  import opened Wrappers

  /** `sep.join(xs)`: the items of `xs` with `sep` between neighbours. */
  function Join(xs: seq<string>, sep: char): string
  {
    if |xs| == 0 then ""
    else if |xs| == 1 then xs[0]
    else Join(xs[..|xs| - 1], sep) + [sep] + xs[|xs| - 1]
  }

  /** How many times `c` occurs in `s`. */
  function Occurrences(s: string, c: char): nat
  {
    if |s| == 0 then 0 else (if s[0] == c then 1 else 0) + Occurrences(s[1..], c)
  }

  /** `s.split(sep)` for a one-character separator: one field more than separators. */
  function Split(s: string, sep: char): (r: seq<string>)
    ensures |r| == Occurrences(s, sep) + 1
    ensures forall i | 0 <= i < |r| :: sep !in r[i]
  {
    if |s| == 0 then [""]
    else
      var rest := Split(s[1..], sep);
      if s[0] == sep then [""] + rest
      else
        assert sep !in [s[0]] + rest[0];
        [[s[0]] + rest[0]] + rest[1..]
  }

  lemma {:induction false} SplitNoSeparator(s: string, sep: char)
    requires sep !in s
    ensures Split(s, sep) == [s]
  {
    if |s| > 0 {
      assert sep !in s[1..];
      SplitNoSeparator(s[1..], sep);
      assert [s[0]] + s[1..] == s;
    }
  }

  /** Appending a separator and a separator-free field appends one field. */
  lemma {:induction false} SplitSnoc(x: string, y: string, sep: char)
    requires sep !in y
    ensures Split(x + [sep] + y, sep) == Split(x, sep) + [y]
  {
    if |x| == 0 {
      assert x + [sep] + y == [sep] + y;
      assert ([sep] + y)[1..] == y;
      SplitNoSeparator(y, sep);
    } else {
      assert (x + [sep] + y)[0] == x[0];
      assert (x + [sep] + y)[1..] == x[1..] + [sep] + y;
      SplitSnoc(x[1..], y, sep);
    }
  }

  /** Splitting undoes joining when no item contains the separator. */
  lemma {:induction false} SplitJoin(xs: seq<string>, sep: char)
    requires |xs| >= 1
    requires forall i | 0 <= i < |xs| :: sep !in xs[i]
    ensures Split(Join(xs, sep), sep) == xs
  {
    if |xs| == 1 {
      SplitNoSeparator(xs[0], sep);
    } else {
      var init := xs[..|xs| - 1];
      SplitJoin(init, sep);
      SplitSnoc(Join(init, sep), xs[|xs| - 1], sep);
      assert init + [xs[|xs| - 1]] == xs;
    }
  }

  /** Joining with one more item in front. */
  lemma {:induction false} JoinCons(a: string, xs: seq<string>, sep: char)
    requires |xs| >= 1
    ensures Join([a] + xs, sep) == a + [sep] + Join(xs, sep)
  {
    var ys := [a] + xs;
    if |xs| == 1 {
      assert ys[..1] == [a];
    } else {
      assert ys[..|ys| - 1] == [a] + xs[..|xs| - 1];
      JoinCons(a, xs[..|xs| - 1], sep);
    }
  }

  /** A character that is neither the separator nor in any item is not in the join. */
  lemma {:induction false} JoinAvoids(xs: seq<string>, sep: char, c: char)
    requires c != sep
    requires forall i | 0 <= i < |xs| :: c !in xs[i]
    ensures c !in Join(xs, sep)
  {
    if |xs| > 1 {
      JoinAvoids(xs[..|xs| - 1], sep, c);
    }
  }

  predicate IsDigits(s: string)
  {
    forall k | 0 <= k < |s| :: '0' <= s[k] <= '9'
  }

  /** The number a string of decimal digits denotes. */
  function DigitsValue(s: string): nat
    requires IsDigits(s)
  {
    if |s| == 0 then 0
    else 10 * DigitsValue(s[..|s| - 1]) + (s[|s| - 1] as int - '0' as int)
  }

  /** `str(n)` for a natural number: decimal digits, no leading zero. */
  function NatToDecimal(n: nat): (r: string)
    ensures |r| >= 1 && IsDigits(r)
    ensures DigitsValue(r) == n
    ensures r[0] == '0' ==> r == "0"
  {
    var digit := ('0' as int + n % 10) as char;
    if n < 10 then [digit]
    else
      var prefix := NatToDecimal(n / 10);
      var r := prefix + [digit];
      assert r[..|r| - 1] == prefix;
      r
  }

  /** Reads back decimal text with an optional leading minus sign. */
  function ParseDecimal(s: string): Option<int>
  {
    if |s| >= 2 && s[0] == '-' && IsDigits(s[1..]) then Some(-(DigitsValue(s[1..]) as int))
    else if |s| >= 1 && IsDigits(s) then Some(DigitsValue(s))
    else None
  }

  /** `str(i)` for an integer; `ParseDecimal` is its inverse. */
  function IntToDecimal(i: int): (r: string)
    ensures |r| >= 1
    ensures r[0] == '-' || '0' <= r[0] <= '9'
    ensures forall k | 1 <= k < |r| :: '0' <= r[k] <= '9'
    ensures r[0] == '0' ==> r == "0"
    ensures r[0] == '-' ==> i < 0 && |r| >= 2 && r[1] != '0'
    ensures ParseDecimal(r) == Some(i)
  {
    if i < 0 then
      var digits := NatToDecimal(-i);
      assert ("-" + digits)[1..] == digits;
      "-" + digits
    else NatToDecimal(i)
  }
}
