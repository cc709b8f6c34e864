/** Character and string helpers shared by the tracker's modules: ASCII case
    folding (what a `/i` regular expression without the `u` flag does to the
    ASCII letters it meets), `Array.prototype.join` over strings, and the
    line split a reader of a joined text performs. */
module Text {

  /** ASCII lower-casing. A non-unicode `/i` regex canonicalises with
      `toUpperCase` but never maps a non-ASCII character onto an ASCII one, so
      for the ASCII patterns of this program this is exactly the case folding
      the regex engine applies. */
  function Lower(c: char): char
  {
    if 'A' <= c <= 'Z' then (c as int + 32) as char else c
  }

  /** `parts.join(sep)` */
  function Join(parts: seq<string>, sep: string): string
  {
    if |parts| == 0 then ""
    else if |parts| == 1 then parts[0]
    else parts[0] + sep + Join(parts[1..], sep)
  }

  /** Splits `s` at every occurrence of `sep`, like `s.split(sep)`: the text
      between separators, including empty pieces, in order. */
  function Split(s: string, sep: char): (parts: seq<string>)
    ensures |parts| >= 1
    decreases |s|
  {
    if |s| == 0 then [""]
    else
      var rest := Split(s[1..], sep);
      if s[0] == sep then [""] + rest else [[s[0]] + rest[0]] + rest[1..]
  }

  /** A text without the separator is a single piece. */
  lemma {:induction false} SplitWithoutSeparator(a: string, sep: char)
    requires sep !in a
    ensures Split(a, sep) == [a]
    decreases |a|
  {
    if |a| > 0 {
      assert sep !in a[1..] by {
        forall k | 0 <= k < |a[1..]| ensures a[1..][k] != sep {
          assert a[1..][k] == a[k + 1];
        }
      }
      SplitWithoutSeparator(a[1..], sep);
      assert [a[0]] + a[1..] == a;
    }
  }

  /** The first separator closes the first piece. */
  lemma {:induction false} SplitAtFirstSeparator(a: string, sep: char, b: string)
    requires sep !in a
    ensures Split(a + [sep] + b, sep) == [a] + Split(b, sep)
    decreases |a|
  {
    var s := a + [sep] + b;
    if |a| == 0 {
      assert s[0] == sep;
      assert s[1..] == b;
    } else {
      assert s[0] == a[0];
      assert s[1..] == a[1..] + [sep] + b;
      assert sep !in a[1..] by {
        forall k | 0 <= k < |a[1..]| ensures a[1..][k] != sep {
          assert a[1..][k] == a[k + 1];
        }
      }
      SplitAtFirstSeparator(a[1..], sep, b);
      assert [a[0]] + a[1..] == a;
    }
  }

  /** Splitting a joined list at the separator gives the list back, provided
      the list is not empty and no element contains the separator. */
  lemma {:induction false} SplitJoin(xs: seq<string>, sep: char)
    requires |xs| >= 1
    requires forall i :: 0 <= i < |xs| ==> sep !in xs[i]
    ensures Split(Join(xs, [sep]), sep) == xs
    decreases |xs|
  {
    if |xs| == 1 {
      SplitWithoutSeparator(xs[0], sep);
    } else {
      assert Join(xs, [sep]) == xs[0] + [sep] + Join(xs[1..], [sep]);
      assert sep !in xs[0];
      SplitAtFirstSeparator(xs[0], sep, Join(xs[1..], [sep]));
      assert forall i :: 0 <= i < |xs[1..]| ==> sep !in xs[1..][i] by {
        forall i | 0 <= i < |xs[1..]| ensures sep !in xs[1..][i] {
          assert xs[1..][i] == xs[i + 1];
        }
      }
      SplitJoin(xs[1..], sep);
      assert [xs[0]] + xs[1..] == xs;
    }
  }

  /** `SplitJoin` for any list: when the lines qualify, the split recovers them. */
  lemma SplitJoinWhenSeparatorFree(xs: seq<string>, sep: char)
    ensures |xs| >= 1 && (forall i :: 0 <= i < |xs| ==> sep !in xs[i]) ==>
              Split(Join(xs, [sep]), sep) == xs
  {
    if |xs| >= 1 && (forall i :: 0 <= i < |xs| ==> sep !in xs[i]) {
      SplitJoin(xs, sep);
    }
  }

  function Digit(d: nat): char
    requires d < 10
  {
    "0123456789"[d]
  }

  /** The value of a decimal digit character (zero for any other character). */
  function DigitValue(c: char): nat
  {
    if '0' <= c <= '9' then c as int - '0' as int else 0
  }

  /** The value of a string of decimal digits, most significant first: the
      reference reading that the renderings below are checked against. */
  function DigitsValue(s: string): nat
    decreases |s|
  {
    if |s| == 0 then 0 else 10 * DigitsValue(s[..|s| - 1]) + DigitValue(s[|s| - 1])
  }

  /** Decimal rendering of a natural number, most significant digit first:
      digits only, reading back as `n`, and without a leading zero. */
  function NatToString(n: nat): (s: string)
    ensures |s| >= 1
    ensures forall k :: 0 <= k < |s| ==> '0' <= s[k] <= '9'
    ensures DigitsValue(s) == n
    ensures |s| == 1 || s[0] != '0'
    decreases n
  {
    if n < 10 then DigitReadsBack(n); [Digit(n)]
    else
      var t := NatToString(n / 10);
      DigitReadsBack(n % 10);
      AppendDigit(t, Digit(n % 10));
      t + [Digit(n % 10)]
  }

  /** A digit character is a digit and reads back as its value. */
  lemma DigitReadsBack(d: nat)
    requires d < 10
    ensures '0' <= Digit(d) <= '9' && DigitValue(Digit(d)) == d
    ensures d != 0 ==> Digit(d) != '0'
  {
  }

  /** Appending a digit multiplies the value read so far by ten and adds it;
      the first character and the earlier characters stay in place. */
  lemma AppendDigit(t: string, c: char)
    ensures DigitsValue(t + [c]) == 10 * DigitsValue(t) + DigitValue(c)
    ensures forall k :: 0 <= k < |t| ==> (t + [c])[k] == t[k]
    ensures (t + [c])[|t|] == c
    ensures |t| == 1 ==> DigitsValue(t) == DigitValue(t[0])
  {
    assert (t + [c])[..|t|] == t;
    if |t| == 1 {
      assert t[..0] == [];
    }
  }

  /** Decimal rendering of an integer, with a leading `-` when negative: the
      digits after the sign read back as the magnitude. */
  function IntToString(i: int): (s: string)
    ensures |s| >= 1
    ensures forall k :: 0 <= k < |s| ==> s[k] == '-' || '0' <= s[k] <= '9'
    ensures forall k :: (if i < 0 then 1 else 0) <= k < |s| ==> '0' <= s[k] <= '9'
    ensures i >= 0 ==> '0' <= s[0] <= '9' && DigitsValue(s) == i && (|s| == 1 || s[0] != '0')
    ensures i < 0 ==> |s| >= 2 && s[0] == '-' && DigitsValue(s[1..]) == -i && (|s| == 2 || s[1] != '0')
  {
    if i < 0 then
      var t := NatToString(-i);
      assert ("-" + t)[1..] == t;
      "-" + t
    else NatToString(i)
  }
}
