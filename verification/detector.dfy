/** The promotional-signal detector `searchBlinkdeal` (app.js): whether the
    text matches `/blink\s*_?\s*deal/gi` anywhere. The regular language is
    stated declaratively (`IsMatch`, `Occurs`); the detector is a left-to-right
    search with a greedy matcher at each position, proved to find a match
    exactly when one occurs. */
module Detector {
  import opened Options
  import opened Text

  /** The characters JavaScript's `\s` matches: the WhiteSpace and
      LineTerminator code points. */
  predicate IsSpace(c: char)
  {
    || c == '\t' || c == '\n' || c == '\U{000B}' || c == '\U{000C}' || c == '\r'
    || c == ' ' || c == '\U{00A0}' || c == '\U{1680}'
    || ('\U{2000}' <= c <= '\U{200A}')
    || c == '\U{2028}' || c == '\U{2029}' || c == '\U{202F}' || c == '\U{205F}'
    || c == '\U{3000}' || c == '\U{FEFF}'
  }

  predicate AllSpace(s: string)
  {
    forall k :: 0 <= k < |s| ==> IsSpace(s[k])
  }

  /** `a` spells the lower-case literal `lit` in any ASCII casing. */
  predicate SameLetters(a: string, lit: string)
  {
    |a| == |lit| && forall k :: 0 <= k < |a| ==> Lower(a[k]) == lit[k]
  }

  /** `\s*_?\s*`: white space, at most one underscore, white space. */
  ghost predicate IsSeparator(m: string)
  {
    || AllSpace(m)
    || exists k :: 0 <= k < |m| && m[k] == '_' && AllSpace(m[..k]) && AllSpace(m[k + 1..])
  }

  /** `w` is a word of the language of `/blink\s*_?\s*deal/i`. */
  ghost predicate IsMatch(w: string)
  {
    && |w| >= 9
    && SameLetters(w[..5], "blink")
    && SameLetters(w[|w| - 4..], "deal")
    && IsSeparator(w[5..|w| - 4])
  }

  /** Some substring of `s` is in the language. */
  ghost predicate Occurs(s: string)
  {
    exists i, j :: 0 <= i <= j <= |s| && IsMatch(s[i..j])
  }

  predicate LettersAt(s: string, i: nat, lit: string)
  {
    i + |lit| <= |s| && SameLetters(s[i..i + |lit|], lit)
  }

  /** `\s*` taken greedily from `i`: the first index at or after `i` that is
      not white space. */
  function SkipSpaces(s: string, i: nat): (j: nat)
    requires i <= |s|
    ensures i <= j <= |s|
    ensures AllSpace(s[i..j])
    ensures j == |s| || !IsSpace(s[j])
    decreases |s| - i
  {
    if i < |s| && IsSpace(s[i]) then
      var j := SkipSpaces(s, i + 1);
      assert forall k :: 0 <= k < j - i ==> s[i..j][k] == (if k == 0 then s[i] else s[i + 1..j][k - 1]);
      j
    else i
  }

  /** `\s*_?\s*` taken greedily from `a`: where the separator ends. */
  function SeparatorEnd(s: string, a: nat): (q: nat)
    requires a <= |s|
    ensures a <= q <= |s|
  {
    var p := SkipSpaces(s, a);
    if p < |s| && s[p] == '_' then SkipSpaces(s, p + 1) else p
  }

  /** The greedy matcher anchored at `i`: the end of the match starting at
      `i`, if there is one. Since `deal` begins with neither white space nor
      an underscore, greedy skipping never has to backtrack. */
  function MatchAt(s: string, i: nat): (r: Option<nat>)
    requires i <= |s|
    ensures r.Some? ==> i <= r.value <= |s| && IsMatch(s[i..r.value])
  {
    if !LettersAt(s, i, "blink") then None
    else
      var q := SeparatorEnd(s, i + 5);
      if LettersAt(s, q, "deal") then
        MatchShape(s, i, q);
        Some(q + 4)
      else None
  }

  lemma MatchShape(s: string, i: nat, q: nat)
    requires LettersAt(s, i, "blink")
    requires i + 5 <= |s| && q == SeparatorEnd(s, i + 5)
    requires LettersAt(s, q, "deal")
    ensures IsMatch(s[i..q + 4])
  {
    var w := s[i..q + 4];
    assert w[..5] == s[i..i + 5];
    assert w[|w| - 4..] == s[q..q + 4];
    assert w[5..|w| - 4] == s[i + 5..q];
    SeparatorShape(s, i + 5);
  }

  /** What greedy skipping consumes is a separator. */
  lemma SeparatorShape(s: string, a: nat)
    requires a <= |s|
    ensures IsSeparator(s[a..SeparatorEnd(s, a)])
  {
    var p := SkipSpaces(s, a);
    if p < |s| && s[p] == '_' {
      var q := SkipSpaces(s, p + 1);
      var m := s[a..q];
      var k := p - a;
      assert m[..k] == s[a..p];
      assert m[k + 1..] == s[p + 1..q];
      assert m[k] == '_';
    }
  }

  /** Greedy skipping stops exactly at the first character that is not
      white space. */
  lemma {:induction false} SkipSpacesStops(s: string, i: nat, k: nat)
    requires i <= k < |s|
    requires AllSpace(s[i..k]) && !IsSpace(s[k])
    ensures SkipSpaces(s, i) == k
    decreases k - i
  {
    if i < k {
      assert IsSpace(s[i..k][0]);
      assert AllSpace(s[i + 1..k]) by {
        forall j | i + 1 <= j < k ensures IsSpace(s[j]) {
          assert s[j] == s[i..k][j - i];
        }
      }
      SkipSpacesStops(s, i + 1, k);
    }
  }

  /** The pieces of a match `s[i..j]`, as positions in `s`. */
  lemma MatchParts(s: string, i: nat, j: nat)
    requires i <= j <= |s| && IsMatch(s[i..j])
    ensures i + 9 <= j
    ensures LettersAt(s, i, "blink") && LettersAt(s, j - 4, "deal")
    ensures !IsSpace(s[j - 4]) && s[j - 4] != '_'
    ensures IsSeparator(s[i + 5..j - 4])
  {
    var w := s[i..j];
    var d := j - 4;
    assert w[..5] == s[i..i + 5];
    assert w[|w| - 4..] == s[d..j];
    assert w[5..|w| - 4] == s[i + 5..d];
    assert s[d..j][0] == s[d];
    assert Lower(s[d]) == 'd';
  }

  /** Every match starting at `i` is found by the greedy matcher, which
      also reports where it ends. */
  lemma MatchAtComplete(s: string, i: nat, j: nat)
    requires i <= j <= |s| && IsMatch(s[i..j])
    ensures MatchAt(s, i) == Some(j)
  {
    MatchParts(s, i, j);
    var d := j - 4;
    var m := s[i + 5..d];
    if AllSpace(m) {
      SeparatorOfSpaces(s, i + 5, d);
    } else {
      SeparatorOfUnderscore(s, i + 5, d);
    }
  }

  /** A separator holding an underscore, followed by a character that is
      neither white space nor an underscore, ends at that character. */
  lemma SeparatorOfUnderscore(s: string, a: nat, d: nat)
    requires a <= d < |s|
    requires IsSeparator(s[a..d]) && !AllSpace(s[a..d]) && !IsSpace(s[d])
    ensures SeparatorEnd(s, a) == d
  {
    var u := UnderscoreIn(s, a, d);
    SeparatorWithUnderscore(s, a, u, d);
  }

  /** Where the underscore of a separator that is not all white space sits. */
  lemma UnderscoreIn(s: string, a: nat, d: nat) returns (u: nat)
    requires a <= d <= |s|
    requires IsSeparator(s[a..d]) && !AllSpace(s[a..d])
    ensures a <= u < d && s[u] == '_'
    ensures AllSpace(s[a..u]) && AllSpace(s[u + 1..d])
  {
    var m := s[a..d];
    var k :| 0 <= k < |m| && m[k] == '_' && AllSpace(m[..k]) && AllSpace(m[k + 1..]);
    u := a + k;
    SliceOfSlice(s, a, d, 0, k);
    SliceOfSlice(s, a, d, k + 1, |m|);
    assert m[..k] == m[0..k] && m[k + 1..] == m[k + 1..|m|];
  }

  /** A slice of a slice is a slice of the whole. */
  lemma SliceOfSlice(s: string, a: nat, b: nat, i: nat, j: nat)
    requires a <= b <= |s| && i <= j <= b - a
    ensures s[a..b][i..j] == s[a + i..a + j]
  {
    assert forall x :: 0 <= x < j - i ==> s[a..b][i..j][x] == s[a + i + x];
  }

  lemma SeparatorOfSpaces(s: string, a: nat, d: nat)
    requires a <= d < |s|
    requires AllSpace(s[a..d]) && !IsSpace(s[d]) && s[d] != '_'
    ensures SeparatorEnd(s, a) == d
  {
    SkipSpacesStops(s, a, d);
  }

  lemma SeparatorWithUnderscore(s: string, a: nat, u: nat, d: nat)
    requires a <= u < d < |s|
    requires AllSpace(s[a..u]) && s[u] == '_'
    requires AllSpace(s[u + 1..d]) && !IsSpace(s[d])
    ensures SeparatorEnd(s, a) == d
  {
    SkipSpacesStops(s, a, u);
    SkipSpacesStops(s, u + 1, d);
  }

  /** Whether the greedy matcher succeeds at some position from `i` on. */
  function FindFrom(s: string, i: nat): (found: bool)
    requires i <= |s|
    ensures found <==> exists k :: i <= k <= |s| && MatchAt(s, k).Some?
    decreases |s| - i
  {
    MatchAt(s, i).Some? || (i < |s| && FindFrom(s, i + 1))
  }

  /** A match occurs in `s` exactly when the greedy matcher succeeds at some
      start position. */
  lemma OccursIffSomeMatch(s: string)
    ensures Occurs(s) <==> exists k :: 0 <= k <= |s| && MatchAt(s, k).Some?
  {
    if Occurs(s) {
      var i, j :| 0 <= i <= j <= |s| && IsMatch(s[i..j]);
      MatchAtComplete(s, i, j);
    }
  }

  /** `searchBlinkdeal(bodyText)`: 1 when `bodyText.match(/blink\s*_?\s*deal/gi)`
      finds at least one match, 0 otherwise. */
  function SearchBlinkdeal(bodyText: string): (r: int)
    ensures r == 1 <==> Occurs(bodyText)
    ensures r == 0 <==> !Occurs(bodyText)
  {
    OccursIffSomeMatch(bodyText);
    if FindFrom(bodyText, 0) then 1 else 0
  }

  /** Spellings that carry the signal: joined inside other
      text, with an underscore, and with several spaces. */
  lemma PositiveExamples()
    ensures Occurs("Get BlinkDeal now")
    ensures Occurs("blink_deal")
    ensures Occurs("blink   deal")
  {
    JoinedExample();
    UnderscoreExample();
    SpacedExample();
  }

  /** A word built from the two literals in any casing around a separator
      is in the language. */
  lemma BuildMatch(b: string, m: string, d: string)
    requires SameLetters(b, "blink") && IsSeparator(m) && SameLetters(d, "deal")
    ensures IsMatch(b + m + d)
  {
    var w := b + m + d;
    assert w[..5] == b;
    assert w[|w| - 4..] == d;
    assert w[5..|w| - 4] == m;
  }

  /** A word of the language inside any text is an occurrence. */
  lemma MatchInText(a: string, w: string, c: string)
    requires IsMatch(w)
    ensures Occurs(a + w + c)
  {
    var t := a + w + c;
    assert t[|a|..|a| + |w|] == w;
  }

  lemma JoinedExample()
    ensures Occurs("Get BlinkDeal now")
  {
    MixedCaseWord();
    MatchInText("Get ", "BlinkDeal", " now");
    assert "Get " + "BlinkDeal" + " now" == "Get BlinkDeal now";
  }

  lemma MixedCaseWord()
    ensures IsMatch("BlinkDeal")
  {
    BuildMatch("Blink", "", "Deal");
    assert "Blink" + "" + "Deal" == "BlinkDeal";
  }

  lemma UnderscoreExample()
    ensures Occurs("blink_deal")
  {
    var m := "_";
    assert m[..0] == "" && m[1..] == "";
    assert IsSeparator(m);
    BuildMatch("blink", m, "deal");
    assert "blink" + m + "deal" == "blink_deal";
    MatchInText("", "blink_deal", "");
    assert "" + "blink_deal" + "" == "blink_deal";
  }

  lemma SpacedExample()
    ensures Occurs("blink   deal")
  {
    assert IsSeparator("   ");
    BuildMatch("blink", "   ", "deal");
    assert "blink" + "   " + "deal" == "blink   deal";
    MatchInText("", "blink   deal", "");
    assert "" + "blink   deal" + "" == "blink   deal";
  }

  /** A character other than white space or one underscore between the two
      words breaks the signal. */
  lemma NegativeExample()
    ensures !Occurs("blinkXdeal")
  {
    var s := "blinkXdeal";
    assert SkipSpaces(s, 5) == 5;
    assert !LettersAt(s, 5, "deal") by { assert Lower(s[5]) != 'd'; }
    forall k | 0 <= k <= |s| ensures MatchAt(s, k).None? {
      if 1 <= k <= 5 {
        assert Lower(s[k]) != 'b';
        assert !LettersAt(s, k, "blink") by { assert s[k..k + 5][0] == s[k]; }
      }
    }
    OccursIffSomeMatch(s);
  }

  /** The empty text carries no signal. */
  lemma EmptyExample()
    ensures !Occurs("")
  {
  }

  /** Adding text around a match cannot remove it: the signal depends on
      whether a match exists, not on how many there are. */
  lemma {:induction false} OccursInContext(a: string, s: string, b: string)
    requires Occurs(s)
    ensures Occurs(a + s + b)
  {
    var i, j :| 0 <= i <= j <= |s| && IsMatch(s[i..j]);
    var t := a + s + b;
    assert t[|a| + i..|a| + j] == s[i..j];
  }

  /** An upper-case signal inside a sentence. */
  lemma SignalInText()
    ensures Occurs("Grab the BLINKDEAL today")
  {
    UpperCaseWord();
    MatchInText("Grab the ", "BLINKDEAL", " today");
    assert "Grab the " + "BLINKDEAL" + " today" == "Grab the BLINKDEAL today";
  }

  lemma UpperCaseWord()
    ensures IsMatch("BLINKDEAL")
  {
    BuildMatch("BLINK", "", "DEAL");
    assert "BLINK" + "" + "DEAL" == "BLINKDEAL";
  }
}
