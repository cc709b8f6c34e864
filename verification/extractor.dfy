/** The brace-matched candidate extractor of `fetchMyntraPage` (app.js): find
    each occurrence of the marker `{"landingPageUrl":`, cut the text from the
    marker to the point where the running count of `{` minus `}` first returns
    to zero, hand that slice to `JSON.parse`, and keep the object when its
    `productId` is truthy. The count is over raw characters: braces inside
    JSON strings are counted like any other. */
module Extractor {
  import opened Options
  import opened JsValues

  /** The literal the start regex `/{"landingPageUrl":/g` matches. */
  const Marker: string := "{\"landingPageUrl\":"

  predicate MarkerAt(t: string, i: nat)
  {
    i + |Marker| <= |t| && t[i..i + |Marker|] == Marker
  }

  /** The marker opens with a brace and contains no other, so two
      occurrences never overlap. */
  lemma MarkersDoNotOverlap(t: string, p: nat, k: nat)
    requires MarkerAt(t, p) && p < k < p + |Marker|
    ensures !MarkerAt(t, k)
  {
    assert t[k] == Marker[k - p] by { assert t[p..p + |Marker|][k - p] == t[k]; }
  }

  /** `startRegex.exec(bodyText)` with `lastIndex == from`: the first marker
      at or after `from`. */
  function NextMarker(t: string, from: nat): (r: Option<nat>)
    ensures r.Some? ==> from <= r.value && MarkerAt(t, r.value)
    ensures r.Some? ==> forall k :: from <= k < r.value ==> !MarkerAt(t, k)
    ensures r.None? ==> forall k :: from <= k ==> !MarkerAt(t, k)
    decreases |t| - from
  {
    if from + |Marker| > |t| then None
    else if MarkerAt(t, from) then Some(from)
    else NextMarker(t, from + 1)
  }

  /** The change one character makes to the brace count. */
  function Delta(c: char): int
  {
    if c == '{' then 1 else if c == '}' then -1 else 0
  }

  /** Net brace count of a text: opening minus closing braces. */
  function Net(s: string): int
    decreases |s|
  {
    if |s| == 0 then 0 else Net(s[..|s| - 1]) + Delta(s[|s| - 1])
  }

  lemma NetStep(t: string, start: nat, i: nat)
    requires start <= i < |t|
    ensures Net(t[start..i + 1]) == Net(t[start..i]) + Delta(t[i])
  {
    assert t[start..i + 1][..i - start] == t[start..i];
  }

  /** The reference definition of where the candidate from `start` ends:
      one past the first index `k > start` at which the count over
      `t[start..k]` is zero, searching from `k`, or `start` if there is none. */
  function FirstZeroFrom(t: string, start: nat, k: nat): (e: nat)
    requires start < k <= |t| + 1
    ensures e == start || (k <= e <= |t| && Net(t[start..e]) == 0)
    ensures forall m :: k <= m < e ==> Net(t[start..m]) != 0
    ensures e == start ==> forall m :: k <= m <= |t| ==> Net(t[start..m]) != 0
    decreases |t| + 1 - k
  {
    if k > |t| then start
    else if Net(t[start..k]) == 0 then k
    else FirstZeroFrom(t, start, k + 1)
  }

  /** The end of the candidate slice for a marker at `start`. */
  function SpanEnd(t: string, start: nat): (e: nat)
    requires start <= |t|
    ensures e == start || Closes(t, start, e)
    ensures e == start <==> Unbalanced(t, start)
  {
    FirstZeroFrom(t, start, start + 1)
  }

  /** `e` is one past the first index where the count from `start` is zero. */
  ghost predicate Closes(t: string, start: nat, e: nat)
  {
    && start < e <= |t|
    && Net(t[start..e]) == 0
    && forall k :: start < k < e ==> Net(t[start..k]) != 0
  }

  /** The count from `start` never returns to zero before the text ends. */
  ghost predicate Unbalanced(t: string, start: nat)
    requires start <= |t|
  {
    forall k :: start < k <= |t| ==> Net(t[start..k]) != 0
  }

  /** The first zero of the count is unique. */
  lemma ClosesUnique(t: string, start: nat, e1: nat, e2: nat)
    requires Closes(t, start, e1) && Closes(t, start, e2)
    ensures e1 == e2
  {
  }

  /** The brace scan of app.js as a loop: count braces from `start` and stop
      one past the first character that brings the count back to zero; if
      that never happens the end stays at `start`. */
  method ScanSpan(t: string, start: nat) returns (endIndex: nat)
    requires start <= |t|
    ensures endIndex == SpanEnd(t, start)
  {
    var braceCount := 0;
    endIndex := start;
    var i := start;
    while i < |t|
      invariant start <= i <= |t|
      invariant endIndex == start
      invariant braceCount == Net(t[start..i])
      invariant forall k :: start < k <= i ==> Net(t[start..k]) != 0
      decreases |t| - i
    {
      if t[i] == '{' {
        braceCount := braceCount + 1;
      } else if t[i] == '}' {
        braceCount := braceCount - 1;
      }
      NetStep(t, start, i);
      if braceCount == 0 {
        endIndex := i + 1;
        break;
      }
      i := i + 1;
    }
    if endIndex != start {
      ClosesUnique(t, start, endIndex, SpanEnd(t, start));
    }
  }

  /** Shape of a span that closes on a marker: it starts with `{`, ends with
      `}`, has net count zero, and every proper non-empty prefix has a
      positive count. */
  lemma SpanShape(t: string, p: nat)
    requires MarkerAt(t, p) && !Unbalanced(t, p)
    ensures var s := t[p..SpanEnd(t, p)];
      && |s| >= 2 && s[0] == '{' && s[|s| - 1] == '}'
      && Net(s) == 0
      && forall k :: 0 < k < |s| ==> Net(s[..k]) > 0
  {
    var e := SpanEnd(t, p);
    var s := t[p..e];
    assert t[p] == '{' by { assert t[p..p + |Marker|][0] == t[p]; }
    assert Net(t[p..p + 1]) == 1 by { NetStep(t, p, p); }
    PrefixesPositive(t, p, e, e - 1);
    forall k | 0 < k < |s| ensures Net(s[..k]) > 0 {
      assert s[..k] == t[p..p + k];
    }
    assert e >= p + 2;
    NetStep(t, p, e - 1);
    assert s[|s| - 1] == t[e - 1];
  }

  /** Before the first zero, the count is positive: it starts at one and moves
      by at most one per character. */
  lemma {:induction false} PrefixesPositive(t: string, p: nat, e: nat, n: nat)
    requires Closes(t, p, e) && Net(t[p..p + 1]) == 1
    requires p < n < e
    ensures forall k :: p < k <= n ==> Net(t[p..k]) > 0
    decreases n
  {
    if n > p + 1 {
      PrefixesPositive(t, p, e, n - 1);
      NetStep(t, p, n - 1);
      assert Net(t[p..n]) != 0;
    }
  }

  /** `bodyText.slice(startIndex, endIndex)`: the candidate for the marker at
      `p`, empty when the braces never balance. */
  function Candidate(t: string, p: nat): (s: string)
    requires p <= |t|
    ensures s == "" <==> Unbalanced(t, p)
    ensures s != "" ==> Closes(t, p, p + |s|) && s == t[p..p + |s|]
  {
    t[p..SpanEnd(t, p)]
  }

  /** `JSON.parse` applied to a candidate. A candidate is empty or starts
      with `{`; the empty text is not JSON, so it is rejected whatever the
      parser does with other texts. */
  function ParseCandidate(parse: string -> Option<Record>, s: string): (r: Option<Record>)
    ensures s == "" ==> r == None
  {
    if s == "" then None else parse(s)
  }

  /** The record the marker at `p` contributes, if its candidate parses and
      has a truthy `productId`. */
  function Harvest(t: string, parse: string -> Option<Record>, p: nat): (r: Option<Record>)
    requires p <= |t|
    ensures r.Some? ==> parse(Candidate(t, p)) == r && Truthy(Field(r.value, "productId"))
    ensures r.Some? ==> !Unbalanced(t, p)
  {
    match ParseCandidate(parse, Candidate(t, p))
    case None => None
    case Some(o) => if Truthy(Field(o, "productId")) then Some(o) else None
  }

  /** What the marker at `p` adds to the record list: its record, or
      nothing. */
  function Yield(t: string, parse: string -> Option<Record>, p: nat): (rs: seq<Record>)
    requires p <= |t|
    ensures rs == [] <==> Harvest(t, parse, p).None?
    ensures forall o :: o in rs <==> Harvest(t, parse, p) == Some(o)
  {
    match Harvest(t, parse, p)
    case Some(o) => [o]
    case None => []
  }

  /** The `while (startRegex.exec(bodyText))` loop from `lastIndex` on. */
  function ExtractFrom(t: string, parse: string -> Option<Record>, lastIndex: nat): (rs: seq<Record>)
    requires lastIndex <= |t|
    ensures forall o :: o in rs ==> Truthy(Field(o, "productId"))
    ensures (forall k :: lastIndex <= k ==> !MarkerAt(t, k)) ==> rs == []
    decreases |t| - lastIndex
  {
    match NextMarker(t, lastIndex)
    case None => []
    case Some(p) => Yield(t, parse, p) + ExtractFrom(t, parse, p + |Marker|)
  }

  /** The raw product list of `fetchMyntraPage`. */
  function Extract(t: string, parse: string -> Option<Record>): (rs: seq<Record>)
    ensures forall a :: 0 <= a < |MarkersFrom(t, 0)| ==> MarkersFrom(t, 0)[a] <= |t|
    ensures rs == HarvestAll(t, parse, MarkersFrom(t, 0))
  {
    ExtractFromVisitsAllMarkers(t, parse, 0);
    ExtractFrom(t, parse, 0)
  }

  /** Reference enumeration of marker positions at or after `lo`, checking
      every position in turn. */
  function MarkersFrom(t: string, lo: nat): (ps: seq<nat>)
    decreases |t| - lo
  {
    if lo >= |t| then []
    else (if MarkerAt(t, lo) then [lo] else []) + MarkersFrom(t, lo + 1)
  }

  /** The reference enumeration lists exactly the marker positions, in
      strictly increasing order. */
  lemma {:induction false} MarkersFromExact(t: string, lo: nat)
    ensures forall p :: p in MarkersFrom(t, lo) <==> lo <= p && MarkerAt(t, p)
    ensures forall a, b :: 0 <= a < b < |MarkersFrom(t, lo)| ==> MarkersFrom(t, lo)[a] < MarkersFrom(t, lo)[b]
    ensures forall a :: 0 <= a < |MarkersFrom(t, lo)| ==> lo <= MarkersFrom(t, lo)[a]
    decreases |t| - lo
  {
    if lo < |t| {
      MarkersFromExact(t, lo + 1);
    }
  }

  /** Positions without a marker contribute nothing to the enumeration. */
  lemma {:induction false} MarkersFromSkip(t: string, lo: nat, hi: nat)
    requires lo <= hi
    requires forall k :: lo <= k < hi ==> !MarkerAt(t, k)
    ensures MarkersFrom(t, lo) == MarkersFrom(t, hi)
    decreases hi - lo
  {
    if lo < hi {
      MarkersFromSkip(t, lo + 1, hi);
      if lo >= |t| {
        assert MarkersFrom(t, hi) == [];
      }
    }
  }

  /** The records the markers at `ps` contribute, in the order of `ps`. */
  function HarvestAll(t: string, parse: string -> Option<Record>, ps: seq<nat>): seq<Record>
    requires forall a :: 0 <= a < |ps| ==> ps[a] <= |t|
  {
    if ps == [] then []
    else Yield(t, parse, ps[0]) + HarvestAll(t, parse, ps[1..])
  }

  /** Resuming the regex search right after each marker visits every marker
      position, in increasing order: the extractor's result is the harvest
      of all markers, nested ones included. */
  lemma {:induction false} ExtractFromVisitsAllMarkers(t: string, parse: string -> Option<Record>, lo: nat)
    requires lo <= |t|
    ensures forall a :: 0 <= a < |MarkersFrom(t, lo)| ==> MarkersFrom(t, lo)[a] <= |t|
    ensures ExtractFrom(t, parse, lo) == HarvestAll(t, parse, MarkersFrom(t, lo))
    decreases |t| - lo
  {
    MarkersWithinText(t, lo);
    match NextMarker(t, lo)
    case None =>
      MarkersFromSkip(t, lo, |t|);
      assert MarkersFrom(t, lo) == [];
    case Some(p) =>
      var next := p + |Marker|;
      MarkersAfterNext(t, lo, p);
      ExtractFromVisitsAllMarkers(t, parse, next);
      var ps := MarkersFrom(t, lo);
      assert ps[0] == p && ps[1..] == MarkersFrom(t, next);
      ExtractFromStep(t, parse, lo, p);
      HarvestAllStep(t, parse, ps);
  }

  /** Every enumerated marker position lies within the text. */
  lemma MarkersWithinText(t: string, lo: nat)
    ensures forall a :: 0 <= a < |MarkersFrom(t, lo)| ==> MarkersFrom(t, lo)[a] <= |t|
  {
    MarkersFromExact(t, lo);
    var ps := MarkersFrom(t, lo);
    forall a | 0 <= a < |ps| ensures ps[a] <= |t| {
      assert ps[a] in ps;
    }
  }

  lemma ExtractFromStep(t: string, parse: string -> Option<Record>, lo: nat, p: nat)
    requires lo <= |t| && NextMarker(t, lo) == Some(p)
    ensures p + |Marker| <= |t|
    ensures ExtractFrom(t, parse, lo) == Yield(t, parse, p) + ExtractFrom(t, parse, p + |Marker|)
  {
    assert MarkerAt(t, p);
    var rest := ExtractFrom(t, parse, p + |Marker|);
    assert ExtractFrom(t, parse, lo) == Yield(t, parse, p) + rest;
  }

  lemma HarvestAllStep(t: string, parse: string -> Option<Record>, ps: seq<nat>)
    requires ps != [] && forall a :: 0 <= a < |ps| ==> ps[a] <= |t|
    ensures HarvestAll(t, parse, ps) == Yield(t, parse, ps[0]) + HarvestAll(t, parse, ps[1..])
  {
  }

  /** The enumeration from `lo` is the next marker followed by the
      enumeration from just after it. */
  lemma MarkersAfterNext(t: string, lo: nat, p: nat)
    requires NextMarker(t, lo) == Some(p)
    ensures p + |Marker| <= |t|
    ensures MarkersFrom(t, lo) == [p] + MarkersFrom(t, p + |Marker|)
  {
    var next := p + |Marker|;
    MarkersFromSkip(t, lo, p);
    forall k | p + 1 <= k < next ensures !MarkerAt(t, k) {
      MarkersDoNotOverlap(t, p, k);
    }
    MarkersFromSkip(t, p + 1, next);
    assert MarkersFrom(t, p) == [p] + MarkersFrom(t, p + 1);
  }

  /** Every record the extractor keeps comes, in order, from a marker whose
      braces balance, whose candidate parses to that record, and whose
      `productId` is truthy. */
  lemma {:induction false} HarvestAllSound(t: string, parse: string -> Option<Record>, ps: seq<nat>, o: Record)
    requires forall a :: 0 <= a < |ps| ==> ps[a] <= |t|
    requires o in HarvestAll(t, parse, ps)
    ensures exists a :: 0 <= a < |ps| && Harvest(t, parse, ps[a]) == Some(o)
    decreases |ps|
  {
    assert ps != [];
    HarvestAllStep(t, parse, ps);
    if o in Yield(t, parse, ps[0]) {
      assert Harvest(t, parse, ps[0]) == Some(o);
    } else {
      var rest := ps[1..];
      assert forall a :: 0 <= a < |rest| ==> rest[a] == ps[a + 1];
      HarvestAllSound(t, parse, rest, o);
      var a :| 0 <= a < |rest| && Harvest(t, parse, rest[a]) == Some(o);
      assert Harvest(t, parse, ps[a + 1]) == Some(o);
    }
  }


  /** Every extracted record comes from some marker whose braces balance and
      whose candidate text parses to exactly that record. */
  lemma ExtractSound(t: string, parse: string -> Option<Record>, o: Record)
    requires o in Extract(t, parse)
    ensures exists p :: MarkerAt(t, p) && !Unbalanced(t, p) && parse(Candidate(t, p)) == Some(o)
  {
    ExtractFromVisitsAllMarkers(t, parse, 0);
    MarkersFromExact(t, 0);
    var ps := MarkersFrom(t, 0);
    HarvestAllSound(t, parse, ps, o);
    var a :| 0 <= a < |ps| && Harvest(t, parse, ps[a]) == Some(o);
    assert MarkerAt(t, ps[a]) by { assert ps[a] in ps; }
  }

  /** A marker whose braces never balance contributes nothing: its candidate
      is empty and the empty text never parses. */
  lemma UnbalancedDropped(t: string, parse: string -> Option<Record>, p: nat)
    requires p <= |t| && Unbalanced(t, p)
    ensures Candidate(t, p) == ""
    ensures Harvest(t, parse, p) == None
  {
  }

  /** A text without the marker yields no records. */
  lemma NoMarkerNoRecords(t: string, parse: string -> Option<Record>)
    requires forall k :: !MarkerAt(t, k)
    ensures Extract(t, parse) == []
  {
  }

  /** A text whose count first returns to zero at its very end, embedded at
      any position of any page, is cut out again exactly. */
  lemma EmbeddedSpanRecovered(a: string, obj: string, b: string)
    requires Closes(obj, 0, |obj|)
    ensures Candidate(a + obj + b, |a|) == obj
  {
    var t := a + obj + b;
    var p := |a|;
    forall k | 0 <= k <= |obj| ensures Net(t[p..p + k]) == Net(obj[..k]) {
      assert t[p..p + k] == obj[..k];
    }
    assert obj[..|obj|] == obj;
    assert Closes(t, p, p + |obj|) by {
      forall k | p < k < p + |obj| ensures Net(t[p..k]) != 0 {
        assert Net(t[p..p + (k - p)]) == Net(obj[..k - p]);
        assert obj[0..k - p] == obj[..k - p];
      }
    }
    var e := SpanEnd(t, p);
    if e != p {
      ClosesUnique(t, p, e, p + |obj|);
    }
    assert t[p..p + |obj|] == obj;
  }

  /** A record at `p` of the harvest list is part of the harvest. */
  lemma {:induction false} HarvestAllComplete(t: string, parse: string -> Option<Record>, ps: seq<nat>, a: nat, o: Record)
    requires forall i :: 0 <= i < |ps| ==> ps[i] <= |t|
    requires a < |ps| && Harvest(t, parse, ps[a]) == Some(o)
    ensures o in HarvestAll(t, parse, ps)
    decreases |ps|
  {
    if a > 0 {
      HarvestAllComplete(t, parse, ps[1..], a - 1, o);
    }
  }

  /** Embedding a product object that starts with the marker, whose braces
      first balance at its end, and that parses to a record with a truthy
      `productId`, makes the extractor return that record. */
  lemma EmbeddedRecordExtracted(a: string, obj: string, b: string, parse: string -> Option<Record>, o: Record)
    requires MarkerAt(obj, 0) && Closes(obj, 0, |obj|)
    requires parse(obj) == Some(o) && Truthy(Field(o, "productId"))
    ensures o in Extract(a + obj + b, parse)
  {
    var t := a + obj + b;
    var p := |a|;
    EmbeddedSpanRecovered(a, obj, b);
    assert MarkerAt(t, p) by {
      assert t[p..p + |Marker|] == obj[0..|Marker|];
    }
    assert Harvest(t, parse, p) == Some(o);
    ExtractFromVisitsAllMarkers(t, parse, 0);
    MarkersFromExact(t, 0);
    var ps := MarkersFrom(t, 0);
    assert p in ps;
    var i :| 0 <= i < |ps| && ps[i] == p;
    HarvestAllComplete(t, parse, ps, i, o);
  }
}
