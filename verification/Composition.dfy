/** Text put together with white space in between is parsed piece by piece. */
module Composition {
  import opened Wrappers
  import opened Text
  import opened Regex
  import opened DomainPattern
  import opened DomainSpecs

  // ---- the scan looks at nothing before it and nothing beyond white space -------------

  /** `s` from `d` on reads `b`, and then ends or goes on with white space. */
  ghost predicate Embeds(s: string, d: nat, b: string) {
    && d + |b| <= |s|
    && (forall j :: 0 <= j < |b| ==> s[d + j] == b[j])
    && (d + |b| < |s| ==> IsSpace(s[d + |b|]))
  }

  lemma {:induction false} RunEndIn(cs: CharClass, s: string, d: nat, b: string, i: nat)
    requires Embeds(s, d, b) && i <= |b| && (cs == NameChar || cs == NonSpace)
    ensures RunEnd(cs, s, d + i) == d + RunEnd(cs, b, i)
    decreases |b| - i
  {
    if i == |b| {
    } else {
      RunEndIn(cs, s, d, b, i + 1);
    }
  }

  lemma {:induction false} LastAlnumIn(s: string, d: nat, b: string, lo: nat, hi: nat)
    requires Embeds(s, d, b) && lo <= hi <= |b|
    ensures LastAlnum(s, d + lo, d + hi) == d + LastAlnum(b, lo, hi)
    decreases hi
  {
    if lo == hi {
    } else {
      LastAlnumIn(s, d, b, lo, hi - 1);
    }
  }

  function ShiftOpt(m: Option<Match>, d: nat): Option<Match> {
    match m case None => None case Some(x) => Some(x.Shift(d))
  }

  lemma NameEndIn(s: string, d: nat, b: string, i: nat)
    requires Embeds(s, d, b) && i <= |b|
    ensures NameEnd(s, d + i) == match NameEnd(b, i) case None => None case Some(n) => Some(d + n)
  {
    hide RunEnd, LastAlnum;
    if i < |b| && IsAlnum(b[i]) {
      var e := RunEnd(NameChar, b, i + 1);
      RunEndIn(NameChar, s, d, b, i + 1);
      if e >= i + 2 {
        LastAlnumIn(s, d, b, i + 2, e);
      }
    }
  }

  /** A scan starting within `b` finds what it finds in `b` alone. */
  lemma ScanIn(s: string, d: nat, b: string, i: nat)
    requires Embeds(s, d, b) && i <= |b|
    ensures Scan(s, d + i) == ShiftOpt(Scan(b, i), d)
  {
    hide RunEnd, NameEnd;
    NameEndIn(s, d, b, i);
    if NameEnd(b, i).Some? {
      var n := NameEnd(b, i).value;
      if n < |b| {
        RunEndIn(NonSpace, s, d, b, n + 1);
      }
    }
  }

  // ---- all matches ----------------------------------------------------------------------

  function ShiftAll(ms: seq<Match>, d: nat): (r: seq<Match>)
    ensures |r| == |ms| && forall k :: 0 <= k < |ms| ==> r[k] == ms[k].Shift(d)
  {
    seq(|ms|, k requires 0 <= k < |ms| => ms[k].Shift(d))
  }

  lemma {:induction false} FindShift(p: string, b: string, i: nat)
    requires i <= |b|
    ensures Find(p + b, |p| + i) == ShiftOpt(Find(b, i), |p|)
    decreases |b| - i
  {
    hide Scan;
    ScanIn(p + b, |p|, b, i);
    if i == |b| {
    } else {
      FindShift(p, b, i + 1);
    }
  }

  lemma {:induction false} FindAllShift(p: string, b: string, i: nat)
    requires i <= |b|
    ensures FindAll(p + b, |p| + i) == ShiftAll(FindAll(b, i), |p|)
    decreases |b| - i
  {
    hide Find;
    FindShift(p, b, i);
    if Find(b, i).None? {
    } else {
      FindAllShift(p, b, Find(b, i).value.end);
    }
  }

  /** Searching on beyond `a` goes on in `b`. */
  lemma {:induction false} FindOver(a: string, w: char, b: string, i: nat)
    requires i <= |a| && IsSpace(w)
    ensures var s := a + [w] + b;
            Find(s, i) == if Find(a, i).Some? then Find(a, i) else Find(s, |a| + 1)
    decreases |a| - i
  {
    hide Scan;
    var s := a + [w] + b;
    ScanIn(s, 0, a, i);
    if i < |a| {
      FindOver(a, w, b, i + 1);
    } else {
      ScanAtEnd(a);
    }
  }

  lemma ScanAtEnd(a: string)
    ensures Scan(a, |a|) == None
  {
  }

  /** The matches of `a`, white space, `b` are those of `a` and then, shifted, those of `b`. */
  lemma {:induction false} MatchesCompose(a: string, w: char, b: string, i: nat)
    requires i <= |a| && IsSpace(w)
    ensures FindAll(a + [w] + b, i) == FindAll(a, i) + ShiftAll(FindAll(b, 0), |a| + 1)
    decreases |a| - i
  {
    hide Find;
    var s := a + [w] + b;
    FindOver(a, w, b, i);
    if Find(a, i).Some? {
      MatchesCompose(a, w, b, Find(a, i).value.end);
    } else {
      assert s == (a + [w]) + b;
      FindAllShift(a + [w], b, 0);
      assert FindAll(s, i) == FindAll(s, |a| + 1);
    }
  }

  lemma CaptureIn(before: string, s: string, after: string, m: Match)
    requires m.Fits(s)
    ensures m.Shift(|before|).Fits(before + s + after)
    ensures CaptureOf(before + s + after, m.Shift(|before|)) == CaptureOf(s, m)
  {
    var t, d := before + s + after, |before|;
    assert t[d + m.start..d + m.nameEnd] == s[m.start..m.nameEnd];
    if m.hasParams {
      assert t[d + m.nameEnd + 1..d + m.end] == s[m.nameEnd + 1..m.end];
    }
  }

  lemma CapturesIn(before: string, s: string, after: string, ms: seq<Match>)
    requires forall k :: 0 <= k < |ms| ==> ms[k].Fits(s)
    ensures forall k :: 0 <= k < |ms| ==>
              && ms[k].Shift(|before|).Fits(before + s + after)
              && CaptureOf(before + s + after, ms[k].Shift(|before|)) == CaptureOf(s, ms[k])
  {
    hide CaptureOf;
    forall k | 0 <= k < |ms|
      ensures ms[k].Shift(|before|).Fits(before + s + after)
      ensures CaptureOf(before + s + after, ms[k].Shift(|before|)) == CaptureOf(s, ms[k])
    {
      CaptureIn(before, s, after, ms[k]);
    }
  }

  /** So are the captures. */
  lemma CapturesCompose(a: string, w: char, b: string)
    requires IsSpace(w)
    ensures Captures(a + [w] + b) == Captures(a) + Captures(b)
  {
    hide FindAll, CaptureOf;
    var s := a + [w] + b;
    var ma, mb := FindAll(a, 0), FindAll(b, 0);
    MatchesCompose(a, w, b, 0);
    CapturesIn("", a, [w] + b, ma);
    assert "" + a + ([w] + b) == s;
    CapturesIn(a + [w], b, "", mb);
    assert a + [w] + b + "" == s;
    assert forall k :: 0 <= k < |ma| ==> ma[k].Shift(0) == ma[k];
  }

  // ---- verdicts and specs ------------------------------------------------------------------

  /** Parsing one list of captures after another: the second is reached only if the first was fine. */
  lemma VerdictCompose(cs: seq<Capture>, ds: seq<Capture>)
    ensures Verdict(cs + ds) == if Verdict(cs).Err? then Verdict(cs) else Verdict(ds)
    ensures GoodPrefix(cs + ds) == if Verdict(cs).Err? then GoodPrefix(cs) else |cs| + GoodPrefix(ds)
  {
    hide IsGood, ErrorOf, GoodPrefix;
    var n, m := GoodPrefix(cs), GoodPrefix(ds);
    GoodPrefixMeans(cs);
    GoodPrefixMeans(ds);
    GoodPrefixIs(cs + ds, if n < |cs| then n else |cs| + m);
  }

  lemma SpecsOfBoth(cs: seq<Capture>, ds: seq<Capture>)
    ensures SpecsOf(cs + ds) == SpecsOf(cs) + SpecsOf(ds)
  {
    hide SpecOf;
  }

  /** What `parse_all` makes of one text and then another is what it makes of both joined by white space. */
  lemma ParseCompose(a: string, w: char, b: string)
    requires IsSpace(w)
    ensures Answer(a + [w] + b) == if Answer(a).Err? then Answer(a) else Answer(b)
    ensures Pushed(a + [w] + b) == Pushed(a) + (if Answer(a).Err? then [] else Pushed(b))
  {
    hide SpecOf, SpecsOf, GoodPrefix, Captures, ErrorOf, IsGood;
    CapturesCompose(a, w, b);
    var ca, cb := Captures(a), Captures(b);
    var m := GoodPrefix(cb);
    VerdictCompose(ca, cb);
    if Verdict(ca).Err? {
      assert (ca + cb)[..GoodPrefix(ca)] == ca[..GoodPrefix(ca)];
    } else {
      assert (ca + cb)[..|ca| + m] == ca + cb[..m];
      assert ca[..|ca|] == ca;
      SpecsOfBoth(ca, cb[..m]);
    }
  }
}
