/** The domain pattern: as a regular expression with backtracking, and as the
    deterministic scan that finds the same matches. */
module DomainPattern {
  import opened Wrappers
  import opened Text
  import opened Regex

  /** `([a-zA-Z0-9][a-zA-Z0-9.-]+[a-zA-Z0-9]\.?)(:(\S+))?` */
  const LAST: Re := Cat(Class(Alnum), Opt(Class(Exactly('.'))))
  const NAME: Re := Cat(Class(Alnum), Cat(Plus(Class(NameChar)), LAST))
  const PARAMS: Re := Group(2, Cat(Class(Exactly(':')), Group(3, Plus(Class(NonSpace)))))
  const DS_PAT: Re := Cat(Group(1, NAME), Opt(PARAMS))

  // ---- the scanner -----------------------------------------------------------

  /** A match: the name spans `start..nameEnd`; the parameters, if any, `nameEnd + 1..end`. */
  datatype Match = Match(start: nat, nameEnd: nat, hasParams: bool, end: nat)
  {
    ghost predicate Fits(s: string) {
      start + 3 <= nameEnd <= end <= |s| && (if hasParams then nameEnd + 2 <= end else nameEnd == end)
    }

    function Shift(d: nat): Match {
      Match(start + d, nameEnd + d, hasParams, end + d)
    }
  }

  /** The end of the longest run of `cs` from `i`. */
  function RunEnd(cs: CharClass, s: string, i: nat): (e: nat)
    requires i <= |s|
    ensures i <= e <= |s|
    ensures forall k :: i <= k < e ==> cs.Has(s[k])
    ensures e < |s| ==> !cs.Has(s[e])
    decreases |s| - i
  {
    if i < |s| && cs.Has(s[i]) then RunEnd(cs, s, i + 1) else i
  }

  /** One past the last alphanumeric in `lo..hi`, or `lo` when there is none. */
  function LastAlnum(s: string, lo: nat, hi: nat): (k: nat)
    requires lo <= hi <= |s|
    ensures lo <= k <= hi
    ensures k > lo ==> IsAlnum(s[k - 1])
    ensures forall j :: k <= j < hi ==> !IsAlnum(s[j])
    decreases hi
  {
    if hi == lo || IsAlnum(s[hi - 1]) then hi else LastAlnum(s, lo, hi - 1)
  }

  /** The end of the name that starts at `i`: the last alphanumeric of the run, and a dot right after it. */
  function NameEnd(s: string, i: nat): (n: Option<nat>)
    requires i <= |s|
    ensures n.Some? ==> i + 3 <= n.value <= |s|
  {
    if i == |s| || !IsAlnum(s[i]) then None else
    var e := RunEnd(NameChar, s, i + 1);
    if e < i + 2 then None else
    var k := LastAlnum(s, i + 2, e);
    if k == i + 2 then None
    else if k < |s| && s[k] == '.' then Some(k + 1)
    else Some(k)
  }

  /** The end of the parameters that a colon at `n` opens. */
  function ParamsEnd(s: string, n: nat): (f: nat)
    requires n <= |s|
    ensures n <= f <= |s|
  {
    if n < |s| && s[n] == ':' then RunEnd(NonSpace, s, n + 1) else n
  }

  /** Scan at position `i`, without backtracking. */
  function Scan(s: string, i: nat): (m: Option<Match>)
    requires i <= |s|
    ensures m.Some? ==> m.value.start == i && m.value.Fits(s)
  {
    match NameEnd(s, i)
    case None => None
    case Some(n) =>
      var f := ParamsEnd(s, n);
      Some(if f > n + 1 then Match(i, n, true, f) else Match(i, n, false, n))
  }

  /** What the pattern captures for a match. */
  function Groups(m: Match): map<nat, (nat, nat)> {
    var name: map<nat, (nat, nat)> := map[1 := (m.start, m.nameEnd)];
    if m.hasParams then name[3 := (m.nameEnd + 1, m.end)][2 := (m.nameEnd, m.end)] else name
  }

  function AsFound(m: Match): Found {
    Found(m.start, Thread(m.end, Groups(m)))
  }

  // ---- the scanner is the pattern ----------------------------------------------

  /** Group 1: the preferred end of the name is the scanner's. */
  lemma NameMatch(s: string, i: nat)
    requires i <= |s|
    ensures Head(Run(NAME, s, Thread(i, map[]))) ==
            match NameEnd(s, i) case None => None case Some(n) => Some(Thread(n, map[]))
  {
    hide Run, RunEach;
    ClassThen(Alnum, Cat(Plus(Class(NameChar)), LAST), s, Thread(i, map[]));
    if i < |s| && IsAlnum(s[i]) {
      var e := RunEnd(NameChar, s, i + 1);
      var k := if e < i + 2 then i + 1 else LastAlnum(s, i + 2, e) - 1;
      BackUp(NameChar, Alnum, Class(Exactly('.')), s, Thread(i + 1, map[]), e, k);
      if k > i + 1 {
        OptHead(Class(Exactly('.')), s, Thread(k + 1, map[]));
        Single(Exactly('.'), s, Thread(k + 1, map[]));
      }
    }
  }

  /** Groups 2 and 3: the parameters, when a colon and something else than white space follow. */
  lemma ParamsMatch(s: string, t: Thread)
    requires t.pos <= |s|
    ensures var f := ParamsEnd(s, t.pos);
            Head(Run(PARAMS, s, t)) ==
            if f > t.pos + 1 then Some(Thread(f, t.groups[3 := (t.pos + 1, f)][2 := (t.pos, f)])) else None
  {
    hide Run, RunEach, RunEnd;
    GroupIs(2, Cat(Class(Exactly(':')), Group(3, Plus(Class(NonSpace)))), s, t);
    ClassThen(Exactly(':'), Group(3, Plus(Class(NonSpace))), s, t);
    if t.pos < |s| && s[t.pos] == ':' {
      GroupIs(3, Plus(Class(NonSpace)), s, t.(pos := t.pos + 1));
      PlusClass(NonSpace, s, t.(pos := t.pos + 1), RunEnd(NonSpace, s, t.pos + 1));
    }
  }

  lemma GroupIs(n: nat, a: Re, s: string, t: Thread)
    requires t.pos <= |s|
    ensures Run(Group(n, a), s, t) == Close(n, t.pos, |s|, Run(a, s, t))
  {
  }

  /** The scanner computes exactly the leftmost-first match of the pattern, captures included. */
  lemma ScanIsPattern(s: string, i: nat)
    requires i <= |s|
    ensures MatchAt(DS_PAT, s, i) == (if Scan(s, i).Some? then Some(AsFound(Scan(s, i).value).thread) else None)
  {
    hide Run, RunEach, NameEnd, ParamsEnd;
    var t := Thread(i, map[]);
    NameMatch(s, i);
    GroupIs(1, NAME, s, t);
    var ts := Run(Group(1, NAME), s, t);
    CatIs(Group(1, NAME), Opt(PARAMS), s, t);
    if Scan(s, i).Some? {
      var m := Scan(s, i).value;
      var named := Thread(m.nameEnd, map[1 := (i, m.nameEnd)]);
      assert ts[0] == named;
      ParamsMatch(s, named);
      OptHead(PARAMS, s, named);
      FirstThatContinues(Opt(PARAMS), s, i, ts, 0);
    } else {
      FirstThatContinues(Opt(PARAMS), s, i, ts, 0);
    }
  }

  // ---- all matches ---------------------------------------------------------------

  function Find(s: string, from: nat): (m: Option<Match>)
    requires from <= |s|
    ensures m.Some? ==> from <= m.value.start && m.value.Fits(s)
    decreases |s| - from
  {
    match Scan(s, from)
    case Some(m) => Some(m)
    case None => if from == |s| then None else Find(s, from + 1)
  }

  /** The matches `captures_iter` goes through. */
  function FindAll(s: string, from: nat): (ms: seq<Match>)
    requires from <= |s|
    ensures forall m :: m in ms ==> m.Fits(s) && from <= m.start
    decreases |s| - from
  {
    match Find(s, from)
    case None => []
    case Some(m) => [m] + FindAll(s, m.end)
  }

  function AsFoundAll(ms: seq<Match>): seq<Found> {
    seq(|ms|, k requires 0 <= k < |ms| => AsFound(ms[k]))
  }

  lemma {:induction false} FindIsSearch(s: string, from: nat)
    requires from <= |s|
    ensures Search(DS_PAT, s, from) == (if Find(s, from).Some? then Some(AsFound(Find(s, from).value)) else None)
    decreases |s| - from
  {
    ScanIsPattern(s, from);
    if Scan(s, from).Some? || from == |s| {
    } else {
      FindIsSearch(s, from + 1);
    }
  }

  /** Iterating the scanner is iterating the regular expression. */
  lemma {:induction false} FindAllIsSearchAll(s: string, from: nat)
    requires from <= |s|
    ensures SearchAll(DS_PAT, s, from) == AsFoundAll(FindAll(s, from))
    decreases |s| - from
  {
    hide Find, Search;
    FindIsSearch(s, from);
    if Find(s, from).None? {
    } else {
      FindAllIsSearchAll(s, Find(s, from).value.end);
    }
  }

  lemma {:induction false} FindIsLeftmost(s: string, from: nat, i: nat)
    requires from <= i <= |s|
    requires Find(s, from).Some? ==> i < Find(s, from).value.start
    ensures Run(DS_PAT, s, Thread(i, map[])) == []
    decreases |s| - from
  {
    if i == from {
      ScanIsPattern(s, i);
    } else {
      FindIsLeftmost(s, from + 1, i);
    }
  }

  /** The end of the match before the `k`-th one; what lies between is a gap. */
  function GapStart(ms: seq<Match>, from: nat, k: nat): nat
    requires k <= |ms|
  {
    if k == 0 then from else ms[k - 1].end
  }

  lemma FirstMatchAndGap(s: string, from: nat)
    requires from <= |s|
    ensures var ms := FindAll(s, from);
            var until := if ms != [] then ms[0].start else |s| + 1;
            && from <= until
            && (ms != [] ==> ms[0].start < ms[0].end <= |s| && Run(DS_PAT, s, Thread(ms[0].start, map[])) != [])
            && forall i :: from <= i < until ==> i <= |s| && Run(DS_PAT, s, Thread(i, map[])) == []
  {
    hide Run, Find;
    var m := Find(s, from);
    forall i | from <= i < (if m.Some? then m.value.start else |s| + 1)
      ensures Run(DS_PAT, s, Thread(i, map[])) == []
    {
      FindIsLeftmost(s, from, i);
    }
    if m.Some? {
      FoundThere(s, from);
    }
  }

  /** The matches are non-empty, in order and disjoint, and no match can start in a gap. */
  lemma {:induction false} MatchesAndGaps(s: string, from: nat, k: nat)
    requires from <= |s| && k <= |FindAll(s, from)|
    ensures var ms := FindAll(s, from);
            var gap := GapStart(ms, from, k);
            var until := if k < |ms| then ms[k].start else |s| + 1;
            && gap <= until
            && (k < |ms| ==> ms[k].start < ms[k].end <= |s| && Run(DS_PAT, s, Thread(ms[k].start, map[])) != [])
            && forall i :: gap <= i < until ==> i <= |s| && Run(DS_PAT, s, Thread(i, map[])) == []
    decreases k
  {
    var ms := FindAll(s, from);
    hide Run, Find;
    if k == 0 {
      FirstMatchAndGap(s, from);
    } else {
      assert ms[1..] == FindAll(s, ms[0].end);
      MatchesAndGaps(s, ms[0].end, k - 1);
      assert GapStart(ms[1..], ms[0].end, k - 1) == GapStart(ms, from, k);
    }
  }

  lemma {:induction false} FoundThere(s: string, from: nat)
    requires from <= |s| && Find(s, from).Some?
    ensures Scan(s, Find(s, from).value.start) == Find(s, from)
    ensures Run(DS_PAT, s, Thread(Find(s, from).value.start, map[])) != []
    decreases |s| - from
  {
    ScanIsPattern(s, from);
    if Scan(s, from).Some? {
    } else {
      FoundThere(s, from + 1);
    }
  }
}
