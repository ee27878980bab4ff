/** Regular expressions under the leftmost-first (backtracking) reading: a pattern
    run from a position yields every way to match, in order of preference. */
module Regex {
  import opened Wrappers
  import opened Text

  datatype CharClass = Alnum | NameChar | NonSpace | Exactly(c: char)
  {
    predicate Has(x: char) {
      match this
      case Alnum => IsAlnum(x)
      case NameChar => IsNameChar(x)
      case NonSpace => !IsSpace(x)
      case Exactly(y) => x == y
    }
  }

  datatype Re =
    | Class(cs: CharClass)
    | Cat(first: Re, second: Re)
    | Opt(body: Re)              // greedy `?`
    | Plus(body: Re)             // greedy `+`
    | Group(n: nat, body: Re)    // capture group

  /** A partial match: how far it got, and the spans of the groups closed so far. */
  datatype Thread = Thread(pos: nat, groups: map<nat, (nat, nat)>)

  ghost predicate Within(ts: seq<Thread>, lo: nat, hi: nat) {
    forall k :: 0 <= k < |ts| ==> lo <= ts[k].pos <= hi
  }

  function Run(re: Re, s: string, t: Thread): (r: seq<Thread>)
    requires t.pos <= |s|
    ensures Within(r, t.pos, |s|)
    decreases |s| - t.pos, re, 0
  {
    match re
    case Class(cs) => if t.pos < |s| && cs.Has(s[t.pos]) then [t.(pos := t.pos + 1)] else []
    case Cat(a, b) => RunEach(b, s, t.pos, Run(a, s, t))
    case Opt(a) => Run(a, s, t) + [t]
    case Plus(a) => RunPlus(a, s, t.pos, Run(a, s, t))
    case Group(n, a) => Close(n, t.pos, |s|, Run(a, s, t))
  }

  /** Continue every thread with `re`, the preferred ones first. */
  function RunEach(re: Re, s: string, lo: nat, ts: seq<Thread>): (r: seq<Thread>)
    requires lo <= |s| && Within(ts, lo, |s|)
    ensures Within(r, lo, |s|)
    decreases |s| - lo, re, |ts| + 1
  {
    if ts == [] then [] else Run(re, s, ts[0]) + RunEach(re, s, lo, ts[1..])
  }

  /** After a round of a repetition: rather go on than stop, but never on an empty round. */
  function RunPlus(a: Re, s: string, lo: nat, ts: seq<Thread>): (r: seq<Thread>)
    requires lo <= |s| && Within(ts, lo, |s|)
    ensures Within(r, lo, |s|)
    decreases |s| - lo, a, |ts| + 1
  {
    if ts == [] then []
    else (if ts[0].pos > lo then Run(Plus(a), s, ts[0]) else []) + [ts[0]] + RunPlus(a, s, lo, ts[1..])
  }

  function Close(n: nat, start: nat, hi: nat, ts: seq<Thread>): (r: seq<Thread>)
    requires Within(ts, start, hi)
    ensures |r| == |ts| && Within(r, start, hi)
    ensures forall k :: 0 <= k < |ts| ==> r[k] == ts[k].(groups := ts[k].groups[n := (start, ts[k].pos)])
  {
    if ts == [] then [] else [ts[0].(groups := ts[0].groups[n := (start, ts[0].pos)])] + Close(n, start, hi, ts[1..])
  }

  function Head<T>(ts: seq<T>): Option<T> {
    if ts == [] then None else Some(ts[0])
  }

  /** The way a backtracking engine takes from position `i`, if it finds one. */
  function MatchAt(re: Re, s: string, i: nat): Option<Thread>
    requires i <= |s|
  {
    Head(Run(re, s, Thread(i, map[])))
  }

  datatype Found = Found(start: nat, thread: Thread)

  /** The leftmost start that matches at all, and the preferred match from there. */
  function Search(re: Re, s: string, from: nat): (m: Option<Found>)
    requires from <= |s|
    ensures m.Some? ==> from <= m.value.start <= m.value.thread.pos <= |s|
    decreases |s| - from
  {
    match MatchAt(re, s, from)
    case Some(t) => Some(Found(from, t))
    case None => if from == |s| then None else Search(re, s, from + 1)
  }

  /** Successive matches, each searched from the end of the one before. Stops at an empty match. */
  function SearchAll(re: Re, s: string, from: nat): seq<Found>
    requires from <= |s|
    decreases |s| - from
  {
    match Search(re, s, from)
    case None => []
    case Some(m) => if m.thread.pos > from then [m] + SearchAll(re, s, m.thread.pos) else [m]
  }

  // ---- how the preferred match composes ------------------------------------

  /** None of the first `k` threads can continue with `re`. */
  ghost predicate Dead(re: Re, s: string, ts: seq<Thread>, k: nat) {
    k <= |ts| && forall j :: 0 <= j < k ==> ts[j].pos <= |s| && Run(re, s, ts[j]) == []
  }

  /** Without a way to continue, a thread contributes nothing; the first one that can wins. */
  lemma {:induction false} FirstThatContinues(re: Re, s: string, lo: nat, ts: seq<Thread>, k: nat)
    requires lo <= |s| && Within(ts, lo, |s|) && Dead(re, s, ts, k)
    requires k < |ts| ==> Run(re, s, ts[k]) != []
    ensures Head(RunEach(re, s, lo, ts)) == if k < |ts| then Head(Run(re, s, ts[k])) else None
    decreases |ts|
  {
    if ts == [] || k == 0 {
    } else {
      FirstThatContinues(re, s, lo, ts[1..], k - 1);
    }
  }

  /** The threads of a run, longest first. */
  ghost predicate Descending(ts: seq<Thread>, t: Thread, e: nat) {
    |ts| == e - t.pos && forall k :: 0 <= k < |ts| ==> ts[k] == t.(pos := e - k)
  }

  /** `lo..e` is the longest run of `cs` from `lo`. */
  ghost predicate LongestRun(cs: CharClass, s: string, lo: nat, e: nat) {
    lo <= e <= |s| && (forall k :: lo <= k < e ==> cs.Has(s[k])) && (e < |s| ==> !cs.Has(s[e]))
  }

  /** `cs` has nothing in `lo..=hi`. */
  ghost predicate NoneIn(cs: CharClass, s: string, lo: nat, hi: nat) {
    forall p :: lo <= p <= hi && p < |s| ==> !cs.Has(s[p])
  }

  /** One character class repeated: the longest run first, then each shorter one. */
  lemma {:induction false} PlusClass(cs: CharClass, s: string, t: Thread, e: nat)
    requires LongestRun(cs, s, t.pos, e)
    ensures Descending(Run(Plus(Class(cs)), s, t), t, e)
    decreases e - t.pos
  {
    if t.pos == e {
    } else {
      var u := t.(pos := t.pos + 1);
      assert Run(Class(cs), s, t) == [u];
      assert RunPlus(Class(cs), s, t.pos, [u]) == Run(Plus(Class(cs)), s, u) + [u];
      PlusClass(cs, s, u, e);
    }
  }

  lemma CatIs(a: Re, b: Re, s: string, t: Thread)
    requires t.pos <= |s|
    ensures Run(Cat(a, b), s, t) == RunEach(b, s, t.pos, Run(a, s, t))
  {
  }

  lemma RunOne(re: Re, s: string, lo: nat, t: Thread)
    requires lo <= t.pos <= |s|
    ensures RunEach(re, s, lo, [t]) == Run(re, s, t)
  {
    assert RunEach(re, s, lo, [t][1..]) == [];
  }

  lemma Single(cs: CharClass, s: string, t: Thread)
    requires t.pos <= |s|
    ensures Run(Class(cs), s, t) == if t.pos < |s| && cs.Has(s[t.pos]) then [t.(pos := t.pos + 1)] else []
  {
  }

  lemma RunNone(re: Re, s: string, lo: nat)
    requires lo <= |s|
    ensures RunEach(re, s, lo, []) == []
  {
  }

  /** A class and then the rest: one character on, or nothing. */
  lemma ClassThen(cs: CharClass, rest: Re, s: string, t: Thread)
    requires t.pos <= |s|
    ensures Run(Cat(Class(cs), rest), s, t) ==
            if t.pos < |s| && cs.Has(s[t.pos]) then Run(rest, s, t.(pos := t.pos + 1)) else []
  {
    hide Run, RunEach, CharClass.Has;
    CatIs(Class(cs), rest, s, t);
    Single(cs, s, t);
    RunNone(rest, s, t.pos);
    if t.pos < |s| && cs.Has(s[t.pos]) {
      RunOne(rest, s, t.pos, t.(pos := t.pos + 1));
    }
  }

  lemma OptHead(a: Re, s: string, t: Thread)
    requires t.pos <= |s|
    ensures Head(Run(Opt(a), s, t)) == if Run(a, s, t) == [] then Some(t) else Head(Run(a, s, t))
  {
  }

  /** From beyond the last place where it matches, a class cannot go on. */
  lemma DeadBeyond(last: CharClass, rest: Re, s: string, t: Thread, ts: seq<Thread>, e: nat, k: nat)
    requires t.pos <= k <= e <= |s| && Descending(ts, t, e) && NoneIn(last, s, k + 1, e)
    ensures Dead(Cat(Class(last), rest), s, ts, e - k)
  {
    hide Run, CharClass.Has;
    forall j | 0 <= j < e - k
      ensures Run(Cat(Class(last), rest), s, ts[j]) == []
    {
      ClassThen(last, rest, s, ts[j]);
    }
  }

  /** Where a class matches, it goes on with what may follow. */
  lemma AliveAt(last: CharClass, rest: Re, s: string, u: Thread)
    requires u.pos < |s| && last.Has(s[u.pos])
    ensures Run(Cat(Class(last), Opt(rest)), s, u) != []
    ensures Head(Run(Cat(Class(last), Opt(rest)), s, u)) == Head(Run(Opt(rest), s, u.(pos := u.pos + 1)))
  {
    hide Run, CharClass.Has;
    ClassThen(last, Opt(rest), s, u);
    OptHead(rest, s, u.(pos := u.pos + 1));
  }

  /** `cs+ last rest?` backs up from the end `e` of the run to the last place `k` where `last` matches. */
  lemma BackUp(cs: CharClass, last: CharClass, rest: Re, s: string, t: Thread, e: nat, k: nat)
    requires LongestRun(cs, s, t.pos, e) && t.pos <= k <= e <= |s| && NoneIn(last, s, k + 1, e)
    requires k > t.pos ==> k < |s| && last.Has(s[k])
    ensures Head(Run(Cat(Plus(Class(cs)), Cat(Class(last), Opt(rest))), s, t)) ==
            if k > t.pos then Head(Run(Opt(rest), s, t.(pos := k + 1))) else None
  {
    hide Run, RunEach, Head, CharClass.Has, LongestRun, NoneIn, Dead;
    var tail := Cat(Class(last), Opt(rest));
    var ts := Run(Plus(Class(cs)), s, t);
    CatIs(Plus(Class(cs)), tail, s, t);
    PlusClass(cs, s, t, e);
    DeadBeyond(last, Opt(rest), s, t, ts, e, k);
    if k > t.pos {
      AliveAt(last, rest, s, t.(pos := k));
      assert ts[e - k] == t.(pos := k);
    }
    FirstThatContinues(tail, s, t.pos, ts, e - k);
  }
}
