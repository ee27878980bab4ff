/** Domain specs: what `parse_all` makes of the matches of the domain pattern. */
module DomainSpecs {
  import opened Wrappers
  import opened Text
  import Regex
  import opened DomainPattern

  datatype DomainSpec = DomainSpec(domainName: string, httpPort: Option<nat>, httpsPort: Option<nat>)
  {
    /** `[^A-Za-z0-9_]` replaced by underscores. */
    function Id(): (id: string)
      ensures |id| == |domainName|
      ensures forall k :: 0 <= k < |id| && (IsAlnum(domainName[k]) || domainName[k] == '_') ==> id[k] == domainName[k]
      ensures forall k :: 0 <= k < |id| && !IsAlnum(domainName[k]) ==> id[k] == '_'
    {
      seq(|domainName|, k requires 0 <= k < |domainName| =>
        if IsAlnum(domainName[k]) || domainName[k] == '_' then domainName[k] else '_')
    }
  }

  /** The domain, the option, and what could not be parsed as its number: a text, from which the kind
      of error follows. */
  datatype DomainSpecError = DomainSpecError(domainName: string, key: string, cause: NumberError)

  datatype NumberError = NumberError(text: string)

  const HTTP := "http"
  const HTTPS := "https"

  // ---- the captures of a match --------------------------------------------------

  datatype Capture = Capture(name: string, params: Option<string>)

  function CaptureOf(s: string, m: Match): Capture
    requires m.Fits(s)
  {
    Capture(s[m.start..m.nameEnd], if m.hasParams then Some(s[m.nameEnd + 1..m.end]) else None)
  }

  function CapturesFrom(s: string, from: nat): (cs: seq<Capture>)
    requires from <= |s|
    ensures |cs| == |FindAll(s, from)|
    ensures forall k :: 0 <= k < |cs| ==> cs[k] == CaptureOf(s, FindAll(s, from)[k])
  {
    var ms := FindAll(s, from);
    seq(|ms|, k requires 0 <= k < |ms| => CaptureOf(s, ms[k]))
  }

  function Captures(s: string): seq<Capture> {
    CapturesFrom(s, 0)
  }

  // ---- what a capture means --------------------------------------------------------

  /** The name, without the dot that ends a fully qualified domain name. */
  function DomainName(c: Capture): string {
    if c.name != "" && c.name[|c.name| - 1] == '.' then c.name[..|c.name| - 1] else c.name
  }

  datatype Param = Param(key: string, value: Option<string>)

  function ParamOf(raw: string): Param {
    var (key, value) := SplitOnce(raw, '=');
    Param(Lower(key), value)
  }

  function ParamsFrom(pieces: seq<string>): (ps: seq<Param>)
    ensures |ps| == |pieces|
    ensures forall k :: 0 <= k < |ps| ==> ps[k] == ParamOf(pieces[k])
  {
    seq(|pieces|, k requires 0 <= k < |pieces| => ParamOf(pieces[k]))
  }

  function ParamsOf(c: Capture): seq<Param> {
    if c.params.None? then [] else ParamsFrom(Split(c.params.value, ':'))
  }

  /** A port option whose value is not a number that fits a port. */
  predicate IsBad(p: Param) {
    (p.key == HTTP || p.key == HTTPS) && p.value.Some? && ParseU16(p.value.value).None?
  }

  ghost predicate AllGood(ps: seq<Param>, n: nat)
    requires n <= |ps|
  {
    forall k :: 0 <= k < n ==> !IsBad(ps[k])
  }

  /** The port the last `key` option among the first `n` asks for; the default when it gives no number. */
  function LastPort(ps: seq<Param>, n: nat, key: string, default: nat): Option<nat>
    requires n <= |ps|
  {
    if n == 0 then None
    else if ps[n - 1].key != key then LastPort(ps, n - 1, key, default)
    else if ps[n - 1].value.None? then Some(default)
    else ParseU16(ps[n - 1].value.value)
  }

  /** A name and its options; without any port option, both default ports. */
  function Interpret(name: string, ps: seq<Param>): DomainSpec {
    WithDefaults(DomainSpec(name, LastPort(ps, |ps|, HTTP, 80), LastPort(ps, |ps|, HTTPS, 443)))
  }

  function WithDefaults(spec: DomainSpec): DomainSpec {
    if spec.httpPort.None? && spec.httpsPort.None? then spec.(httpPort := Some(80), httpsPort := Some(443)) else spec
  }

  function SpecOf(c: Capture): DomainSpec {
    Interpret(DomainName(c), ParamsOf(c))
  }

  function SpecsOf(cs: seq<Capture>): (specs: seq<DomainSpec>)
    ensures |specs| == |cs|
    ensures forall k :: 0 <= k < |cs| ==> specs[k] == SpecOf(cs[k])
  {
    seq(|cs|, k requires 0 <= k < |cs| => SpecOf(cs[k]))
  }

  function FirstBad(ps: seq<Param>): (n: nat)
    ensures n <= |ps| && AllGood(ps, n) && (n < |ps| ==> IsBad(ps[n]))
  {
    if ps == [] || IsBad(ps[0]) then 0 else 1 + FirstBad(ps[1..])
  }

  /** A capture none of whose options is bad. */
  predicate IsGood(c: Capture) {
    FirstBad(ParamsOf(c)) == |ParamsOf(c)|
  }

  lemma GoodMeansAllGood(c: Capture)
    ensures IsGood(c) <==> AllGood(ParamsOf(c), |ParamsOf(c)|)
  {
    hide FirstBad, IsBad, ParamsOf;
  }

  /** How many captures there are before the first with a bad option. */
  function GoodPrefix(cs: seq<Capture>): (n: nat)
    ensures n <= |cs|
  {
    if cs == [] || !IsGood(cs[0]) then 0 else 1 + GoodPrefix(cs[1..])
  }

  lemma {:induction false} GoodPrefixMeans(cs: seq<Capture>)
    ensures forall k :: 0 <= k < GoodPrefix(cs) ==> IsGood(cs[k])
    ensures GoodPrefix(cs) < |cs| ==> !IsGood(cs[GoodPrefix(cs)])
  {
    hide IsGood;
    if cs == [] || !IsGood(cs[0]) {
    } else {
      GoodPrefixMeans(cs[1..]);
    }
  }

  function ErrorAt(domainName: string, p: Param): DomainSpecError
    requires IsBad(p)
  {
    DomainSpecError(domainName, p.key, NumberError(p.value.value))
  }

  function ErrorOf(c: Capture): DomainSpecError
    requires !IsGood(c)
  {
    var ps := ParamsOf(c);
    ErrorAt(DomainName(c), ps[FirstBad(ps)])
  }

  /** The answer for a list of captures: fine, or the first bad option of the first bad capture. */
  function Verdict(cs: seq<Capture>): Result<(), DomainSpecError> {
    GoodPrefixMeans(cs);
    if GoodPrefix(cs) == |cs| then Ok(()) else Err(ErrorOf(cs[GoodPrefix(cs)]))
  }

  lemma GoodPrefixIs(cs: seq<Capture>, n: nat)
    requires n <= |cs| && (forall k :: 0 <= k < n ==> IsGood(cs[k]))
    requires n < |cs| ==> !IsGood(cs[n])
    ensures GoodPrefix(cs) == n
  {
    hide *;
    GoodPrefixMeans(cs);
  }

  lemma FirstBadIs(ps: seq<Param>, n: nat)
    requires n <= |ps| && AllGood(ps, n) && (n < |ps| ==> IsBad(ps[n]))
    ensures FirstBad(ps) == n
  {
    hide FirstBad, IsBad;
  }

  // ---- parse_all ---------------------------------------------------------------------

  function ParsePort(key: string, value: Option<string>, spec: DomainSpec): Result<Option<nat>, DomainSpecError> {
    match value
    case None => Ok(None)
    case Some(v) =>
      match ParseU16(v)
      case None => Err(DomainSpecError(spec.domainName, key, NumberError(v)))
      case Some(port) => Ok(Some(port))
  }

  /** What `parse_all` answers for a text. */
  function Answer(raw: string): Result<(), DomainSpecError> {
    Verdict(Captures(raw))
  }

  /** What `parse_all` appends for a text: the specs of the matches before the first bad option. */
  function Pushed(raw: string): seq<DomainSpec> {
    SpecsOf(Captures(raw)[..GoodPrefix(Captures(raw))])
  }

  /** Appends to `specs` the spec of every match up to the first with a bad option. */
  method ParseAll(raw: string, specs: seq<DomainSpec>) returns (r: Result<(), DomainSpecError>, pushed: seq<DomainSpec>)
    ensures r == Answer(raw) && pushed == specs + Pushed(raw)
  {
    hide Find, IsGood, SpecOf, ErrorOf, GoodPrefix;
    pushed := specs;
    ghost var cs, n := Captures(raw), 0;
    var pos, next := 0, Find(raw, 0);
    while next.Some?
      invariant pos <= |raw| && next == Find(raw, pos)
      invariant n <= |cs| && CapturesFrom(raw, pos) == cs[n..]
      invariant forall k :: 0 <= k < n ==> IsGood(cs[k])
      invariant pushed == specs + SpecsOf(cs[..n])
      decreases |raw| - pos
    {
      StepCaptures(raw, pos);
      assert cs[n] == cs[n..][0];
      var parsed := ParseMatch(raw, next.value);
      if parsed.Err? {
        GoodPrefixIs(cs, n);
        return Err(parsed.error), pushed;
      }
      SpecsOfPrefix(cs, n);
      pushed := pushed + [parsed.value];
      pos, n := next.value.end, n + 1;
      assert cs[n..] == cs[n - 1..][1..];
      next := Find(raw, pos);
    }
    NoMoreCaptures(raw, pos);
    assert cs[n..] == [];
    GoodPrefixIs(cs, n);
    r := Ok(());
  }

  lemma SpecsOfPrefix(cs: seq<Capture>, n: nat)
    requires n < |cs|
    ensures SpecsOf(cs[..n + 1]) == SpecsOf(cs[..n]) + [SpecOf(cs[n])]
  {
    hide SpecOf;
  }

  lemma NoMoreCaptures(s: string, from: nat)
    requires from <= |s| && Find(s, from) == None
    ensures CapturesFrom(s, from) == []
  {
  }

  lemma StepCaptures(s: string, from: nat)
    requires from <= |s| && Find(s, from).Some?
    ensures var m := Find(s, from).value;
            Scan(s, m.start) == Some(m) && CapturesFrom(s, from) == [CaptureOf(s, m)] + CapturesFrom(s, m.end)
  {
    hide Find, Scan, CaptureOf;
    FoundThere(s, from);
  }

  /** The body of the loop: one match, up to its first bad option. */
  method ParseMatch(raw: string, m: Match) returns (r: Result<DomainSpec, DomainSpecError>)
    requires m.Fits(raw) && Scan(raw, m.start) == Some(m)
    ensures var c := CaptureOf(raw, m);
            r.Ok? == IsGood(c) && r == if IsGood(c) then Ok(SpecOf(c)) else Err(ErrorOf(c))
  {
    hide Scan, Split, Trim, LastPort, FirstBad;
    ghost var c := CaptureOf(raw, m);
    var domainName := raw[m.start..m.nameEnd];
    if domainName[|domainName| - 1] == '.' {
      domainName := domainName[..|domainName| - 1];
    }
    var rawParams: seq<string> := [];
    if m.hasParams {
      ParamsHaveNoSpace(raw, m);
      rawParams := Split(Trim(raw[m.nameEnd + 1..m.end]), ':');
      PiecesHaveNoSpace(raw[m.nameEnd + 1..m.end], ':');
    }
    assert ParamsOf(c) == ParamsFrom(rawParams);
    r := ParseParams(domainName, rawParams);
    if r.Ok? {
      r := Ok(WithDefaults(r.value));
    }
  }

  /** The loop over the options: the last one of a kind wins, the first bad one stops it. */
  method ParseParams(domainName: string, rawParams: seq<string>) returns (r: Result<DomainSpec, DomainSpecError>)
    requires forall k :: 0 <= k < |rawParams| ==> NoSpace(rawParams[k])
    ensures var ps := ParamsFrom(rawParams);
            var b := FirstBad(ps);
            r == if b == |ps|
                 then Ok(DomainSpec(domainName, LastPort(ps, b, HTTP, 80), LastPort(ps, b, HTTPS, 443)))
                 else Err(ErrorAt(domainName, ps[b]))
  {
    hide Trim, FirstBad, ParseU16, SplitOnce, Lower, ParamsFrom, NoSpace;
    ghost var ps := ParamsFrom(rawParams);
    var spec := DomainSpec(domainName, None, None);
    for i := 0 to |rawParams|
      invariant AllGood(ps, i)
      invariant spec == DomainSpec(domainName, LastPort(ps, i, HTTP, 80), LastPort(ps, i, HTTPS, 443))
    {
      TrimsDoNothing(rawParams[i]);
      var (keyPart, valuePart) := SplitOnce(rawParams[i], '=');
      var key := Lower(Trim(keyPart));
      var value := if valuePart.Some? then Some(Trim(valuePart.value)) else None;
      assert ps[i] == Param(key, value);
      if key == HTTP {
        var parsed := ParsePort(key, value, spec);
        if parsed.Err? {
          FirstBadIs(ps, i);
          return Err(parsed.error);
        }
        spec := spec.(httpPort := Some(if parsed.value.Some? then parsed.value.value else 80));
      } else if key == HTTPS {
        var parsed := ParsePort(key, value, spec);
        if parsed.Err? {
          FirstBadIs(ps, i);
          return Err(parsed.error);
        }
        spec := spec.(httpsPort := Some(if parsed.value.Some? then parsed.value.value else 443));
      }
    }
    FirstBadIs(ps, |ps|);
    r := Ok(spec);
  }

  // ---- every trim is an identity -------------------------------------------------------

  lemma ParamsHaveNoSpace(s: string, m: Match)
    requires m.Fits(s) && Scan(s, m.start) == Some(m) && m.hasParams
    ensures NoSpace(s[m.nameEnd + 1..m.end])
  {
    var r := s[m.nameEnd + 1..m.end];
    forall k | 0 <= k < |r|
      ensures !IsSpace(r[k])
    {
      assert r[k] == s[m.nameEnd + 1 + k];
      assert Regex.CharClass.NonSpace.Has(s[m.nameEnd + 1 + k]);
    }
  }

  lemma {:induction false} PiecesHaveNoSpace(s: string, c: char)
    requires NoSpace(s)
    ensures forall k :: 0 <= k < |Split(s, c)| ==> NoSpace(Split(s, c)[k])
    decreases |s|
  {
    var i := IndexOf(s, c);
    if i == |s| {
    } else {
      PiecesHaveNoSpace(s[i + 1..], c);
    }
  }

  lemma TrimsDoNothing(piece: string)
    requires NoSpace(piece)
    ensures var (key, value) := SplitOnce(piece, '=');
            Trim(key) == key && (value.Some? ==> Trim(value.value) == value.value)
  {
    hide Trim;
    var i := IndexOf(piece, '=');
    assert NoSpace(piece[..i]);
    if i < |piece| {
      assert NoSpace(piece[i + 1..]);
    }
  }

  // ---- what parse_all promises -----------------------------------------------------------

  /** The last option of a kind, at `j`, decides whatever the others say; `-1` stands for none. */
  lemma {:induction false} LastOptionWins(ps: seq<Param>, n: nat, key: string, default: nat, j: int)
    requires -1 <= j < n <= |ps| && (forall i :: j < i < n ==> ps[i].key != key)
    requires j >= 0 ==> ps[j].key == key
    ensures LastPort(ps, n, key, default) ==
            if j == -1 then None
            else if ps[j].value.None? then Some(default)
            else ParseU16(ps[j].value.value)
    decreases n
  {
    if n == 0 || j == n - 1 {
    } else {
      LastOptionWins(ps, n - 1, key, default, j);
    }
  }

  /** A name of at least three characters, from a letter or digit to a letter or digit. */
  predicate ValidName(name: string) {
    |name| >= 3 && IsAlnum(name[0]) && IsAlnum(name[|name| - 1]) && forall k :: 0 <= k < |name| ==> IsNameChar(name[k])
  }

  predicate ValidPort(port: Option<nat>) {
    port.Some? ==> port.value < 0x1_0000
  }

  predicate ValidSpec(spec: DomainSpec) {
    && ValidName(spec.domainName) && (spec.httpPort.Some? || spec.httpsPort.Some?)
    && ValidPort(spec.httpPort) && ValidPort(spec.httpsPort)
  }

  lemma RunReaches(s: string, i: nat)
    requires i < |s|
    ensures forall j :: i < j < RunEnd(Regex.CharClass.NameChar, s, i + 1) ==> IsNameChar(s[j])
  {
    hide RunEnd;
    forall j | i < j < RunEnd(Regex.CharClass.NameChar, s, i + 1)
      ensures IsNameChar(s[j])
    {
      assert Regex.CharClass.NameChar.Has(s[j]);
    }
  }

  lemma SliceIsName(s: string, i: nat, k: nat)
    requires i + 3 <= k <= |s| && IsAlnum(s[i]) && IsAlnum(s[k - 1])
    requires forall j :: i < j < k ==> IsNameChar(s[j])
    ensures ValidName(s[i..k])
  {
    hide IsNameChar;
    AlnumIsNameChar(s[i]);
  }

  lemma ScanName(s: string, i: nat)
    requires i <= |s| && NameEnd(s, i).Some?
    ensures ValidName(DomainName(Capture(s[i..NameEnd(s, i).value], None)))
  {
    hide RunEnd, LastAlnum, IsNameChar, ValidName;
    var n := NameEnd(s, i).value;
    var k := LastAlnum(s, i + 2, RunEnd(Regex.CharClass.NameChar, s, i + 1));
    RunReaches(s, i);
    SliceIsName(s, i, k);
    if k < n {
      assert s[i..n][..n - i - 1] == s[i..k];
    }
  }

  lemma AlnumIsNameChar(c: char)
    requires IsAlnum(c)
    ensures IsNameChar(c)
  {
  }

  lemma MatchedName(s: string, m: Match)
    requires m.Fits(s) && Scan(s, m.start) == Some(m)
    ensures ValidName(DomainName(CaptureOf(s, m)))
  {
    hide NameEnd, ParamsEnd, ValidName;
    ScanName(s, m.start);
  }

  lemma {:induction false} LastPortIsValid(ps: seq<Param>, n: nat, key: string, default: nat)
    requires n <= |ps| && default < 0x1_0000
    ensures ValidPort(LastPort(ps, n, key, default))
  {
    if n == 0 {
    } else {
      LastPortIsValid(ps, n - 1, key, default);
    }
  }

  /** Whatever the text, every spec made of it has a well-formed name and at least one port that is a u16. */
  lemma {:induction false} SpecsAreValid(s: string, from: nat, k: nat)
    requires from <= |s| && k < |CapturesFrom(s, from)|
    ensures ValidSpec(SpecsOf(CapturesFrom(s, from))[k])
    decreases k
  {
    hide Scan, CaptureOf, ValidName, DomainName, ParamsOf, LastPort;
    var m := Find(s, from).value;
    StepCaptures(s, from);
    if k == 0 {
      var c := CaptureOf(s, m);
      MatchedName(s, m);
      LastPortIsValid(ParamsOf(c), |ParamsOf(c)|, HTTP, 80);
      LastPortIsValid(ParamsOf(c), |ParamsOf(c)|, HTTPS, 443);
    } else {
      SpecsAreValid(s, m.end, k - 1);
      assert CapturesFrom(s, from)[k] == CapturesFrom(s, m.end)[k - 1];
    }
  }

  lemma PushedAreValid(raw: string, k: nat)
    requires k < |Pushed(raw)|
    ensures ValidSpec(Pushed(raw)[k])
  {
    hide CapturesFrom, SpecOf, ValidSpec, GoodPrefix;
    SpecsAreValid(raw, 0, k);
  }
}
