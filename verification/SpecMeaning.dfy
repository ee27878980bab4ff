/** What `parse_all` makes of a text, said in terms of the text alone: which options are bad, what the error names, and
    what every spec says. */
module SpecMeaning {
  import opened Wrappers
  import opened Text
  import Regex
  import opened DomainPattern
  import opened DomainSpecs

  /** What a match captures are the first and the third group of the pattern. */
  lemma CapturesAreGroups(raw: string, k: nat)
    requires k < |Captures(raw)|
    ensures |Regex.SearchAll(DS_PAT, raw, 0)| == |Captures(raw)|
    ensures var g, c := Regex.SearchAll(DS_PAT, raw, 0)[k].thread.groups, Captures(raw)[k];
            && 1 in g && g[1].0 <= g[1].1 <= |raw| && c.name == raw[g[1].0..g[1].1]
            && (3 in g <==> c.params.Some?)
            && (3 in g ==> g[3].0 <= g[3].1 <= |raw| && c.params.value == raw[g[3].0..g[3].1])
  {
    hide FindAll, Regex.SearchAll;
    FindAllIsSearchAll(raw, 0);
    assert FindAll(raw, 0)[k] in FindAll(raw, 0);
  }

  /** The options of a match, as written. */
  function Pieces(c: Capture): seq<string> {
    if c.params.None? then [] else Split(c.params.value, ':')
  }

  /** An http or https option, in any casing, whose value is no port. */
  predicate BadPiece(piece: string) {
    var (key, value) := SplitOnce(piece, '=');
    (ReadsHttp(key) || ReadsHttps(key)) && value.Some? && !IsPort(value.value)
  }

  lemma BadPieceIs(piece: string)
    ensures IsBad(ParamOf(piece)) <==> BadPiece(piece)
    ensures var (key, value) := SplitOnce(piece, '=');
            && (ParamOf(piece).key == HTTP <==> ReadsHttp(key)) && (ParamOf(piece).key == HTTPS <==> ReadsHttps(key))
            && ParamOf(piece).value == value
  {
    hide SplitOnce, Lower, ReadsHttp, ReadsHttps, IsPort, ParseU16;
    var (key, value) := SplitOnce(piece, '=');
    LowerReads(key);
    if value.Some? {
      ParseU16Is(value.value);
    }
  }

  /** `name` is the name of the match, without the dot it may end with. */
  predicate Names(c: Capture, name: string) {
    c.name == name + "." || (c.name == name && (name == "" || name[|name| - 1] != '.'))
  }

  lemma DomainNameIs(c: Capture)
    ensures Names(c, DomainName(c))
  {
  }

  ghost predicate GoodPieces(c: Capture, n: nat)
    requires n <= |Pieces(c)|
  {
    forall j :: 0 <= j < n ==> !BadPiece(Pieces(c)[j])
  }

  lemma PiecesAreParams(c: Capture)
    ensures |ParamsOf(c)| == |Pieces(c)|
    ensures forall j :: 0 <= j < |Pieces(c)| ==> ParamsOf(c)[j] == ParamOf(Pieces(c)[j])
  {
    hide Split, ParamOf;
  }

  lemma GoodPiecesIs(c: Capture, n: nat)
    requires n <= |Pieces(c)|
    ensures n <= |ParamsOf(c)| && (GoodPieces(c, n) <==> AllGood(ParamsOf(c), n))
  {
    hide ParamsOf, ParamOf, Pieces, BadPiece, IsBad;
    PiecesAreParams(c);
    forall j | 0 <= j < n
      ensures BadPiece(Pieces(c)[j]) <==> IsBad(ParamsOf(c)[j])
    {
      BadPieceIs(Pieces(c)[j]);
    }
  }

  /** Option `b` of match `n` is the first bad one. */
  ghost predicate FirstBadPiece(cs: seq<Capture>, n: nat, b: nat) {
    && n < |cs| && b < |Pieces(cs[n])| && BadPiece(Pieces(cs[n])[b]) && GoodPieces(cs[n], b)
    && forall k :: 0 <= k < n ==> GoodPieces(cs[k], |Pieces(cs[k])|)
  }

  /** The error has the match's name, the option's key and the value that is no port. */
  ghost predicate Blames(e: DomainSpecError, c: Capture, piece: string) {
    var (key, value) := SplitOnce(piece, '=');
    Names(c, e.domainName) && e.key == (if ReadsHttp(key) then "http" else "https") && value == Some(e.cause.text)
  }

  ghost predicate AllPiecesGood(cs: seq<Capture>) {
    forall k :: 0 <= k < |cs| ==> GoodPieces(cs[k], |Pieces(cs[k])|)
  }

  /** The error is about the first bad option, in the `n`-th match. */
  ghost predicate FailsAs(cs: seq<Capture>, e: DomainSpecError, n: nat) {
    exists b: nat :: FirstBadPiece(cs, n, b) && Blames(e, cs[n], Pieces(cs[n])[b])
  }

  /** Parsing fails if and only if some match has an http or https option with a value that is no port. The error is
      about the first such option, and the specs that were appended are those of the matches before. */
  lemma FailsOnFirstBadOption(raw: string)
    ensures Answer(raw).Ok? <==> AllPiecesGood(Captures(raw))
    ensures Answer(raw).Ok? ==> |Pushed(raw)| == |Captures(raw)|
    ensures Answer(raw).Err? ==> FailsAs(Captures(raw), Answer(raw).error, |Pushed(raw)|)
  {
    hide Captures, ParamsOf, Pieces, BadPiece, IsBad, FirstBad, IsGood, GoodPrefix, ErrorOf, GoodPieces, Blames;
    var cs, n := Captures(raw), GoodPrefix(Captures(raw));
    GoodPrefixMeans(cs);
    forall k | 0 <= k < |cs|
      ensures IsGood(cs[k]) <==> GoodPieces(cs[k], |Pieces(cs[k])|)
    {
      GoodIs(cs[k]);
    }
    if n < |cs| {
      var b := BlamesFirst(cs[n]);
      assert FirstBadPiece(cs, n, b);
    }
  }

  lemma GoodIs(c: Capture)
    ensures IsGood(c) <==> GoodPieces(c, |Pieces(c)|)
  {
    hide ParamsOf, Pieces, IsGood, GoodPieces;
    GoodMeansAllGood(c);
    GoodPiecesIs(c, |Pieces(c)|);
    PiecesAreParams(c);
  }

  lemma BlamesFirst(c: Capture) returns (b: nat)
    requires !IsGood(c)
    ensures b < |Pieces(c)| && BadPiece(Pieces(c)[b]) && GoodPieces(c, b) && Blames(ErrorOf(c), c, Pieces(c)[b])
  {
    hide ParamsOf, Pieces, BadPiece, FirstBad, GoodPieces, SplitOnce, ParamOf, IsPort, ParseU16, ReadsHttp, ReadsHttps;
    b := FirstBad(ParamsOf(c));
    PiecesAreParams(c);
    GoodPiecesIs(c, b);
    BadPieceIs(Pieces(c)[b]);
    DomainNameIs(c);
  }

  predicate Asks(piece: string, https: bool) {
    var key := SplitOnce(piece, '=').0;
    if https then ReadsHttps(key) else ReadsHttp(key)
  }

  ghost predicate NoneAsks(pieces: seq<string>, from: nat, https: bool) {
    forall j :: from <= j < |pieces| ==> !Asks(pieces[j], https)
  }

  /** The last option of a kind decides: its value is the port, or the default if it has none. */
  ghost predicate LastDecides(port: Option<nat>, pieces: seq<string>, https: bool, default: nat) {
    forall j :: 0 <= j < |pieces| && Asks(pieces[j], https) && NoneAsks(pieces, j + 1, https) ==>
      port.Some? && match SplitOnce(pieces[j], '=').1
                    case None => port.value == default
                    case Some(v) => IsPort(v) && port.value == Positional(AfterPlus(v))
  }

  /** The port the last option of a kind asks for, the default if it has no value. Without one there is no port; or the
      default, if there is no option of the other kind either. */
  ghost predicate PortMeans(port: Option<nat>, pieces: seq<string>, https: bool, default: nat) {
    && (NoneAsks(pieces, 0, https) ==> port == if NoneAsks(pieces, 0, !https) then Some(default) else None)
    && LastDecides(port, pieces, https, default)
  }

  ghost predicate Means(spec: DomainSpec, c: Capture) {
    && Names(c, spec.domainName)
    && PortMeans(spec.httpPort, Pieces(c), false, 80) && PortMeans(spec.httpsPort, Pieces(c), true, 443)
  }

  /** Every spec that is appended says what its match says. */
  lemma PushedMeans(raw: string, k: nat)
    requires k < |Pushed(raw)|
    ensures k < |Captures(raw)| && Means(Pushed(raw)[k], Captures(raw)[k])
  {
    hide Captures, SpecOf, Means, IsGood, GoodPrefix;
    GoodPrefixMeans(Captures(raw));
    SpecMeans(Captures(raw)[k]);
  }

  lemma SpecMeans(c: Capture)
    requires IsGood(c)
    ensures Means(SpecOf(c), c)
  {
    hide LastPort, ParamsOf, Pieces, PortMeans, IsGood, DomainName, Names;
    DomainNameIs(c);
    LastPortMeans(c, false);
    LastPortMeans(c, true);
    hide LastPortIs;
    DefaultsMean(LastPort(ParamsOf(c), |ParamsOf(c)|, HTTP, 80), LastPort(ParamsOf(c), |ParamsOf(c)|, HTTPS, 443),
                 Pieces(c));
  }

  /** Before the defaults for no option at all are filled in. */
  ghost predicate LastPortIs(port: Option<nat>, pieces: seq<string>, https: bool, default: nat) {
    && (NoneAsks(pieces, 0, https) <==> port.None?)
    && LastDecides(port, pieces, https, default)
  }

  lemma DefaultsMean(http: Option<nat>, https: Option<nat>, pieces: seq<string>)
    requires LastPortIs(http, pieces, false, 80) && LastPortIs(https, pieces, true, 443)
    ensures var spec := WithDefaults(DomainSpec("", http, https));
            PortMeans(spec.httpPort, pieces, false, 80) && PortMeans(spec.httpsPort, pieces, true, 443)
  {
    hide Asks, SplitOnce, IsPort;
  }

  lemma LastPortMeans(c: Capture, https: bool)
    requires IsGood(c)
    ensures var (key, default) := if https then (HTTPS, 443) else (HTTP, 80);
            LastPortIs(LastPort(ParamsOf(c), |ParamsOf(c)|, key, default), Pieces(c), https, default)
  {
    hide ParamsOf, Pieces, IsGood, SplitOnce, LastPort, ParseU16, IsPort, BadPiece, Asks, LastPortIs;
    var (key, default) := if https then (HTTPS, 443) else (HTTP, 80);
    var ps, pieces := ParamsOf(c), Pieces(c);
    PiecesAreParams(c);
    GoodIs(c);
    AsksIs(c, https);
    var last := LastOf(ps, |ps|, key);
    LastOptionWins(ps, |ps|, key, default, last);
    if last >= 0 && ps[last].value.Some? {
      ParseU16Is(ps[last].value.value);
      assert !BadPiece(pieces[last]);
      PortOfGood(pieces[last], https);
    }
    var port := LastPort(ps, |ps|, key, default);
    OneDecides(port, pieces, https, default, last);
  }

  lemma OneDecides(port: Option<nat>, pieces: seq<string>, https: bool, default: nat, last: int)
    requires -1 <= last < |pieces| && (last == -1 <==> port.None?)
    requires last >= 0 ==> Asks(pieces[last], https)
    requires forall j :: last < j < |pieces| ==> !Asks(pieces[j], https)
    requires last >= 0 ==> match SplitOnce(pieces[last], '=').1
                           case None => port.value == default
                           case Some(v) => IsPort(v) && port.value == Positional(AfterPlus(v))
    ensures LastPortIs(port, pieces, https, default)
  {
    hide Asks, SplitOnce, IsPort;
  }

  lemma AsksIs(c: Capture, https: bool)
    ensures |ParamsOf(c)| == |Pieces(c)|
    ensures forall j :: 0 <= j < |Pieces(c)| ==>
              && (ParamsOf(c)[j].key == (if https then HTTPS else HTTP) <==> Asks(Pieces(c)[j], https))
              && ParamsOf(c)[j].value == SplitOnce(Pieces(c)[j], '=').1
  {
    hide ParamsOf, ParamOf, Pieces, SplitOnce, ReadsHttp, ReadsHttps, BadPiece, IsBad;
    PiecesAreParams(c);
    forall j | 0 <= j < |Pieces(c)|
      ensures ParamsOf(c)[j].key == (if https then HTTPS else HTTP) <==> Asks(Pieces(c)[j], https)
      ensures ParamsOf(c)[j].value == SplitOnce(Pieces(c)[j], '=').1
    {
      BadPieceIs(Pieces(c)[j]);
    }
  }

  lemma PortOfGood(piece: string, https: bool)
    requires !BadPiece(piece) && Asks(piece, https)
    ensures var value := SplitOnce(piece, '=').1; value.Some? ==> IsPort(value.value)
  {
    hide SplitOnce, IsPort;
  }

  lemma LastOf(ps: seq<Param>, n: nat, key: string) returns (j: int)
    requires n <= |ps|
    ensures -1 <= j < n && (j >= 0 ==> ps[j].key == key) && forall i :: j < i < n ==> ps[i].key != key
    decreases n
  {
    if n == 0 {
      j := -1;
    } else if ps[n - 1].key == key {
      j := n - 1;
    } else {
      j := LastOf(ps, n - 1, key);
    }
  }
}
