/** The round trip: domain specs written down in the documented format
    `DOMAIN[:http[=PORT]][:https[=PORT]]`, and more generally as any list of options. */
module Rendering {
  import opened Wrappers
  import opened Text
  import opened Regex
  import opened DomainPattern
  import opened DomainSpecs
  import opened Composition

  /** An option as written: a key in any case, and perhaps a value. */
  datatype Written = Written(key: string, value: Option<string>)
  {
    function Text(): string {
      match value case None => key case Some(v) => key + ['='] + v
    }

    /** No white space, and no separator where one would be read. */
    predicate Ok() {
      && key != "" && '=' !in key
      && forall k :: 0 <= k < |Text()| ==> !IsSpace(Text()[k]) && Text()[k] != ':'
    }
  }

  /** A domain as written, with or without the dot of a fully qualified name. */
  datatype Item = Item(name: string, dot: bool, options: seq<Written>)
  {
    predicate Ok() {
      ValidName(name) && forall k :: 0 <= k < |options| ==> options[k].Ok()
    }

    function Head(): string {
      if dot then name + "." else name
    }

    function Options(): string {
      Join(Texts(options), ':')
    }

    function Text(): string {
      if options == [] then Head() else Head() + [':'] + Options()
    }

    /** What the item stands for. */
    function Meaning(): DomainSpec {
      Interpret(name, Params())
    }

    function Params(): (ps: seq<Param>)
      ensures |ps| == |options|
      ensures forall k :: 0 <= k < |ps| ==> ps[k] == Param(Lower(options[k].key), options[k].value)
    {
      seq(|options|, k requires 0 <= k < |options| => Param(Lower(options[k].key), options[k].value))
    }
  }

  function Texts(options: seq<Written>): (ts: seq<string>)
    ensures |ts| == |options| && forall k :: 0 <= k < |ts| ==> ts[k] == options[k].Text()
  {
    seq(|options|, k requires 0 <= k < |options| => options[k].Text())
  }

  // ---- one item ---------------------------------------------------------------------------

  lemma RunEndIs(cs: CharClass, s: string, i: nat, e: nat)
    requires i <= e <= |s|
    requires forall k :: i <= k < e ==> cs.Has(s[k])
    requires e < |s| ==> !cs.Has(s[e])
    ensures RunEnd(cs, s, i) == e
  {
    hide RunEnd;
  }

  /** The name, and its dot, end where they were written to end. */
  lemma NameRead(it: Item, s: string)
    requires ValidName(it.name)
    requires |it.Head()| <= |s| && s[..|it.Head()|] == it.Head()
    requires |it.Head()| < |s| ==> s[|it.Head()|] == ':'
    ensures NameEnd(s, 0) == Some(|it.Head()|)
  {
    hide RunEnd, LastAlnum;
    var h, n := |it.Head()|, |it.name|;
    forall k | 0 <= k < h
      ensures s[k] == it.Head()[k] && IsNameChar(s[k])
    {
      assert s[k] == s[..h][k];
    }
    RunEndIs(NameChar, s, 1, h);
    assert IsAlnum(s[0]) && IsAlnum(s[n - 1]);
    assert LastAlnum(s, 2, h) == n;
  }

  lemma {:induction false} JoinHasNoSpace(pieces: seq<string>, c: char)
    requires !IsSpace(c) && forall k :: 0 <= k < |pieces| ==> NoSpace(pieces[k])
    ensures NoSpace(Join(pieces, c))
  {
    if |pieces| <= 1 {
    } else {
      JoinHasNoSpace(pieces[1..], c);
    }
  }

  lemma OptionsText(it: Item)
    requires it.Ok() && it.options != []
    ensures it.Options() != "" && NoSpace(it.Options()) && Split(it.Options(), ':') == Texts(it.options)
  {
    var ts := Texts(it.options);
    assert it.options[0].Ok() && ts[0] != "";
    forall k | 0 <= k < |ts|
      ensures NoSpace(ts[k]) && ':' !in ts[k]
    {
      assert it.options[k].Ok();
    }
    JoinHasNoSpace(ts, ':');
    SplitJoin(ts, ':');
  }

  /** A written item is one match, from its first to its last character. */
  lemma ItemIsOneMatch(it: Item)
    requires it.Ok()
    ensures Scan(it.Text(), 0) == Some(Match(0, |it.Head()|, it.options != [], |it.Text()|))
  {
    hide NameEnd, RunEnd, ValidName, Written.Ok, Written.Text, Item.Options;
    var s, h := it.Text(), |it.Head()|;
    NameRead(it, s);
    if it.options != [] {
      OptionsText(it);
      assert s[h + 1..] == it.Options();
      RunEndIs(NonSpace, s, h + 1, |s|);
    }
  }

  lemma OneMatch(s: string, m: Match)
    requires Scan(s, 0) == Some(m) && m.end == |s|
    ensures Captures(s) == [CaptureOf(s, m)]
  {
    hide Scan, CaptureOf;
    assert FindAll(s, 0) == [m] + FindAll(s, |s|);
    ScanAtEnd(s);
    assert FindAll(s, |s|) == [];
  }

  lemma ItemCapture(it: Item)
    requires it.Ok()
    ensures Captures(it.Text()) == [Capture(it.Head(), if it.options == [] then None else Some(it.Options()))]
  {
    hide Scan, Captures, Item.Head, Item.Options, Item.Ok;
    var s, h := it.Text(), |it.Head()|;
    ItemIsOneMatch(it);
    var m := Match(0, h, it.options != [], |s|);
    OneMatch(s, m);
    assert s[..h] == it.Head();
    if it.options != [] {
      assert s[h + 1..|s|] == it.Options();
    }
  }

  /** The options read back as they were written, their keys in lower case. */
  lemma ItemParams(it: Item)
    requires it.Ok()
    ensures |Captures(it.Text())| == 1
    ensures var c := Captures(it.Text())[0];
            ParamsOf(c) == it.Params() && DomainName(c) == it.name && SpecOf(c) == it.Meaning()
  {
    hide Captures, Split, Interpret, ParamOf, Item.Options, DomainName;
    ItemCapture(it);
    var c := Captures(it.Text())[0];
    HeadName(it, c.params);
    if it.options != [] {
      OptionsText(it);
      forall k | 0 <= k < |it.options|
        ensures ParamOf(Texts(it.options)[k]) == it.Params()[k]
      {
        assert it.options[k].Ok();
        OptionRead(it.options[k]);
      }
      assert ParamsOf(c) == it.Params();
    }
  }

  lemma HeadName(it: Item, params: Option<string>)
    requires ValidName(it.name)
    ensures DomainName(Capture(it.Head(), params)) == it.name
  {
    assert IsAlnum(it.name[|it.name| - 1]);
    if it.dot {
      assert it.Head()[..|it.name|] == it.name;
    }
  }

  lemma OptionRead(w: Written)
    requires w.Ok()
    ensures ParamOf(w.Text()) == Param(Lower(w.key), w.value)
  {
    hide SplitOnce;
    SplitOnceUnique(w.key, '=', if w.value.Some? then w.value.value else "");
  }

  // ---- a whole text --------------------------------------------------------------------------

  /** White space between the items, and perhaps after the last one. */
  ghost predicate Separates(seps: seq<string>, items: seq<Item>) {
    && |seps| == |items|
    && (forall k :: 0 <= k < |seps| ==> AllSpace(seps[k]))
    && (forall k :: 0 <= k < |seps| - 1 ==> seps[k] != "")
  }

  function Lay(items: seq<Item>, seps: seq<string>): string
    requires |items| == |seps|
  {
    if items == [] then "" else items[0].Text() + seps[0] + Lay(items[1..], seps[1..])
  }

  lemma {:induction false} SkipSpace(w: string, b: string)
    requires AllSpace(w)
    ensures Captures(w + b) == Captures(b)
  {
    hide Captures;
    if w == "" {
      assert w + b == b;
    } else {
      assert w + b == "" + [w[0]] + (w[1..] + b);
      CapturesCompose("", w[0], w[1..] + b);
      NothingInNothing();
      SkipSpace(w[1..], b);
    }
  }

  lemma NothingInNothing()
    ensures Captures("") == []
  {
  }

  lemma CapturesThenSpace(a: string, w: string, b: string)
    requires AllSpace(w) && (w == "" ==> b == "")
    ensures Captures(a + w + b) == Captures(a) + Captures(b)
  {
    hide Captures;
    if w == "" {
      assert a + w + b == a;
      NothingInNothing();
    } else {
      assert a + w + b == a + [w[0]] + (w[1..] + b);
      CapturesCompose(a, w[0], w[1..] + b);
      SkipSpace(w[1..], b);
    }
  }

  /** Any list of items, however spaced, is read back item by item, options and all. */
  lemma {:induction false} WrittenIsRead(items: seq<Item>, seps: seq<string>)
    requires (forall k :: 0 <= k < |items| ==> items[k].Ok()) && Separates(seps, items)
    ensures var cs := Captures(Lay(items, seps));
            && |cs| == |items|
            && forall k :: 0 <= k < |cs| ==> ParamsOf(cs[k]) == items[k].Params() && SpecOf(cs[k]) == items[k].Meaning()
  {
    hide Captures, SpecOf, ParamsOf, Item.Text, Item.Params, Item.Meaning, Item.Ok;
    if items == [] {
      NothingInNothing();
    } else {
      ItemParams(items[0]);
      CapturesThenSpace(items[0].Text(), seps[0], Lay(items[1..], seps[1..]));
      WrittenIsRead(items[1..], seps[1..]);
    }
  }

  // ---- the documented format ---------------------------------------------------------------------

  /** `:key` for the default port, or `:key=PORT`; case and leading zeros are free. */
  predicate WritesPort(w: Written, key: string, default: nat, port: nat) {
    && w.Ok() && Lower(w.key) == key
    && (match w.value case None => port == default case Some(v) => ParseU16(v) == Some(port))
  }

  /** `it` is a way to write `spec` in the documented format. */
  predicate Documents(it: Item, spec: DomainSpec) {
    && it.Ok() && it.name == spec.domainName
    && var o := it.options;
       match (spec.httpPort, spec.httpsPort)
       case (Some(p), Some(q)) =>
         || (o == [] && p == 80 && q == 443)
         || (|o| == 2 && WritesPort(o[0], HTTP, 80, p) && WritesPort(o[1], HTTPS, 443, q))
         || (|o| == 2 && WritesPort(o[0], HTTPS, 443, q) && WritesPort(o[1], HTTP, 80, p))
       case (Some(p), None) => |o| == 1 && WritesPort(o[0], HTTP, 80, p)
       case (None, Some(q)) => |o| == 1 && WritesPort(o[0], HTTPS, 443, q)
       case (None, None) => false
  }

  lemma DocumentedMeaning(it: Item, spec: DomainSpec)
    requires Documents(it, spec)
    ensures it.Meaning() == spec && AllGood(it.Params(), |it.Params()|)
  {
    hide ParseU16, Lower, ValidName, LastPort;
    var ps := it.Params();
    var http := if |ps| > 1 && ps[1].key == HTTP then 1 else if ps != [] && ps[0].key == HTTP then 0 else -1;
    var https := if |ps| > 1 && ps[1].key == HTTPS then 1 else if ps != [] && ps[0].key == HTTPS then 0 else -1;
    LastOptionWins(ps, |ps|, HTTP, 80, http);
    LastOptionWins(ps, |ps|, HTTPS, 443, https);
  }

  /** Any list of specs, each written in any documented way, with any white space around and between them,
      parses back to exactly that list, with no error. */
  lemma RoundTrip(specs: seq<DomainSpec>, lead: string, items: seq<Item>, seps: seq<string>)
    requires |items| == |specs| && (forall k :: 0 <= k < |items| ==> Documents(items[k], specs[k]))
    requires AllSpace(lead) && Separates(seps, items)
    ensures Answer(lead + Lay(items, seps)) == Ok(()) && Pushed(lead + Lay(items, seps)) == specs
  {
    hide Captures, SpecOf, ParamsOf, Documents, Lay, GoodPrefix, IsGood, ErrorOf;
    SkipSpace(lead, Lay(items, seps));
    var cs := Captures(Lay(items, seps));
    forall k | 0 <= k < |items|
      ensures items[k].Ok() && items[k].Meaning() == specs[k] && AllGood(items[k].Params(), |items[k].Params()|)
    {
      DocumentedMeaning(items[k], specs[k]);
      DocumentsOk(items[k], specs[k]);
    }
    WrittenIsRead(items, seps);
    forall k | 0 <= k < |cs|
      ensures IsGood(cs[k])
    {
      GoodMeansAllGood(cs[k]);
    }
    GoodPrefixIs(cs, |cs|);
    assert cs[..|cs|] == cs;
  }

  lemma DocumentsOk(it: Item, spec: DomainSpec)
    requires Documents(it, spec)
    ensures it.Ok()
  {
  }

  /** `text` spells out `specs` in the documented format. */
  ghost predicate Spells(text: string, specs: seq<DomainSpec>) {
    exists lead, items, seps ::
      && AllSpace(lead) && |items| == |specs| && (forall k :: 0 <= k < |items| ==> Documents(items[k], specs[k]))
      && Separates(seps, items) && text == lead + Lay(items, seps)
  }

  lemma SpelledIsRead(text: string, specs: seq<DomainSpec>)
    requires Spells(text, specs)
    ensures Answer(text) == Ok(()) && Pushed(text) == specs
  {
    hide Documents, Lay, Answer, Pushed;
    var lead, items, seps :|
      && AllSpace(lead) && |items| == |specs| && (forall k :: 0 <= k < |items| ==> Documents(items[k], specs[k]))
      && Separates(seps, items) && text == lead + Lay(items, seps);
    RoundTrip(specs, lead, items, seps);
  }

  // ---- every valid spec can be written ---------------------------------------------------------------

  function Canonical(spec: DomainSpec): Item {
    Item(spec.domainName, false,
         (match spec.httpPort case None => [] case Some(p) => [Written(HTTP, Some(Decimal(p)))]) +
         (match spec.httpsPort case None => [] case Some(q) => [Written(HTTPS, Some(Decimal(q)))]))
  }

  lemma WritesDecimal(key: string, zeros: string, port: nat, default: nat)
    requires key == HTTP || key == HTTPS
    requires port < 0x1_0000 && forall k :: 0 <= k < |zeros| ==> zeros[k] == '0'
    ensures WritesPort(Written(key, Some(zeros + Decimal(port))), key, default, port)
  {
    hide Decimal, DecimalValue;
    var digits := Decimal(port);
    LeadingZeros(zeros, digits);
    var v := zeros + digits;
    assert IsDigit(v[0]);
    assert Lower(HTTP) == HTTP && Lower(HTTPS) == HTTPS;
    var t := key + ['='] + v;
    forall k | 0 <= k < |t|
      ensures !IsSpace(t[k]) && t[k] != ':'
    {
      if k > |key| {
        assert t[k] == v[k - |key| - 1];
      }
    }
  }

  /** A documented way to write exists for every spec that parsing can produce. */
  lemma CanonicalDocuments(spec: DomainSpec)
    requires ValidSpec(spec)
    ensures Documents(Canonical(spec), spec)
  {
    hide Decimal, WritesPort, ValidName;
    if spec.httpPort.Some? {
      WritesDecimal(HTTP, "", spec.httpPort.value, 80);
      assert "" + Decimal(spec.httpPort.value) == Decimal(spec.httpPort.value);
      WritesOk(Written(HTTP, Some(Decimal(spec.httpPort.value))), HTTP, 80, spec.httpPort.value);
    }
    if spec.httpsPort.Some? {
      WritesDecimal(HTTPS, "", spec.httpsPort.value, 443);
      assert "" + Decimal(spec.httpsPort.value) == Decimal(spec.httpsPort.value);
      WritesOk(Written(HTTPS, Some(Decimal(spec.httpsPort.value))), HTTPS, 443, spec.httpsPort.value);
    }
  }

  lemma WritesOk(w: Written, key: string, default: nat, port: nat)
    requires WritesPort(w, key, default, port)
    ensures w.Ok()
  {
  }
}
