/** Character classes and the string operations the parsers call: trimming,
    splitting, case folding and decimal numbers. */
module Text {
  import opened Wrappers

  /** The Unicode White_Space property: what `\s` and `str::trim` go by. */
  predicate IsSpace(c: char) {
    '\t' <= c <= '\r' || c == ' ' || c == '\U{85}' || c == '\U{A0}' || c == '\U{1680}' ||
    '\U{2000}' <= c <= '\U{200A}' || c == '\U{2028}' || c == '\U{2029}' || c == '\U{202F}' ||
    c == '\U{205F}' || c == '\U{3000}'
  }

  predicate IsDigit(c: char) {
    '0' <= c <= '9'
  }

  predicate IsAlnum(c: char) {
    'a' <= c <= 'z' || 'A' <= c <= 'Z' || IsDigit(c)
  }

  /** `[a-zA-Z0-9.-]` */
  predicate IsNameChar(c: char) {
    IsAlnum(c) || c == '.' || c == '-'
  }

  const SMALL := "abcdefghijklmnopqrstuvwxyz"
  const CAPITAL := "ABCDEFGHIJKLMNOPQRSTUVWXYZ"
  const DIGITS := "0123456789"

  /** The classes of the domain pattern, character by character. */
  lemma ClassesAre(c: char)
    ensures IsDigit(c) <==> c in DIGITS
    ensures IsAlnum(c) <==> c in SMALL || c in CAPITAL || c in DIGITS
    ensures IsNameChar(c) <==> IsAlnum(c) || c in ".-"
  {
    Alphabetical(DIGITS, '0', c);
    Alphabetical(SMALL, 'a', c);
    Alphabetical(CAPITAL, 'A', c);
  }

  lemma Alphabetical(s: string, first: char, c: char)
    requires forall k :: 0 <= k < |s| ==> s[k] as int == first as int + k
    ensures c in s <==> 0 <= c as int - first as int < |s|
  {
    if 0 <= c as int - first as int < |s| {
      assert s[c as int - first as int] == c;
    }
  }

  ghost predicate NoSpace(s: string) {
    forall k :: 0 <= k < |s| ==> !IsSpace(s[k])
  }

  ghost predicate AllSpace(s: string) {
    forall k :: 0 <= k < |s| ==> IsSpace(s[k])
  }

  // ---- trim ------------------------------------------------------------

  function TrimStart(s: string): (r: string)
    ensures NoSpace(s) ==> r == s
  {
    if s != "" && IsSpace(s[0]) then TrimStart(s[1..]) else s
  }

  function TrimEnd(s: string): (r: string)
    ensures NoSpace(s) ==> r == s
  {
    if s != "" && IsSpace(s[|s| - 1]) then TrimEnd(s[..|s| - 1]) else s
  }

  /** `str::trim`: a no-op on text without white space. */
  function Trim(s: string): (r: string)
    ensures NoSpace(s) ==> r == s
  {
    TrimEnd(TrimStart(s))
  }

  // ---- split -----------------------------------------------------------

  /** The index of the first `c` in `s`, or `|s|`. */
  function IndexOf(s: string, c: char): (i: nat)
    ensures i <= |s|
    ensures forall k :: 0 <= k < i ==> s[k] != c
    ensures i < |s| ==> s[i] == c
  {
    if s == "" || s[0] == c then 0 else 1 + IndexOf(s[1..], c)
  }

  /** `str::split(c)`: at least one piece, the separators dropped. */
  function Split(s: string, c: char): (pieces: seq<string>)
    ensures |pieces| >= 1
    decreases |s|
  {
    var i := IndexOf(s, c);
    if i == |s| then [s] else [s[..i]] + Split(s[i + 1..], c)
  }

  function Join(pieces: seq<string>, c: char): string {
    if pieces == [] then "" else if |pieces| == 1 then pieces[0] else pieces[0] + [c] + Join(pieces[1..], c)
  }

  lemma {:induction false} IndexOfIs(s: string, c: char, i: nat)
    requires i <= |s| && c !in s[..i] && (i < |s| ==> s[i] == c)
    ensures IndexOf(s, c) == i
  {
    if i == 0 {
    } else {
      assert s[0] == s[..i][0];
      assert s[1..][..i - 1] == s[..i][1..];
      IndexOfIs(s[1..], c, i - 1);
    }
  }

  /** Splitting undoes joining, as long as no piece holds the separator. */
  lemma {:induction false} SplitJoin(pieces: seq<string>, c: char)
    requires pieces != [] && forall p :: p in pieces ==> c !in p
    ensures Split(Join(pieces, c), c) == pieces
  {
    var s, n := Join(pieces, c), |pieces[0]|;
    assert s[..n] == pieces[0];
    IndexOfIs(s, c, n);
    if |pieces| == 1 {
    } else {
      assert s[n + 1..] == Join(pieces[1..], c);
      SplitJoin(pieces[1..], c);
    }
  }

  lemma JoinMore(piece: string, pieces: seq<string>, c: char)
    requires pieces != []
    ensures Join([piece] + pieces, c) == piece + [c] + Join(pieces, c)
  {
  }

  /** And joining undoes splitting. */
  lemma {:induction false} JoinSplit(s: string, c: char)
    ensures Join(Split(s, c), c) == s
    decreases |s|
  {
    hide IndexOf, Join;
    var i := IndexOf(s, c);
    if i == |s| {
      JoinOne(s, c);
    } else {
      JoinSplit(s[i + 1..], c);
      JoinMore(s[..i], Split(s[i + 1..], c), c);
      assert s == s[..i] + [c] + s[i + 1..];
    }
  }

  lemma JoinOne(s: string, c: char)
    ensures Join([s], c) == s
  {
  }

  /** So the pieces of a text are the only ones without a separator. */
  lemma {:induction false} PiecesAreSeparate(s: string, c: char)
    ensures forall k :: 0 <= k < |Split(s, c)| ==> c !in Split(s, c)[k]
    decreases |s|
  {
    var i := IndexOf(s, c);
    if i == |s| {
      assert c !in s;
    } else {
      hide IndexOf;
      PiecesAreSeparate(s[i + 1..], c);
      assert c !in s[..i];
    }
  }

  /** `str::splitn(2, c)`: what precedes the first `c`, and what follows it. */
  function SplitOnce(s: string, c: char): (r: (string, Option<string>))
    ensures c !in r.0
    ensures r.1.None? ==> s == r.0
    ensures r.1.Some? ==> s == r.0 + [c] + r.1.value
  {
    var i := IndexOf(s, c);
    if i == |s| then (s, None) else (s[..i], Some(s[i + 1..]))
  }

  /** The split is the only one with a separator-free head. */
  lemma SplitOnceUnique(head: string, c: char, tail: string)
    requires c !in head
    ensures SplitOnce(head + [c] + tail, c) == (head, Some(tail))
    ensures SplitOnce(head, c) == (head, None)
  {
    var s := head + [c] + tail;
    assert s[..|head|] == head && s[|head| + 1..] == tail && head[..|head|] == head;
    IndexOfIs(s, c, |head|);
    IndexOfIs(head, c, |head|);
  }

  // ---- case folding ----------------------------------------------------

  function LowerChar(c: char): char {
    if 'A' <= c <= 'Z' then (c as int + 32) as char else c
  }

  /** Case folding of the ASCII letters, which decides alone whether a key reads "http" or "https". */
  function Lower(s: string): (r: string)
    ensures |r| == |s|
    ensures forall k :: 0 <= k < |s| ==> r[k] == LowerChar(s[k])
  {
    seq(|s|, i requires 0 <= i < |s| => LowerChar(s[i]))
  }

  /** `http`, in any casing. */
  predicate ReadsHttp(key: string) {
    |key| == 4 && key[0] in "hH" && key[1] in "tT" && key[2] in "tT" && key[3] in "pP"
  }

  /** `https`, in any casing. */
  predicate ReadsHttps(key: string) {
    |key| == 5 && ReadsHttp(key[..4]) && key[4] in "sS"
  }

  lemma LowerReads(key: string)
    ensures Lower(key) == "http" <==> ReadsHttp(key)
    ensures Lower(key) == "https" <==> ReadsHttps(key)
  {
    if ReadsHttps(key) {
      assert forall k :: 0 <= k < 4 ==> key[..4][k] == key[k];
    }
    if Lower(key) == "https" {
      assert forall k :: 0 <= k < 5 ==> LowerChar(key[k]) == "https"[k];
    }
    if Lower(key) == "http" {
      assert forall k :: 0 <= k < 4 ==> LowerChar(key[k]) == "http"[k];
    }
  }

  // ---- decimal numbers ---------------------------------------------------

  predicate AllDigits(s: string) {
    forall k :: 0 <= k < |s| ==> IsDigit(s[k])
  }

  function DigitValue(c: char): nat
    requires IsDigit(c)
  {
    c as int - '0' as int
  }

  function DecimalValue(s: string): nat
    requires AllDigits(s)
  {
    if s == "" then 0 else 10 * DecimalValue(s[..|s| - 1]) + DigitValue(s[|s| - 1])
  }

  /** `u16::from_str_radix(v, 10)`: an optional plus sign and at least one digit, up to 65535. */
  function ParseU16(v: string): (port: Option<nat>)
    ensures port.Some? ==> port.value < 0x1_0000
  {
    var digits := if v != "" && v[0] == '+' then v[1..] else v;
    if digits != "" && AllDigits(digits) && DecimalValue(digits) < 0x1_0000
    then Some(DecimalValue(digits)) else None
  }

  function Pow10(k: nat): nat {
    if k == 0 then 1 else 10 * Pow10(k - 1)
  }

  /** What decimal digits stand for: each counts as a power of ten, by its place. */
  function Positional(s: string): nat
    requires AllDigits(s)
  {
    if s == "" then 0 else (s[0] as int - '0' as int) * Pow10(|s| - 1) + Positional(s[1..])
  }

  lemma {:induction false} DecimalIsPositional(s: string)
    requires AllDigits(s)
    ensures DecimalValue(s) == Positional(s)
  {
    if s == "" {
    } else {
      DecimalIsPositional(s[..|s| - 1]);
      PositionalLast(s);
    }
  }

  lemma {:induction false} PositionalLast(s: string)
    requires AllDigits(s) && s != ""
    ensures Positional(s) == 10 * Positional(s[..|s| - 1]) + (s[|s| - 1] as int - '0' as int)
  {
    if |s| == 1 {
      assert Pow10(0) == 1 && s[1..] == "" && Positional("") == 0;
    } else {
      PositionalLast(s[1..]);
      var front, d := s[..|s| - 1], s[0] as int - '0' as int;
      assert front[1..] == s[1..][..|s| - 2];
      assert Pow10(|s| - 1) == 10 * Pow10(|s| - 2);
      assert d * (10 * Pow10(|s| - 2)) == 10 * (d * Pow10(|s| - 2));
    }
  }

  function AfterPlus(v: string): string {
    if v != "" && v[0] == '+' then v[1..] else v
  }

  /** A port as the program takes it: after at most one plus sign only digits, at least one, for a
      number below 65536. */
  predicate IsPort(v: string) {
    AfterPlus(v) != "" && AllDigits(AfterPlus(v)) && Positional(AfterPlus(v)) < 65536
  }

  /** Exactly the ports are parsed, each to its number. */
  lemma ParseU16Is(v: string)
    ensures ParseU16(v) == if IsPort(v) then Some(Positional(AfterPlus(v))) else None
  {
    if AllDigits(AfterPlus(v)) {
      DecimalIsPositional(AfterPlus(v));
    }
  }

  /** The usual decimal writing of `n`. */
  function Decimal(n: nat): (s: string)
    ensures s != "" && AllDigits(s) && DecimalValue(s) == n
  {
    var last := ('0' as int + n % 10) as char;
    if n < 10 then
      assert DecimalValue([last][..0]) == 0;
      [last]
    else
      var s := Decimal(n / 10) + [last];
      assert s[..|s| - 1] == Decimal(n / 10);
      s
  }

  lemma {:induction false} LeadingZeros(zeros: string, s: string)
    requires AllDigits(s) && forall k :: 0 <= k < |zeros| ==> zeros[k] == '0'
    ensures AllDigits(zeros + s) && DecimalValue(zeros + s) == DecimalValue(s)
  {
    var t := zeros + s;
    if t == "" {
    } else {
      if s == "" {
        assert t[..|t| - 1] == zeros[..|zeros| - 1] + "";
        LeadingZeros(zeros[..|zeros| - 1], "");
      } else {
        assert t[..|t| - 1] == zeros + s[..|s| - 1];
        LeadingZeros(zeros, s[..|s| - 1]);
      }
    }
  }
}
