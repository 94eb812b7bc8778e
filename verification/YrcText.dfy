/** The text primitives the lyric parser is built from, with their printers. */
module YrcText {
  import opened Basics

  /** Bytes of a character in UTF-8, and of a text. */
  function CharBytes(c: char): nat {
    if c as int < 0x80 then 1 else if c as int < 0x800 then 2 else if c as int < 0x1_0000 then 3 else 4
  }

  function ByteLength(s: string): nat {
    if s == "" then 0 else CharBytes(s[0]) + ByteLength(s[1..])
  }

  /** The Unicode White_Space property. */
  predicate Whitespace(c: char) {
    var n := c as int;
    9 <= n <= 13 || n == 0x20 || n == 0x85 || n == 0xa0 || n == 0x1680 || 0x2000 <= n <= 0x200a
    || n == 0x2028 || n == 0x2029 || n == 0x202f || n == 0x205f || n == 0x3000
  }

  /** Position of the first such character, or the length. */
  function Find(s: string, c: char): (i: nat)
    ensures i <= |s|
    ensures i < |s| ==> s[i] == c
    ensures forall k :: 0 <= k < i ==> s[k] != c
  {
    if s == "" || s[0] == c then 0 else 1 + Find(s[1..], c)
  }

  function SplitOnce(s: string, c: char): Option<(string, string)> {
    var i := Find(s, c);
    if i == |s| then None else Some((s[..i], s[i + 1..]))
  }

  /** All the parts between separators; one part when there is none. */
  function Parts(s: string, c: char): (parts: seq<string>)
    ensures |parts| >= 1
  {
    var i := Find(s, c);
    if i == |s| then [s] else [s[..i]] + Parts(s[i + 1..], c)
  }

  predicate Free(s: string, c: char) {
    forall k :: 0 <= k < |s| ==> s[k] != c
  }

  lemma FindAfter(a: string, c: char, b: string)
    requires Free(a, c)
    ensures Find(a + [c] + b, c) == |a|
  {
    var s := a + [c] + b;
    assert s[|a|] == c;
    assert forall k :: 0 <= k < |a| ==> s[k] == a[k];
  }

  lemma FindNone(a: string, c: char)
    requires Free(a, c)
    ensures Find(a, c) == |a|
  {
  }

  lemma SplitJoined(a: string, c: char, b: string)
    requires Free(a, c)
    ensures SplitOnce(a + [c] + b, c) == Some((a, b))
  {
    FindAfter(a, c, b);
    assert (a + [c] + b)[..|a|] == a && (a + [c] + b)[|a| + 1..] == b;
  }

  lemma PartsJoined(a: string, c: char, b: string)
    requires Free(a, c)
    ensures Parts(a + [c] + b, c) == [a] + Parts(b, c)
  {
    FindAfter(a, c, b);
    assert (a + [c] + b)[..|a|] == a && (a + [c] + b)[|a| + 1..] == b;
  }

  // ----- Numbers

  predicate Digit(c: char) {
    '0' <= c <= '9'
  }

  predicate Digits(s: string) {
    forall k :: 0 <= k < |s| ==> Digit(s[k])
  }

  function Number(s: string): nat
    requires Digits(s)
  {
    if s == "" then 0 else Number(s[..|s| - 1]) * 10 + (s[|s| - 1] as int - '0' as int)
  }

  function ParseU32(s: string): (r: Option<nat>)
    ensures r.Some? ==> r.value <= U32_MAX
  {
    if s == "" || !Digits(s) || Number(s) > U32_MAX then None else Some(Number(s))
  }

  function PrintNumber(n: nat): (s: string)
    ensures s != "" && Digits(s)
  {
    if n < 10 then ["0123456789"[n]] else PrintNumber(n / 10) + ["0123456789"[n % 10]]
  }

  lemma DigitValue(d: nat)
    requires d < 10
    ensures Digit("0123456789"[d]) && "0123456789"[d] as int - '0' as int == d
  {
  }

  lemma {:induction false} NumberOfPrinted(n: nat)
    ensures Number(PrintNumber(n)) == n
  {
    DigitValue(n % 10);
    if n >= 10 {
      NumberOfPrinted(n / 10);
      assert PrintNumber(n)[..|PrintNumber(n)| - 1] == PrintNumber(n / 10);
    } else {
      assert PrintNumber(n)[..0] == "";
    }
  }

  /** Reading back a printed number; it holds none of the format's punctuation. */
  lemma ParsePrinted(n: nat)
    requires n <= U32_MAX
    ensures ParseU32(PrintNumber(n)) == Some(n)
    ensures Free(PrintNumber(n), ',') && Free(PrintNumber(n), ')') && Free(PrintNumber(n), ']')
    ensures Free(PrintNumber(n), '\n')
  {
    NumberOfPrinted(n);
    assert forall k :: 0 <= k < |PrintNumber(n)| ==> Digit(PrintNumber(n)[k]);
  }

  // ----- Line ends

  function StripReturns(s: string): (r: string)
    ensures r <= s && (r == "" || r[|r| - 1] != '\r')
  {
    if s != "" && s[|s| - 1] == '\r' then StripReturns(s[..|s| - 1]) else s
  }

  /** The first character that is not white space, if any. */
  function FirstVisible(s: string): Option<char> {
    if s == "" then None else if Whitespace(s[0]) then FirstVisible(s[1..]) else Some(s[0])
  }
}
