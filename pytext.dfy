/**
 * Text helpers the Python side relies on: decimal `str()` of integers, `", ".join`,
 * `str.replace('\n', '\\n')`, substring search, the `repr()` of `str` and `bytes`, and
 * `str.encode('utf-8')`.
 */
module PyText {

  newtype byte = b: int | 0 <= b < 256

  // ----- decimal rendering of integers: str(n) / repr(n) -----

  function DigitChar(d: nat): char
    requires d < 10
  {
    "0123456789"[d]
  }

  predicate IsDigit(c: char) {
    '0' <= c <= '9'
  }

  /** `str(n)` for a non-negative integer: shortest decimal form, no leading zero. */
  function NatToString(n: nat): (s: string)
    ensures |s| >= 1
    ensures forall i :: 0 <= i < |s| ==> IsDigit(s[i])
    ensures |s| > 1 ==> s[0] != '0'
    decreases n
  {
    if n < 10 then [DigitChar(n)] else NatToString(n / 10) + [DigitChar(n % 10)]
  }

  /** `str(i)` / `repr(i)` for any Python int. */
  function IntToString(i: int): string {
    if i < 0 then "-" + NatToString(-i) else NatToString(i)
  }

  /** The value of a string of decimal digits: the reading direction of `NatToString`. */
  function DigitsValue(s: string): nat
    requires forall i :: 0 <= i < |s| ==> IsDigit(s[i])
  {
    if s == [] then 0
    else
      assert IsDigit(s[|s| - 1]);
      10 * DigitsValue(s[..|s| - 1]) + ((s[|s| - 1] as int) - ('0' as int))
  }

  lemma DigitCharValue(d: nat)
    requires d < 10
    ensures (DigitChar(d) as int) - ('0' as int) == d
  {
  }

  /** Rendering a natural number in decimal and reading it back gives the number. */
  lemma {:induction false} NatToStringRoundTrip(n: nat)
    ensures DigitsValue(NatToString(n)) == n
    decreases n
  {
    var s := NatToString(n);
    if n < 10 {
      DigitCharValue(n);
      assert s[..0] == [];
    } else {
      NatToStringRoundTrip(n / 10);
      DigitCharValue(n % 10);
      assert s[..|s| - 1] == NatToString(n / 10);
    }
  }

  /** Distinct numbers have distinct decimal forms. */
  lemma NatToStringInjective(m: nat, n: nat)
    requires NatToString(m) == NatToString(n)
    ensures m == n
  {
    NatToStringRoundTrip(m);
    NatToStringRoundTrip(n);
  }

  /** The value of the decimal form of any int, a leading `-` negating it. */
  function SignedValue(s: string): int
    requires s != [] && s[0] == '-' ==> forall i :: 1 <= i < |s| ==> IsDigit(s[i])
    requires s == [] || s[0] != '-' ==> forall i :: 0 <= i < |s| ==> IsDigit(s[i])
  {
    if s != [] && s[0] == '-' then
      assert forall i :: 0 <= i < |s[1..]| ==> IsDigit(s[1..][i]) by {
        forall i | 0 <= i < |s[1..]| ensures IsDigit(s[1..][i]) { assert s[1..][i] == s[i + 1]; }
      }
      -(DigitsValue(s[1..]) as int)
    else DigitsValue(s)
  }

  /** Rendering any int in decimal and reading it back, sign included, gives the int. */
  lemma IntToStringRoundTrip(i: int)
    ensures var s := IntToString(i);
      && |s| >= 1
      && (s[0] == '-' <==> i < 0)
      && (s[0] == '-' ==> forall k :: 1 <= k < |s| ==> IsDigit(s[k]))
      && (s[0] != '-' ==> forall k :: 0 <= k < |s| ==> IsDigit(s[k]))
      && SignedValue(s) == i
  {
    var s := IntToString(i);
    if i < 0 {
      NatToStringRoundTrip(-i);
      assert s[1..] == NatToString(-i);
    } else {
      NatToStringRoundTrip(i);
      assert IsDigit(s[0]);
    }
  }

  /** Distinct ints have distinct `repr`s. */
  lemma IntToStringInjective(i: int, j: int)
    requires IntToString(i) == IntToString(j)
    ensures i == j
  {
    IntToStringRoundTrip(i);
    IntToStringRoundTrip(j);
  }

  // ----- joining and substring search -----

  /** `sep.join(parts)`. */
  function Join(sep: string, parts: seq<string>): string {
    if parts == [] then ""
    else if |parts| == 1 then parts[0]
    else parts[0] + sep + Join(sep, parts[1..])
  }

  /** `sub in s` for Python strings. */
  ghost predicate Contains(s: string, sub: string) {
    exists i :: OccursAt(s, sub, i)
  }

  predicate OccursAt(s: string, sub: string, i: int) {
    0 <= i <= |s| - |sub| && s[i..i + |sub|] == sub
  }

  lemma ContainsSelf(s: string)
    ensures Contains(s, s)
  {
    assert OccursAt(s, s, 0);
  }

  lemma ContainsLeft(s: string, t: string, sub: string)
    requires Contains(s, sub)
    ensures Contains(s + t, sub)
  {
    var i :| OccursAt(s, sub, i);
    assert (s + t)[i..i + |sub|] == sub;
    assert OccursAt(s + t, sub, i);
  }

  lemma ContainsRight(s: string, t: string, sub: string)
    requires Contains(t, sub)
    ensures Contains(s + t, sub)
  {
    var i :| OccursAt(t, sub, i);
    assert (s + t)[|s| + i..|s| + i + |sub|] == sub;
    assert OccursAt(s + t, sub, |s| + i);
  }

  /** A string in which a character never occurs cannot contain a piece holding that character. */
  lemma NotContainsChar(s: string, sub: string, k: nat)
    requires k < |sub|
    requires forall i :: 0 <= i < |s| ==> s[i] != sub[k]
    ensures !Contains(s, sub)
  {
    forall i | 0 <= i <= |s| - |sub| ensures !OccursAt(s, sub, i) {
      assert s[i..i + |sub|][k] == s[i + k];
    }
  }

  /** Every part of a join occurs in the joined text. */
  lemma {:induction false} JoinContainsPart(sep: string, parts: seq<string>, j: nat)
    requires j < |parts|
    ensures Contains(Join(sep, parts), parts[j])
    decreases |parts|
  {
    if |parts| == 1 {
      ContainsSelf(parts[0]);
    } else if j == 0 {
      ContainsSelf(parts[0]);
      ContainsLeft(parts[0], sep + Join(sep, parts[1..]), parts[0]);
      assert parts[0] + sep + Join(sep, parts[1..]) == parts[0] + (sep + Join(sep, parts[1..]));
    } else {
      JoinContainsPart(sep, parts[1..], j - 1);
      ContainsRight(parts[0] + sep, Join(sep, parts[1..]), parts[j]);
    }
  }

  // ----- str.replace('\n', '\\n') -----

  function EscapeNewlines(s: string): string {
    if s == [] then ""
    else (if s[0] == '\n' then "\\n" else [s[0]]) + EscapeNewlines(s[1..])
  }

  function NewlineCount(s: string): nat {
    if s == [] then 0 else (if s[0] == '\n' then 1 else 0) + NewlineCount(s[1..])
  }

  /** Escaping newlines removes every raw newline and lengthens the text by one per newline. */
  lemma {:induction false} EscapeNewlinesShape(s: string)
    ensures |EscapeNewlines(s)| == |s| + NewlineCount(s)
    ensures '\n' !in EscapeNewlines(s)
  {
    if s != [] {
      EscapeNewlinesShape(s[1..]);
    }
  }

  /** On a text without newlines the replacement changes nothing. */
  lemma {:induction false} EscapeNewlinesIdentity(s: string)
    requires '\n' !in s
    ensures EscapeNewlines(s) == s
    ensures NewlineCount(s) == 0
  {
    if s != [] {
      assert s == [s[0]] + s[1..];
      EscapeNewlinesIdentity(s[1..]);
    }
  }

  // ----- repr() of str and bytes -----

  function HexDigit(d: nat): char
    requires d < 16
  {
    "0123456789abcdef"[d]
  }

  /** Two lower-case hex digits, as in Python's `\xhh` escape. */
  function Hex2(n: nat): string
    requires n < 256
  {
    [HexDigit(n / 16), HexDigit(n % 16)]
  }

  /** The quote `repr` chooses: double quotes only when the text has a `'` and no `"`. */
  function QuoteFor(hasSingle: bool, hasDouble: bool): char {
    if hasSingle && !hasDouble then '"' else '\''
  }

  /** How `repr` of a `str` writes one code point, inside quotes `q`. */
  function EscapeChar(c: char, q: char): (r: string)
    requires q == '\'' || q == '"'
    ensures '\n' !in r
    ensures |r| >= 1
  {
    var n := c as int;
    if c == q || c == '\\' then ['\\', c]
    else if c == '\t' then "\\t"
    else if c == '\n' then "\\n"
    else if c == '\r' then "\\r"
    else if n < 32 || (127 <= n <= 160) then "\\x" + Hex2(n)
    else [c]
  }

  function EscapeChars(s: string, q: char): (r: string)
    requires q == '\'' || q == '"'
    ensures '\n' !in r
    ensures |r| >= |s|
  {
    if s == [] then "" else EscapeChar(s[0], q) + EscapeChars(s[1..], q)
  }

  /** `repr(s)` of a Python `str`. */
  function StrRepr(s: string): (r: string)
    ensures '\n' !in r
    ensures |r| >= |s| + 2
    ensures r[0] == r[|r| - 1] && r[0] in {'\'', '"'}
  {
    var q := QuoteFor('\'' in s, '"' in s);
    [q] + EscapeChars(s, q) + [q]
  }

  /** How `repr` of a `bytes` object writes one byte, inside quotes `q`. */
  function EscapeByte(b: byte, q: char): (r: string)
    requires q == '\'' || q == '"'
    ensures '\n' !in r
  {
    var n := b as int;
    if n == q as int || n == '\\' as int then ['\\', n as char]
    else if n == '\t' as int then "\\t"
    else if n == '\n' as int then "\\n"
    else if n == '\r' as int then "\\r"
    else if n < 32 || n >= 127 then "\\x" + Hex2(n)
    else [n as char]
  }

  function EscapeBytes(bs: seq<byte>, q: char): (r: string)
    requires q == '\'' || q == '"'
    ensures '\n' !in r
  {
    if bs == [] then "" else EscapeByte(bs[0], q) + EscapeBytes(bs[1..], q)
  }

  /** `repr(b)` of a Python `bytes` object: `b'...'`. */
  function BytesRepr(bs: seq<byte>): (r: string)
    ensures '\n' !in r
    ensures |r| >= 3 && r[0] == 'b'
    ensures r[1] == r[|r| - 1] && r[1] in {'\'', '"'}
  {
    var q := QuoteFor(39 in bs, 34 in bs);
    "b" + [q] + EscapeBytes(bs, q) + [q]
  }

  // ----- str.encode('utf-8') -----

  /** The UTF-8 encoding of one Unicode scalar value (RFC 3629, section 3). */
  function EncodeChar(c: char): (r: seq<byte>)
    ensures 1 <= |r| <= 4
    ensures c as int < 128 ==> r == [(c as int) as byte]
    ensures c as int >= 128 ==> |r| >= 2
  {
    var n := c as int;
    if n < 0x80 then [n as byte]
    else if n < 0x800 then [(0xC0 + n / 64) as byte, (0x80 + n % 64) as byte]
    else if n < 0x10000 then
      [(0xE0 + n / 4096) as byte, (0x80 + (n / 64) % 64) as byte, (0x80 + n % 64) as byte]
    else
      [(0xF0 + n / 262144) as byte, (0x80 + (n / 4096) % 64) as byte,
       (0x80 + (n / 64) % 64) as byte, (0x80 + n % 64) as byte]
  }

  function Utf8Encode(s: string): seq<byte> {
    if s == [] then [] else EncodeChar(s[0]) + Utf8Encode(s[1..])
  }

  /** Encoding a concatenation encodes the parts one after the other. */
  lemma {:induction false} Utf8EncodeAppend(s: string, t: string)
    ensures Utf8Encode(s + t) == Utf8Encode(s) + Utf8Encode(t)
  {
    if s == [] {
      assert s + t == t;
    } else {
      assert (s + t)[1..] == s[1..] + t;
      Utf8EncodeAppend(s[1..], t);
    }
  }

  /** Each code point takes one to four bytes, and an ASCII text encodes byte for character. */
  lemma {:induction false} Utf8EncodeLength(s: string)
    ensures |s| <= |Utf8Encode(s)| <= 4 * |s|
    ensures (forall i :: 0 <= i < |s| ==> s[i] as int < 128) ==>
              |Utf8Encode(s)| == |s| &&
              forall i :: 0 <= i < |s| ==> Utf8Encode(s)[i] as int == s[i] as int
  {
    if s != [] {
      Utf8EncodeLength(s[1..]);
      if forall i :: 0 <= i < |s| ==> s[i] as int < 128 {
        assert forall i :: 0 <= i < |s[1..]| ==> s[1..][i] as int < 128 by {
          forall i | 0 <= i < |s[1..]| ensures s[1..][i] as int < 128 {
            assert s[1..][i] == s[i + 1];
          }
        }
        assert Utf8Encode(s) == [s[0] as int as byte] + Utf8Encode(s[1..]);
      }
    }
  }
}
