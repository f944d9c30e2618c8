/**
 * `__short_repr(obj)`, the bounded one-line summary of a value that the preview routine
 * shows, and what its branches promise.
 */
module Summaries {
  import opened PyText
  import opened PyValues

  /** The tail `, ... (<n> items)` of a summary of a long collection. */
  function CountSuffix(n: nat): string {
    ", ... (" + NatToString(n) + " items)"
  }

  /** `s[:n]`. */
  function Prefix(s: string, n: nat): (r: string)
    ensures |r| == (if |s| <= n then |s| else n) && r <= s
  {
    if |s| <= n then s else s[..n]
  }

  /** The `str` branches: a long text is cut to its ends, a short one shows as its `repr`. */
  function ShortStr(s: string): string {
    if |s| > 80 then EscapeNewlines(s[..60]) + "..." + EscapeNewlines(s[|s| - 20..])
    else StrRepr(s)
  }

  /** The `Sequence` branch, given the length and the summaries of the first two elements. */
  function SeqSummary(n: nat, first: string, second: string): string {
    if n == 0 then "[]"
    else if n == 1 then first
    else if n == 2 then first + ", " + second
    else first + ", " + second + CountSuffix(n)
  }

  /** `__short_repr(obj)`, branch for branch in the order the routine tests them. */
  function ShortRepr(v: Value): string
    decreases v
  {
    match v
    case NoneV => "None"
    case Str(s) => ShortStr(s)
    case Int(i) => IntToString(i)
    case Bool(b) => BoolRepr(b)
    case HasShortRepr(custom, base) =>
      // a str/int/bool subclass is caught by the earlier branches
      if IsLiteral(base) then ShortRepr(base) else custom
    case Bytes(bs) =>
      // bytes is a Sequence whose elements are ints
      SeqSummary(|bs|,
                 if |bs| >= 1 then IntToString(bs[0] as int) else "",
                 if |bs| >= 2 then IntToString(bs[1] as int) else "")
    case Seq(xs) =>
      SeqSummary(|xs|,
                 if |xs| >= 1 then ShortRepr(xs[0]) else "",
                 if |xs| >= 2 then ShortRepr(xs[1]) else "")
    case Dict(es) =>
      if |es| == 0 then ""
      else if |es| == 1 then ShortStr(Repr(es[0].0)) + ":" + ShortRepr(es[0].1)
      else ShortRepr(es[0].0) + ":" + ShortRepr(es[0].1) + CountSuffix(|es|)
    case KeysView(ks) =>
      if |ks| == 0 then ""
      else if |ks| == 1 then ShortRepr(ks[0])
      else ShortRepr(ks[0]) + CountSuffix(|ks|)
    case Other(sf, rf) =>
      if |sf| > 40 then Prefix(rf, 35) + "..." else sf
  }

  // ----- the branches, one lemma each -----

  /** `None` and the empty collections. */
  lemma ShortReprEmpty()
    ensures ShortRepr(NoneV) == "None"
    ensures ShortRepr(Seq([])) == "[]"
    ensures ShortRepr(Dict([])) == ""
    ensures ShortRepr(KeysView([])) == ""
  {
  }

  /**
   * A text longer than 80 characters shows as its first 60 and last 20 characters around
   * `...`, newlines escaped; without newlines the summary is exactly 83 characters. The
   * long-text branch comes before the literal one, so such a text never shows as its `repr`.
   */
  lemma ShortReprLongStr(s: string)
    requires |s| > 80
    ensures ShortRepr(Str(s)) == EscapeNewlines(s[..60]) + "..." + EscapeNewlines(s[|s| - 20..])
    ensures |ShortRepr(Str(s))| == 83 + NewlineCount(s[..60]) + NewlineCount(s[|s| - 20..])
    ensures '\n' !in ShortRepr(Str(s))
    ensures '\n' !in s ==> ShortRepr(Str(s)) == s[..60] + "..." + s[|s| - 20..]
    ensures '\n' !in s ==> |ShortRepr(Str(s))| == 83
  {
    EscapeNewlinesShape(s[..60]);
    EscapeNewlinesShape(s[|s| - 20..]);
    if '\n' !in s {
      SliceSingleLine(s, 0, 60);
      SliceSingleLine(s, |s| - 20, |s|);
      assert s[0..60] == s[..60] && s[|s| - 20..|s|] == s[|s| - 20..];
      EscapeNewlinesIdentity(s[..60]);
      EscapeNewlinesIdentity(s[|s| - 20..]);
    }
  }

  lemma SliceSingleLine(s: string, i: nat, j: nat)
    requires i <= j <= |s| && '\n' !in s
    ensures '\n' !in s[i..j]
  {
    forall k | 0 <= k < j - i ensures s[i..j][k] != '\n' {
      assert s[i..j][k] == s[i + k];
    }
  }

  /** A text of at most 80 characters, an int and a bool show as their `repr`. */
  lemma ShortReprLiteral(v: Value)
    requires v.Int? || v.Bool? || (v.Str? && |v.s| <= 80)
    ensures ShortRepr(v) == Repr(v)
  {
  }

  /** A one-element sequence summarises exactly as its element. */
  lemma ShortReprSingleton(x: Value)
    ensures ShortRepr(Seq([x])) == ShortRepr(x)
  {
  }

  /** A two-element sequence shows its two summaries separated by a comma. */
  lemma ShortReprPair(x: Value, y: Value)
    ensures ShortRepr(Seq([x, y])) == ShortRepr(x) + ", " + ShortRepr(y)
  {
  }

  /** Three or more elements: the first two summaries and the element count. */
  lemma ShortReprLongSeq(xs: seq<Value>)
    requires |xs| >= 3
    ensures ShortRepr(Seq(xs)) == ShortRepr(xs[0]) + ", " + ShortRepr(xs[1]) + CountSuffix(|xs|)
  {
  }

  /** No element after the second is looked at: sequences agreeing there summarise alike. */
  lemma ShortReprSeqLooksAtTwo(xs: seq<Value>, ys: seq<Value>)
    requires |xs| == |ys| >= 2
    requires xs[0] == ys[0] && xs[1] == ys[1]
    ensures ShortRepr(Seq(xs)) == ShortRepr(Seq(ys))
  {
  }

  /** `list(range(n))`. */
  function Range(n: nat): (xs: seq<Value>)
    ensures |xs| == n && forall k :: 0 <= k < n ==> xs[k] == Int(k)
  {
    seq(n, k => Int(k))
  }

  lemma SmallNumerals()
    ensures NatToString(0) == "0" && NatToString(1) == "1" && NatToString(2) == "2"
    ensures NatToString(100) == "100"
  {
    assert NatToString(10) == "10";
  }

  lemma CountSuffixExamples()
    ensures CountSuffix(2) == ", ... (2 items)"
    ensures CountSuffix(100) == ", ... (100 items)"
  {
    SmallNumerals();
  }

  lemma Range100Heads()
    ensures ShortRepr(Range(100)[0]) == "0" && ShortRepr(Range(100)[1]) == "1"
  {
    SmallNumerals();
  }

  lemma Range100Summary()
    ensures ShortRepr(Seq(Range(100))) == "0, 1, ... (100 items)"
  {
    ShortReprLongSeq(Range(100));
    Range100Heads();
    CountSuffixExamples();
    RangeSummaryText();
  }

  lemma RangeSummaryText()
    ensures "0" + ", " + "1" + ", ... (100 items)" == "0, 1, ... (100 items)"
  {
  }

  /**
   * The preview of `list(range(100))` shows `0`, `1` and `100` but not `99`
   * (test/test_py3_interface.py, test_preview).
   */
  lemma ShortReprRange100()
    ensures ShortRepr(Seq(Range(100))) == "0, 1, ... (100 items)"
    ensures Contains(ShortRepr(Seq(Range(100))), "100")
    ensures Contains(ShortRepr(Seq(Range(100))), "0")
    ensures Contains(ShortRepr(Seq(Range(100))), "1")
    ensures !Contains(ShortRepr(Seq(Range(100))), "99")
  {
    Range100Summary();
    RangeSummaryMentions();
  }

  lemma RangeSummaryMentions()
    ensures Contains("0, 1, ... (100 items)", "100")
    ensures Contains("0, 1, ... (100 items)", "0")
    ensures Contains("0, 1, ... (100 items)", "1")
    ensures !Contains("0, 1, ... (100 items)", "99")
  {
    var r := "0, 1, ... (100 items)";
    assert OccursAt(r, "100", 11);
    assert OccursAt(r, "0", 0);
    assert OccursAt(r, "1", 3);
    NotContainsChar(r, "99", 0);
  }

  /** A dict with several entries: the first key and value, and the entry count. */
  lemma ShortReprDictMany(es: seq<(Value, Value)>)
    requires |es| > 1
    ensures ShortRepr(Dict(es)) == ShortRepr(es[0].0) + ":" + ShortRepr(es[0].1) + CountSuffix(|es|)
  {
  }

  lemma QuotedKeyRepr()
    ensures Repr(Str("a")) == "'a'"
    ensures ShortStr("'a'") == "\"'a'\""
  {
    assert EscapeChars("a", '\'') == "a";
    assert EscapeChar('a', '"') == "a";
    assert EscapeChar('\'', '"') == "'";
    assert EscapeChars("'", '"') == "'";
    assert EscapeChars("a'", '"') == "a'";
    assert EscapeChars("'a'", '"') == "'a'";
  }

  /** A dict with one entry summarises the `repr` of its key as a text, then its value. */
  lemma ShortReprDictSingle(k: Value, v: Value)
    ensures ShortRepr(Dict([(k, v)])) == ShortStr(Repr(k)) + ":" + ShortRepr(v)
  {
  }

  lemma OneEntryExample()
    ensures ShortRepr(Dict([(Str("a"), Int(1))])) == "\"'a'\":1"
  {
    QuotedKeyRepr();
    SmallNumerals();
    calc {
      ShortRepr(Dict([(Str("a"), Int(1))]));
      ShortStr(Repr(Str("a"))) + ":" + ShortRepr(Int(1));
      "\"'a'\"" + ":" + "1";
    }
  }

  lemma TwoEntryHeads()
    ensures ShortRepr(Str("a")) == "'a'" && ShortRepr(Int(1)) == "1"
  {
    QuotedKeyRepr();
    SmallNumerals();
  }

  lemma TwoEntryExample()
    ensures ShortRepr(Dict([(Str("a"), Int(1)), (Str("b"), Int(2))])) == "'a':1, ... (2 items)"
  {
    var es := [(Str("a"), Int(1)), (Str("b"), Int(2))];
    ShortReprDictMany(es);
    assert es[0].0 == Str("a") && es[0].1 == Int(1) && |es| == 2;
    TwoEntryHeads();
    CountSuffixExamples();
    TwoEntryText();
  }

  lemma TwoEntryText()
    ensures "'a'" + ":" + "1" + ", ... (2 items)" == "'a':1, ... (2 items)"
  {
  }

  /**
   * The key of a one-entry dict goes through `repr` before it is summarised, the key of a
   * larger dict does not: `{'a': 1}` shows its key as `"'a'"`, `{'a': 1, 'b': 2}` as `'a'`.
   */
  lemma ShortReprDictKeyQuirk()
    ensures ShortRepr(Dict([(Str("a"), Int(1))])) == "\"'a'\":1"
    ensures ShortRepr(Dict([(Str("a"), Int(1)), (Str("b"), Int(2))])) == "'a':1, ... (2 items)"
  {
    OneEntryExample();
    TwoEntryExample();
  }

  /** A keys view with several keys: the first key and the key count. */
  lemma ShortReprKeysMany(ks: seq<Value>)
    requires |ks| > 1
    ensures ShortRepr(KeysView(ks)) == ShortRepr(ks[0]) + CountSuffix(|ks|)
  {
  }

  /** A keys view with one key summarises as that key. */
  lemma ShortReprKeysSingleton(k: Value)
    ensures ShortRepr(KeysView([k])) == ShortRepr(k)
  {
  }

  /**
   * Any other object: its `str()` when that has at most 40 characters, otherwise the first
   * 35 characters of its `repr()` and `...`, at most 38 characters in all.
   */
  lemma ShortReprFallback(sf: string, rf: string)
    ensures |sf| <= 40 ==> ShortRepr(Other(sf, rf)) == sf
    ensures |sf| > 40 ==> ShortRepr(Other(sf, rf)) == Prefix(rf, 35) + "..."
    ensures |sf| > 40 ==> |ShortRepr(Other(sf, rf))| <= 38
    ensures |ShortRepr(Other(sf, rf))| <= 40
  {
  }

  /**
   * The `__short_repr__` capability is consulted after the literal branches and before the
   * container branches: it wins over a sequence, a dict or any other object, and loses to a
   * `str`, `int` or `bool` base, which shows as that plain value would.
   */
  lemma {:induction false} ShortReprCapability(custom: string, base: Value)
    ensures !IsLiteral(base) ==> ShortRepr(HasShortRepr(custom, base)) == custom
    ensures IsLiteral(base) ==> ShortRepr(HasShortRepr(custom, base)) == ShortRepr(Unwrap(base))
    decreases base
  {
    if IsLiteral(base) && base.HasShortRepr? {
      ShortReprCapability(base.custom, base.base);
    }
  }

  // ----- one line -----

  /** No text the value supplies itself (a `__short_repr__` result, a `str()`, a `repr()`) holds a newline. */
  predicate OwnTextsSingleLine(v: Value)
    decreases v
  {
    match v
    case HasShortRepr(c, base) => '\n' !in c && OwnTextsSingleLine(base)
    case Seq(xs) => forall k :: 0 <= k < |xs| ==> OwnTextsSingleLine(xs[k])
    case Dict(es) => forall k :: 0 <= k < |es| ==> OwnTextsSingleLine(es[k].0) && OwnTextsSingleLine(es[k].1)
    case KeysView(ks) => forall k :: 0 <= k < |ks| ==> OwnTextsSingleLine(ks[k])
    case Other(sf, rf) => '\n' !in sf && '\n' !in rf
    case _ => true
  }

  lemma ShortStrSingleLine(s: string)
    ensures '\n' !in ShortStr(s)
  {
    if |s| > 80 {
      EscapeNewlinesShape(s[..60]);
      EscapeNewlinesShape(s[|s| - 20..]);
    }
  }

  lemma NatToStringSingleLine(n: nat)
    ensures '\n' !in NatToString(n)
  {
    var s := NatToString(n);
    assert forall k :: 0 <= k < |s| ==> IsDigit(s[k]);
  }

  lemma IntToStringSingleLine(i: int)
    ensures '\n' !in IntToString(i)
  {
    if i < 0 { NatToStringSingleLine(-i); } else { NatToStringSingleLine(i); }
  }

  lemma CountSuffixSingleLine(n: nat)
    ensures '\n' !in CountSuffix(n)
  {
    NatToStringSingleLine(n);
  }

  lemma PrefixSingleLine(s: string, n: nat)
    requires '\n' !in s
    ensures '\n' !in Prefix(s, n)
  {
    if |s| > n {
      forall k | 0 <= k < n ensures s[..n][k] != '\n' { assert s[..n][k] == s[k]; }
    }
  }

  /**
   * A summary is always one line when the value's own texts are: texts are escaped, and the
   * structure adds no line breaks.
   */
  lemma {:induction false} ShortReprSingleLine(v: Value)
    requires OwnTextsSingleLine(v)
    ensures '\n' !in ShortRepr(v)
    decreases v
  {
    match v
    case NoneV =>
    case Str(s) => ShortStrSingleLine(s);
    case Int(i) => IntToStringSingleLine(i);
    case Bool(b) =>
    case HasShortRepr(c, base) =>
      if IsLiteral(base) { ShortReprSingleLine(base); }
    case Bytes(bs) =>
      if |bs| >= 1 { IntToStringSingleLine(bs[0] as int); }
      if |bs| >= 2 { IntToStringSingleLine(bs[1] as int); }
      CountSuffixSingleLine(|bs|);
    case Seq(xs) =>
      if |xs| >= 1 { ShortReprSingleLine(xs[0]); }
      if |xs| >= 2 { ShortReprSingleLine(xs[1]); }
      CountSuffixSingleLine(|xs|);
    case Dict(es) =>
      if |es| >= 1 {
        ShortStrSingleLine(Repr(es[0].0));
        ShortReprSingleLine(es[0].0);
        ShortReprSingleLine(es[0].1);
      }
      CountSuffixSingleLine(|es|);
    case KeysView(ks) =>
      if |ks| >= 1 { ShortReprSingleLine(ks[0]); }
      CountSuffixSingleLine(|ks|);
    case Other(sf, rf) => PrefixSingleLine(rf, 35);
  }
}
