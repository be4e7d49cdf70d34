/** Element identifiers (`elId`, `optionId`) and the way the reducer reads the
    option index back out of `activeDescendant`: the regular expression
    `/\d*$/` picks the trailing run of decimal digits and `parseInt(…, 10)`
    turns it into a number. */
module Ids {
  import opened Seqs

  predicate IsDigit(c: char)
  {
    '0' <= c <= '9'
  }

  predicate AllDigits(s: string)
  {
    forall i :: 0 <= i < |s| ==> IsDigit(s[i])
  }

  function DigitChar(d: nat): (c: char)
    requires d < 10
    ensures IsDigit(c) && c as int - '0' as int == d
  {
    ('0' as int + d) as char
  }

  /** The JavaScript rendering of a non-negative integer: decimal digits, no
      leading zero. */
  function Decimal(n: nat): (r: string)
    ensures |r| >= 1 && AllDigits(r)
    ensures r[0] == '0' ==> n == 0
  {
    if n < 10 then [DigitChar(n)]
    else Decimal(n / 10) + [DigitChar(n % 10)]
  }

  /** The JavaScript rendering of an integer in a template literal: a minus
      sign for a negative number, then the digits of its magnitude. */
  function IntToString(i: int): (r: string)
    ensures i >= 0 ==> |r| >= 1 && AllDigits(r) && (r[0] == '0' ==> i == 0)
    ensures i < 0 ==> |r| >= 2 && r[0] == '-' && AllDigits(r[1..]) && r[1] != '0'
  {
    if i < 0 then "-" + Decimal(-i) else Decimal(i)
  }

  /** `elId(name, component)`: the `rsz-` prefix, the component name and the
      part name joined by dashes. */
  function ElId(name: string, component: string): (r: string)
    ensures |r| == |name| + |component| + 5
    ensures r[..4] == "rsz-" && r[4..4 + |name|] == name && r[4 + |name|] == '-'
    ensures r[|r| - |component|..] == component
  {
    "rsz-" + name + "-" + component
  }

  /** `optionId(name, option)`. The reducer reads back the magnitude of the
      index an id was built from: `option` itself when it is not negative,
      and `-option` otherwise, because the minus sign is not part of the
      trailing digit run (so the id of index -1, `rsz-<name>-option--1`,
      reads back as 1). */
  function OptionId(name: string, option: int): (r: string)
    ensures ParseIndex(r) == Some(if option < 0 then -option else option)
  {
    ComponentIndexReads(name, "option-", option);
    ElId(name, "option-" + IntToString(option))
  }

  /** An id whose component ends in a dash followed by the rendering of an
      integer reads back as the magnitude of that integer. */
  lemma ComponentIndexReads(name: string, component: string, option: int)
    requires |component| > 0 && component[|component| - 1] == '-'
    ensures ParseIndex(ElId(name, component + IntToString(option)))
         == Some(if option < 0 then -option else option)
  {
    var p := ElId(name, component);
    ElIdAppend(name, component, IntToString(option));
    assert p[|p| - 1] == component[|component| - 1];
    IntegerAfterSeparator(p, option);
  }

  /** The rendering of an integer written after a dash reads back as its
      magnitude: the minus sign of a negative number is not a digit. */
  lemma IntegerAfterSeparator(p: string, option: int)
    requires |p| > 0 && p[|p| - 1] == '-'
    ensures ParseIndex(p + IntToString(option)) == Some(if option < 0 then -option else option)
  {
    if option < 0 {
      var d := Decimal(-option);
      calc {
        ParseIndex(p + IntToString(option));
        ParseIndex(p + ("-" + d));
        { Reassociate(p, "-", d); }
        ParseIndex((p + "-") + d);
        { ParseAfterSeparator(p + "-", -option); }
        Some(-option);
      }
    } else {
      ParseAfterSeparator(p, option);
    }
  }

  /** Appending to a component appends to its id. */
  lemma ElIdAppend(name: string, component: string, t: string)
    ensures ElId(name, component + t) == ElId(name, component) + t
  {
    Reassociate("rsz-" + name + "-", component, t);
  }

  lemma Reassociate(a: string, b: string, c: string)
    ensures a + (b + c) == (a + b) + c
  {
  }

  /** `match[0]` for `s.match(/\d*$/)`: the longest suffix of `s` made of
      decimal digits (the empty string when `s` does not end in a digit). */
  function TrailingDigits(s: string): (r: string)
    ensures |r| <= |s| && (|r| > 0 ==> r[|r| - 1] == s[|s| - 1])
    ensures AllDigits(r)
    ensures |r| < |s| ==> !IsDigit(s[|s| - |r| - 1])
  {
    if |s| == 0 || !IsDigit(s[|s| - 1]) then []
    else TrailingDigits(s[..|s| - 1]) + [s[|s| - 1]]
  }

  /** The trailing digit run is a suffix of the string. */
  lemma {:induction false} TrailingDigitsIsSuffix(s: string)
    ensures TrailingDigits(s) == s[|s| - |TrailingDigits(s)|..]
  {
    if |s| > 0 && IsDigit(s[|s| - 1]) {
      var init := s[..|s| - 1];
      TrailingDigitsIsSuffix(init);
      assert init[|init| - |TrailingDigits(init)|..] + [s[|s| - 1]] == s[|s| - |TrailingDigits(s)|..];
    }
  }

  /** `parseInt(ds, 10)` for a string of decimal digits. */
  function DigitsValue(ds: string): (r: nat)
    requires AllDigits(ds)
    ensures r == 0 <==> forall k :: 0 <= k < |ds| ==> ds[k] == '0'
  {
    if |ds| == 0 then 0
    else DigitsValue(ds[..|ds| - 1]) * 10 + (ds[|ds| - 1] as int - '0' as int)
  }

  /** The option index the reducer reads from an element id; None stands for
      the NaN that `parseInt` returns when the id has no trailing digit. */
  function ParseIndex(id: string): (r: Option<nat>)
    ensures r.Some? <==> |id| > 0 && IsDigit(id[|id| - 1])
  {
    var ds := TrailingDigits(id);
    if |ds| == 0 then None else Some(DigitsValue(ds))
  }

  /** Reading back the decimal rendering of `n` gives `n`. */
  lemma {:induction false} DecimalValue(n: nat)
    ensures DigitsValue(Decimal(n)) == n
  {
    if n >= 10 {
      DecimalValue(n / 10);
      var d := Decimal(n / 10) + [DigitChar(n % 10)];
      assert d[..|d| - 1] == Decimal(n / 10);
    }
  }

  /** Digits written after a non-digit are exactly the trailing digit run. */
  lemma {:induction false} TrailingDigitsAfter(p: string, ds: string)
    requires |p| > 0 && !IsDigit(p[|p| - 1])
    requires AllDigits(ds)
    ensures TrailingDigits(p + ds) == ds
  {
    if |ds| == 0 {
      assert p + ds == p;
    } else {
      var s := p + ds;
      assert s[..|s| - 1] == p + ds[..|ds| - 1];
      TrailingDigitsAfter(p, ds[..|ds| - 1]);
      assert ds == ds[..|ds| - 1] + [ds[|ds| - 1]];
    }
  }

  /** A number written after a dash reads back as itself. */
  lemma ParseAfterSeparator(p: string, m: nat)
    requires |p| > 0 && p[|p| - 1] == '-'
    ensures ParseIndex(p + Decimal(m)) == Some(m)
  {
    TrailingDigitsAfter(p, Decimal(m));
    DecimalValue(m);
  }
}
