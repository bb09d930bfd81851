/** The Python string operations the backend relies on: `str(n)` for
    non-negative integers, `sep.join`, `str.endswith`, `str.rfind`, and
    concatenation by repeated `+=`. Strings are sequences of characters. */
module Strings {

  function Min(a: int, b: int): int {
    if a <= b then a else b
  }

  function Max(a: int, b: int): int {
    if a <= b then b else a
  }

  predicate IsDigit(c: char) {
    '0' <= c <= '9'
  }

  predicate AllDigits(s: string) {
    forall i :: 0 <= i < |s| ==> IsDigit(s[i])
  }

  function DigitChar(d: nat): (c: char)
    requires d < 10
    ensures IsDigit(c) && c as int - '0' as int == d
  {
    ('0' as int + d) as char
  }

  /** Python's `str(n)` for `n >= 0`: decimal digits without leading zeros. */
  function NatToString(n: nat): (s: string)
    ensures 1 <= |s| && AllDigits(s)
    ensures s[0] == '0' ==> n == 0
    decreases n
  {
    if n < 10 then [DigitChar(n)] else NatToString(n / 10) + [DigitChar(n % 10)]
  }

  /** The number a string of decimal digits denotes (Python's `int(s)` on digits). */
  function DigitsValue(s: string): nat
    requires AllDigits(s)
    decreases |s|
  {
    if s == [] then 0 else DigitsValue(s[..|s| - 1]) * 10 + (s[|s| - 1] as int - '0' as int)
  }

  /** Reading back the digits `str(n)` prints gives `n`. */
  lemma {:induction false} DigitsValueOfNatToString(n: nat)
    ensures DigitsValue(NatToString(n)) == n
    decreases n
  {
    var s := NatToString(n);
    if n < 10 {
      assert s[..|s| - 1] == [];
    } else {
      assert s[..|s| - 1] == NatToString(n / 10);
      DigitsValueOfNatToString(n / 10);
    }
  }

  /** Distinct numbers print differently. */
  lemma NatToStringInjective(m: nat, n: nat)
    requires m != n
    ensures NatToString(m) != NatToString(n)
  {
    DigitsValueOfNatToString(m);
    DigitsValueOfNatToString(n);
  }

  /** Concatenation of parts accumulated left to right, as a loop of `text += part` does. */
  function Concat(parts: seq<string>): string
    decreases |parts|
  {
    if parts == [] then [] else Concat(parts[..|parts| - 1]) + parts[|parts| - 1]
  }

  /** The concatenation is empty exactly when every part is. */
  lemma {:induction false} ConcatEmpty(parts: seq<string>)
    ensures Concat(parts) == [] <==> forall i :: 0 <= i < |parts| ==> parts[i] == []
    decreases |parts|
  {
    if parts != [] {
      var init := parts[..|parts| - 1];
      ConcatEmpty(init);
      assert forall i :: 0 <= i < |init| ==> init[i] == parts[i];
    }
  }

  /** Python's `sep.join(items)`. */
  function Join(sep: string, items: seq<string>): string
    decreases |items|
  {
    if items == [] then []
    else if |items| == 1 then items[0]
    else items[0] + sep + Join(sep, items[1..])
  }

  /** `offs` with `d` added to each entry. */
  function Shift(offs: seq<nat>, d: nat): (r: seq<nat>)
    ensures |r| == |offs|
    ensures forall i :: 0 <= i < |offs| ==> r[i] == offs[i] + d
  {
    seq(|offs|, i requires 0 <= i < |offs| => offs[i] + d)
  }

  /** Where each item of `sep.join(items)` starts: the first at 0, each next one past its predecessor and a separator. */
  function JoinOffsets(sep: string, items: seq<string>): (r: seq<nat>)
    ensures |r| == |items|
    ensures items != [] ==> r[0] == 0
    decreases |items|
  {
    if items == [] then [] else [0] + Shift(JoinOffsets(sep, items[1..]), |items[0]| + |sep|)
  }

  /** Each item of `sep.join(items)` starts right after its predecessor and one separator. */
  lemma {:induction false} JoinOffsetsStep(sep: string, items: seq<string>, i: nat)
    requires i + 1 < |items|
    ensures JoinOffsets(sep, items)[i + 1] == JoinOffsets(sep, items)[i] + |items[i]| + |sep|
    decreases i
  {
    if i > 0 {
      JoinOffsetsStep(sep, items[1..], i - 1);
      assert items[1..][i - 1] == items[i];
    }
  }

  /** An offset past the first item is the offset in the rest, moved by the first item and a separator. */
  lemma JoinOffsetsTail(sep: string, items: seq<string>, i: nat)
    requires 1 <= i < |items|
    ensures JoinOffsets(sep, items)[i] == |items[0] + sep| + JoinOffsets(sep, items[1..])[i - 1]
    ensures Join(sep, items) == items[0] + sep + Join(sep, items[1..])
  {
    var d := |items[0]| + |sep|;
    var rest := JoinOffsets(sep, items[1..]);
    assert JoinOffsets(sep, items) == [0] + Shift(rest, d);
    assert ([0] + Shift(rest, d))[i] == Shift(rest, d)[i - 1];
  }

  lemma JoinItemStep(sep: string, items: seq<string>, i: nat)
    requires 1 <= i < |items|
    requires OccursAt(Join(sep, items[1..]), items[i], JoinOffsets(sep, items[1..])[i - 1])
    ensures OccursAt(Join(sep, items), items[i], JoinOffsets(sep, items)[i])
  {
    JoinOffsetsTail(sep, items, i);
    OccursAfterAt(items[0] + sep, Join(sep, items[1..]), items[i], JoinOffsets(sep, items[1..])[i - 1],
                  JoinOffsets(sep, items)[i]);
  }

  /** `sep.join(items)` puts each item at its offset. */
  lemma {:induction false} JoinItems(sep: string, items: seq<string>)
    ensures forall i :: 0 <= i < |items| ==> OccursAt(Join(sep, items), items[i], JoinOffsets(sep, items)[i])
    decreases |items|
  {
    if |items| > 1 {
      var rest := items[1..];
      JoinItems(sep, rest);
      forall i | 0 <= i < |items|
        ensures OccursAt(Join(sep, items), items[i], JoinOffsets(sep, items)[i])
      {
        if i > 0 {
          assert rest[i - 1] == items[i];
          JoinItemStep(sep, items, i);
        } else {
          JoinOffsetsTail(sep, items, 1);
          OccursExtend(items[0], sep + Join(sep, rest), items[0], 0);
          assert items[0] + (sep + Join(sep, rest)) == Join(sep, items);
        }
      }
    }
  }

  lemma JoinSeparatorStep(sep: string, items: seq<string>, i: nat)
    requires 1 <= i < |items| - 1
    requires OccursAt(Join(sep, items[1..]), sep, JoinOffsets(sep, items[1..])[i - 1] + |items[i]|)
    ensures OccursAt(Join(sep, items), sep, JoinOffsets(sep, items)[i] + |items[i]|)
  {
    JoinOffsetsTail(sep, items, i);
    OccursAfterAt(items[0] + sep, Join(sep, items[1..]), sep, JoinOffsets(sep, items[1..])[i - 1] + |items[i]|,
                  JoinOffsets(sep, items)[i] + |items[i]|);
  }

  /** Each item but the last is followed by `sep`. */
  lemma {:induction false} JoinSeparators(sep: string, items: seq<string>, i: nat)
    requires i + 1 < |items|
    ensures OccursAt(Join(sep, items), sep, JoinOffsets(sep, items)[i] + |items[i]|)
    decreases i
  {
    if i == 0 {
      JoinFirstSeparator(sep, items);
    } else {
      JoinSeparators(sep, items[1..], i - 1);
      assert items[1..][i - 1] == items[i];
      JoinSeparatorStep(sep, items, i);
    }
  }

  lemma JoinFirstSeparator(sep: string, items: seq<string>)
    requires |items| > 1
    ensures OccursAt(Join(sep, items), sep, JoinOffsets(sep, items)[0] + |items[0]|)
  {
    JoinOffsetsTail(sep, items, 1);
    assert OccursAt(sep, sep, 0);
    OccursAfterAt(items[0], sep, sep, 0, JoinOffsets(sep, items)[0] + |items[0]|);
    OccursExtend(items[0] + sep, Join(sep, items[1..]), sep, JoinOffsets(sep, items)[0] + |items[0]|);
  }

  /** Nothing follows the last item of `sep.join(items)`. */
  lemma {:induction false} JoinLength(sep: string, items: seq<string>)
    requires items != []
    ensures |Join(sep, items)| == JoinOffsets(sep, items)[|items| - 1] + |items[|items| - 1]|
    decreases |items|
  {
    if |items| > 1 {
      JoinLength(sep, items[1..]);
      assert items[1..][|items| - 2] == items[|items| - 1];
    }
  }

  /** Text found in `s` is still found there once more text follows. */
  lemma OccursExtend(s: string, t: string, pat: string, k: int)
    requires OccursAt(s, pat, k)
    ensures OccursAt(s + t, pat, k)
  {
    assert (s + t)[k..k + |pat|] == s[k..k + |pat|];
  }

  /** `OccursAfter` with the position given in the caller's own form. */
  lemma OccursAfterAt(a: string, t: string, pat: string, k: int, at: int)
    requires OccursAt(t, pat, k)
    requires at == |a| + k
    ensures OccursAt(a + t, pat, at)
  {
    OccursAfter(a, t, pat, k);
  }

  /** Text found in `t` is found in `a + t`, shifted by `|a|`. */
  lemma OccursAfter(a: string, t: string, pat: string, k: int)
    requires OccursAt(t, pat, k)
    ensures OccursAt(a + t, pat, |a| + k)
  {
    assert (a + t)[|a| + k..|a| + k + |pat|] == t[k..k + |pat|];
  }

  /** Text found in `t` is found in `a + t + b`, shifted by `|a|`. */
  lemma OccursInside(a: string, t: string, b: string, pat: string, k: int)
    requires OccursAt(t, pat, k)
    ensures OccursAt(a + t + b, pat, |a| + k)
  {
    assert (a + t + b)[|a| + k..|a| + k + |pat|] == t[k..k + |pat|];
  }

  /** Python's `s.endswith(suffix)`: case-sensitive comparison of the last characters. */
  predicate EndsWith(s: string, suffix: string) {
    |suffix| <= |s| && s[|s| - |suffix|..] == suffix
  }

  predicate OccursAt(s: string, pat: string, i: int) {
    0 <= i && i + |pat| <= |s| && s[i..i + |pat|] == pat
  }

  /** `pat` occurs at `i` and nothing follows it. */
  predicate OccursLast(s: string, pat: string, i: int) {
    OccursAt(s, pat, i) && |s| == i + |pat|
  }

  /** Python's `s.rfind(pat)`: the highest index where `pat` occurs, or -1. */
  function LastIndexOf(s: string, pat: string): (r: int)
    ensures r == -1 || OccursAt(s, pat, r)
    ensures forall i :: OccursAt(s, pat, i) ==> i <= r
  {
    LastIndexOfFrom(s, pat, |s| - |pat|)
  }

  function LastIndexOfFrom(s: string, pat: string, start: int): (r: int)
    requires start <= |s| - |pat|
    ensures r == -1 || OccursAt(s, pat, r)
    ensures forall i :: OccursAt(s, pat, i) && i <= start ==> i <= r
    decreases start + 1
  {
    if start < 0 then -1
    else if OccursAt(s, pat, start) then start
    else LastIndexOfFrom(s, pat, start - 1)
  }

  /** The text after the last occurrence of `c` in `s` (all of `s` when `c` does not occur). */
  function AfterLast(s: string, c: char): (r: string)
    ensures c !in r
    ensures |r| <= |s| && r == s[|s| - |r|..]
    ensures |r| == |s| || s[|s| - |r| - 1] == c
    decreases |s|
  {
    if s == [] || s[|s| - 1] == c then [] else AfterLast(s[..|s| - 1], c) + [s[|s| - 1]]
  }

  /** Whatever precedes it, a final `c` followed by text free of `c` leaves exactly that text. */
  lemma {:induction false} AfterLastOfSuffix(prefix: string, c: char, tail: string)
    requires c !in tail
    ensures AfterLast(prefix + [c] + tail, c) == tail
    decreases |tail|
  {
    var s := prefix + [c] + tail;
    if tail == [] {
    } else {
      var init := tail[..|tail| - 1];
      assert s[..|s| - 1] == prefix + [c] + init;
      assert s[|s| - 1] == tail[|tail| - 1];
      AfterLastOfSuffix(prefix, c, init);
    }
  }
}
