// Byte strings: search, cutting at a separator, and bytewise order.
module Strings {

  function IndexByte(s: string, c: char): (i: int)
    ensures -1 <= i < |s|
    ensures i >= 0 ==> s[i] == c && c !in s[..i]
    ensures i < 0 ==> c !in s
  {
    if s == "" then -1
    else if s[0] == c then 0
    else
      var i := IndexByte(s[1..], c);
      if i < 0 then -1 else
        assert s[..i + 1] == [s[0]] + s[1..][..i];
        i + 1
  }

  lemma {:induction false} IndexOfFirst(a: string, c: char, b: string)
    requires c !in a
    ensures IndexByte(a + [c] + b, c) == |a|
  {
    var s := a + [c] + b;
    if a == "" {
      assert s[0] == c;
    } else {
      assert s[0] == a[0];
      assert s[1..] == a[1..] + [c] + b;
      IndexOfFirst(a[1..], c, b);
    }
  }

  lemma SplitAtFirst(s: string, c: char)
    requires IndexByte(s, c) >= 0
    ensures var i := IndexByte(s, c); s == s[..i] + [c] + s[i + 1..]
  {
  }

  lemma CutAt(a: string, c: char, b: string)
    ensures (a + [c] + b)[..|a|] == a && (a + [c] + b)[|a| + 1..] == b
  {
  }

  /** Bytewise comparison, as strings.Compare: -1, 0 or 1. */
  function StringCompare(a: string, b: string): int {
    if a == "" && b == "" then 0
    else if a == "" then -1
    else if b == "" then 1
    else if a[0] < b[0] then -1
    else if a[0] > b[0] then 1
    else StringCompare(a[1..], b[1..])
  }

  function Sign(a: int, b: int): int {
    if a < b then -1 else if a > b then 1 else 0
  }

  lemma {:induction false} CompareSnoc(a: string, b: string, x: char, y: char)
    requires |a| == |b|
    ensures StringCompare(a + [x], b + [y]) ==
            if StringCompare(a, b) != 0 then StringCompare(a, b) else Sign(x as int, y as int)
  {
    if a == "" {
      assert a + [x] == [x] && b + [y] == [y];
      assert [x][1..] == "" && [y][1..] == "";
    } else {
      assert (a + [x])[1..] == a[1..] + [x] && (b + [y])[1..] == b[1..] + [y];
      CompareSnoc(a[1..], b[1..], x, y);
    }
  }

  lemma {:induction false} StringCompareLaws(a: string, b: string)
    ensures StringCompare(b, a) == -StringCompare(a, b)
    ensures StringCompare(a, b) == 0 <==> a == b
    decreases |a|
  {
    if a != "" && b != "" && a[0] == b[0] {
      StringCompareLaws(a[1..], b[1..]);
      assert a == [a[0]] + a[1..] && b == [b[0]] + b[1..];
    }
  }

  lemma {:induction false} StringCompareTransitive(a: string, b: string, c: string)
    requires StringCompare(a, b) <= 0 && StringCompare(b, c) <= 0
    ensures StringCompare(a, c) <= 0
    ensures StringCompare(a, b) < 0 || StringCompare(b, c) < 0 ==> StringCompare(a, c) < 0
    decreases |a|
  {
    if a != "" && b != "" && c != "" && a[0] == b[0] == c[0] {
      StringCompareTransitive(a[1..], b[1..], c[1..]);
    }
  }

  /** `a` and `b` agree up to `k`, where `a` ends or has the smaller byte. */
  predicate Below(a: string, b: string, k: int) {
    && 0 <= k <= |a| && k < |b| && (forall i | 0 <= i < k :: a[i] == b[i])
    && (k == |a| || a[k] < b[k])
  }

  /** The comparison is the lexical order of the bytes. */
  lemma {:induction false} LexicalOrder(a: string, b: string)
    ensures StringCompare(a, b) < 0 <==> exists k :: Below(a, b, k)
    decreases |a|
  {
    if a == "" || b == "" || a[0] != b[0] {
      assert StringCompare(a, b) < 0 ==> Below(a, b, 0);
    } else {
      LexicalOrder(a[1..], b[1..]);
      if k :| Below(a[1..], b[1..], k) {
        assert forall i | 0 < i <= k :: a[i] == a[1..][i - 1] && b[i] == b[1..][i - 1];
        assert Below(a, b, k + 1);
      }
      if k :| Below(a, b, k) {
        assert Below(a[1..], b[1..], k - 1);
      }
    }
  }
}
