/** Python's whitespace, and `str.strip`. */
module Text {
  import opened Sorting

  predicate IsSpace(c: char) {
    || '\t' <= c <= '\r' || '\U{1c}' <= c <= ' ' || c == '\U{85}' || c == '\U{a0}' || c == '\U{1680}'
    || '\U{2000}' <= c <= '\U{200a}' || c == '\U{2028}' || c == '\U{2029}' || c == '\U{202f}' || c == '\U{205f}'
    || c == '\U{3000}'
  }

  function LStrip(s: string): string {
    if s != [] && IsSpace(s[0]) then LStrip(s[1..]) else s
  }

  function RStrip(s: string): string {
    if s != [] && IsSpace(s[|s|-1]) then RStrip(s[..|s|-1]) else s
  }

  function Strip(s: string): string {
    RStrip(LStrip(s))
  }

  lemma {:induction false} LStripResult(s: string)
    ensures var r := LStrip(s); (r != [] ==> !IsSpace(r[0])) && |r| <= |s| && r == s[|s|-|r|..]
    ensures forall k :: 0 <= k < |s| - |LStrip(s)| ==> IsSpace(s[k])
  {
    if s != [] && IsSpace(s[0]) {
      LStripResult(s[1..]);
    }
  }

  lemma {:induction false} RStripResult(s: string)
    ensures var r := RStrip(s); (r != [] ==> !IsSpace(r[|r|-1])) && |r| <= |s| && r == s[..|r|]
    ensures forall k :: |RStrip(s)| <= k < |s| ==> IsSpace(s[k])
  {
    if s != [] && IsSpace(s[|s|-1]) {
      RStripResult(s[..|s|-1]);
    }
  }

  lemma {:induction false} VisibleStartSurvives(s: string)
    requires s != [] && !IsSpace(s[0])
    ensures RStrip(s) != [] && LStrip(s) == s
  {
    if IsSpace(s[|s|-1]) {
      VisibleStartSurvives(s[..|s|-1]);
    }
  }

  /** A stripped text has no whitespace at either end. */
  lemma StripResult(s: string)
    ensures var r := Strip(s); (r != [] ==> !IsSpace(r[0]) && !IsSpace(r[|r|-1])) && |r| <= |s|
  {
    LStripResult(s);
    RStripResult(LStrip(s));
  }

  /** Stripping takes whitespace off both ends, and nothing else. */
  lemma StripTakesSpace(s: string)
    ensures exists lo: nat, hi: nat :: lo <= hi <= |s| && Strip(s) == s[lo..hi] && Blank(s[..lo]) && Blank(s[hi..])
  {
    var left := LStrip(s);
    LStripResult(s);
    RStripResult(left);
    var lo := |s| - |left|;
    var hi := lo + |Strip(s)|;
    assert Strip(s) == left[..|Strip(s)|] == s[lo..hi];
    forall k | hi <= k < |s| ensures IsSpace(s[k]) {
      assert left[k - lo] == s[k];
    }
    assert Blank(s[..lo]) && Blank(s[hi..]);
  }

  predicate Blank(s: string) {
    forall k :: 0 <= k < |s| ==> IsSpace(s[k])
  }

  /** Text without whitespace at its ends is already stripped, and only such text is. */
  lemma StripIsIdentityIff(s: string)
    ensures Strip(s) == s <==> (s == [] || (!IsSpace(s[0]) && !IsSpace(s[|s|-1])))
  {
    StripResult(s);
  }

  // ---------------------------------------------------------------- order

  predicate CodeBefore(a: char, b: char) {
    a < b
  }

  /** Lexicographic order by code point. */
  function StringOrder(): (less: (string, string) -> bool)
    ensures StrictTotal(less)
  {
    TuplesAreOrdered(CodeBefore);
    Lexicographic(CodeBefore)
  }

  /** At position k the texts first differ: a ends there, or has the smaller character. */
  ghost predicate FirstDiffers(a: string, b: string, k: nat) {
    k < |b| && k <= |a| && a[..k] == b[..k] && (k == |a| || a[k] < b[k])
  }

  lemma {:induction false} StringOrderIff(a: string, b: string)
    ensures StringOrder()(a, b) <==> exists k: nat :: FirstDiffers(a, b, k)
  {
    if a == "" || b == "" || a[0] != b[0] {
      if k: nat :| FirstDiffers(a, b, k) {
        assert k > 0 ==> a[..k][0] == b[..k][0];
      }
      assert StringOrder()(a, b) ==> FirstDiffers(a, b, 0);
    } else {
      StringOrderIff(a[1..], b[1..]);
      if k: nat :| FirstDiffers(a, b, k) {
        assert a[1..][..k-1] == a[..k][1..] && b[1..][..k-1] == b[..k][1..];
        assert FirstDiffers(a[1..], b[1..], k - 1);
      }
      if k: nat :| FirstDiffers(a[1..], b[1..], k) {
        assert a[..k+1] == [a[0]] + a[1..][..k] && b[..k+1] == [b[0]] + b[1..][..k];
        assert FirstDiffers(a, b, k + 1);
      }
    }
  }

  ghost predicate Ascending(s: seq<string>) {
    Increasing(s, StringOrder())
  }

  function SortedStrings(xs: seq<string>): (r: seq<string>)
    ensures Ascending(r) && forall x :: x in r <==> x in xs
  {
    SortedSet(xs, StringOrder())
  }

  lemma AscendingIsCanonical(a: seq<string>, b: seq<string>)
    requires Ascending(a) && Ascending(b) && forall x :: x in a <==> x in b
    ensures a == b
  {
    hide StringOrder;
    IncreasingIsCanonical(a, b, StringOrder());
  }

  lemma SortedStringsAreCanonical(xs: seq<string>, ys: seq<string>)
    requires forall x :: x in xs <==> x in ys
    ensures SortedStrings(xs) == SortedStrings(ys)
  {
    AscendingIsCanonical(SortedStrings(xs), SortedStrings(ys));
  }
}
