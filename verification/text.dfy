/** The handful of Go `strings`/`fmt` helpers the program relies on, over
    ASCII text: one `char` stands for one byte and for one rune. */
module Text {
  import opened Results

  /** The ASCII white space `strings.TrimSpace` removes. */
  predicate IsSpace(c: char) {
    c == ' ' || c == '\t' || c == '\n' || c == '\U{000B}' || c == '\U{000C}' || c == '\r'
  }

  /** Drops leading white space: the result is a suffix of `s` that does not
      start with white space, and everything dropped was white space. */
  function TrimLeft(s: string): (r: string)
    ensures |r| <= |s| && r == s[|s| - |r|..]
    ensures |r| == 0 || !IsSpace(r[0])
    ensures forall k :: 0 <= k < |s| - |r| ==> IsSpace(s[k])
    decreases |s|
  {
    if |s| > 0 && IsSpace(s[0]) then TrimLeft(s[1..]) else s
  }

  /** Drops trailing white space: the result is a prefix of `s` that does not
      end with white space, and everything dropped was white space. */
  function TrimRight(s: string): (r: string)
    ensures |r| <= |s| && r == s[..|r|]
    ensures |r| == 0 || !IsSpace(r[|r| - 1])
    ensures forall k :: |r| <= k < |s| ==> IsSpace(s[k])
    decreases |s|
  {
    if |s| > 0 && IsSpace(s[|s| - 1]) then TrimRight(s[..|s| - 1]) else s
  }

  /** `strings.TrimSpace`: the longest infix of `s` that neither starts nor ends
      with white space, with only white space cut off either side. */
  function TrimSpace(s: string): (r: string)
    ensures |r| == 0 || (!IsSpace(r[0]) && !IsSpace(r[|r| - 1]))
    ensures |r| <= |s|
    ensures IsTrimOf(r, s)
  {
    var l := TrimLeft(s);
    var r := TrimRight(l);
    TrimSpaceInfix(s, l, r);
    var i := |s| - |l|;
    assert r == s[i..i + |r|] && TrimmedAt(s, i, i + |r|);
    r
  }

  /** `r` is an infix of `s` with only white space around it. */
  predicate IsTrimOf(r: string, s: string) {
    exists i, j :: 0 <= i <= j <= |s| && r == s[i..j] && TrimmedAt(s, i, j)
  }

  /** Only white space lies before `i` and from `j` on. */
  predicate TrimmedAt(s: string, i: nat, j: nat)
    requires i <= j <= |s|
  {
    && (forall k :: 0 <= k < i ==> IsSpace(s[k]))
    && (forall k :: j <= k < |s| ==> IsSpace(s[k]))
  }

  /** Cutting white space off the front and then off the back leaves an
      infix with only white space around it. */
  lemma TrimSpaceInfix(s: string, l: string, r: string)
    requires |l| <= |s| && l == s[|s| - |l|..] && forall k :: 0 <= k < |s| - |l| ==> IsSpace(s[k])
    requires |r| <= |l| && r == l[..|r|] && forall k :: |r| <= k < |l| ==> IsSpace(l[k])
    ensures var i := |s| - |l|; r == s[i..i + |r|] && TrimmedAt(s, i, i + |r|)
  {
    var i := |s| - |l|;
    forall k | i + |r| <= k < |s| ensures IsSpace(s[k]) {
      assert s[k] == l[k - i];
    }
  }

  /** Trimming is idempotent. */
  lemma TrimSpaceIdempotent(s: string)
    ensures TrimSpace(TrimSpace(s)) == TrimSpace(s)
  {
    TrimSpaceOfTrimmed(TrimSpace(s));
  }

  /** A string with no surrounding white space is its own trim. */
  lemma TrimSpaceOfTrimmed(s: string)
    requires |s| == 0 || (!IsSpace(s[0]) && !IsSpace(s[|s| - 1]))
    ensures TrimSpace(s) == s
  {
    TrimLeftOfTrimmed(s);
    TrimRightOfTrimmed(s);
  }

  lemma TrimLeftOfTrimmed(s: string)
    requires |s| == 0 || !IsSpace(s[0])
    ensures TrimLeft(s) == s
  {
  }

  lemma TrimRightOfTrimmed(s: string)
    requires |s| == 0 || !IsSpace(s[|s| - 1])
    ensures TrimRight(s) == s
  {
  }

  /** Trimming ignores white space added on either side. */
  lemma {:induction false} TrimSpacePadded(pre: string, s: string, post: string)
    requires forall k :: 0 <= k < |pre| ==> IsSpace(pre[k])
    requires forall k :: 0 <= k < |post| ==> IsSpace(post[k])
    ensures TrimSpace(pre + s + post) == TrimSpace(s)
  {
    TrimLeftPadded(pre, s + post);
    assert pre + s + post == pre + (s + post);
    TrimLeftKeepsTail(s, post);
    var l := TrimLeft(s);
    TrimRightPadded(l, post);
  }

  lemma {:induction false} TrimLeftPadded(pre: string, s: string)
    requires forall k :: 0 <= k < |pre| ==> IsSpace(pre[k])
    ensures TrimLeft(pre + s) == TrimLeft(s)
    decreases |pre|
  {
    if |pre| > 0 {
      var t := pre + s;
      var tail := pre[1..];
      assert t[0] == pre[0] && IsSpace(t[0]);
      assert t[1..] == tail + s;
      TrimLeftPadded(tail, s);
    } else {
      assert pre + s == s;
    }
  }

  /** Appending white space after `s` appends it after `TrimLeft(s)` too,
      unless `s` is all white space. */
  lemma {:induction false} TrimLeftKeepsTail(s: string, post: string)
    requires forall k :: 0 <= k < |post| ==> IsSpace(post[k])
    ensures TrimLeft(s + post) == TrimLeft(s) + post || (TrimLeft(s) == [] && TrimLeft(s + post) == [])
    decreases |s|
  {
    if |s| > 0 {
      assert (s + post)[0] == s[0];
      if IsSpace(s[0]) {
        assert (s + post)[1..] == s[1..] + post;
        TrimLeftKeepsTail(s[1..], post);
      }
    } else {
      assert s + post == post;
      TrimLeftAllSpace(post);
    }
  }

  lemma {:induction false} TrimLeftAllSpace(s: string)
    requires forall k :: 0 <= k < |s| ==> IsSpace(s[k])
    ensures TrimLeft(s) == []
  {
  }

  lemma {:induction false} TrimRightPadded(s: string, post: string)
    requires forall k :: 0 <= k < |post| ==> IsSpace(post[k])
    ensures TrimRight(s + post) == TrimRight(s)
    decreases |post|
  {
    if |post| > 0 {
      var p := post[..|post| - 1];
      assert (s + post)[..|s + post| - 1] == s + p;
      TrimRightPadded(s, p);
    } else {
      assert s + post == s;
    }
  }

  predicate IsUpper(c: char) {
    'A' <= c <= 'Z'
  }

  /** ASCII `unicode.ToLower`. */
  function LowerChar(c: char): char {
    if IsUpper(c) then (c as int + 32) as char else c
  }

  /** `strings.ToLower` over ASCII: same length, every upper-case letter
      replaced by the letter 32 code points above it and nothing else
      touched, so that no upper-case letter is left. */
  function ToLower(s: string): (r: string)
    ensures |r| == |s|
    ensures forall k :: 0 <= k < |s| && IsUpper(s[k]) ==> r[k] as int == s[k] as int + 32
    ensures forall k :: 0 <= k < |s| && !IsUpper(s[k]) ==> r[k] == s[k]
    ensures forall k :: 0 <= k < |r| ==> !IsUpper(r[k])
  {
    seq(|s|, k requires 0 <= k < |s| => LowerChar(s[k]))
  }

  /** Lowering twice is lowering once. */
  lemma ToLowerIdempotent(s: string)
    ensures ToLower(ToLower(s)) == ToLower(s)
  {
  }

  /** ASCII `strings.EqualFold`: the same length, and at every position the
      same byte or the two cases of one letter. */
  predicate EqualFold(a: string, b: string) {
    |a| == |b| && forall k :: 0 <= k < |a| ==> SameIgnoringCase(a[k], b[k])
  }

  predicate SameIgnoringCase(x: char, y: char) {
    || x == y
    || (IsUpper(x) && y as int == x as int + 32)
    || (IsUpper(y) && x as int == y as int + 32)
  }

  /** Lowering `t` gives a lower-case word exactly when `t` equals that word
      up to case. */
  lemma LowerIsEqualFold(t: string, w: string)
    requires forall k :: 0 <= k < |w| ==> !IsUpper(w[k])
    ensures ToLower(t) == w <==> EqualFold(t, w)
  {
    var l := ToLower(t);
    if EqualFold(t, w) {
      forall k | 0 <= k < |w| ensures l[k] == w[k] {
        assert SameIgnoringCase(t[k], w[k]);
      }
      assert l == w;
    }
    if l == w {
      forall k | 0 <= k < |t| ensures SameIgnoringCase(t[k], w[k]) {
        assert l[k] == w[k];
      }
    }
  }

  // ---------------------------------------------------------------------
  // Occurrences and `strings.Replace(s, pat, rep, -1)`

  /** `sub` occurs somewhere in `s` (checked at every start position). */
  predicate Occurs(s: string, sub: string)
    decreases |s|
  {
    |sub| <= |s| && (s[..|sub|] == sub || (|s| > 0 && Occurs(s[1..], sub)))
  }

  /** `s` with `fill` written after each of its characters. */
  function AfterEach(s: string, fill: string): (r: string)
    ensures |r| == |s| * (1 + |fill|)
    decreases |s|
  {
    if |s| == 0 then [] else [s[0]] + fill + AfterEach(s[1..], fill)
  }

  /** The number of leftmost non-overlapping occurrences of a non-empty `pat`. */
  function Count(s: string, pat: string): nat
    requires |pat| > 0
    decreases |s|
  {
    if |s| < |pat| then 0
    else if s[..|pat|] == pat then 1 + Count(s[|pat|..], pat)
    else Count(s[1..], pat)
  }

  /** `strings.Replace(s, pat, rep, -1)`. A non-empty `pat` is replaced at
      every leftmost non-overlapping occurrence, scanning left to right; an
      empty `pat` matches before every character and at the end, so `rep` is
      inserted at the start and after every character. */
  function Replace(s: string, pat: string, rep: string): string
    decreases |s|
  {
    if |pat| == 0 then rep + AfterEach(s, rep)
    else if |s| < |pat| then s
    else if s[..|pat|] == pat then rep + Replace(s[|pat|..], pat, rep)
    else [s[0]] + Replace(s[1..], pat, rep)
  }

  /** Every replacement changes the length by `|rep| - |pat|`. */
  lemma {:induction false} ReplaceLength(s: string, pat: string, rep: string)
    requires |pat| > 0
    ensures |Replace(s, pat, rep)| == |s| + Count(s, pat) * (|rep| - |pat|)
    decreases |s|
  {
    var d := |rep| - |pat|;
    if |s| < |pat| {
      assert Replace(s, pat, rep) == s && Count(s, pat) == 0;
    } else if s[..|pat|] == pat {
      var rest := s[|pat|..];
      ReplaceLength(rest, pat, rep);
      var c := Count(rest, pat);
      assert Replace(s, pat, rep) == rep + Replace(rest, pat, rep);
      assert Count(s, pat) == 1 + c;
      Distribute(c, d);
    } else {
      ReplaceLength(s[1..], pat, rep);
      assert Replace(s, pat, rep) == [s[0]] + Replace(s[1..], pat, rep);
      assert Count(s, pat) == Count(s[1..], pat);
    }
  }

  lemma Distribute(c: int, d: int)
    ensures (1 + c) * d == d + c * d
  {
  }

  /** A non-empty `pat` has a non-overlapping occurrence exactly when it occurs. */
  lemma {:induction false} CountPositive(s: string, pat: string)
    requires |pat| > 0
    ensures Count(s, pat) > 0 <==> Occurs(s, pat)
    decreases |s|
  {
    if |s| < |pat| {
    } else if s[..|pat|] == pat {
    } else {
      CountPositive(s[1..], pat);
    }
  }

  /** Replacing a non-empty string that does not occur changes nothing. */
  lemma {:induction false} ReplaceAbsent(s: string, pat: string, rep: string)
    requires |pat| > 0 && !Occurs(s, pat)
    ensures Replace(s, pat, rep) == s
    decreases |s|
  {
    if |s| >= |pat| {
      ReplaceAbsent(s[1..], pat, rep);
      assert s == [s[0]] + s[1..];
    }
  }

  /** Replacing a string by itself changes nothing. */
  lemma {:induction false} ReplaceIdentity(s: string, pat: string)
    ensures Replace(s, pat, pat) == s
    decreases |s|
  {
    if |pat| == 0 {
      AfterEachEmpty(s);
    } else if |s| < |pat| {
    } else if s[..|pat|] == pat {
      ReplaceIdentity(s[|pat|..], pat);
      assert s == s[..|pat|] + s[|pat|..];
    } else {
      ReplaceIdentity(s[1..], pat);
      assert s == [s[0]] + s[1..];
    }
  }

  lemma {:induction false} AfterEachEmpty(s: string)
    ensures AfterEach(s, "") == s
    decreases |s|
  {
    if |s| > 0 {
      AfterEachEmpty(s[1..]);
      assert s == [s[0]] + s[1..];
    }
  }

  /** When `pat` is non-empty and differs from `rep`, the replacement leaves
      the text unchanged exactly when `pat` does not occur in it: comparing
      the text before and after detects the "not found" case and only it. */
  lemma ReplaceUnchangedIffAbsent(s: string, pat: string, rep: string)
    requires |pat| > 0 && pat != rep
    ensures Replace(s, pat, rep) == s <==> !Occurs(s, pat)
  {
    if Occurs(s, pat) {
      ReplacePresentChanges(s, pat, rep);
    } else {
      ReplaceAbsent(s, pat, rep);
    }
  }

  lemma ReplacePresentChanges(s: string, pat: string, rep: string)
    requires |pat| > 0 && pat != rep && Occurs(s, pat)
    ensures Replace(s, pat, rep) != s
  {
    if |rep| != |pat| {
      ReplaceLength(s, pat, rep);
      CountPositive(s, pat);
      NonZeroProduct(Count(s, pat), |rep| - |pat|);
    } else {
      SameLengthReplaceChanges(s, pat, rep);
    }
  }

  lemma NonZeroProduct(c: int, d: int)
    requires c > 0 && d != 0
    ensures c * d != 0
  {
    if d > 0 { assert c * d >= d; } else { assert c * d <= d; }
  }

  lemma {:induction false} SameLengthReplaceChanges(s: string, pat: string, rep: string)
    requires |pat| > 0 && pat != rep && |rep| == |pat| && Occurs(s, pat)
    ensures Replace(s, pat, rep) != s
    decreases |s|
  {
    var r := Replace(s, pat, rep);
    if s[..|pat|] == pat {
      assert r == rep + Replace(s[|pat|..], pat, rep);
      assert r[..|pat|] == rep;
    } else {
      SameLengthReplaceChanges(s[1..], pat, rep);
      assert r == [s[0]] + Replace(s[1..], pat, rep);
      assert r[1..] == Replace(s[1..], pat, rep);
    }
  }

  /** An empty `pat` with a non-empty `rep` always changes the text. */
  lemma ReplaceEmptyOldChanges(s: string, rep: string)
    requires |rep| > 0
    ensures Replace(s, "", rep) != s
    ensures |Replace(s, "", rep)| == |s| + (|s| + 1) * |rep|
  {
  }

  // ---------------------------------------------------------------------
  // Ordering of names (Go's byte-wise string comparison)

  /** Strict lexicographic order on strings. */
  predicate Below(a: string, b: string)
    decreases |a|
  {
    |b| > 0 && (|a| == 0 || a[0] < b[0] || (a[0] == b[0] && Below(a[1..], b[1..])))
  }

  lemma {:induction false} BelowIrreflexive(a: string)
    ensures !Below(a, a)
    decreases |a|
  {
    if |a| > 0 {
      BelowIrreflexive(a[1..]);
    }
  }

  lemma {:induction false} BelowTransitive(a: string, b: string, c: string)
    requires Below(a, b) && Below(b, c)
    ensures Below(a, c)
    decreases |a|
  {
    if |a| > 0 && a[0] == b[0] && b[0] == c[0] {
      BelowTransitive(a[1..], b[1..], c[1..]);
    }
  }

  lemma {:induction false} BelowTotal(a: string, b: string)
    requires a != b
    ensures Below(a, b) || Below(b, a)
    decreases |a|
  {
    if |a| > 0 && |b| > 0 && a[0] == b[0] {
      assert a == [a[0]] + a[1..] && b == [b[0]] + b[1..];
      BelowTotal(a[1..], b[1..]);
    }
  }

  // ---------------------------------------------------------------------
  // `fmt.Sscanf(s, "%d", &n)`

  predicate IsDigit(c: char) {
    '0' <= c <= '9'
  }

  /** The number of leading decimal digits of `s`. */
  function DigitRun(s: string): (n: nat)
    ensures n <= |s|
    ensures forall k :: 0 <= k < n ==> IsDigit(s[k])
    ensures n == |s| || !IsDigit(s[n])
    decreases |s|
  {
    if |s| > 0 && IsDigit(s[0]) then 1 + DigitRun(s[1..]) else 0
  }

  /** The value of a string of decimal digits. */
  function DecimalValue(digits: string): nat
    requires forall k :: 0 <= k < |digits| ==> IsDigit(digits[k])
    decreases |digits|
  {
    if |digits| == 0 then 0
    else
      assert IsDigit(digits[|digits| - 1]);
      10 * DecimalValue(digits[..|digits| - 1]) + (digits[|digits| - 1] as int - '0' as int)
  }

  const MinInt64: int := -0x8000_0000_0000_0000
  const MaxInt64: int := 0x7FFF_FFFF_FFFF_FFFF

  /** `fmt.Sscanf(s, "%d", &n)` on a string with no leading white space:
      an optional sign and at least one decimal digit, ignoring whatever
      follows the digits; `None` when there are no digits or the value does
      not fit in 64 bits (the scanner's parse error). */
  function ScanInt(s: string): (r: Option<int>)
    ensures r.Some? ==> MinInt64 <= r.value <= MaxInt64
    ensures r.Some? ==> exists k :: 0 <= k < |s| && IsDigit(s[k])
  {
    var signed := |s| > 0 && (s[0] == '+' || s[0] == '-');
    var body := if signed then s[1..] else s;
    var n := DigitRun(body);
    if n == 0 then None
    else
      var magnitude: int := DecimalValue(body[..n]);
      var v: int := if signed && s[0] == '-' then -magnitude else magnitude;
      if MinInt64 <= v <= MaxInt64 then
        assert IsDigit(body[0]);
        assert if signed then IsDigit(s[1]) else IsDigit(s[0]);
        Some(v)
      else None
  }

  /** `%d` reads decimal digits only: whatever follows the first non-digit
      byte (an underscore, the `x` of a base prefix, a letter) is ignored. */
  lemma ScanStopsAtNonDigit(d: string, rest: string)
    requires 0 < |d| && forall k :: 0 <= k < |d| ==> IsDigit(d[k])
    requires DecimalValue(d) <= MaxInt64
    requires |rest| > 0 && !IsDigit(rest[0])
    ensures ScanInt(d + rest) == Some(DecimalValue(d))
  {
    DigitRunOfDigitsThen(d, rest);
    assert (d + rest)[..|d|] == d;
    assert (d + rest)[0] == d[0];
  }

  /** The two inputs where `%d` differs from a full numeral parse: an
      underscore and a base prefix both end the numeral. */
  lemma UnderscoreEndsNumeral()
    ensures ScanInt("1_0") == Some(1)
    ensures ScanInt("0x1") == Some(0)
  {
    ScanStopsAtNonDigit("1", "_0");
    assert "1" + "_0" == "1_0";
    ScanStopsAtNonDigit("0", "x1");
    assert "0" + "x1" == "0x1";
  }

  lemma {:induction false} DigitRunOfDigitsThen(d: string, rest: string)
    requires forall k :: 0 <= k < |d| ==> IsDigit(d[k])
    requires |rest| == 0 || !IsDigit(rest[0])
    ensures DigitRun(d + rest) == |d|
    decreases |d|
  {
    if |d| > 0 {
      assert (d + rest)[0] == d[0];
      assert (d + rest)[1..] == d[1..] + rest;
      DigitRunOfDigitsThen(d[1..], rest);
    } else {
      assert d + rest == rest;
    }
  }

  /** Scanning a plain decimal numeral returns its value. */
  lemma ScanDecimal(s: string)
    requires 0 < |s| && forall k :: 0 <= k < |s| ==> IsDigit(s[k])
    requires DecimalValue(s) <= MaxInt64
    ensures ScanInt(s) == Some(DecimalValue(s))
  {
    assert DigitRun(s) == |s|;
    assert s[..|s|] == s;
  }
}
