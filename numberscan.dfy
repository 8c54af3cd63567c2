/**
 * The number scanner of the salary normaliser: Python's
 * `re.findall(r'\d{1,3}(?:,\d{3})*(?:\.\d+)?', text)` written out as an
 * explicit left-to-right matcher, together with
 *  - the pattern itself as a grammar predicate (`IsNumberToken`),
 *  - the proof that the matcher's greedy match at a position is the longest
 *    token starting there, and
 *  - the proof that the scan returns the leftmost-longest, non-overlapping
 *    tokens of the text, which is what `findall` promises for a pattern that
 *    never matches the empty string;
 * and the conversion `float(token.replace(",", ""))` as an exact `real`.
 */
module NumberScan {

  /** `\d`, restricted to the ASCII digits. */
  predicate IsDigit(c: char)
  {
    '0' <= c <= '9'
  }

  predicate AllDigits(s: string)
  {
    forall i :: 0 <= i < |s| ==> IsDigit(s[i])
  }

  // ---------------------------------------------------------------------
  // The pattern as a grammar
  // ---------------------------------------------------------------------

  /** `(?:\.\d+)?` matches all of `r`. */
  predicate IsFraction(r: string)
  {
    r == [] || (2 <= |r| && r[0] == '.' && AllDigits(r[1..]))
  }

  /** `(?:,\d{3})*(?:\.\d+)?` matches all of `r`. */
  predicate IsTail(r: string)
    decreases |r|
  {
    IsFraction(r) || (4 <= |r| && r[0] == ',' && AllDigits(r[1..4]) && IsTail(r[4..]))
  }

  /** `t` starts with exactly `d` digits matched by `\d{1,3}` and the rest is a tail. */
  predicate HasHead(t: string, d: nat)
  {
    d <= |t| && AllDigits(t[..d]) && IsTail(t[d..])
  }

  /** The whole pattern `\d{1,3}(?:,\d{3})*(?:\.\d+)?` matches all of `t`. */
  predicate IsNumberToken(t: string)
  {
    HasHead(t, 1) || HasHead(t, 2) || HasHead(t, 3)
  }

  /** Every token starts with a digit, so a match can only begin at a digit. */
  lemma TokenStartsWithDigit(t: string)
    requires IsNumberToken(t)
    ensures t != [] && IsDigit(t[0])
  {
    var d := if HasHead(t, 1) then 1 else if HasHead(t, 2) then 2 else 3;
    assert t[..d][0] == t[0];
  }

  // ---------------------------------------------------------------------
  // The matcher: what the backtracking engine does at one position
  // ---------------------------------------------------------------------

  /** Greedy `\d*` from `j`: the end of the run of digits starting there. */
  function DigitsEnd(s: string, j: nat): (e: nat)
    requires j <= |s|
    ensures j <= e <= |s|
    ensures forall k :: j <= k < e ==> IsDigit(s[k])
    ensures e == |s| || !IsDigit(s[e])
    decreases |s| - j
  {
    if j < |s| && IsDigit(s[j]) then DigitsEnd(s, j + 1) else j
  }

  /** Greedy `\d{1,3}` at a digit: up to three digits. */
  function HeadEnd(s: string, i: nat): (e: nat)
    requires i < |s| && IsDigit(s[i])
    ensures i < e <= i + 3 && e <= |s|
    ensures forall k :: i <= k < e ==> IsDigit(s[k])
    ensures e == i + 3 || e == |s| || !IsDigit(s[e])
  {
    if i + 1 < |s| && IsDigit(s[i + 1]) then
      if i + 2 < |s| && IsDigit(s[i + 2]) then i + 3 else i + 2
    else i + 1
  }

  /** `s[j..j + 4]` is one thousands group `,ddd`. */
  predicate GroupAt(s: string, j: nat)
  {
    j + 4 <= |s| && s[j] == ',' && IsDigit(s[j + 1]) && IsDigit(s[j + 2]) && IsDigit(s[j + 3])
  }

  /** Greedy `(?:,\d{3})*` from `j`. */
  function GroupsEnd(s: string, j: nat): (e: nat)
    requires j <= |s|
    ensures j <= e <= |s|
    decreases |s| - j
  {
    if GroupAt(s, j) then GroupsEnd(s, j + 4) else j
  }

  /** Greedy `(?:\.\d+)?` from `j`. */
  function FractionEnd(s: string, j: nat): (e: nat)
    requires j <= |s|
    ensures j <= e <= |s|
  {
    if j + 1 < |s| && s[j] == '.' && IsDigit(s[j + 1]) then DigitsEnd(s, j + 1) else j
  }

  /** Greedy `(?:,\d{3})*(?:\.\d+)?` from `j`. */
  function TailEnd(s: string, j: nat): (e: nat)
    requires j <= |s|
    ensures j <= e <= |s|
  {
    FractionEnd(s, GroupsEnd(s, j))
  }

  /** End of the match the regular-expression engine reports at digit `s[i]`. */
  function MatchEnd(s: string, i: nat): (e: nat)
    requires i < |s| && IsDigit(s[i])
    ensures i < e <= |s|
  {
    TailEnd(s, HeadEnd(s, i))
  }

  // ---------------------------------------------------------------------
  // Greedy is longest
  // ---------------------------------------------------------------------

  lemma FractionSound(s: string, j: nat)
    requires j <= |s|
    ensures IsFraction(s[j..FractionEnd(s, j)])
  {
    var e := FractionEnd(s, j);
    if e > j {
      assert s[j..e][1..] == s[j + 1..e];
    }
  }

  lemma FractionLongest(s: string, j: nat, e: nat)
    requires j <= e <= |s| && IsFraction(s[j..e])
    ensures e <= FractionEnd(s, j)
  {
    if e > j {
      var r := s[j..e];
      assert r[1] == s[j + 1];
      forall k | j + 1 <= k < e ensures IsDigit(s[k]) {
        assert s[k] == r[1..][k - j - 1];
      }
    }
  }

  lemma {:induction false} TailSound(s: string, j: nat)
    requires j <= |s|
    ensures IsTail(s[j..TailEnd(s, j)])
    decreases |s| - j
  {
    var e := TailEnd(s, j);
    if GroupAt(s, j) {
      TailSound(s, j + 4);
      var r := s[j..e];
      assert r[4..] == s[j + 4..e];
      assert r[1..4] == s[j + 1..j + 4];
    } else {
      FractionSound(s, j);
    }
  }

  lemma {:induction false} TailLongest(s: string, j: nat, e: nat)
    requires j <= e <= |s| && IsTail(s[j..e])
    ensures e <= TailEnd(s, j)
    decreases |s| - j
  {
    var r := s[j..e];
    if IsFraction(r) {
      if e > j {
        assert s[j] == r[0];
        FractionLongest(s, j, e);
      }
    } else {
      assert r[1..4] == s[j + 1..j + 4];
      assert s[j + 1] == r[1..4][0] && s[j + 2] == r[1..4][1] && s[j + 3] == r[1..4][2];
      assert GroupAt(s, j);
      assert r[4..] == s[j + 4..e];
      TailLongest(s, j + 4, e);
    }
  }

  /** A non-empty tail starts with a group separator or a decimal point. */
  lemma TailStartsWithSeparator(r: string)
    requires IsTail(r) && r != []
    ensures r[0] == ',' || r[0] == '.'
  {
  }

  /** No token starting at digit `s[i]` reaches past the greedy match. */
  lemma TokenWithinMatch(s: string, i: nat, e: nat)
    requires i < |s| && IsDigit(s[i]) && i < e <= |s|
    ensures IsNumberToken(s[i..e]) ==> e <= MatchEnd(s, i)
  {
    if IsNumberToken(s[i..e]) {
      var h := HeadEnd(s, i);
      var t := s[i..e];
      var d := if HasHead(t, 1) then 1 else if HasHead(t, 2) then 2 else 3;
      assert HasHead(t, d);
      assert t[d..] == s[i + d..e];
      forall k | i <= k < i + d ensures IsDigit(s[k]) {
        assert t[..d][k - i] == s[k];
      }
      if i + d < e {
        TailStartsWithSeparator(s[i + d..e]);
        assert s[i + d..e][0] == s[i + d];
      }
      if i + d == h {
        TailLongest(s, h, e);
      }
    }
  }

  /** The match found at a digit is a token, and no longer token starts there. */
  lemma MatchIsLongestToken(s: string, i: nat)
    requires i < |s| && IsDigit(s[i])
    ensures LongestTokenAt(s, i, MatchEnd(s, i))
  {
    var h := HeadEnd(s, i);
    var m := MatchEnd(s, i);
    TailSound(s, h);
    assert s[i..m][..h - i] == s[i..h];
    assert s[i..m][h - i..] == s[h..m];
    assert HasHead(s[i..m], h - i);
    forall e | m < e <= |s| ensures !IsNumberToken(s[i..e]) {
      TokenWithinMatch(s, i, e);
    }
  }

  // ---------------------------------------------------------------------
  // findall
  // ---------------------------------------------------------------------

  /** Where one match lies in the scanned text. */
  datatype Span = Span(start: nat, end: nat)

  /** No token of the pattern starts anywhere in `s[a..b]`. */
  ghost predicate NoTokenStartsIn(s: string, a: nat, b: nat)
  {
    forall p, e :: a <= p < b && p < e <= |s| ==> !IsNumberToken(s[p..e])
  }

  /** `s[a..e]` is a token and no longer token starts at `a`. */
  ghost predicate LongestTokenAt(s: string, a: nat, e: nat)
  {
    a < e <= |s| && IsNumberToken(s[a..e]) &&
    forall e' :: e < e' <= |s| ==> !IsNumberToken(s[a..e'])
  }

  /** What `findall` promises, from position `i` on: each match is the
      leftmost place at or after the previous match's end where a token
      starts, it extends as far as a token can, and after the last match no
      token starts at all. */
  ghost predicate LeftmostLongest(s: string, i: nat, spans: seq<Span>)
    decreases |spans|
  {
    if spans == [] then i <= |s| && NoTokenStartsIn(s, i, |s|)
    else
      i <= spans[0].start && NoTokenStartsIn(s, i, spans[0].start) &&
      LongestTokenAt(s, spans[0].start, spans[0].end) &&
      LeftmostLongest(s, spans[0].end, spans[1..])
  }

  /** The scan from position `i` on, matching at each digit and skipping
      everything else. */
  function SpansFrom(s: string, i: nat): (spans: seq<Span>)
    requires i <= |s|
    ensures forall k :: 0 <= k < |spans| ==> i <= spans[k].start < spans[k].end <= |s|
    decreases |s| - i
  {
    if i == |s| then []
    else if IsDigit(s[i]) then [Span(i, MatchEnd(s, i))] + SpansFrom(s, MatchEnd(s, i))
    else SpansFrom(s, i + 1)
  }

  /** The scan passes over characters that are not digits. */
  lemma {:induction false} SkipNonDigits(s: string, i: nat, j: nat)
    requires i <= j <= |s|
    requires forall k :: i <= k < j ==> !IsDigit(s[k])
    ensures SpansFrom(s, i) == SpansFrom(s, j)
    decreases j - i
  {
    if i < j {
      SkipNonDigits(s, i + 1, j);
    }
  }

  /** The scan satisfies the `findall` characterisation. */
  lemma {:induction false} SpansFromLeftmostLongest(s: string, i: nat)
    requires i <= |s|
    ensures LeftmostLongest(s, i, SpansFrom(s, i))
    decreases |s| - i
  {
    if i == |s| {
    } else if IsDigit(s[i]) {
      MatchIsLongestToken(s, i);
      SpansFromLeftmostLongest(s, MatchEnd(s, i));
      assert SpansFrom(s, i)[1..] == SpansFrom(s, MatchEnd(s, i));
    } else {
      SpansFromLeftmostLongest(s, i + 1);
      forall e | i < e <= |s| ensures !IsNumberToken(s[i..e]) {
        if IsNumberToken(s[i..e]) {
          TokenStartsWithDigit(s[i..e]);
        }
      }
      var sp := SpansFrom(s, i + 1);
      if sp != [] {
        assert NoTokenStartsIn(s, i, sp[0].start);
      } else {
        assert NoTokenStartsIn(s, i, |s|);
      }
    }
  }

  /** The characterisation pins the matches down: at most one list of spans meets it. */
  lemma {:induction false} LeftmostLongestUnique(s: string, i: nat, a: seq<Span>, b: seq<Span>)
    requires LeftmostLongest(s, i, a) && LeftmostLongest(s, i, b)
    ensures a == b
    decreases |a|
  {
    if a != [] && b != [] {
      assert a[0] == b[0];
      LeftmostLongestUnique(s, a[0].end, a[1..], b[1..]);
    }
  }

  /** Every span lies inside `s` and is non-empty. */
  ghost predicate SpansInside(s: string, spans: seq<Span>)
  {
    forall k :: 0 <= k < |spans| ==> spans[k].start < spans[k].end <= |s|
  }

  lemma {:induction false} LeftmostLongestInside(s: string, i: nat, spans: seq<Span>)
    requires LeftmostLongest(s, i, spans)
    ensures SpansInside(s, spans)
    decreases |spans|
  {
    if spans != [] {
      LeftmostLongestInside(s, spans[0].end, spans[1..]);
    }
  }

  /** The text of each span, in order. */
  function Substrings(s: string, spans: seq<Span>): (r: seq<string>)
    requires forall k :: 0 <= k < |spans| ==> spans[k].start <= spans[k].end <= |s|
    ensures |r| == |spans|
    ensures forall k :: 0 <= k < |spans| ==> r[k] == s[spans[k].start..spans[k].end]
  {
    seq(|spans|, k requires 0 <= k < |spans| => s[spans[k].start..spans[k].end])
  }

  /** The strings `re.findall` returns, left to right. */
  function FindAll(s: string): (tokens: seq<string>)
  {
    Substrings(s, SpansFrom(s, 0))
  }

  /** `findall` returns exactly the text of the leftmost-longest matches. */
  lemma FindAllIsLeftmostLongest(s: string, spans: seq<Span>)
    requires LeftmostLongest(s, 0, spans)
    ensures SpansInside(s, spans)
    ensures FindAll(s) == Substrings(s, spans)
  {
    LeftmostLongestInside(s, 0, spans);
    SpansFromLeftmostLongest(s, 0);
    LeftmostLongestUnique(s, 0, spans, SpansFrom(s, 0));
  }

  /** Every string `findall` returns is a token of the pattern. */
  lemma FindAllTokens(s: string)
    ensures forall k :: 0 <= k < |FindAll(s)| ==> IsNumberToken(FindAll(s)[k])
  {
    SpansFromLeftmostLongest(s, 0);
    LeftmostLongestTokens(s, 0, SpansFrom(s, 0));
  }

  lemma {:induction false} LeftmostLongestTokens(s: string, i: nat, spans: seq<Span>)
    requires LeftmostLongest(s, i, spans)
    ensures forall k :: 0 <= k < |spans| ==>
      spans[k].start < spans[k].end <= |s| && IsNumberToken(s[spans[k].start..spans[k].end])
    decreases |spans|
  {
    if spans != [] {
      LeftmostLongestTokens(s, spans[0].end, spans[1..]);
      forall k | 0 < k < |spans|
        ensures spans[k].start < spans[k].end <= |s| && IsNumberToken(s[spans[k].start..spans[k].end])
      {
        assert spans[k] == spans[1..][k - 1];
      }
    }
  }

  // ---------------------------------------------------------------------
  // float(token.replace(",", ""))
  // ---------------------------------------------------------------------

  /** `t.replace(",", "")` */
  function RemoveCommas(t: string): (u: string)
    ensures |u| <= |t|
    ensures forall k :: 0 <= k < |u| ==> u[k] != ','
  {
    if t == [] then []
    else if t[0] == ',' then RemoveCommas(t[1..])
    else [t[0]] + RemoveCommas(t[1..])
  }

  /** Dropping commas works piece by piece. */
  lemma {:induction false} RemoveCommasConcat(a: string, b: string)
    ensures RemoveCommas(a + b) == RemoveCommas(a) + RemoveCommas(b)
  {
    if a == [] {
      assert a + b == b;
    } else {
      assert (a + b)[0] == a[0];
      assert (a + b)[1..] == a[1..] + b;
      RemoveCommasConcat(a[1..], b);
    }
  }

  /** Text without commas is left as it is. */
  lemma {:induction false} RemoveCommasNone(t: string)
    requires forall k :: 0 <= k < |t| ==> t[k] != ','
    ensures RemoveCommas(t) == t
  {
    if t != [] {
      RemoveCommasNone(t[1..]);
    }
  }

  function DigitValue(c: char): (v: nat)
    ensures v <= 9
  {
    if IsDigit(c) then c as int - '0' as int else 0
  }

  /** The value of a decimal digit string, most significant digit first. */
  function NatOf(ds: string): nat
  {
    if ds == [] then 0 else NatOf(ds[..|ds| - 1]) * 10 + DigitValue(ds[|ds| - 1])
  }

  /** Appending digits shifts the value left by their count. */
  lemma {:induction false} NatOfConcat(a: string, b: string)
    ensures NatOf(a + b) == NatOf(a) * Pow10(|b|) + NatOf(b)
  {
    if b == [] {
      assert a + b == a;
    } else {
      var b' := b[..|b| - 1];
      var d := DigitValue(b[|b| - 1]);
      assert (a + b)[..|a + b| - 1] == a + b';
      assert (a + b)[|a + b| - 1] == b[|b| - 1];
      assert NatOf(a + b) == NatOf(a + b') * 10 + d;
      assert NatOf(b) == NatOf(b') * 10 + d;
      assert Pow10(|b|) == Pow10(|b'|) * 10;
      NatOfConcat(a, b');
      ShiftDigit(NatOf(a), Pow10(|b'|), NatOf(b'), d);
    }
  }

  lemma ShiftDigit(x: int, p: int, y: int, d: int)
    ensures (x * p + y) * 10 + d == x * (p * 10) + (y * 10 + d)
  {
  }

  /** A token made of a leading digit block and one thousands group,
      such as "80,000", has the value the digits spell. */
  lemma OneGroupValue(head: string, group: string)
    requires AllDigits(head) && AllDigits(group) && |group| == 3
    ensures TokenValue(head + "," + group) == (NatOf(head) * 1000 + NatOf(group)) as real
  {
    DropGroupComma(head, group);
    WholeValue(head + group);
    NatOfConcat(head, group);
    assert Pow10(3) == 1000;
  }

  /** Removing the thousands separator joins the digit groups. */
  lemma DropGroupComma(head: string, group: string)
    requires AllDigits(head) && AllDigits(group)
    ensures AllDigits(head + group)
    ensures RemoveCommas(head + "," + group) == head + group
  {
    RemoveCommasConcat(head + ",", group);
    RemoveCommasConcat(head, ",");
    RemoveCommasNone(head);
    RemoveCommasNone(group);
    assert RemoveCommas(",") == [];
  }

  function Pow10(n: nat): (p: nat)
    ensures p >= 1
  {
    if n == 0 then 1 else 10 * Pow10(n - 1)
  }

  /** Position of the first '.' in `u`, or `|u|` when there is none. */
  function DotIndex(u: string): (k: nat)
    ensures k <= |u|
    ensures forall j :: 0 <= j < k ==> u[j] != '.'
    ensures k < |u| ==> u[k] == '.'
  {
    if u == [] then 0 else if u[0] == '.' then 0 else 1 + DotIndex(u[1..])
  }

  lemma DotIndexOfDigits(u: string)
    requires AllDigits(u)
    ensures DotIndex(u) == |u|
  {
    if DotIndex(u) < |u| {
      assert IsDigit(u[DotIndex(u)]);
    }
  }

  /** `float(u)` for `digits` or `digits.digits`, as an exact real. */
  function DecimalValue(u: string): (v: real)
    ensures v >= 0.0
  {
    var k := DotIndex(u);
    var whole := NatOf(u[..k]) as real;
    if k < |u| then whole + NatOf(u[k + 1..]) as real / Pow10(|u| - k - 1) as real
    else whole
  }

  /** A string of digits alone reads as the integer those digits spell. */
  lemma WholeValue(u: string)
    requires AllDigits(u)
    ensures DecimalValue(u) == NatOf(u) as real
  {
    DotIndexOfDigits(u);
    assert u[..|u|] == u;
  }

  /** Within digits followed by more text, the first '.' is found in the rest. */
  lemma {:induction false} DotIndexAfterDigits(w: string, r: string)
    requires AllDigits(w)
    ensures DotIndex(w + r) == |w| + DotIndex(r)
    decreases |w|
  {
    if w == [] {
      assert w + r == r;
    } else {
      assert IsDigit(w[0]) && (w + r)[0] == w[0];
      assert (w + r)[1..] == w[1..] + r;
      assert AllDigits(w[1..]) by {
        forall i | 0 <= i < |w[1..]| ensures IsDigit(w[1..][i]) {
          assert w[1..][i] == w[i + 1];
        }
      }
      DotIndexAfterDigits(w[1..], r);
    }
  }

  /** In `w.f` with `w` all digits, the dot sits right after `w`. */
  lemma DotAfterWhole(w: string, f: string)
    requires AllDigits(w)
    ensures DotIndex(w + "." + f) == |w|
    ensures (w + "." + f)[..|w|] == w && (w + "." + f)[|w| + 1..] == f
  {
    var dotted := "." + f;
    assert dotted[0] == '.';
    assert DotIndex(dotted) == 0;
    assert w + "." + f == w + dotted;
    DotIndexAfterDigits(w, dotted);
  }

  /** `digits.digits` reads as the whole part plus the fraction digits
      divided by ten to the power of their count. */
  lemma FractionValue(w: string, f: string)
    requires AllDigits(w) && AllDigits(f)
    ensures DecimalValue(w + "." + f) == NatOf(w) as real + NatOf(f) as real / Pow10(|f|) as real
  {
    var u := w + "." + f;
    DotAfterWhole(w, f);
    DecimalValueAtDot(u, |w|);
    assert |u| - |w| - 1 == |f|;
  }

  /** The value of a token whose first '.' is at `k`. */
  lemma DecimalValueAtDot(u: string, k: nat)
    requires DotIndex(u) == k < |u|
    ensures DecimalValue(u) == NatOf(u[..k]) as real + NatOf(u[k + 1..]) as real / Pow10(|u| - k - 1) as real
  {
  }

  /** `float(t.replace(",", ""))` */
  function TokenValue(t: string): (v: real)
    ensures v >= 0.0
  {
    DecimalValue(RemoveCommas(t))
  }
}
