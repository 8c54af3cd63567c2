/**
 * The few Python `str` operations the aggregator relies on, written out over
 * `seq<char>`: `str.isspace`, `str.strip`, `str.lower`, the `in` substring
 * test and `str.join`.
 */
module PyStr {

  /** Python's `str.isspace` for a single character (the Unicode whitespace set). */
  predicate IsSpace(c: char)
  {
    c == ' ' || '\t' <= c <= '\r' || '\U{1C}' <= c <= '\U{1F}' ||
    c == '\U{85}' || c == '\U{A0}' || c == '\U{1680}' || '\U{2000}' <= c <= '\U{200A}' ||
    c == '\U{2028}' || c == '\U{2029}' || c == '\U{202F}' || c == '\U{205F}' || c == '\U{3000}'
  }

  /** Every character of `s` is whitespace (vacuously true of the empty string). */
  predicate IsBlank(s: string)
  {
    forall i :: 0 <= i < |s| ==> IsSpace(s[i])
  }

  /** `s.lstrip()`: drop leading whitespace. */
  function StripLeft(s: string): string
  {
    if s != [] && IsSpace(s[0]) then StripLeft(s[1..]) else s
  }

  /** `s.rstrip()`: drop trailing whitespace. */
  function StripRight(s: string): string
  {
    if s != [] && IsSpace(s[|s| - 1]) then StripRight(s[..|s| - 1]) else s
  }

  /** `s.strip()`: drop whitespace at both ends. */
  function Strip(s: string): string
  {
    StripRight(StripLeft(s))
  }

  /** `lstrip` removes exactly the leading run of whitespace: what it drops
      is blank and what it keeps is a suffix not starting with whitespace. */
  lemma {:induction false} StripLeftSpec(s: string)
    ensures var r := StripLeft(s);
      |r| <= |s| && r == s[|s| - |r|..] && IsBlank(s[..|s| - |r|]) && (r == [] || !IsSpace(r[0]))
  {
    if s != [] && IsSpace(s[0]) {
      StripLeftSpec(s[1..]);
      var r := StripLeft(s[1..]);
      assert s[1..][..|s| - 1 - |r|] == s[1..|s| - |r|];
    }
  }

  /** `rstrip` removes exactly the trailing run of whitespace. */
  lemma {:induction false} StripRightSpec(s: string)
    ensures var r := StripRight(s);
      |r| <= |s| && r == s[..|r|] && IsBlank(s[|r|..]) && (r == [] || !IsSpace(r[|r| - 1]))
  {
    if s != [] && IsSpace(s[|s| - 1]) {
      StripRightSpec(s[..|s| - 1]);
      var r := StripRight(s[..|s| - 1]);
      assert s[..|s| - 1][|r|..] == s[|r|..|s| - 1];
      assert s[|r|..] == s[|r|..|s| - 1] + [s[|s| - 1]];
    }
  }

  /** Stripping the leading whitespace of an all-whitespace string leaves nothing. */
  lemma {:induction false} StripLeftOfBlank(s: string)
    requires IsBlank(s)
    ensures StripLeft(s) == []
  {
    if s != [] {
      StripLeftOfBlank(s[1..]);
    }
  }

  /** `s.strip() == ""` holds exactly when `s` is all whitespace. */
  lemma StripEmptyIffBlank(s: string)
    ensures Strip(s) == [] <==> IsBlank(s)
  {
    var l := StripLeft(s);
    StripLeftSpec(s);
    StripRightSpec(l);
    if Strip(s) == [] {
      assert IsBlank(l[0..]);
      assert l == [];
      assert s[..|s|] == s;
    }
    if IsBlank(s) {
      StripLeftOfBlank(s);
    }
  }

  /** Stripping removes padding and nothing else: a word that neither
      starts nor ends with whitespace comes back unchanged from any amount
      of whitespace around it. */
  lemma StripPadded(pre: string, w: string, post: string)
    requires IsBlank(pre) && IsBlank(post)
    requires w != [] && !IsSpace(w[0]) && !IsSpace(w[|w| - 1])
    ensures Strip(pre + w + post) == w
  {
    assert pre + w + post == pre + (w + post);
    StripLeftPadded(pre, w + post);
    StripRightPadded(w, post);
  }

  lemma {:induction false} StripLeftPadded(pre: string, x: string)
    requires IsBlank(pre) && (x == [] || !IsSpace(x[0]))
    ensures StripLeft(pre + x) == x
  {
    if pre != [] {
      assert (pre + x)[1..] == pre[1..] + x;
      StripLeftPadded(pre[1..], x);
    }
  }

  lemma {:induction false} StripRightPadded(x: string, post: string)
    requires IsBlank(post) && (x == [] || !IsSpace(x[|x| - 1]))
    ensures StripRight(x + post) == x
  {
    if post != [] {
      var post' := post[..|post| - 1];
      assert (x + post)[..|x + post| - 1] == x + post';
      StripRightPadded(x, post');
    } else {
      assert x + post == x;
    }
  }

  /** Python's `str.lower` for one character, restricted to the characters
      whose lower-case form contains an ASCII letter; every other character
      is kept as it is. */
  function LowerChar(c: char): (r: string)
  {
    if 'A' <= c <= 'Z' then [(c as int + 32) as char]
    else if c == '\U{212A}' then ['k']            // KELVIN SIGN
    else if c == '\U{130}' then ['i', '\U{307}']  // LATIN CAPITAL LETTER I WITH DOT ABOVE
    else [c]
  }

  /** `s.lower()` */
  function Lower(s: string): (r: string)
    ensures |r| >= |s|
  {
    if s == [] then [] else LowerChar(s[0]) + Lower(s[1..])
  }

  /** Text without upper-case letters is its own lower-case form. */
  lemma {:induction false} LowerOfLowerCase(s: string)
    requires forall i :: 0 <= i < |s| ==> LowerChar(s[i]) == [s[i]]
    ensures Lower(s) == s
  {
    if s != [] {
      LowerOfLowerCase(s[1..]);
    }
  }

  /** Lower-casing works character by character, so it distributes over concatenation. */
  lemma {:induction false} LowerConcat(a: string, b: string)
    ensures Lower(a + b) == Lower(a) + Lower(b)
  {
    if a == [] {
      assert a + b == b;
    } else {
      assert (a + b)[0] == a[0];
      assert (a + b)[1..] == a[1..] + b;
      LowerConcat(a[1..], b);
    }
  }

  /** Python's `w in s` for strings: `w` occurs in `s` as a contiguous substring. */
  predicate Contains(s: string, w: string)
    decreases |s|
  {
    w <= s || (s != [] && Contains(s[1..], w))
  }

  /** `w` occurs in `s` starting at index `i`. */
  predicate OccursAt(s: string, w: string, i: int)
  {
    0 <= i && i + |w| <= |s| && s[i..i + |w|] == w
  }

  /** The substring test agrees with the positional definition, in both directions. */
  lemma {:induction false} ContainsIffOccurs(s: string, w: string)
    ensures Contains(s, w) <==> exists i :: OccursAt(s, w, i)
  {
    if Contains(s, w) {
      if w <= s {
        assert OccursAt(s, w, 0);
      } else {
        ContainsIffOccurs(s[1..], w);
        var i :| OccursAt(s[1..], w, i);
        OccursShift(s, w, i);
      }
    }
    if exists i :: OccursAt(s, w, i) {
      var i :| OccursAt(s, w, i);
      if i > 0 {
        OccursShift(s, w, i - 1);
        ContainsIffOccurs(s[1..], w);
      } else {
        assert w == s[..|w|];
      }
    }
  }

  /** An occurrence in the tail is an occurrence one place later in the whole. */
  lemma OccursShift(s: string, w: string, i: int)
    requires s != [] && 0 <= i
    ensures OccursAt(s[1..], w, i) <==> OccursAt(s, w, i + 1)
  {
    if i + |w| <= |s| - 1 {
      assert s[1..][i..i + |w|] == s[i + 1..i + 1 + |w|];
    }
  }

  /** A substring survives whatever surrounds it. */
  lemma {:induction false} ContainsInfix(u: string, w: string, v: string)
    ensures Contains(u + w + v, w)
  {
    if u == [] {
      assert w <= u + w + v;
    } else {
      assert (u + w + v)[1..] == u[1..] + w + v;
      ContainsInfix(u[1..], w, v);
    }
  }

  /** Every character of a word occurs in any text containing the word; so a
      word with a character the text lacks does not occur in it. */
  lemma ContainedCharsOccur(s: string, w: string, k: nat)
    requires k < |w|
    ensures Contains(s, w) ==> w[k] in s
  {
    ContainsIffOccurs(s, w);
    if Contains(s, w) {
      var i :| OccursAt(s, w, i);
      assert s[i + k] == s[i..i + |w|][k];
    }
  }

  /** Whatever contains a word contains each of its suffixes. */
  lemma ContainsSuffix(s: string, w: string, k: nat)
    requires Contains(s, w) && k <= |w|
    ensures Contains(s, w[k..])
  {
    ContainsIffOccurs(s, w);
    var i :| OccursAt(s, w, i);
    assert s[i + k..i + k + |w[k..]|] == w[k..];
    assert OccursAt(s, w[k..], i + k);
    ContainsIffOccurs(s, w[k..]);
  }

  /** Case-insensitive matching: whenever `w` occurs in `s`, the lower-cased
      `w` occurs in the lower-cased `s`. */
  lemma LowerKeepsContains(s: string, w: string)
    requires Contains(s, w)
    ensures Contains(Lower(s), Lower(w))
  {
    ContainsIffOccurs(s, w);
    var i :| OccursAt(s, w, i);
    assert s == s[..i] + w + s[i + |w|..];
    LowerConcat(s[..i] + w, s[i + |w|..]);
    LowerConcat(s[..i], w);
    ContainsInfix(Lower(s[..i]), Lower(w), Lower(s[i + |w|..]));
  }

  /** `sep.join(parts)` */
  function Join(sep: string, parts: seq<string>): (r: string)
    ensures parts == [] ==> r == []
    ensures |parts| == 1 ==> r == parts[0]
  {
    if parts == [] then []
    else if |parts| == 1 then parts[0]
    else parts[0] + sep + Join(sep, parts[1..])
  }

  /** Joining one more part appends the separator and that part. */
  lemma {:induction false} JoinSnoc(sep: string, parts: seq<string>, p: string)
    requires parts != []
    ensures Join(sep, parts + [p]) == Join(sep, parts) + sep + p
  {
    if |parts| > 1 {
      assert (parts + [p])[1..] == parts[1..] + [p];
      JoinSnoc(sep, parts[1..], p);
    }
  }
}
