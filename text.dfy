/** String trimming as performed by ECMAScript's String.prototype.trim: a
    leading run and a trailing run of white space and line terminators are
    removed, and nothing else changes. */
module Text {

  /** The characters trim removes: the WhiteSpace set of ECMAScript (tab, vertical
      tab, form feed, space, no-break space, zero-width no-break space and every
      other character of Unicode category Zs) and its LineTerminator set (line
      feed, carriage return, line separator, paragraph separator). */
  predicate IsWhitespace(c: char) {
    c == '\t' || c == '\U{000B}' || c == '\U{000C}' || c == ' ' ||
    c == '\U{00A0}' || c == '\U{FEFF}' ||
    c == '\U{1680}' || ('\U{2000}' <= c <= '\U{200A}') ||
    c == '\U{202F}' || c == '\U{205F}' || c == '\U{3000}' ||
    c == '\n' || c == '\r' || c == '\U{2028}' || c == '\U{2029}'
  }

  /** Every character of s at a position in [lo, hi) is white space. */
  predicate WhitespaceBetween(s: string, lo: nat, hi: nat)
    requires lo <= hi <= |s|
  {
    forall k | lo <= k < hi :: IsWhitespace(s[k])
  }

  predicate AllWhitespace(s: string) {
    WhitespaceBetween(s, 0, |s|)
  }

  /** Neither end of s is a white-space character. */
  predicate IsTrimmed(s: string) {
    s == [] || (!IsWhitespace(s[0]) && !IsWhitespace(s[|s| - 1]))
  }

  /** r is s[i..j] for a white-space prefix s[..i] and a white-space suffix s[j..]. */
  predicate StrippedAt(s: string, r: string, i: nat, j: nat) {
    i <= j <= |s| && r == s[i..j] && WhitespaceBetween(s, 0, i) && WhitespaceBetween(s, j, |s|)
  }

  /** r is what remains of s once some white-space prefix and some white-space
      suffix are cut off. */
  ghost predicate Stripped(s: string, r: string) {
    exists i: nat, j: nat :: StrippedAt(s, r, i, j)
  }

  /** The position of the first character at or after i that is not white space
      (|s| if there is none). */
  function SkipLeading(s: string, i: nat): (n: nat)
    requires i <= |s|
    ensures i <= n <= |s| && WhitespaceBetween(s, i, n)
    ensures n < |s| ==> !IsWhitespace(s[n])
    decreases |s| - i
  {
    if i < |s| && IsWhitespace(s[i]) then SkipLeading(s, i + 1) else i
  }

  /** The position just after the last character before j that is not white
      space, scanning no further back than lo (lo if there is none). */
  function SkipTrailing(s: string, lo: nat, j: nat): (m: nat)
    requires lo <= j <= |s|
    ensures lo <= m <= j && WhitespaceBetween(s, m, j)
    ensures lo < m ==> !IsWhitespace(s[m - 1])
    decreases j
  {
    if lo < j && IsWhitespace(s[j - 1]) then SkipTrailing(s, lo, j - 1) else j
  }

  /** String.prototype.trim. The result is a stripped form of s with no white
      space at either end, and it is empty exactly when s is all white space. */
  function Trim(s: string): (r: string)
    ensures IsTrimmed(r)
    ensures Stripped(s, r)
    ensures r == [] <==> AllWhitespace(s)
  {
    var i := SkipLeading(s, 0);
    var j := SkipTrailing(s, i, |s|);
    assert StrippedAt(s, s[i..j], i, j);
    s[i..j]
  }

  /** Trim is characterised by its contract: the only trimmed string that is a
      stripped form of s is Trim(s). */
  lemma TrimUnique(s: string, r: string)
    requires IsTrimmed(r) && Stripped(s, r)
    ensures Trim(s) == r
  {
    var a: nat, b: nat :| StrippedAt(s, r, a, b);
    var i := SkipLeading(s, 0);
    if r == [] {
      assert AllWhitespace(s) by {
        forall k | 0 <= k < |s| ensures IsWhitespace(s[k]) {
          if k >= b { assert WhitespaceBetween(s, b, |s|); }
        }
      }
    } else {
      assert s[a] == r[0] && s[b - 1] == r[|r| - 1];
      assert i == a;
      assert SkipTrailing(s, i, |s|) == b;
    }
  }

  /** A string with no white space at either end is left alone by Trim, and only
      such a string is. */
  lemma TrimFixedIff(s: string)
    ensures Trim(s) == s <==> IsTrimmed(s)
  {
    if IsTrimmed(s) {
      assert StrippedAt(s, s, 0, |s|);
      TrimUnique(s, s);
    }
  }

  /** Trimming twice is trimming once. */
  lemma TrimIdempotent(s: string)
    ensures Trim(Trim(s)) == Trim(s)
  {
    TrimFixedIff(Trim(s));
  }

  /** Padding a string with white space on either side does not change its trim. */
  lemma TrimIgnoresPadding(lead: string, s: string, trail: string)
    requires AllWhitespace(lead) && AllWhitespace(trail)
    ensures Trim(lead + s + trail) == Trim(s)
  {
    var p := lead + s + trail;
    var r := Trim(s);
    var i: nat, j: nat :| StrippedAt(s, r, i, j);
    var n := |lead|;
    assert p[n + i..n + j] == r by {
      forall k | 0 <= k < j - i ensures p[n + i..n + j][k] == r[k] {
        assert p[n + i + k] == s[i + k];
      }
    }
    assert WhitespaceBetween(p, 0, n + i) by {
      forall k | 0 <= k < n + i ensures IsWhitespace(p[k]) {
        if k < n {
          assert p[k] == lead[k];
        } else {
          assert p[k] == s[k - n];
        }
      }
    }
    assert WhitespaceBetween(p, n + j, |p|) by {
      forall k | n + j <= k < |p| ensures IsWhitespace(p[k]) {
        if k < n + |s| {
          assert p[k] == s[k - n];
        } else {
          assert p[k] == trail[k - n - |s|];
        }
      }
    }
    assert StrippedAt(p, r, n + i, n + j);
    TrimUnique(p, r);
  }

  /** Line feed and carriage return, the characters a single-line text field
      drops from any value assigned to it. */
  predicate IsLineBreak(c: char) {
    c == '\n' || c == '\r'
  }

  predicate NoLineBreaks(s: string) {
    forall k | 0 <= k < |s| :: !IsLineBreak(s[k])
  }

  /** The value sanitization of an HTML text input: s with every line feed and
      carriage return removed, in order. Every other character keeps its
      number of occurrences. */
  function StripLineBreaks(s: string): (r: string)
    ensures NoLineBreaks(r)
    ensures forall c | !IsLineBreak(c) :: multiset(r)[c] == multiset(s)[c]
  {
    if s == [] then
      []
    else
      assert s == [s[0]] + s[1..];
      (if IsLineBreak(s[0]) then [] else [s[0]]) + StripLineBreaks(s[1..])
  }

  /** A value without line breaks is not changed by the sanitization. */
  lemma {:induction false} StripLineBreaksFixed(s: string)
    requires NoLineBreaks(s)
    ensures StripLineBreaks(s) == s
  {
    if s != [] {
      assert NoLineBreaks(s[1..]) by {
        forall k | 0 <= k < |s| - 1 ensures !IsLineBreak(s[1..][k]) {
          assert s[1..][k] == s[k + 1];
        }
      }
      StripLineBreaksFixed(s[1..]);
    }
  }

  /** The sanitization works character by character: it distributes over
      concatenation, so the characters it keeps stay in their order. */
  lemma {:induction false} StripLineBreaksAppend(a: string, b: string)
    ensures StripLineBreaks(a + b) == StripLineBreaks(a) + StripLineBreaks(b)
  {
    if a == [] {
      assert a + b == b;
    } else {
      var head := if IsLineBreak(a[0]) then [] else [a[0]];
      assert (a + b)[0] == a[0] && (a + b)[1..] == a[1..] + b;
      calc {
        StripLineBreaks(a + b);
        head + StripLineBreaks(a[1..] + b);
        { StripLineBreaksAppend(a[1..], b); }
        head + (StripLineBreaks(a[1..]) + StripLineBreaks(b));
        (head + StripLineBreaks(a[1..])) + StripLineBreaks(b);
        StripLineBreaks(a) + StripLineBreaks(b);
      }
    }
  }

  /** Trim only cuts, so it never introduces a line break. */
  lemma TrimKeepsNoLineBreaks(s: string)
    requires NoLineBreaks(s)
    ensures NoLineBreaks(Trim(s))
  {
    var i: nat, j: nat :| StrippedAt(s, Trim(s), i, j);
    forall k | 0 <= k < |Trim(s)| ensures !IsLineBreak(Trim(s)[k]) {
      assert Trim(s)[k] == s[i + k];
    }
  }
}
