/**
 * The parts of Python's `str` that the modelled code uses: `lower`, `strip`,
 * `startswith`, `endswith`, `in`, `rfind`, `join` and decimal formatting.
 */
module Text {

  import opened Wrappers

  /** Python's `str.isspace` for one character. */
  predicate IsSpace(c: char) {
    || c == ' '
    || '\t' <= c <= '\r'
    || '\U{1C}' <= c <= '\U{1F}'
    || c == '\U{85}' || c == '\U{A0}' || c == '\U{1680}'
    || '\U{2000}' <= c <= '\U{200A}'
    || c == '\U{2028}' || c == '\U{2029}' || c == '\U{202F}' || c == '\U{205F}' || c == '\U{3000}'
  }

  predicate AllSpace(s: string) {
    forall i | 0 <= i < |s| :: IsSpace(s[i])
  }

  predicate IsUpper(c: char) {
    'A' <= c <= 'Z'
  }

  /** `str.lower` on one character; only the ASCII letters change. */
  function LowerChar(c: char): (r: char)
    ensures !IsUpper(r)
    ensures IsSpace(r) <==> IsSpace(c)
  {
    if IsUpper(c) then (c as int + 32) as char else c
  }

  /** `str.lower`. */
  function Lower(s: string): (r: string)
    ensures |r| == |s| && forall i | 0 <= i < |s| :: r[i] == LowerChar(s[i])
  {
    seq(|s|, i requires 0 <= i < |s| => LowerChar(s[i]))
  }

  /** The number of whitespace characters at the start of `s`. */
  function LeadingSpaces(s: string): (n: nat)
    ensures n <= |s| && AllSpace(s[..n])
    ensures n < |s| ==> !IsSpace(s[n])
    decreases |s|
  {
    if |s| > 0 && IsSpace(s[0]) then 1 + LeadingSpaces(s[1..]) else 0
  }

  /** The number of whitespace characters at the end of `s`. */
  function TrailingSpaces(s: string): (n: nat)
    ensures n <= |s| && AllSpace(s[|s| - n..])
    ensures n < |s| ==> !IsSpace(s[|s| - n - 1])
    decreases |s|
  {
    if |s| > 0 && IsSpace(s[|s| - 1]) then
      var init := s[..|s| - 1];
      var m := TrailingSpaces(init);
      assert s[|s| - (m + 1)..] == init[|init| - m..] + [s[|s| - 1]];
      1 + m
    else 0
  }

  /** `k` is the count of leading whitespace when all of `s[..k]` is whitespace and `s[k]` is not. */
  lemma {:induction false} LeadingSpacesAt(s: string, k: nat)
    requires k <= |s| && AllSpace(s[..k]) && (k < |s| ==> !IsSpace(s[k]))
    ensures LeadingSpaces(s) == k
    decreases k
  {
    if k > 0 {
      assert s[..k][0] == s[0];
      assert s[1..][..k - 1] == s[..k][1..];
      LeadingSpacesAt(s[1..], k - 1);
    }
  }

  /** The mirror image of `LeadingSpacesAt`. */
  lemma {:induction false} TrailingSpacesAt(s: string, k: nat)
    requires k <= |s| && AllSpace(s[|s| - k..]) && (k < |s| ==> !IsSpace(s[|s| - k - 1]))
    ensures TrailingSpaces(s) == k
    decreases k
  {
    if k > 0 {
      assert s[|s| - k..][k - 1] == s[|s| - 1];
      var s' := s[..|s| - 1];
      assert s'[|s'| - (k - 1)..] == s[|s| - k..|s| - 1] == s[|s| - k..][..k - 1];
      TrailingSpacesAt(s', k - 1);
    }
  }

  /** True when `s` neither starts nor ends with whitespace. */
  predicate IsTrimmed(s: string) {
    s == [] || (!IsSpace(s[0]) && !IsSpace(s[|s| - 1]))
  }

  /** `str.strip()` with no argument. */
  function Trim(s: string): (r: string)
    ensures IsTrimmed(r)
    ensures |r| <= |s|
  {
    var t := s[LeadingSpaces(s)..];
    t[..|t| - TrailingSpaces(t)]
  }

  /** `Trim` takes off all of the whitespace padding around a trimmed core, and nothing else. */
  lemma TrimPadded(p: string, t: string, q: string)
    requires AllSpace(p) && AllSpace(q) && IsTrimmed(t)
    ensures Trim(p + t + q) == t
  {
    var s := p + t + q;
    var n := LeadingSpaces(s);
    if t == [] {
      assert AllSpace(s) by {
        forall i | 0 <= i < |s| ensures IsSpace(s[i]) {
          if i < |p| { assert s[i] == p[i]; } else { assert s[i] == q[i - |p|]; }
        }
      }
      assert n == |s|;
    } else {
      assert s[..|p|] == p;
      LeadingSpacesAt(s, |p|);
      var u := s[n..];
      assert u == t + q;
      var m := TrailingSpaces(u);
      assert u[|u| - |q|..] == q;
      TrailingSpacesAt(u, |q|);
      assert u[..|u| - m] == t;
    }
  }

  /** `Trim` leaves a string that is already trimmed alone. */
  lemma TrimTrimmed(t: string)
    requires IsTrimmed(t)
    ensures Trim(t) == t
  {
    TrimPadded([], t, []);
    assert [] + t + [] == t;
  }

  /** `Trim` is idempotent. */
  lemma TrimIdempotent(s: string)
    ensures Trim(Trim(s)) == Trim(s)
  {
    TrimTrimmed(Trim(s));
  }

  /** A string strips to nothing exactly when it is all whitespace. */
  lemma TrimEmptyIffAllSpace(s: string)
    ensures Trim(s) == [] <==> AllSpace(s)
  {
    var n := LeadingSpaces(s);
    if AllSpace(s) {
      TrimPadded(s, [], []);
      assert s + [] + [] == s;
    } else {
      var t := s[n..];
      assert t[0] == s[n];
      var m := TrailingSpaces(t);
      assert m < |t|;
    }
  }

  /** `Lower` changes nothing in a string without upper-case ASCII letters. */
  lemma LowerNoUpper(s: string)
    requires forall i | 0 <= i < |s| :: !IsUpper(s[i])
    ensures Lower(s) == s
  {
  }

  /** `Lower` is idempotent. */
  lemma LowerIdempotent(s: string)
    ensures Lower(Lower(s)) == Lower(s)
  {
    LowerNoUpper(Lower(s));
  }

  /** Lowercasing a concatenation lowercases each part. */
  lemma LowerConcat(a: string, b: string)
    ensures Lower(a + b) == Lower(a) + Lower(b)
  {
  }

  /** Lowercasing keeps whitespace and keeps trimmed strings trimmed. */
  lemma LowerKeepsSpace(s: string)
    ensures AllSpace(s) ==> AllSpace(Lower(s))
    ensures IsTrimmed(s) ==> IsTrimmed(Lower(s))
  {
  }

  /** Trimming keeps a string free of upper-case letters, so lowercasing a
      trimmed lower-case string changes nothing. */
  lemma TrimKeepsLower(s: string)
    ensures Lower(Trim(Lower(s))) == Trim(Lower(s))
  {
    var t := Trim(Lower(s));
    assert forall i | 0 <= i < |t| :: !IsUpper(t[i]) by {
      var l := Lower(s);
      var u := l[LeadingSpaces(l)..];
      assert t == u[..|u| - TrailingSpaces(u)];
    }
    LowerNoUpper(t);
  }

  /** `s.startswith(p)`. */
  predicate StartsWith(s: string, p: string) {
    |p| <= |s| && s[..|p|] == p
  }

  /** `s.endswith(p)`. */
  predicate EndsWith(s: string, p: string) {
    |p| <= |s| && s[|s| - |p|..] == p
  }

  /** `needle` occurs in `hay` starting at position `i`. */
  predicate OccursAt(needle: string, hay: string, i: nat) {
    i + |needle| <= |hay| && hay[i..i + |needle|] == needle
  }

  /**
   * Python's `needle in hay`: `needle` starts `hay` or is in what follows its
   * first character; the empty string is in every string.
   */
  predicate IsSubstring(needle: string, hay: string)
    decreases |hay|
  {
    StartsWith(hay, needle) || (|hay| > 0 && IsSubstring(needle, hay[1..]))
  }

  /** `needle in hay` holds exactly when `needle` occurs somewhere in `hay`. */
  lemma {:induction false} SubstringIffOccurs(needle: string, hay: string)
    ensures IsSubstring(needle, hay) <==> exists i | 0 <= i <= |hay| :: OccursAt(needle, hay, i)
    decreases |hay|
  {
    forall i | 0 <= i <= |hay| && OccursAt(needle, hay, i) ensures IsSubstring(needle, hay) {
      SubstringAt(needle, hay, i);
    }
    if IsSubstring(needle, hay) {
      if StartsWith(hay, needle) {
        assert OccursAt(needle, hay, 0);
      } else {
        SubstringIffOccurs(needle, hay[1..]);
        var i :| 0 <= i <= |hay| - 1 && OccursAt(needle, hay[1..], i);
        assert hay[1..][i..i + |needle|] == hay[i + 1..i + 1 + |needle|];
        assert OccursAt(needle, hay, i + 1);
      }
    }
  }

  /** An occurrence at any position makes `needle in hay` true. */
  lemma {:induction false} SubstringAt(needle: string, hay: string, i: nat)
    requires OccursAt(needle, hay, i)
    ensures IsSubstring(needle, hay)
    decreases i
  {
    if i > 0 {
      assert hay[1..][i - 1..i - 1 + |needle|] == hay[i..i + |needle|];
      SubstringAt(needle, hay[1..], i - 1);
    }
  }

  /** Every string is in itself. */
  lemma SubstringOfItself(s: string)
    ensures IsSubstring(s, s)
  {
    assert StartsWith(s, s);
  }

  /** A string holding a character that `hay` lacks is not in `hay`. */
  lemma {:induction false} NotSubstringByChar(needle: string, hay: string, c: char)
    requires c in needle && c !in hay
    ensures !IsSubstring(needle, hay)
    decreases |hay|
  {
    var k :| 0 <= k < |needle| && needle[k] == c;
    if |needle| <= |hay| {
      assert hay[k] in hay;
      assert hay[..|needle|][k] != needle[k];
    }
    if |hay| > 0 {
      NotSubstringByChar(needle, hay[1..], c);
    }
  }

  /** A longer string is never in a shorter one. */
  lemma {:induction false} NotSubstringByLength(needle: string, hay: string)
    requires |needle| > |hay|
    ensures !IsSubstring(needle, hay)
    decreases |hay|
  {
    if |hay| > 0 {
      NotSubstringByLength(needle, hay[1..]);
    }
  }

  /** The index of the last `c` in `s` (Python's `s.rfind(c)`, with `None` for -1). */
  function LastIndexOf(s: string, c: char): (r: Option<nat>)
    ensures r.None? <==> c !in s
    ensures r.Some? ==> r.value < |s| && s[r.value] == c && c !in s[r.value + 1..]
    decreases |s|
  {
    if |s| == 0 then None
    else if s[|s| - 1] == c then Some(|s| - 1)
    else
      var r := LastIndexOf(s[..|s| - 1], c);
      assert s == s[..|s| - 1] + [s[|s| - 1]];
      if r.Some? then
        assert s[r.value + 1..] == s[..|s| - 1][r.value + 1..] + [s[|s| - 1]];
        r
      else r
  }

  /** Lowercasing moves no character below 'A', so the last one is where it was. */
  lemma {:induction false} LastIndexOfLower(s: string, c: char)
    requires c < 'A'
    ensures LastIndexOf(Lower(s), c) == LastIndexOf(s, c)
    decreases |s|
  {
    if |s| > 0 {
      assert Lower(s)[..|s| - 1] == Lower(s[..|s| - 1]);
      LastIndexOfLower(s[..|s| - 1], c);
    }
  }

  /** The last `c` of `a + [c] + b` is the one after `a` when `b` has none. */
  lemma LastIndexOfAfter(a: string, c: char, b: string)
    requires c !in b
    ensures LastIndexOf(a + [c] + b, c) == Some(|a|)
  {
    var s := a + [c] + b;
    assert s[|a|] == c;
    assert s[|a| + 1..] == b;
  }

  /** Lowercasing neither adds nor removes a character below 'A'. */
  lemma LowerKeepsBelowA(s: string, c: char)
    requires c < 'A'
    ensures c in Lower(s) <==> c in s
  {
    if c in Lower(s) {
      var k :| 0 <= k < |s| && Lower(s)[k] == c;
      assert s[k] == c;
    }
    if c in s {
      var k :| 0 <= k < |s| && s[k] == c;
      assert Lower(s)[k] == c;
    }
  }

  /** Only "." lowercases to ".". */
  lemma LowerIsDot(s: string)
    ensures Lower(s) == "." <==> s == "."
  {
    if Lower(s) == "." {
      assert LowerChar(s[0]) == '.';
    }
  }

  function DigitChar(d: nat): char
    requires d < 10
  {
    "0123456789"[d]
  }

  /** Python's `str(n)` for a natural number. */
  function NatToDecimal(n: nat): (r: string)
    ensures |r| > 0
    decreases n
  {
    if n < 10 then [DigitChar(n)] else NatToDecimal(n / 10) + [DigitChar(n % 10)]
  }

  /** `sep.join(parts)`. */
  function Join(parts: seq<string>, sep: string): (r: string)
    ensures parts == [] ==> r == ""
    ensures |parts| > 0 ==> |r| >= |parts[0]|
    decreases |parts|
  {
    if |parts| == 0 then ""
    else if |parts| == 1 then parts[0]
    else parts[0] + sep + Join(parts[1..], sep)
  }

  /** The join of pieces that each start with `p` starts with `p`. */
  lemma JoinStartsWith(parts: seq<string>, sep: string, p: string)
    requires |parts| > 0 && StartsWith(parts[0], p)
    ensures StartsWith(Join(parts, sep), p)
  {
    if |parts| > 1 {
      var r := Join(parts, sep);
      assert r == parts[0] + (sep + Join(parts[1..], sep));
      assert r[..|p|] == parts[0][..|p|];
    }
  }
}
