/** String operations the code borrows from JavaScript: `String.prototype.trim`,
    `toLowerCase`, `includes`, and the `\s` class of its regular expressions. */
module Text {

  /** The characters JavaScript's `\s` matches and `trim()` strips: the ECMAScript
      WhiteSpace and LineTerminator code points. */
  predicate IsSpace(c: char) {
    var n := c as int;
    || (0x09 <= n <= 0x0D)
    || n == 0x20 || n == 0xA0 || n == 0x1680
    || (0x2000 <= n <= 0x200A)
    || n == 0x2028 || n == 0x2029 || n == 0x202F || n == 0x205F
    || n == 0x3000 || n == 0xFEFF
  }

  predicate IsBlank(s: string) {
    forall k :: 0 <= k < |s| ==> IsSpace(s[k])
  }

  /** `s` without its leading white space. */
  function TrimStart(s: string): (r: string)
    ensures |r| <= |s| && r == s[|s| - |r|..]
    ensures forall k :: 0 <= k < |s| - |r| ==> IsSpace(s[k])
    ensures r != [] ==> !IsSpace(r[0])
    decreases |s|
  {
    if s != [] && IsSpace(s[0]) then TrimStart(s[1..]) else s
  }

  /** `s` without its trailing white space. */
  function TrimEnd(s: string): (r: string)
    ensures |r| <= |s| && r == s[..|r|]
    ensures forall k :: |r| <= k < |s| ==> IsSpace(s[k])
    ensures r != [] ==> !IsSpace(r[|r| - 1])
    decreases |s|
  {
    if s != [] && IsSpace(s[|s| - 1]) then TrimEnd(s[..|s| - 1]) else s
  }

  /** `r` is the block of `s` starting at `i` (its first `|r|` characters from
      there) with only white space around it. */
  predicate TrimmedAt(s: string, r: string, i: int) {
    && 0 <= i <= |s| - |r|
    && r == s[i..][..|r|]
    && (forall k :: 0 <= k < i ==> IsSpace(s[k]))
    && (forall k :: i + |r| <= k < |s| ==> IsSpace(s[k]))
  }

  /** JavaScript's `s.trim()`: the white space at both ends removed. */
  function Trim(s: string): (r: string)
    ensures r == [] || (!IsSpace(r[0]) && !IsSpace(r[|r| - 1]))
    ensures r == [] <==> IsBlank(s)
    ensures |r| <= |s|
    ensures exists i :: TrimmedAt(s, r, i)
  {
    TrimmedWitness(s);
    TrimmedBlank(s);
    TrimEnd(TrimStart(s))
  }

  /** The trim is empty exactly when `s` is all white space, and otherwise
      starts with a character that is not. */
  lemma TrimmedBlank(s: string)
    ensures var r := TrimEnd(TrimStart(s));
      && (r == [] <==> IsBlank(s))
      && (r == [] || !IsSpace(r[0]))
  {
    var t := TrimStart(s);
    var r := TrimEnd(t);
    assert r != [] ==> r[0] == t[0];
    assert IsBlank(s) ==> t == [] by {
      if t != [] {
        assert t[0] == s[|s| - |t|];
      }
    }
    assert !IsBlank(s) ==> r != [] by {
      if !IsBlank(s) {
        var k :| 0 <= k < |s| && !IsSpace(s[k]);
        assert |s| - |t| <= k;
        assert !IsSpace(t[0]);
      }
    }
  }

  /** The trim is the block of `s` where its leading white space ends. */
  lemma TrimmedWitness(s: string)
    ensures TrimmedAt(s, TrimEnd(TrimStart(s)), |s| - |TrimStart(s)|)
  {
    TrimmedTail(s);
  }

  lemma TrimmedTail(s: string)
    ensures var t := TrimStart(s); var r := TrimEnd(t); var i := |s| - |t|;
      forall k :: i + |r| <= k < |s| ==> IsSpace(s[k])
  {
    var t := TrimStart(s);
    var r := TrimEnd(t);
    var i := |s| - |t|;
    forall k | i + |r| <= k < |s| ensures IsSpace(s[k]) {
      assert s[k] == t[k - i];
    }
  }

  /** A string with no white space at either end is its own trim. */
  lemma TrimFixedPoint(s: string)
    requires s == [] || (!IsSpace(s[0]) && !IsSpace(s[|s| - 1]))
    ensures Trim(s) == s
  {
    assert TrimStart(s) == s;
    assert TrimEnd(s) == s;
  }

  /** Trimming twice is trimming once. */
  lemma TrimIdempotent(s: string)
    ensures Trim(Trim(s)) == Trim(s)
  {
    TrimEnds(s);
    TrimFixedPoint(Trim(s));
  }

  lemma TrimEnds(s: string)
    ensures var t := Trim(s); t == [] || (!IsSpace(t[0]) && !IsSpace(t[|t| - 1]))
  {
  }

  /** `toLowerCase` on the ASCII letters A-Z. */
  function LowerChar(c: char): (d: char)
    ensures 'A' <= c <= 'Z' ==> d as int == c as int + 32
    ensures !('A' <= c <= 'Z') ==> d == c
    ensures !('A' <= d <= 'Z')
  {
    if 'A' <= c <= 'Z' then (c as int + 32) as char else c
  }

  function Lower(s: string): (r: string)
    ensures |r| == |s|
    ensures forall k :: 0 <= k < |s| ==> r[k] == LowerChar(s[k])
  {
    seq(|s|, k requires 0 <= k < |s| => LowerChar(s[k]))
  }

  /** Lower-casing neither creates nor removes white space. */
  lemma LowerKeepsSpace(c: char)
    ensures IsSpace(LowerChar(c)) <==> IsSpace(c)
  {
  }

  /** Lower-casing keeps a string free of white space at its ends. */
  lemma LowerKeepsEnds(t: string)
    requires t == [] || (!IsSpace(t[0]) && !IsSpace(t[|t| - 1]))
    ensures var l := Lower(t); l == [] || (!IsSpace(l[0]) && !IsSpace(l[|l| - 1]))
  {
    if t != [] {
      LowerKeepsSpace(t[0]);
      LowerKeepsSpace(t[|t| - 1]);
    }
  }

  /** A lower-cased string has no ASCII capital left. */
  lemma LowerHasNoUpper(s: string)
    ensures forall k :: 0 <= k < |s| ==> !('A' <= Lower(s)[k] <= 'Z')
  {
    forall k | 0 <= k < |s| ensures !('A' <= Lower(s)[k] <= 'Z') {
      assert Lower(s)[k] == LowerChar(s[k]);
    }
  }

  /** Lower-casing twice is lower-casing once. */
  lemma LowerIdempotent(s: string)
    ensures Lower(Lower(s)) == Lower(s)
  {
  }

  /** `needle` occurs in `hay` as a contiguous block (the declarative reading of `includes`). */
  predicate OccursAt(hay: string, needle: string, i: int) {
    0 <= i && i + |needle| <= |hay| && hay[i..i + |needle|] == needle
  }

  lemma OccursAtStart(hay: string, needle: string)
    ensures OccursAt(hay, needle, 0) <==> needle <= hay
  {
    if needle <= hay {
      assert hay[..|needle|] == needle;
    }
  }

  /** JavaScript's `hay.includes(needle)`, scanning start positions left to right. */
  function Contains(hay: string, needle: string): (b: bool)
    ensures b <==> exists i :: OccursAt(hay, needle, i)
    decreases |hay|
  {
    if needle <= hay then
      assert OccursAt(hay, needle, 0);
      true
    else if hay == [] then
      assert forall i :: !OccursAt(hay, needle, i);
      false
    else
      var rest := Contains(hay[1..], needle);
      assert forall i :: 1 <= i ==> (OccursAt(hay, needle, i) <==> OccursAt(hay[1..], needle, i - 1)) by {
        forall i | 1 <= i
          ensures OccursAt(hay, needle, i) <==> OccursAt(hay[1..], needle, i - 1)
        {
          if i + |needle| <= |hay| {
            assert hay[i..i + |needle|] == hay[1..][i - 1..i - 1 + |needle|];
          }
        }
      }
      OccursAtStart(hay, needle);
      if rest then
        assert exists i :: OccursAt(hay, needle, i) by {
          var j :| OccursAt(hay[1..], needle, j);
          assert OccursAt(hay, needle, j + 1);
        }
        true
      else
        assert forall i :: !OccursAt(hay, needle, i) by {
          forall i ensures !OccursAt(hay, needle, i) {
            if 1 <= i {
              assert !OccursAt(hay[1..], needle, i - 1);
            }
          }
        }
        false
  }

  // ----- the email pattern /^[^\s@]+@[^\s@]+\.[^\s@]+$/ -----

  /** A character of the class `[^\s@]`. */
  predicate Plain(c: char) {
    !IsSpace(c) && c != '@'
  }

  /** The declarative reading of the regular expression: `s` splits as
      `A "@" B "." C` with `A`, `B`, `C` non-empty and every character other than
      the separating `@` in the class `[^\s@]`. `at` and `dot` are the positions of
      the two separators. */
  ghost predicate SplitsAsEmail(s: string, at: int, dot: int) {
    && 0 < at && at + 1 < dot && dot + 1 < |s|
    && s[at] == '@' && s[dot] == '.'
    && forall k :: 0 <= k < |s| && k != at ==> Plain(s[k])
  }

  ghost predicate MatchesEmailPattern(s: string) {
    exists at, dot :: SplitsAsEmail(s, at, dot)
  }

  /** Position of the first occurrence of `c` in `s`, if any. */
  function IndexOf(s: string, c: char): (r: int)
    ensures -1 <= r < |s|
    ensures r == -1 <==> c !in s
    ensures 0 <= r ==> s[r] == c && c !in s[..r]
    decreases |s|
  {
    if s == [] then -1
    else if s[0] == c then 0
    else
      var k := IndexOf(s[1..], c);
      if k == -1 then -1
      else
        assert s[..k + 1] == [s[0]] + s[1..][..k];
        k + 1
  }

  predicate AllPlain(s: string) {
    forall k :: 0 <= k < |s| ==> Plain(s[k])
  }

  /** The email test, computed: split at the first `@`; the part before it is
      non-empty and plain, the part after it is plain and has a `.` with at least
      one character on each side. */
  predicate IsEmailAddress(s: string) {
    var at := IndexOf(s, '@');
    && 0 < at
    && var local, domain := s[..at], s[at + 1..];
    && AllPlain(local) && AllPlain(domain)
    && 3 <= |domain| && '.' in domain[1..|domain| - 1]
  }

  /** The computed test accepts exactly the strings the regular expression matches. */
  lemma EmailTestMatchesPattern(s: string)
    ensures IsEmailAddress(s) <==> MatchesEmailPattern(s)
  {
    var at := IndexOf(s, '@');
    if IsEmailAddress(s) {
      var domain := s[at + 1..];
      var inner := domain[1..|domain| - 1];
      var p :| 0 <= p < |inner| && inner[p] == '.';
      var dot := at + 2 + p;
      assert s[dot] == '.';
      forall k | 0 <= k < |s| && k != at
        ensures Plain(s[k])
      {
        if k < at {
          assert s[k] == s[..at][k];
        } else {
          assert s[k] == domain[k - at - 1];
        }
      }
      assert SplitsAsEmail(s, at, dot);
    }
    if MatchesEmailPattern(s) {
      var a, d :| SplitsAsEmail(s, a, d);
      assert s[a] == '@';
      assert at == a;
      var domain := s[at + 1..];
      assert AllPlain(s[..at]) by {
        forall k | 0 <= k < at ensures Plain(s[..at][k]) {
          assert s[..at][k] == s[k];
        }
      }
      assert AllPlain(domain) by {
        forall k | 0 <= k < |domain| ensures Plain(domain[k]) {
          assert domain[k] == s[k + at + 1];
        }
      }
      assert domain[1..|domain| - 1][d - at - 2] == '.';
    }
  }
}
