/** The JavaScript string operations the client relies on: `toLowerCase` (on
    ASCII letters), `includes`, `replace(/\D/g, '')`, `trim` and a global,
    case-insensitive `replace` of a literal word. */
module Text {

  // ---------------------------------------------------------------- case

  function LowerChar(c: char): char {
    if 'A' <= c <= 'Z' then (c as int + 32) as char else c
  }

  function ToLower(s: string): string {
    seq(|s|, i requires 0 <= i < |s| => LowerChar(s[i]))
  }

  lemma ToLowerAppend(a: string, b: string)
    ensures ToLower(a + b) == ToLower(a) + ToLower(b)
  {
  }

  // ---------------------------------------------------------------- includes

  /** `s.includes(sub)`: some position of `s` starts with `sub`. */
  function Contains(s: string, sub: string): bool
    decreases |s|
  {
    if sub <= s then true
    else if |s| == 0 then false
    else Contains(s[1..], sub)
  }

  /** `sub` stands at position `i` of `s`. */
  predicate OccursAt(s: string, sub: string, i: int) {
    0 <= i <= |s| - |sub| && s[i..i + |sub|] == sub
  }

  lemma {:induction false} ContainsAt(s: string, sub: string)
    ensures Contains(s, sub) <==> exists i :: OccursAt(s, sub, i)
  {
    if Contains(s, sub) {
      var i := FirstOccurrence(s, sub);
    }
    if exists i :: OccursAt(s, sub, i) {
      var i :| OccursAt(s, sub, i);
      OccurrenceContained(s, sub, i);
    }
  }

  /** Where `Contains` finds `sub`. */
  lemma {:induction false} FirstOccurrence(s: string, sub: string) returns (i: int)
    requires Contains(s, sub)
    ensures OccursAt(s, sub, i)
    decreases |s|
  {
    if sub <= s {
      i := 0;
      assert s[..|sub|] == sub;
    } else {
      var j := FirstOccurrence(s[1..], sub);
      assert s[1..][j..j + |sub|] == s[j + 1..j + 1 + |sub|];
      i := j + 1;
    }
  }

  lemma {:induction false} OccurrenceContained(s: string, sub: string, i: int)
    requires OccursAt(s, sub, i)
    ensures Contains(s, sub)
    decreases |s|
  {
    if !(sub <= s) {
      assert i != 0 && s != [];
      assert s[1..][i - 1..i - 1 + |sub|] == s[i..i + |sub|];
      OccurrenceContained(s[1..], sub, i - 1);
    }
  }

  // ---------------------------------------------------------------- digits

  predicate IsDigit(c: char) { '0' <= c <= '9' }

  predicate AllDigits(s: string) { forall i :: 0 <= i < |s| ==> IsDigit(s[i]) }

  /** `s.replace(/\D/g, '')`: every character that is not an ASCII digit removed. */
  function DigitsOnly(s: string): (r: string)
    ensures AllDigits(r) && |r| <= |s|
  {
    if s == [] then []
    else (if IsDigit(s[0]) then [s[0]] else []) + DigitsOnly(s[1..])
  }

  lemma {:induction false} DigitsOnlyAppend(a: string, b: string)
    ensures DigitsOnly(a + b) == DigitsOnly(a) + DigitsOnly(b)
    decreases |a|
  {
    if a == [] {
      assert a + b == b;
    } else {
      assert (a + b)[1..] == a[1..] + b;
      DigitsOnlyAppend(a[1..], b);
    }
  }

  /** A string of digits passes through the filter unchanged, so the filter is idempotent. */
  lemma {:induction false} DigitsOnlyKeepsDigits(s: string)
    ensures AllDigits(s) <==> DigitsOnly(s) == s
    decreases |s|
  {
    if s != [] {
      DigitsOnlyKeepsDigits(s[1..]);
      if !IsDigit(s[0]) {
        assert |DigitsOnly(s)| <= |s[1..]| < |s|;
      }
    }
  }

  lemma DigitsOnlyIdempotent(s: string)
    ensures DigitsOnly(DigitsOnly(s)) == DigitsOnly(s)
  {
    DigitsOnlyKeepsDigits(DigitsOnly(s));
  }

  /** The result is empty exactly when the input holds no digit. */
  lemma {:induction false} DigitsOnlyEmpty(s: string)
    ensures DigitsOnly(s) == [] <==> forall i :: 0 <= i < |s| ==> !IsDigit(s[i])
    decreases |s|
  {
    if s != [] {
      DigitsOnlyEmpty(s[1..]);
      assert forall i :: 1 <= i < |s| ==> s[i] == s[1..][i - 1];
    }
  }

  // ---------------------------------------------------------------- trim

  /** The characters `String.prototype.trim` removes: the white space and line
      terminator characters of ECMAScript (section 12.2 and 12.3 of ECMA-262). */
  predicate IsJsSpace(c: char) {
    c == '\t' || c == '\n' || c == '\U{000B}' || c == '\U{000C}' || c == '\r' || c == ' ' ||
    c == '\U{00A0}' || c == '\U{1680}' || ('\U{2000}' <= c <= '\U{200A}') ||
    c == '\U{2028}' || c == '\U{2029}' || c == '\U{202F}' || c == '\U{205F}' ||
    c == '\U{3000}' || c == '\U{FEFF}'
  }

  predicate AllSpace(s: string) { forall i :: 0 <= i < |s| ==> IsJsSpace(s[i]) }

  function TrimStart(s: string): string
    decreases |s|
  {
    if s != [] && IsJsSpace(s[0]) then TrimStart(s[1..]) else s
  }

  function TrimEnd(s: string): string
    decreases |s|
  {
    if s != [] && IsJsSpace(s[|s| - 1]) then TrimEnd(s[..|s| - 1]) else s
  }

  function Trim(s: string): string {
    TrimEnd(TrimStart(s))
  }

  /** A string that neither starts nor ends with white space. */
  predicate Unpadded(t: string) {
    t != [] && !IsJsSpace(t[0]) && !IsJsSpace(t[|t| - 1])
  }

  lemma {:induction false} TrimStartPadded(a: string, u: string)
    requires AllSpace(a) && u != [] && !IsJsSpace(u[0])
    ensures TrimStart(a + u) == u
    decreases |a|
  {
    if a == [] {
      assert a + u == u;
    } else {
      assert (a + u)[1..] == a[1..] + u;
      TrimStartPadded(a[1..], u);
    }
  }

  lemma {:induction false} TrimEndPadded(u: string, b: string)
    requires AllSpace(b) && u != [] && !IsJsSpace(u[|u| - 1])
    ensures TrimEnd(u + b) == u
    decreases |b|
  {
    if b == [] {
      assert u + b == u;
    } else {
      assert (u + b)[..|u + b| - 1] == u + b[..|b| - 1];
      TrimEndPadded(u, b[..|b| - 1]);
    }
  }

  /** The number of white-space characters `s` starts with. */
  function LeadingSpaces(s: string): (n: nat)
    ensures n <= |s|
    decreases |s|
  {
    if s != [] && IsJsSpace(s[0]) then 1 + LeadingSpaces(s[1..]) else 0
  }

  /** The number of white-space characters `s` ends with. */
  function TrailingSpaces(s: string): (n: nat)
    ensures n <= |s|
    decreases |s|
  {
    if s != [] && IsJsSpace(s[|s| - 1]) then 1 + TrailingSpaces(s[..|s| - 1]) else 0
  }

  lemma {:induction false} TrimStartSplits(s: string)
    ensures AllSpace(s[..LeadingSpaces(s)]) && TrimStart(s) == s[LeadingSpaces(s)..]
    ensures TrimStart(s) == [] || !IsJsSpace(TrimStart(s)[0])
    decreases |s|
  {
    if s != [] && IsJsSpace(s[0]) {
      var n := LeadingSpaces(s[1..]);
      TrimStartSplits(s[1..]);
      assert s[1..][n..] == s[n + 1..];
      assert s[..n + 1] == [s[0]] + s[1..][..n];
    }
  }

  lemma {:induction false} TrimEndSplits(s: string)
    ensures AllSpace(s[|s| - TrailingSpaces(s)..]) && TrimEnd(s) == s[..|s| - TrailingSpaces(s)]
    ensures TrimEnd(s) == [] || !IsJsSpace(TrimEnd(s)[|TrimEnd(s)| - 1])
    decreases |s|
  {
    if s != [] && IsJsSpace(s[|s| - 1]) {
      var p := s[..|s| - 1];
      var n := TrailingSpaces(p);
      assert TrailingSpaces(s) == n + 1 && TrimEnd(s) == TrimEnd(p);
      TrimEndSplits(p);
      assert p[..|p| - n] == s[..|s| - (n + 1)];
      assert s[|s| - (n + 1)..] == p[|p| - n..] + [s[|s| - 1]];
      AllSpaceAppend(p[|p| - n..], [s[|s| - 1]]);
    }
  }

  lemma AllSpaceAppend(a: string, b: string)
    ensures AllSpace(a + b) <==> AllSpace(a) && AllSpace(b)
  {
    if AllSpace(a) && AllSpace(b) {
      forall i | 0 <= i < |a + b|
        ensures IsJsSpace((a + b)[i])
      {
        if i < |a| {
          assert (a + b)[i] == a[i];
        } else {
          assert (a + b)[i] == b[i - |a|];
        }
      }
    }
    if AllSpace(a + b) {
      forall i | 0 <= i < |b|
        ensures IsJsSpace(b[i])
      {
        assert b[i] == (a + b)[|a| + i];
      }
      forall i | 0 <= i < |a|
        ensures IsJsSpace(a[i])
      {
        assert a[i] == (a + b)[i];
      }
    }
  }

  /** Every string is its trimmed text with white space only around it. */
  lemma TrimmedParts(s: string) returns (a: string, b: string)
    ensures AllSpace(a) && AllSpace(b) && s == a + Trim(s) + b
  {
    TrimStartSplits(s);
    var k := LeadingSpaces(s);
    var u := s[k..];
    TrimEndSplits(u);
    var j := |u| - TrailingSpaces(u);
    a, b := s[..k], u[j..];
    assert u == u[..j] + u[j..];
    assert s == s[..k] + u;
  }

  /** White space around an unpadded text is exactly what trimming removes. */
  lemma TrimPadded(a: string, t: string, b: string)
    requires AllSpace(a) && AllSpace(b) && Unpadded(t)
    ensures Trim(a + t + b) == t
  {
    assert a + t + b == a + (t + b);
    TrimStartPadded(a, t + b);
    TrimEndPadded(t, b);
  }

  /** `s.trim() === t` for a non-empty, unpadded `t` holds exactly when `s` is
      `t` with white space only around it. */
  lemma TrimEquals(s: string, t: string)
    requires Unpadded(t)
    ensures Trim(s) == t <==> exists a, b :: AllSpace(a) && AllSpace(b) && s == a + t + b
  {
    if Trim(s) == t {
      var a, b := TrimmedParts(s);
    }
    if exists a, b :: AllSpace(a) && AllSpace(b) && s == a + t + b {
      var a, b :| AllSpace(a) && AllSpace(b) && s == a + t + b;
      TrimPadded(a, t, b);
    }
  }

  // ---------------------------------------------------------------- replace(/w/gi, rep)

  /** A case-insensitive occurrence of the lower-case word `pat` at position `i` of `s`. */
  predicate MatchesAt(s: string, i: int, pat: string) {
    0 <= i && i + |pat| <= |s| && forall m :: 0 <= m < |pat| ==> LowerChar(s[i + m]) == pat[m]
  }

  /** `s.replace(/pat/gi, rep)` for a literal lower-case word `pat`: scanning left
      to right, each case-insensitive occurrence is replaced and scanning resumes
      after it. ECMAScript's non-Unicode case-insensitive matching never equates a
      non-ASCII character with an ASCII one, so folding ASCII letters is exact here. */
  function ReplaceAllCI(s: string, pat: string, rep: string): string
    requires pat != []
    decreases |s|
  {
    if |s| < |pat| then s
    else if MatchesAt(s, 0, pat) then rep + ReplaceAllCI(s[|pat|..], pat, rep)
    else [s[0]] + ReplaceAllCI(s[1..], pat, rep)
  }

  /** With no occurrence the text comes back unchanged. */
  lemma {:induction false} ReplaceWithoutMatch(s: string, pat: string, rep: string)
    requires pat != []
    requires forall i :: !MatchesAt(s, i, pat)
    ensures ReplaceAllCI(s, pat, rep) == s
    decreases |s|
  {
    if |s| >= |pat| {
      assert !MatchesAt(s, 0, pat);
      forall i ensures !MatchesAt(s[1..], i, pat) {
        if MatchesAt(s[1..], i, pat) {
          assert MatchesAt(s, i + 1, pat);
        }
      }
      ReplaceWithoutMatch(s[1..], pat, rep);
    }
  }

  /** A replacement that differs from the word only in letter case changes
      nothing but letter case. */
  lemma {:induction false} ReplaceKeepsLowered(s: string, pat: string, rep: string)
    requires pat != [] && ToLower(rep) == pat
    ensures ToLower(ReplaceAllCI(s, pat, rep)) == ToLower(s)
    decreases |s|
  {
    if |s| < |pat| {
    } else if MatchesAt(s, 0, pat) {
      ReplaceKeepsLowered(s[|pat|..], pat, rep);
      ToLowerAppend(rep, ReplaceAllCI(s[|pat|..], pat, rep));
      ToLowerAppend(s[..|pat|], s[|pat|..]);
      assert s == s[..|pat|] + s[|pat|..];
      assert ToLower(s[..|pat|]) == pat;
    } else {
      ReplaceKeepsLowered(s[1..], pat, rep);
      ToLowerAppend([s[0]], ReplaceAllCI(s[1..], pat, rep));
      ToLowerAppend([s[0]], s[1..]);
      assert s == [s[0]] + s[1..];
    }
  }

  /** No character of `rep` lowers to a letter of `pat`. */
  predicate Foreign(rep: string, pat: string) {
    forall k :: 0 <= k < |rep| ==> LowerChar(rep[k]) !in pat
  }

  lemma ForeignPrefix(rep: string, pat: string, x: string, i: int)
    requires Foreign(rep, pat) && 0 <= i < |rep|
    ensures LowerChar((rep + x)[i]) !in pat
  {
    assert (rep + x)[i] == rep[i];
  }

  /** A prefix of the output made only of letters of the word was copied from the input. */
  lemma {:induction false} CopiedPrefix(t: string, pat: string, rep: string, k: nat)
    requires pat != [] && rep != [] && Foreign(rep, pat)
    requires k <= |ReplaceAllCI(t, pat, rep)|
    requires forall i :: 0 <= i < k ==> LowerChar(ReplaceAllCI(t, pat, rep)[i]) in pat
    ensures k <= |t| && ReplaceAllCI(t, pat, rep)[..k] == t[..k]
    decreases |t|
  {
    var r := ReplaceAllCI(t, pat, rep);
    if |t| < |pat| || k == 0 {
    } else if MatchesAt(t, 0, pat) {
      ForeignPrefix(rep, pat, ReplaceAllCI(t[|pat|..], pat, rep), 0);
      assert false;
    } else {
      var r' := ReplaceAllCI(t[1..], pat, rep);
      assert r == [t[0]] + r';
      forall i | 0 <= i < k - 1 ensures LowerChar(r'[i]) in pat {
        assert r'[i] == r[i + 1];
      }
      CopiedPrefix(t[1..], pat, rep, k - 1);
      PrefixOfCons(t[0], r', k);
      assert t == [t[0]] + t[1..];
      PrefixOfCons(t[0], t[1..], k);
    }
  }

  lemma PrefixOfCons(c: char, x: string, k: nat)
    requires 1 <= k <= |x| + 1
    ensures ([c] + x)[..k] == [c] + x[..k - 1]
  {
  }

  lemma ForeignNoMatch(rep: string, pat: string, x: string, i: int)
    requires pat != [] && Foreign(rep, pat) && 0 <= i < |rep|
    ensures !MatchesAt(rep + x, i, pat)
  {
    ForeignPrefix(rep, pat, x, i);
    assert pat[0] in pat;
    assert LowerChar((rep + x)[i + 0]) != pat[0];
  }

  /** An occurrence past a prefix is an occurrence in the rest. */
  lemma ShiftMatch(x: string, y: string, i: int, pat: string)
    requires |x| <= i
    ensures MatchesAt(x + y, i, pat) <==> MatchesAt(y, i - |x|, pat)
  {
    if i + |pat| <= |x + y| {
      forall m | 0 <= m < |pat|
        ensures LowerChar((x + y)[i + m]) == pat[m] <==> LowerChar(y[i - |x| + m]) == pat[m]
      {
        assert (x + y)[i + m] == y[i - |x| + m];
      }
    }
  }

  /** Replacing a word by text foreign to it leaves no occurrence of the word. */
  lemma {:induction false} ReplaceRemovesAll(t: string, pat: string, rep: string)
    requires pat != [] && rep != [] && Foreign(rep, pat)
    ensures forall i :: !MatchesAt(ReplaceAllCI(t, pat, rep), i, pat)
    decreases |t|
  {
    var r := ReplaceAllCI(t, pat, rep);
    if |t| < |pat| {
    } else if MatchesAt(t, 0, pat) {
      var r' := ReplaceAllCI(t[|pat|..], pat, rep);
      ReplaceRemovesAll(t[|pat|..], pat, rep);
      assert r == rep + r';
      forall i ensures !MatchesAt(r, i, pat) {
        if i < 0 {
        } else if i < |rep| {
          ForeignNoMatch(rep, pat, r', i);
        } else {
          ShiftMatch(rep, r', i, pat);
        }
      }
    } else {
      var r' := ReplaceAllCI(t[1..], pat, rep);
      ReplaceRemovesAll(t[1..], pat, rep);
      assert r == [t[0]] + r';
      forall i ensures !MatchesAt(r, i, pat) {
        if i == 0 {
          if MatchesAt(r, 0, pat) {
            forall j | 0 <= j < |pat| ensures LowerChar(r[j]) in pat {
              assert LowerChar(r[0 + j]) == pat[j];
            }
            CopiedPrefix(t, pat, rep, |pat|);
            forall m | 0 <= m < |pat| ensures LowerChar(t[0 + m]) == pat[m] {
              assert t[m] == t[..|pat|][m] == r[..|pat|][m] == r[0 + m];
            }
            assert false;
          }
        } else if i > 0 {
          ShiftMatch([t[0]], r', i, pat);
        }
      }
    }
  }

  /** Whether a word occurs depends on the lowered text only. */
  lemma MatchesOnLowered(s: string, s': string, i: int, pat: string)
    requires ToLower(s) == ToLower(s')
    ensures MatchesAt(s, i, pat) <==> MatchesAt(s', i, pat)
  {
    assert |s| == |ToLower(s)| == |s'|;
    if 0 <= i && i + |pat| <= |s| {
      forall m | 0 <= m < |pat|
        ensures LowerChar(s[i + m]) == pat[m] <==> LowerChar(s'[i + m]) == pat[m]
      {
        assert ToLower(s)[i + m] == ToLower(s')[i + m];
      }
    }
  }
}
