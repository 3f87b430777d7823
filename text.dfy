/**
 * The three string operations the page script relies on: `String.prototype.trim`,
 * `String.prototype.toLowerCase` and `String.prototype.includes`.
 */
module Text {

  /** ECMAScript WhiteSpace and LineTerminator code points, the set `trim` removes. */
  predicate IsWhitespace(c: char)
  {
    c == ' ' || c == '\t' || c == '\n' || c == '\r' || c == '\U{000B}' || c == '\U{000C}' ||
    c == '\U{00A0}' || c == '\U{1680}' || ('\U{2000}' <= c <= '\U{200A}') ||
    c == '\U{2028}' || c == '\U{2029}' || c == '\U{202F}' || c == '\U{205F}' ||
    c == '\U{3000}' || c == '\U{FEFF}'
  }

  predicate AllWhitespace(s: string)
  {
    forall i :: 0 <= i < |s| ==> IsWhitespace(s[i])
  }

  /** Drops leading white space. */
  function TrimStart(s: string): (r: string)
    ensures |r| <= |s|
  {
    if s != [] && IsWhitespace(s[0]) then TrimStart(s[1..]) else s
  }

  /** The result of `TrimStart` is a suffix of `s`, does not start with white space, and what was dropped is white space. */
  lemma {:induction false} TrimStartShape(s: string)
    ensures var r := TrimStart(s);
      r == s[|s| - |r|..] && (r == [] || !IsWhitespace(r[0])) && AllWhitespace(s[..|s| - |r|])
  {
    if s != [] && IsWhitespace(s[0]) {
      TrimStartShape(s[1..]);
      var r := TrimStart(s);
      assert s[1..][|s| - 1 - |r|..] == s[|s| - |r|..];
      var dropped := s[..|s| - |r|];
      forall i | 0 <= i < |dropped| ensures IsWhitespace(dropped[i]) {
        if i > 0 {
          assert dropped[i] == s[1..][..|s| - 1 - |r|][i - 1];
        }
      }
    }
  }

  /** Drops trailing white space. */
  function TrimEnd(s: string): (r: string)
    ensures |r| <= |s|
  {
    if s != [] && IsWhitespace(s[|s| - 1]) then TrimEnd(s[..|s| - 1]) else s
  }

  /** The result of `TrimEnd` is a prefix of `s`, does not end with white space, and what was dropped is white space. */
  lemma {:induction false} TrimEndShape(s: string)
    ensures var r := TrimEnd(s);
      r == s[..|r|] && (r == [] || !IsWhitespace(r[|r| - 1])) && AllWhitespace(s[|r|..])
  {
    if s != [] && IsWhitespace(s[|s| - 1]) {
      TrimEndShape(s[..|s| - 1]);
      var r := TrimEnd(s);
      assert s[..|s| - 1][..|r|] == s[..|r|];
      forall i | |r| <= i < |s| ensures IsWhitespace(s[i]) {
        if i < |s| - 1 {
          assert s[..|s| - 1][|r|..][i - |r|] == s[i];
        }
      }
    }
  }

  /** `String.prototype.trim`: drops white space at both ends. */
  function Trim(s: string): (r: string)
    ensures |r| <= |s|
  {
    TrimEnd(TrimStart(s))
  }

  /**
   * The result of `Trim` is the slice of `s` that starts at its first and ends at its last
   * character that is not white space: neither end of it is white space, and everything
   * dropped on either side is.
   */
  lemma TrimShape(s: string)
    ensures var r := Trim(s); var k := |s| - |TrimStart(s)|;
      k + |r| <= |s| && r == s[k..k + |r|] &&
      (r == [] || (!IsWhitespace(r[0]) && !IsWhitespace(r[|r| - 1]))) &&
      AllWhitespace(s[..k]) && AllWhitespace(s[k + |r|..])
  {
    var t := TrimStart(s);
    var r := Trim(s);
    var k := |s| - |t|;
    TrimStartShape(s);
    TrimEndShape(t);
    assert r == s[k..k + |r|];
    assert t[|r|..] == s[k + |r|..];
    if r != [] {
      assert r[0] == t[0];
    }
  }

  /** Trimming yields the empty string exactly when the input is nothing but white space. */
  lemma TrimEmptyIff(s: string)
    ensures Trim(s) == [] <==> AllWhitespace(s)
  {
    var t := TrimStart(s);
    var k := |s| - |t|;
    TrimStartShape(s);
    TrimEndShape(t);
    if Trim(s) == [] {
      assert AllWhitespace(t[0..]);
      assert t == [];
      forall i | 0 <= i < |s| ensures IsWhitespace(s[i]) {
        assert s[..k][i] == s[i];
      }
    } else {
      var r := Trim(s);
      assert r[0] == t[0];
      assert t[0] == s[k];
      assert !IsWhitespace(s[k]);
    }
  }

  /** A trimmed string neither starts nor ends with white space, so trimming it again changes nothing. */
  lemma TrimIdempotent(s: string)
    ensures Trim(Trim(s)) == Trim(s)
  {
    var r := Trim(s);
    TrimStartShape(s);
    TrimEndShape(TrimStart(s));
    if r != [] {
      assert r[0] == TrimStart(s)[0];
    }
  }

  /** The upper-case letters `toLowerCase` maps here: A-Z and the Latin-1 capitals (Å, Ä, Ö, É, ...). */
  predicate IsUpper(c: char)
  {
    'A' <= c <= 'Z' || ('\U{00C0}' <= c <= '\U{00DE}' && c != '\U{00D7}')
  }

  /** `toLowerCase` on one character: a capital becomes its small letter, 32 code points later. */
  function LowerChar(c: char): (d: char)
    ensures !IsUpper(d)
    ensures IsUpper(c) ==> d as int == c as int + 32
    ensures !IsUpper(c) ==> d == c
  {
    if IsUpper(c) then (c as int + 32) as char else c
  }

  function Lower(s: string): (r: string)
    ensures |r| == |s|
    ensures forall i :: 0 <= i < |s| ==> r[i] == LowerChar(s[i])
  {
    seq(|s|, i requires 0 <= i < |s| => LowerChar(s[i]))
  }

  /**
   * What lower-casing does to a string: no capital is left, every other character is kept,
   * and each capital is replaced by the character 32 code points later.
   */
  lemma LowerCases(s: string)
    ensures forall i :: 0 <= i < |s| ==> !IsUpper(Lower(s)[i])
    ensures forall i :: 0 <= i < |s| && !IsUpper(s[i]) ==> Lower(s)[i] == s[i]
    ensures forall i :: 0 <= i < |s| && IsUpper(s[i]) ==> Lower(s)[i] as int == s[i] as int + 32
  {
  }

  /** Lower-casing twice is lower-casing once. */
  lemma LowerIdempotent(s: string)
    ensures Lower(Lower(s)) == Lower(s)
  {
    forall i | 0 <= i < |s| ensures Lower(Lower(s))[i] == Lower(s)[i] {
      var c := s[i];
      assert LowerChar(LowerChar(c)) == LowerChar(c);
    }
  }

  /** `q` occurs in `t` starting at index `i`. */
  ghost predicate OccursAt(t: string, q: string, i: int)
  {
    0 <= i <= |t| - |q| && t[i..i + |q|] == q
  }

  /** `t.includes(q)`: true exactly when `q` occurs somewhere in `t`. */
  function Includes(t: string, q: string): (b: bool)
    ensures b <==> exists i :: OccursAt(t, q, i)
    decreases |t|
  {
    if |q| > |t| then
      false
    else if q <= t then
      assert OccursAt(t, q, 0);
      true
    else
      OccursShift(t, q);
      Includes(t[1..], q)
  }

  /** When `q` is not a prefix of `t`, it occurs in `t` exactly when it occurs in `t` without its first character. */
  lemma OccursShift(t: string, q: string)
    requires |q| <= |t| && !(q <= t)
    ensures (exists i :: OccursAt(t, q, i)) <==> (exists i :: OccursAt(t[1..], q, i))
  {
    if i :| OccursAt(t[1..], q, i) {
      assert t[1..][i..i + |q|] == t[i + 1..i + 1 + |q|];
      assert OccursAt(t, q, i + 1);
    }
    if i :| OccursAt(t, q, i) {
      assert t[1..][i - 1..i - 1 + |q|] == t[i..i + |q|];
      assert OccursAt(t[1..], q, i - 1);
    }
  }

  /** Every string includes the empty string. */
  lemma IncludesEmpty(t: string)
    ensures Includes(t, "")
  {
    assert OccursAt(t, "", 0);
  }
}
