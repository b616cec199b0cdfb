/** `String.prototype.trim` of ECMAScript (section 22.1.3.32 of ECMA-262): drop leading and
    trailing white space and line terminators. The forms use it on names and descriptions.
    The trimming itself is written for any test of which characters to drop (`drop`), and
    its properties are proved at that level; `Trim` is that with ECMAScript's white space. */
module Text {

  /** The WhiteSpace and LineTerminator code points of ECMA-262 (sections 12.2 and 12.3). */
  predicate IsWhiteSpace(c: char)
  {
    c in WhiteSpaceChars
  }

  /** Tab, vertical tab, form feed, space, no-break space, zero-width no-break space, the
      other space separators (Unicode category Zs), line feed, carriage return, line
      separator and paragraph separator. */
  const WhiteSpaceChars: set<char> :=
    { '\t', '\U{000B}', '\U{000C}', ' ', '\U{00A0}', '\U{FEFF}', '\U{1680}',
      '\U{2000}', '\U{2001}', '\U{2002}', '\U{2003}', '\U{2004}', '\U{2005}', '\U{2006}',
      '\U{2007}', '\U{2008}', '\U{2009}', '\U{200A}', '\U{202F}', '\U{205F}', '\U{3000}',
      '\n', '\r', '\U{2028}', '\U{2029}' }

  /** Every character of `s` is one `drop` accepts. */
  predicate All(s: string, drop: char -> bool)
  {
    forall k :: 0 <= k < |s| ==> drop(s[k])
  }

  predicate AllWhiteSpace(s: string)
  {
    All(s, IsWhiteSpace)
  }

  // ---------------------------------------------------------------------------
  // Stripping the characters a test accepts from either end

  /** How many leading characters of `s` `drop` accepts. */
  function LeadCount(s: string, drop: char -> bool): (n: nat)
    ensures n <= |s|
  {
    if s == [] || !drop(s[0]) then 0
    else 1 + LeadCount(s[1..], drop)
  }

  /** How many trailing characters of `s` `drop` accepts. */
  function TrailCount(s: string, drop: char -> bool): (n: nat)
    ensures n <= |s|
  {
    if s == [] || !drop(s[|s| - 1]) then 0
    else 1 + TrailCount(s[..|s| - 1], drop)
  }

  /** Drops leading characters `drop` accepts. */
  function DropLeading(s: string, drop: char -> bool): string
  {
    s[LeadCount(s, drop)..]
  }

  /** Drops trailing characters `drop` accepts. */
  function DropTrailing(s: string, drop: char -> bool): string
  {
    s[..|s| - TrailCount(s, drop)]
  }

  function Strip(s: string, drop: char -> bool): (r: string)
    ensures |r| <= |s|
  {
    DropTrailing(DropLeading(s, drop), drop)
  }

  /** The leading run `drop` accepts is exactly the first `LeadCount` characters. */
  lemma {:induction false} LeadCountSpec(s: string, drop: char -> bool)
    ensures forall k :: 0 <= k < LeadCount(s, drop) ==> drop(s[k])
    ensures LeadCount(s, drop) < |s| ==> !drop(s[LeadCount(s, drop)])
  {
    if s != [] && drop(s[0]) {
      LeadCountSpec(s[1..], drop);
      forall k | 1 <= k < LeadCount(s, drop) ensures drop(s[k]) {
        assert s[k] == s[1..][k - 1];
      }
    }
  }

  /** The trailing run `drop` accepts is exactly the last `TrailCount` characters. */
  lemma {:induction false} TrailCountSpec(s: string, drop: char -> bool)
    ensures forall k :: |s| - TrailCount(s, drop) <= k < |s| ==> drop(s[k])
    ensures TrailCount(s, drop) < |s| ==> !drop(s[|s| - 1 - TrailCount(s, drop)])
  {
    if s != [] && drop(s[|s| - 1]) {
      var init := s[..|s| - 1];
      TrailCountSpec(init, drop);
      forall k | |s| - TrailCount(s, drop) <= k < |s| - 1 ensures drop(s[k]) {
        assert s[k] == init[k];
      }
      if TrailCount(s, drop) < |s| {
        assert s[|s| - 1 - TrailCount(s, drop)] == init[|init| - 1 - TrailCount(init, drop)];
      }
    }
  }

  lemma StripEdges(s: string, drop: char -> bool)
    ensures var r := Strip(s, drop); r == [] || (!drop(r[0]) && !drop(r[|r| - 1]))
  {
    var i := LeadCount(s, drop);
    var t := s[i..];
    var m := TrailCount(t, drop);
    LeadCountSpec(s, drop);
    TrailCountSpec(t, drop);
    if |t| - m > 0 {
      assert Strip(s, drop)[0] == t[0] == s[i];
      assert Strip(s, drop)[|t| - m - 1] == t[|t| - 1 - m];
    }
  }

  /** `r` sits in `s` at index `i` with only characters `drop` accepts around it. */
  predicate PaddedAt(s: string, r: string, i: int, drop: char -> bool)
  {
    0 <= i <= |s| - |r| && r == s[i..i + |r|] && All(s[..i], drop) && All(s[i + |r|..], drop)
  }

  lemma StripInfix(s: string, drop: char -> bool)
    ensures PaddedAt(s, Strip(s, drop), LeadCount(s, drop), drop)
  {
    StripSlice(s, drop);
    StripLead(s, drop);
    StripTrail(s, drop);
  }

  /** The end of the part `Strip` keeps: where the trailing run starts. */
  function StripEnd(s: string, drop: char -> bool): nat
  {
    |s| - TrailCount(s[LeadCount(s, drop)..], drop)
  }

  /** `Strip` keeps the slice between the two runs. */
  lemma StripSlice(s: string, drop: char -> bool)
    ensures LeadCount(s, drop) <= StripEnd(s, drop) <= |s|
    ensures Strip(s, drop) == s[LeadCount(s, drop)..StripEnd(s, drop)]
  {
    var i := LeadCount(s, drop);
    Infix(s, i, |s| - TrailCount(s[i..], drop));
  }

  /** A prefix of a suffix of `s` is a slice of `s`. */
  lemma Infix(s: string, i: nat, j: nat)
    requires i <= j <= |s|
    ensures s[i..][..j - i] == s[i..j]
  {
  }

  /** The leading run is accepted by `drop`. */
  lemma StripLead(s: string, drop: char -> bool)
    ensures All(s[..LeadCount(s, drop)], drop)
  {
    LeadCountSpec(s, drop);
  }

  /** The trailing run is accepted by `drop`. */
  lemma StripTrail(s: string, drop: char -> bool)
    ensures StripEnd(s, drop) <= |s| && All(s[StripEnd(s, drop)..], drop)
  {
    var t := s[LeadCount(s, drop)..];
    var m := TrailCount(t, drop);
    var j := StripEnd(s, drop);
    TrailCountSpec(t, drop);
    forall k | 0 <= k < |s| - j ensures drop(s[j..][k]) {
      assert s[j..][k] == t[|t| - m + k];
    }
  }

  lemma StripEmpty(s: string, drop: char -> bool)
    ensures Strip(s, drop) == [] <==> All(s, drop)
  {
    var i := LeadCount(s, drop);
    var t := s[i..];
    var m := TrailCount(t, drop);
    LeadCountSpec(s, drop);
    TrailCountSpec(t, drop);
    if Strip(s, drop) != [] {
      assert s[i] == t[0];
    }
  }

  lemma StripIdempotent(s: string, drop: char -> bool)
    ensures Strip(Strip(s, drop), drop) == Strip(s, drop)
  {
    var r := Strip(s, drop);
    StripEdges(s, drop);
    if r != [] {
      assert LeadCount(r, drop) == 0;
      assert DropLeading(r, drop) == r;
      assert TrailCount(r, drop) == 0;
    }
  }

  // ---------------------------------------------------------------------------
  // `trim`

  /** `s.trim()`: leading and then trailing white space dropped. `TrimInfix`, `TrimEdges`,
      `TrimEmpty` and `TrimIdempotent` say what is left. */
  function Trim(s: string): (r: string)
    ensures |r| <= |s|
  {
    Strip(s, IsWhiteSpace)
  }

  /** What `trim` leaves neither starts nor ends with white space. */
  lemma TrimEdges(s: string)
    ensures var r := Trim(s);
            r == [] || (!IsWhiteSpace(r[0]) && !IsWhiteSpace(r[|r| - 1]))
  {
    StripEdges(s, IsWhiteSpace);
  }

  /** `s` is `lead + s.trim() + trail` with `lead` and `trail` all white space. */
  lemma TrimInfix(s: string)
    ensures exists i :: PaddedAt(s, Trim(s), i, IsWhiteSpace)
  {
    StripInfix(s, IsWhiteSpace);
    assert PaddedAt(s, Trim(s), LeadCount(s, IsWhiteSpace), IsWhiteSpace);
  }

  /** The `!s.trim()` test of the forms: nothing is left once `s` is trimmed. */
  predicate BlankAfterTrim(s: string)
  {
    Trim(s) == ""
  }

  /** `s.trim()` is empty exactly when `s` is all white space. */
  lemma TrimEmpty(s: string)
    ensures BlankAfterTrim(s) <==> AllWhiteSpace(s)
  {
    StripEmpty(s, IsWhiteSpace);
  }

  /** Trimming what is already trimmed changes nothing. */
  lemma TrimIdempotent(s: string)
    ensures Trim(Trim(s)) == Trim(s)
  {
    StripIdempotent(s, IsWhiteSpace);
  }
}
