/** String helpers that stand in for the JavaScript built-ins the search uses:
    `toLowerCase` (ASCII only), `trim` (the exact ECMAScript white-space set)
    and `includes` (substring test). */
module Text {

  /** The character `toLowerCase` maps `c` to, restricted to ASCII letters. */
  function LowerChar(c: char): (d: char)
    ensures 'A' <= c <= 'Z' ==> 'a' <= d <= 'z' && d as int == c as int + 32
    ensures !('A' <= c <= 'Z') ==> d == c
  {
    if 'A' <= c <= 'Z' then (c as int + 32) as char else c
  }

  /** `s.toLowerCase()`: every character lowered, length kept. */
  function Lower(s: string): (r: string)
    ensures |r| == |s|
    ensures forall i :: 0 <= i < |s| ==> r[i] == LowerChar(s[i])
  {
    if s == [] then [] else [LowerChar(s[0])] + Lower(s[1..])
  }

  /** White space as `String.prototype.trim` removes it: the WhiteSpace and
      LineTerminator code points of ECMAScript (section 12.2 and 12.3 of
      ECMA-262), the Zs category included. */
  predicate IsSpace(c: char) {
    c == '\t' || c == '\n' || c == '\U{0B}' || c == '\U{0C}' || c == '\r' ||
    c == ' ' || c == '\U{A0}' || c == '\U{1680}' ||
    ('\U{2000}' <= c <= '\U{200A}') ||
    c == '\U{2028}' || c == '\U{2029}' || c == '\U{202F}' || c == '\U{205F}' ||
    c == '\U{3000}' || c == '\U{FEFF}'
  }

  ghost predicate AllSpace(s: string) {
    forall i :: 0 <= i < |s| ==> IsSpace(s[i])
  }

  /** Drops the leading white space: the result is a suffix of `s` that does
      not start with white space, and all that was dropped is white space. */
  function TrimStart(s: string): (r: string)
    ensures |r| <= |s| && r == s[|s| - |r|..]
    ensures r == [] || !IsSpace(r[0])
    ensures AllSpace(s[..|s| - |r|])
  {
    if s != [] && IsSpace(s[0]) then
      var r := TrimStart(s[1..]);
      TrimStartStep(s, |r|);
      r
    else s
  }

  /** One step of `TrimStart`: a leading white-space character joins the
      dropped part of `s[1..]`. */
  lemma TrimStartStep(s: string, n: nat)
    requires s != [] && IsSpace(s[0]) && n < |s|
    requires AllSpace(s[1..][..|s| - 1 - n])
    ensures AllSpace(s[..|s| - n]) && s[1..][|s| - 1 - n..] == s[|s| - n..]
  {
    var k := |s| - n;
    forall i | 0 <= i < k ensures IsSpace(s[..k][i]) {
      if i > 0 {
        assert s[..k][i] == s[1..][..k - 1][i - 1];
      }
    }
  }

  /** Drops the trailing white space: the result is a prefix of `s` that does
      not end with white space, and all that was dropped is white space. */
  function TrimEnd(s: string): (r: string)
    ensures |r| <= |s| && r == s[..|r|]
    ensures r == [] || !IsSpace(r[|r| - 1])
    ensures AllSpace(s[|r|..])
  {
    if s != [] && IsSpace(s[|s| - 1]) then TrimEnd(s[..|s| - 1]) else s
  }

  /** A stretch `r` at the front of `s[k..]` sits at position `k` of `s`, and
      what follows it in `s[k..]` is what follows it in `s`. */
  lemma TrimSlice(s: string, k: nat, r: string)
    requires k <= |s| && |r| <= |s| - k
    requires r == s[k..][..|r|] && AllSpace(s[k..][|r|..])
    ensures OccursAt(s, r, k) && AllSpace(s[k + |r|..])
  {
    assert s[k..][|r|..] == s[k + |r|..];
  }

  /** `s.trim()`: the result is a stretch of `s` that neither starts nor ends
      with white space, and everything cut off on either side is white space. */
  function Trim(s: string): (r: string)
    ensures r == [] || (!IsSpace(r[0]) && !IsSpace(r[|r| - 1]))
    ensures exists i: nat :: OccursAt(s, r, i) && AllSpace(s[..i]) && AllSpace(s[i + |r|..])
  {
    var t := TrimStart(s);
    var r := TrimEnd(t);
    TrimSlice(s, |s| - |t|, r);
    r
  }

  /** `!s.trim()`: the trimmed string is the empty string, which JavaScript
      treats as false. */
  predicate IsBlank(s: string) {
    Trim(s) == []
  }

  /** `sub` occurs in `s` starting at position `i`. */
  ghost predicate OccursAt(s: string, sub: string, i: nat) {
    i + |sub| <= |s| && s[i..i + |sub|] == sub
  }

  /** `s.includes(sub)`: true exactly when `sub` occurs somewhere in `s`
      (so always for the empty `sub`). */
  function Includes(s: string, sub: string): (r: bool)
    ensures r <==> exists i: nat :: OccursAt(s, sub, i)
    ensures sub == [] ==> r
    ensures |sub| > |s| ==> !r
    decreases |s|
  {
    if |sub| > |s| then
      assert forall i: nat :: !OccursAt(s, sub, i);
      false
    else if s[..|sub|] == sub then
      assert OccursAt(s, sub, 0);
      true
    else
      var r := Includes(s[1..], sub);
      assert forall i: nat :: OccursAt(s[1..], sub, i) ==> OccursAt(s, sub, i + 1) by {
        forall i: nat | OccursAt(s[1..], sub, i) ensures OccursAt(s, sub, i + 1) {
          assert s[1..][i..i + |sub|] == s[i + 1..i + 1 + |sub|];
        }
      }
      assert forall i: nat :: OccursAt(s, sub, i) ==> i > 0 && OccursAt(s[1..], sub, i - 1) by {
        forall i: nat | OccursAt(s, sub, i) ensures i > 0 && OccursAt(s[1..], sub, i - 1) {
          assert i != 0;
          assert s[1..][i - 1..i - 1 + |sub|] == s[i..i + |sub|];
        }
      }
      r
  }

  /** A string in which the first character of a non-empty `sub` never
      appears does not include `sub`. */
  lemma FirstCharAbsent(s: string, sub: string)
    requires sub != [] && forall i :: 0 <= i < |s| ==> s[i] != sub[0]
    ensures !Includes(s, sub)
  {
    assert forall i: nat :: OccursAt(s, sub, i) ==> s[i] == sub[0];
  }

  /** Lower-casing twice is lower-casing once, so a query that is already
      lower case is unchanged by the handler's `toLowerCase`. */
  lemma {:induction false} LowerIdempotent(s: string)
    ensures Lower(Lower(s)) == Lower(s)
  {
    if s != [] {
      LowerIdempotent(s[1..]);
      assert Lower(s) == [LowerChar(s[0])] + Lower(s[1..]);
      assert Lower(Lower(s)) == [LowerChar(LowerChar(s[0]))] + Lower(Lower(s[1..]));
    }
  }

  /** `trim()` leaves nothing exactly when the string is all white space. */
  lemma BlankIffAllSpace(s: string)
    ensures IsBlank(s) <==> AllSpace(s)
  {
    var t := TrimStart(s);
    if Trim(s) == [] {
      assert s == s[..|s| - |t|] + t;
      assert t == t[..0] + t[0..];
    } else {
      var k := |s| - |t|;
      assert !IsSpace(s[k]);
    }
  }

  /** A string that starts with a non-white-space character is not blank. */
  lemma NotBlankWhenHeadNotSpace(s: string)
    requires s != [] && !IsSpace(s[0])
    ensures !IsBlank(s)
  {
    BlankIffAllSpace(s);
  }

  /** Lower-casing neither creates nor removes white space, so the query is
      blank before `toLowerCase` exactly when it is blank after it. */
  lemma BlankLowerIffBlank(s: string)
    ensures IsBlank(Lower(s)) <==> IsBlank(s)
  {
    BlankIffAllSpace(s);
    BlankIffAllSpace(Lower(s));
    forall i | 0 <= i < |s| ensures IsSpace(Lower(s)[i]) <==> IsSpace(s[i]) {
      LowerCharKeepsSpace(s[i]);
    }
  }

  /** No white-space character is an ASCII letter, so lowering keeps them. */
  lemma LowerCharKeepsSpace(c: char)
    ensures IsSpace(LowerChar(c)) <==> IsSpace(c)
  {
  }
}
