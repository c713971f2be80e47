/**
 * The parts of Python's str that the handlers use: lower(), upper(),
 * strip(), endswith() and rsplit(sep, 1)[-1].
 *
 * Case mapping covers the ASCII letters only; strip() removes exactly the
 * characters for which Python's str.isspace() holds.
 */
module Text {
  import opened Wrappers

  /** Python's str.isspace() for one character. */
  predicate IsSpace(c: char) {
    || c == ' '
    || ('\t' <= c <= '\r')
    || ('\U{1C}' <= c <= '\U{1F}')
    || c == '\U{85}' || c == '\U{A0}' || c == '\U{1680}'
    || ('\U{2000}' <= c <= '\U{200A}')
    || c == '\U{2028}' || c == '\U{2029}' || c == '\U{202F}' || c == '\U{205F}' || c == '\U{3000}'
  }

  predicate AllSpace(s: string) {
    forall i :: 0 <= i < |s| ==> IsSpace(s[i])
  }

  predicate IsUpperLetter(c: char) { 'A' <= c <= 'Z' }

  predicate IsLowerLetter(c: char) { 'a' <= c <= 'z' }

  function LowerChar(c: char): (d: char)
    ensures !IsUpperLetter(d)
    ensures IsSpace(d) <==> IsSpace(c)
    ensures !IsUpperLetter(c) ==> d == c
  {
    if IsUpperLetter(c) then (c as int + 32) as char else c
  }

  function UpperChar(c: char): (d: char)
    ensures !IsLowerLetter(d)
    ensures IsSpace(d) <==> IsSpace(c)
    ensures !IsLowerLetter(c) ==> d == c
  {
    if IsLowerLetter(c) then (c as int - 32) as char else c
  }

  /** s.lower() */
  function Lower(s: string): (r: string)
    ensures |r| == |s|
    ensures forall i :: 0 <= i < |s| ==> r[i] == LowerChar(s[i])
  {
    seq(|s|, i requires 0 <= i < |s| => LowerChar(s[i]))
  }

  /** s.upper() */
  function Upper(s: string): (r: string)
    ensures |r| == |s|
    ensures forall i :: 0 <= i < |s| ==> r[i] == UpperChar(s[i])
  {
    seq(|s|, i requires 0 <= i < |s| => UpperChar(s[i]))
  }

  /** s.lstrip(): the suffix of s left after its leading white space. */
  function StripLeft(s: string): (r: string)
    ensures |r| <= |s| && r == s[|s| - |r|..]
    ensures r != [] ==> !IsSpace(r[0])
    decreases |s|
  {
    if s != [] && IsSpace(s[0]) then StripLeft(s[1..]) else s
  }

  /** s.rstrip(): the prefix of s left before its trailing white space. */
  function StripRight(s: string): (r: string)
    ensures |r| <= |s| && r == s[..|r|]
    ensures r != [] ==> !IsSpace(r[|r| - 1])
    decreases |s|
  {
    if s != [] && IsSpace(s[|s| - 1]) then StripRight(s[..|s| - 1]) else s
  }

  /** How many white-space characters s starts with. */
  function LeadingSpace(s: string): (k: nat)
    ensures k <= |s|
  {
    |s| - |StripLeft(s)|
  }

  /** s.strip(): the slice of s between its leading and its trailing white space. */
  function Strip(s: string): (r: string)
    ensures |r| <= |s|
    ensures r != [] ==> !IsSpace(r[0]) && !IsSpace(r[|r| - 1])
  {
    StripRight(StripLeft(s))
  }

  /** s.strip() is the slice of s between its leading and its trailing white space. */
  lemma StripIsSlice(s: string)
    ensures LeadingSpace(s) + |Strip(s)| <= |s|
    ensures forall i :: 0 <= i < |Strip(s)| ==> Strip(s)[i] == s[LeadingSpace(s) + i]
  {
    var l := StripLeft(s);
    PrefixOfSuffix(s, LeadingSpace(s), l, StripRight(l));
  }

  lemma PrefixOfSuffix(s: string, k: nat, l: string, r: string)
    requires k <= |s| && l == s[k..]
    requires |r| <= |l| && r == l[..|r|]
    ensures k + |r| <= |s|
    ensures forall i :: 0 <= i < |r| ==> r[i] == s[k + i]
  {
  }

  /** The idiom s.lower().strip() used for image format names. */
  function LowerStrip(s: string): string {
    Strip(Lower(s))
  }

  /** The idiom s.upper().strip() used for currency codes. */
  function UpperStrip(s: string): string {
    Strip(Upper(s))
  }

  /** s.endswith(suffix) */
  predicate EndsWith(s: string, suffix: string) {
    |suffix| <= |s| && s[|s| - |suffix|..] == suffix
  }

  /** s.rfind(c) as an Option: the position of the last occurrence of c. */
  function LastIndexOf(s: string, c: char): (r: Option<nat>)
    ensures r.None? ==> forall j :: 0 <= j < |s| ==> s[j] != c
    ensures r.Some? ==> r.value < |s| && s[r.value] == c
    ensures r.Some? ==> forall j :: r.value < j < |s| ==> s[j] != c
    decreases |s|
  {
    if s == [] then None
    else if s[|s| - 1] == c then Some(|s| - 1)
    else LastIndexOf(s[..|s| - 1], c)
  }

  /** s.rsplit(c, 1)[-1]: the text after the last c, or all of s when c does not occur. */
  function AfterLast(s: string, c: char): (r: string)
    ensures forall j :: 0 <= j < |r| ==> r[j] != c
    ensures EndsWith(s, r)
    ensures |r| < |s| ==> s[|s| - |r| - 1] == c
  {
    match LastIndexOf(s, c)
    case None => s
    case Some(i) => s[i + 1..]
  }

  // ---------------------------------------------------------------------------
  // Facts about strip() and case mapping
  // ---------------------------------------------------------------------------

  /** Stripping leading white space off a string that starts with none changes nothing. */
  lemma {:induction false} StripLeftPadded(pre: string, w: string)
    requires AllSpace(pre)
    requires w != [] ==> !IsSpace(w[0])
    ensures StripLeft(pre + w) == w
    decreases |pre|
  {
    if pre == [] {
      assert pre + w == w;
    } else {
      assert (pre + w)[1..] == pre[1..] + w;
      StripLeftPadded(pre[1..], w);
    }
  }

  lemma {:induction false} StripRightPadded(w: string, post: string)
    requires AllSpace(post)
    requires w != [] ==> !IsSpace(w[|w| - 1])
    ensures StripRight(w + post) == w
    decreases |post|
  {
    if post == [] {
      assert w + post == w;
    } else {
      var n := |w + post|;
      assert (w + post)[..n - 1] == w + post[..|post| - 1];
      StripRightPadded(w, post[..|post| - 1]);
    }
  }

  /**
   * strip() removes exactly the surrounding white space: whatever padding
   * surrounds a word that starts and ends with a visible character, strip()
   * gives back the word.
   */
  lemma StripPadded(pre: string, w: string, post: string)
    requires AllSpace(pre) && AllSpace(post)
    requires w != [] ==> !IsSpace(w[0]) && !IsSpace(w[|w| - 1])
    ensures w != [] ==> Strip(pre + w + post) == w
    ensures w == [] ==> Strip(pre + w + post) == []
  {
    assert pre + w + post == pre + (w + post);
    if w == [] {
      assert w + post == post;
      StripLeftPadded(pre + post, []);
      assert pre + post + [] == pre + post;
      assert StripLeft(pre + post) == [];
    } else {
      StripLeftPadded(pre, w + post);
      StripRightPadded(w, post);
    }
  }

  /** strip() is idempotent. */
  lemma StripIdempotent(s: string)
    ensures Strip(Strip(s)) == Strip(s)
  {
    var r := Strip(s);
    assert r != [] ==> !IsSpace(r[0]) && !IsSpace(r[|r| - 1]);
    assert StripLeft(r) == r;
    assert StripRight(r) == r;
  }

  lemma LowerOfLower(s: string)
    requires forall i :: 0 <= i < |s| ==> !IsUpperLetter(s[i])
    ensures Lower(s) == s
  {
  }

  lemma UpperOfUpper(s: string)
    requires forall i :: 0 <= i < |s| ==> !IsLowerLetter(s[i])
    ensures Upper(s) == s
  {
  }

  /** s.lower().strip() has no upper-case letter. */
  lemma LowerStripShape(s: string)
    ensures forall i :: 0 <= i < |LowerStrip(s)| ==> !IsUpperLetter(LowerStrip(s)[i])
  {
    var x := Lower(s);
    var y := Strip(x);
    StripIsSlice(x);
    forall i | 0 <= i < |y|
      ensures !IsUpperLetter(y[i])
    {
      assert y[i] == x[LeadingSpace(x) + i];
    }
  }

  /** s.upper().strip() has no lower-case letter. */
  lemma UpperStripShape(s: string)
    ensures forall i :: 0 <= i < |UpperStrip(s)| ==> !IsLowerLetter(UpperStrip(s)[i])
  {
    var x := Upper(s);
    var y := Strip(x);
    StripIsSlice(x);
    forall i | 0 <= i < |y|
      ensures !IsLowerLetter(y[i])
    {
      assert y[i] == x[LeadingSpace(x) + i];
    }
  }

  /** s.lower().strip() is idempotent: normalising a normalised name changes nothing. */
  lemma LowerStripIdempotent(s: string)
    ensures LowerStrip(LowerStrip(s)) == LowerStrip(s)
  {
    LowerStripShape(s);
    LowerOfLower(LowerStrip(s));
    StripIdempotent(Lower(s));
  }

  /** s.upper().strip() is idempotent: normalising a normalised code changes nothing. */
  lemma UpperStripIdempotent(s: string)
    ensures UpperStrip(UpperStrip(s)) == UpperStrip(s)
  {
    UpperStripShape(s);
    UpperOfUpper(UpperStrip(s));
    StripIdempotent(Upper(s));
  }

  /**
   * s.lower().strip() ignores surrounding white space and letter case: a word
   * in any case, padded with any white space, normalises to the word in lower case.
   */
  lemma LowerStripPadded(pre: string, w: string, post: string)
    requires AllSpace(pre) && AllSpace(post)
    requires w != [] && !IsSpace(w[0]) && !IsSpace(w[|w| - 1])
    ensures LowerStrip(pre + w + post) == Lower(w)
  {
    assert Lower(pre + w + post) == pre + Lower(w) + post;
    StripPadded(pre, Lower(w), post);
  }

  /** The same for s.upper().strip(). */
  lemma UpperStripPadded(pre: string, w: string, post: string)
    requires AllSpace(pre) && AllSpace(post)
    requires w != [] && !IsSpace(w[0]) && !IsSpace(w[|w| - 1])
    ensures UpperStrip(pre + w + post) == Upper(w)
  {
    assert Upper(pre + w + post) == pre + Upper(w) + post;
    StripPadded(pre, Upper(w), post);
  }
}
