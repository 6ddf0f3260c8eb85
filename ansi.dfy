/** Removal of ANSI "select graphic rendition" escapes, ESC '[' [0-9;]* 'm',
    from header text before it is highlighted again. StripSgr is the single
    left-to-right pass a regular-expression substitution makes; StripSgrFully
    repeats it until no escape is left. */
module Ansi {

  const ESC: char := '\U{1B}'

  /** The characters of the class [0-9;]. */
  predicate IsParamChar(c: char) { '0' <= c <= '9' || c == ';' }

  /** t is exactly one escape ESC '[' [0-9;]* 'm'. */
  predicate IsSgr(t: string) {
    && |t| >= 3
    && t[0] == ESC && t[1] == '[' && t[|t| - 1] == 'm'
    && forall k :: 2 <= k < |t| - 1 ==> IsParamChar(t[k])
  }

  /** Some escape occurs somewhere in s. */
  ghost predicate ContainsSgr(s: string) {
    exists i, j :: 0 <= i <= j <= |s| && IsSgr(s[i..j])
  }

  predicate NoEsc(s: string) {
    forall k :: 0 <= k < |s| ==> s[k] != ESC
  }

  /** Length of the run of [0-9;] at the start of s. */
  function ParamRun(s: string): (n: nat)
    ensures n <= |s|
    ensures forall k :: 0 <= k < n ==> IsParamChar(s[k])
    ensures n < |s| ==> !IsParamChar(s[n])
  {
    if s == [] || !IsParamChar(s[0]) then 0 else 1 + ParamRun(s[1..])
  }

  /** Length of the escape the pattern matches at the start of s, or 0 when
      it does not match there. No other prefix of s is an escape. */
  function MatchSgr(s: string): (n: nat)
    ensures n <= |s|
    ensures forall j :: 0 <= j <= |s| ==> (IsSgr(s[..j]) <==> n > 0 && j == n)
  {
    if |s| >= 3 && s[0] == ESC && s[1] == '[' then
      var p := ParamRun(s[2..]);
      if 2 + p < |s| && s[2 + p] == 'm' then
        assert IsSgr(s[..p + 3]);
        p + 3
      else
        assert forall j :: 0 <= j <= |s| ==> !IsSgr(s[..j]) by {
          forall j | 0 <= j <= |s| ensures !IsSgr(s[..j]) {
            if 3 <= j < p + 3 {
              assert s[..j][j - 1] == s[2..][j - 3];
            } else if j > p + 3 {
              assert s[..j][2 + p] == s[2 + p];
            }
          }
        }
        0
    else 0
  }

  /** The substitution as the source writes it: one pass from left to right;
      an escape found at the scan position is dropped and the scan resumes
      after it, otherwise one character is kept. */
  function StripSgr(s: string): (r: string)
    ensures |r| <= |s|
    decreases |s|
  {
    if s == [] then []
    else
      var n := MatchSgr(s);
      if n > 0 then StripSgr(s[n..]) else [s[0]] + StripSgr(s[1..])
  }

  /** An escape in s[1..] is an escape in s. */
  lemma ContainsSgrTail(s: string)
    requires s != [] && ContainsSgr(s[1..])
    ensures ContainsSgr(s)
  {
    var i, j :| 0 <= i <= j <= |s[1..]| && IsSgr(s[1..][i..j]);
    assert s[1..][i..j] == s[i + 1..j + 1];
  }

  /** Without an escape at position 0, an escape of s lies in s[1..]. */
  lemma ContainsSgrShift(s: string)
    requires ContainsSgr(s) && MatchSgr(s) == 0
    ensures ContainsSgr(s[1..])
  {
    var i, j :| 0 <= i <= j <= |s| && IsSgr(s[i..j]);
    assert s[0..j] == s[..j];
    assert s[i..j] == s[1..][i - 1..j - 1];
  }

  /** A pass shortens any text that contains an escape. */
  lemma {:induction false} StripSgrShrinks(s: string)
    requires ContainsSgr(s)
    ensures |StripSgr(s)| < |s|
    decreases |s|
  {
    var n := MatchSgr(s);
    if n == 0 {
      ContainsSgrShift(s);
      StripSgrShrinks(s[1..]);
    }
  }

  /** A pass changes nothing exactly when the text holds no escape. */
  lemma {:induction false} StripSgrUnchangedIff(s: string)
    ensures StripSgr(s) == s <==> !ContainsSgr(s)
    decreases |s|
  {
    if ContainsSgr(s) {
      StripSgrShrinks(s);
    } else if s != [] {
      var n := MatchSgr(s);
      assert !IsSgr(s[0..n]);
      assert s[0..n] == s[..n];
      if ContainsSgr(s[1..]) {
        ContainsSgrTail(s);
      }
      StripSgrUnchangedIff(s[1..]);
      assert [s[0]] + s[1..] == s;
    }
  }

  /** Text without ESC characters passes unchanged. */
  lemma NoEscUnchanged(s: string)
    requires NoEsc(s)
    ensures StripSgr(s) == s
  {
    forall i, j | 0 <= i <= j <= |s| ensures !IsSgr(s[i..j]) {
      if i < j {
        assert s[i..j][0] == s[i];
      }
    }
    StripSgrUnchangedIff(s);
  }

  /** The single pass is not idempotent: removing the inner escape of
      ESC ESC '[' 'm' '[' 'm' joins the outer characters into a new one. */
  lemma StripSgrNotIdempotent()
    ensures var s := [ESC, ESC, '[', 'm', '[', 'm'];
            && StripSgr(s) == [ESC, '[', 'm']
            && ContainsSgr(StripSgr(s))
            && StripSgr(StripSgr(s)) != StripSgr(s)
  {
    var s := [ESC, ESC, '[', 'm', '[', 'm'];
    assert MatchSgr(s) == 0 by { assert !IsSgr(s[..0]); assert s[1] != '['; }
    assert s[1..] == [ESC, '[', 'm', '[', 'm'];
    assert MatchSgr(s[1..]) == 3 by { assert IsSgr(s[1..][..3]); }
    assert s[1..][3..] == ['[', 'm'];
    var t := ['[', 'm'];
    assert MatchSgr(t) == 0 && MatchSgr(t[1..]) == 0;
    assert StripSgr(t) == t;
    assert StripSgr(s) == [ESC, '[', 'm'];
    assert IsSgr(StripSgr(s)[0..3]);
    StripSgrUnchangedIff(StripSgr(s));
  }

  /** Text without ESC characters in front of the scan is kept as it is. */
  lemma {:induction false} StripSgrNoEscPrefix(a: string, b: string)
    requires NoEsc(a)
    ensures StripSgr(a + b) == a + StripSgr(b)
    decreases |a|
  {
    if a == [] {
      assert a + b == b;
    } else {
      assert (a + b)[0] == a[0] && (a + b)[1..] == a[1..] + b;
      StripSgrNoEscPrefix(a[1..], b);
      assert a == [a[0]] + a[1..];
    }
  }

  /** An escape at the scan position is dropped whole and the scan goes on
      right after it: with StripSgrNoEscPrefix, every escape the scan meets
      is replaced, not only the first. */
  lemma EscapeRemoved(e: string, b: string)
    requires IsSgr(e)
    ensures StripSgr(e + b) == StripSgr(b)
  {
    assert (e + b)[..|e|] == e;
    assert (e + b)[|e|..] == b;
  }

  /** The substitution repeated until it changes nothing: the removal the
      formatter evidently intends, leaving no escape behind. */
  function StripSgrFully(s: string): (r: string)
    ensures !ContainsSgr(r)
    ensures |r| <= |s|
    decreases |s|
  {
    var t := StripSgr(s);
    StripSgrUnchangedIff(s);
    if t == s then s
    else
      StripSgrShrinks(s);
      StripSgrFully(t)
  }

  /** Text without escapes is left as it is. */
  lemma StripSgrFullyFixes(s: string)
    requires !ContainsSgr(s)
    ensures StripSgrFully(s) == s
  {
    StripSgrUnchangedIff(s);
  }

  /** Stripping fully twice is stripping fully once. */
  lemma StripSgrFullyIdempotent(s: string)
    ensures StripSgrFully(StripSgrFully(s)) == StripSgrFully(s)
  {
    StripSgrFullyFixes(StripSgrFully(s));
  }

  /** Text without ESC characters is left as it is. */
  lemma StripSgrFullyNoEsc(s: string)
    requires NoEsc(s)
    ensures StripSgrFully(s) == s
  {
    NoEscUnchanged(s);
    StripSgrUnchangedIff(s);
    StripSgrFullyFixes(s);
  }

  /** Whenever one pass already leaves no escape, the full removal gives the
      same text as the source's single pass. */
  lemma StripSgrFullyAgrees(s: string)
    requires !ContainsSgr(StripSgr(s))
    ensures StripSgrFully(s) == StripSgr(s)
  {
    StripSgrUnchangedIff(s);
    if StripSgr(s) != s {
      StripSgrFullyFixes(StripSgr(s));
    }
  }
}
