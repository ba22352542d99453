/** `NoMaliciousContent::validate`: a string value fails when the pattern
    `<[^>]*>|javascript:|data:|url\(|<script.*?>.*?</script>` (case-insensitive)
    matches anywhere in it; any other value passes. */
module NoMaliciousContent {
  import opened Php

  const JAVASCRIPT: string := "javascript:"
  const DATA: string := "data:"
  const URL: string := "url("
  const SCRIPT_OPEN: string := "<script"
  const SCRIPT_CLOSE: string := "</script>"

  /** `pat` (lower case) occurs at position `p` of `s`, ignoring ASCII case. */
  predicate MatchesAt(s: string, p: nat, pat: string)
  {
    p + |pat| <= |s| && forall k :: 0 <= k < |pat| ==> ToLower(s[p + k]) == pat[k]
  }

  /** `<[^>]*>` matches: some '<' has a '>' after it. */
  ghost predicate HasTag(s: string)
  {
    exists i, j :: 0 <= i < j < |s| && s[i] == '<' && s[j] == '>'
  }

  /** `<script.*?>.*?</script>` matches (`.` does not cross a line feed). */
  ghost predicate HasScript(s: string)
  {
    exists i, j, l :: 0 <= i && i + |SCRIPT_OPEN| <= j < l &&
      MatchesAt(s, i, SCRIPT_OPEN) && MatchesAt(s, l, SCRIPT_CLOSE) && s[j] == '>' &&
      forall q :: i <= q < l ==> s[q] != '\n'
  }

  predicate HasWord(s: string, p: nat)
  {
    MatchesAt(s, p, JAVASCRIPT) || MatchesAt(s, p, DATA) || MatchesAt(s, p, URL)
  }

  /** The whole pattern matches somewhere in `s`. */
  ghost predicate Malicious(s: string)
  {
    HasTag(s) || (exists p: nat :: p < |s| && HasWord(s, p)) || HasScript(s)
  }

  /** The script alternative adds nothing: its match begins with '<' and holds
      a later '>'. */
  lemma ScriptIsATag(s: string)
    requires HasScript(s)
    ensures HasTag(s)
  {
    var i, j, l :| 0 <= i && i + |SCRIPT_OPEN| <= j < l &&
      MatchesAt(s, i, SCRIPT_OPEN) && MatchesAt(s, l, SCRIPT_CLOSE) && s[j] == '>' &&
      forall q :: i <= q < l ==> s[q] != '\n';
    assert SCRIPT_OPEN[0] == '<';
    assert ToLower(s[i + 0]) == '<';
    assert i < j < |s| && s[i] == '<' && s[j] == '>';
  }

  // ---------------------------------------------------------------------------
  // A left-to-right scan
  // ---------------------------------------------------------------------------

  /** Scan `s` from position `i`; `open` says a '<' was seen before `i`. */
  function Scan(s: string, i: nat, open: bool): bool
    requires i <= |s|
    decreases |s| - i
  {
    if i == |s| then false
    else if open && s[i] == '>' then true
    else if HasWord(s, i) then true
    else Scan(s, i + 1, open || s[i] == '<')
  }

  /** A '>' at or after `i`, with a '<' before it (either before `i`, when
      `open`, or between `i` and it). */
  ghost predicate TagFrom(s: string, i: nat, open: bool)
  {
    exists j :: i <= j < |s| && s[j] == '>' && (open || exists k :: i <= k < j && s[k] == '<')
  }

  ghost predicate WordFrom(s: string, i: nat)
  {
    exists p: nat :: i <= p < |s| && HasWord(s, p)
  }

  lemma TagStep(s: string, i: nat, open: bool)
    requires i < |s| && !(open && s[i] == '>')
    ensures TagFrom(s, i, open) <==> TagFrom(s, i + 1, open || s[i] == '<')
  {
    var open' := open || s[i] == '<';
    if TagFrom(s, i, open) {
      var j :| i <= j < |s| && s[j] == '>' && (open || exists k :: i <= k < j && s[k] == '<');
      if !open {
        var k :| i <= k < j && s[k] == '<';
        if k > i {
          assert i + 1 <= k < j && s[k] == '<';
        }
      }
      assert i + 1 <= j;
    }
    if TagFrom(s, i + 1, open') {
      var j :| i + 1 <= j < |s| && s[j] == '>' && (open' || exists k :: i + 1 <= k < j && s[k] == '<');
      if !open {
        if s[i] == '<' {
          assert i <= i < j && s[i] == '<';
        } else {
          var k :| i + 1 <= k < j && s[k] == '<';
          assert i <= k < j;
        }
      }
    }
  }

  lemma {:induction false} ScanFinds(s: string, i: nat, open: bool)
    requires i <= |s|
    ensures Scan(s, i, open) <==> TagFrom(s, i, open) || WordFrom(s, i)
    decreases |s| - i
  {
    if i == |s| {
    } else if open && s[i] == '>' {
      assert TagFrom(s, i, open);
    } else if HasWord(s, i) {
      assert WordFrom(s, i);
    } else {
      ScanFinds(s, i + 1, open || s[i] == '<');
      TagStep(s, i, open);
      if WordFrom(s, i) {
        var p: nat :| i <= p < |s| && HasWord(s, p);
        assert p != i;
        assert WordFrom(s, i + 1);
      }
    }
  }

  lemma TagFromStart(s: string)
    ensures TagFrom(s, 0, false) <==> HasTag(s)
  {
    if HasTag(s) {
      var i, j :| 0 <= i < j < |s| && s[i] == '<' && s[j] == '>';
      assert 0 <= i < j && s[i] == '<';
    }
    if TagFrom(s, 0, false) {
      var j :| 0 <= j < |s| && s[j] == '>' && exists k :: 0 <= k < j && s[k] == '<';
      var k :| 0 <= k < j && s[k] == '<';
      assert 0 <= k < j < |s| && s[k] == '<' && s[j] == '>';
    }
  }

  /** The scan from the start decides exactly the pattern. */
  lemma ScanDecidesPattern(s: string)
    ensures Scan(s, 0, false) <==> Malicious(s)
  {
    ScanFinds(s, 0, false);
    TagFromStart(s);
    if HasScript(s) {
      ScriptIsATag(s);
    }
  }

  // ---------------------------------------------------------------------------
  // The rule
  // ---------------------------------------------------------------------------

  /** `validate($attribute, $value, $fail)`: the number of times `$fail` is
      called. */
  function Validate(value: Scalar): (fails: nat)
    ensures fails <= 1
    ensures fails == 1 <==> value.Str? && Malicious(value.s)
  {
    if !value.Str? then 0
    else
      ScanDecidesPattern(value.s);
      if Scan(value.s, 0, false) then 1 else 0
  }

  /** Every value that is not a string passes. */
  lemma NonStringsPass(value: Scalar)
    requires !value.Str?
    ensures Validate(value) == 0
  {
  }

  /** A '<' followed later by a '>' fails, whatever lies between. */
  lemma TagFails(s: string, i: nat, j: nat)
    requires i < j < |s| && s[i] == '<' && s[j] == '>'
    ensures Validate(Str(s)) == 1
  {
    assert HasTag(s);
  }

  /** "javascript:", "data:" and "url(" fail in any letter case. */
  lemma WordFails(s: string, p: nat, pat: string)
    requires pat == JAVASCRIPT || pat == DATA || pat == URL
    requires MatchesAt(s, p, pat)
    ensures Validate(Str(s)) == 1
  {
    assert p < |s|;
    assert HasWord(s, p);
  }
}
