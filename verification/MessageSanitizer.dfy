/** The three rewrites and the trim of `sanitize_message`, and the normal form they build up together. */
module MessageSanitizer {

  /** Python's whitespace: what both `\s` and `str.strip` recognise. */
  predicate IsSpace(c: char) {
    var n := c as int;
    9 <= n <= 13 || 28 <= n <= 32 || n == 0x85 || n == 0xA0 || n == 0x1680 || 0x2000 <= n <= 0x200A ||
    n == 0x2028 || n == 0x2029 || n == 0x202F || n == 0x205F || n == 0x3000
  }

  // ----- first rewrite: "<", one or more characters other than ">", ">" -----

  /** Position of the first ">", or the length when there is none. */
  function FirstClose(s: string): (n: nat)
    ensures n <= |s| && (n < |s| ==> s[n] == '>') && '>' !in s[..n]
  {
    if s == [] || s[0] == '>' then 0 else 1 + FirstClose(s[1..])
  }

  function RemoveTags(s: string): (r: string)
    ensures |r| <= |s|
  {
    if s == [] then []
    else
      var n := FirstClose(s[1..]);
      if s[0] == '<' && 1 <= n < |s| - 1 then RemoveTags(s[n + 2..]) else [s[0]] + RemoveTags(s[1..])
  }

  // ----- second rewrite: a character other than newline, six times or more, becomes three -----

  /** Length of the run of equal characters at the start. */
  function RunLength(s: string): (n: nat)
    ensures n <= |s| && (s != [] ==> n >= 1) && forall i :: 0 <= i < n ==> s[i] == s[0]
    ensures n < |s| ==> s[n] != s[0]
  {
    if s == [] then 0
    else if |s| == 1 || s[1] != s[0] then 1
    else 1 + RunLength(s[1..])
  }

  function CollapseRuns(s: string): (r: string)
    ensures |r| <= |s|
  {
    if s == [] then []
    else if s[0] != '\n' && RunLength(s) >= 6 then [s[0], s[0], s[0]] + CollapseRuns(s[RunLength(s)..])
    else [s[0]] + CollapseRuns(s[1..])
  }

  // ----- third rewrite: whitespace becomes one blank -----

  function SpaceRun(s: string): (n: nat)
    ensures n <= |s| && (n < |s| ==> !IsSpace(s[n])) && forall i :: 0 <= i < n ==> IsSpace(s[i])
  {
    if s == [] || !IsSpace(s[0]) then 0 else 1 + SpaceRun(s[1..])
  }

  function CollapseSpaces(s: string): (r: string)
    ensures |r| <= |s|
  {
    if s == [] then []
    else if IsSpace(s[0]) then [' '] + CollapseSpaces(s[SpaceRun(s)..])
    else [s[0]] + CollapseSpaces(s[1..])
  }

  // ----- trim -----

  function TrimRight(s: string): (r: string)
    ensures r <= s && forall i :: |r| <= i < |s| ==> IsSpace(s[i])
    ensures r == [] || !IsSpace(r[|r| - 1])
  {
    if s != [] && IsSpace(s[|s| - 1]) then TrimRight(s[..|s| - 1]) else s
  }

  function Strip(s: string): (r: string)
    ensures |r| <= |s|
  {
    TrimRight(s[SpaceRun(s)..])
  }

  function Sanitize(message: string): string {
    Strip(CollapseSpaces(CollapseRuns(RemoveTags(message))))
  }

  // ----- the normal form -----

  /** A tag with a non-empty body from i to j. */
  predicate TagAt(s: string, i: int, j: int) {
    0 <= i && i + 1 < j < |s| && s[i] == '<' && s[j] == '>' && '>' !in s[i + 1..j]
  }

  predicate NoTags(s: string) {
    forall i, j :: 0 <= i < j < |s| ==> !TagAt(s, i, j)
  }

  /** Six equal characters in a row, starting at i. */
  predicate SixEqual(s: string, i: int) {
    0 <= i && i + 6 <= |s| && forall k :: i <= k < i + 6 ==> s[k] == s[i]
  }

  predicate NoSixEqual(s: string) {
    forall i :: 0 <= i < |s| ==> !SixEqual(s, i)
  }

  /** Every whitespace character is a single blank. */
  predicate SpacesSingle(s: string) {
    (forall i :: 0 <= i < |s| && IsSpace(s[i]) ==> s[i] == ' ') &&
    (forall i :: 0 <= i < |s| - 1 ==> !(IsSpace(s[i]) && IsSpace(s[i + 1])))
  }

  predicate Trimmed(s: string) {
    s == [] || (!IsSpace(s[0]) && !IsSpace(s[|s| - 1]))
  }

  predicate NormalForm(s: string) {
    NoTags(s) && NoSixEqual(s) && SpacesSingle(s) && Trimmed(s)
  }

  // ----- tags -----

  /** Each "<" is followed at once by ">" or by no ">" at all: the shape of text without tags. */
  predicate OpensSafe(s: string) {
    s == [] || (OpensSafe(s[1..]) && (s[0] == '<' ==> (|s| > 1 && s[1] == '>') || '>' !in s[1..]))
  }

  lemma {:induction false} OpensSafeAt(s: string, i: nat)
    requires OpensSafe(s) && i < |s| && s[i] == '<'
    ensures (i + 1 < |s| && s[i + 1] == '>') || '>' !in s[i + 1..]
  {
    if i > 0 {
      OpensSafeAt(s[1..], i - 1);
      assert s[1..][i..] == s[i + 1..];
    }
  }

  lemma {:induction false} NoTagsIffOpensSafe(s: string)
    ensures NoTags(s) <==> OpensSafe(s)
  {
    if OpensSafe(s) {
      forall i, j | 0 <= i < j < |s| ensures !TagAt(s, i, j) {
        if s[i] == '<' && i + 1 < j {
          OpensSafeAt(s, i);
          assert s[i + 1] == '>' ==> s[i + 1..j][0] == '>';
          assert s[j] == '>' ==> s[i + 1..][j - i - 1] == '>';
        }
      }
    } else {
      NoTagsIffOpensSafe(s[1..]);
      if !NoTags(s[1..]) {
        var i, j :| 0 <= i < j < |s| - 1 && TagAt(s[1..], i, j);
        assert s[1..][i + 1..j] == s[i + 2..j + 1];
        assert TagAt(s, i + 1, j + 1);
      } else {
        var n := FirstClose(s[1..]);
        assert s[1..][..|s| - 1] == s[1..];
        assert s[1..n + 1] == s[1..][..n];
        assert TagAt(s, 0, n + 1);
      }
    }
  }

  lemma {:induction false} OpensSafeSuffix(s: string, n: nat)
    requires OpensSafe(s) && n <= |s|
    ensures OpensSafe(s[n..])
  {
    if n > 0 {
      OpensSafeSuffix(s[1..], n - 1);
      assert s[1..][n - 1..] == s[n..];
    }
  }

  lemma {:induction false} RemoveTagsMembers(s: string, c: char)
    ensures c in RemoveTags(s) ==> c in s
  {
    if s != [] {
      var n := FirstClose(s[1..]);
      RemoveTagsMembers(s[1..], c);
      if s[0] == '<' && 1 <= n < |s| - 1 {
        RemoveTagsMembers(s[n + 2..], c);
      }
    }
  }

  /** The first rewrite leaves no tag behind. */
  lemma {:induction false} RemoveTagsSafe(s: string)
    ensures OpensSafe(RemoveTags(s))
  {
    if s != [] {
      var n := FirstClose(s[1..]);
      if s[0] == '<' && 1 <= n < |s| - 1 {
        RemoveTagsSafe(s[n + 2..]);
      } else {
        var rest := RemoveTags(s[1..]);
        RemoveTagsSafe(s[1..]);
        assert RemoveTags(s)[1..] == rest;
        if s[0] == '<' {
          if n == |s| - 1 {
            assert s[1..][..n] == s[1..];
            RemoveTagsMembers(s[1..], '>');
          } else {
            assert s[1] == '>' && rest[0] == '>';
          }
        }
      }
    }
  }

  lemma {:induction false} RemoveTagsFixed(s: string)
    requires OpensSafe(s)
    ensures RemoveTags(s) == s
  {
    if s != [] {
      RemoveTagsFixed(s[1..]);
      if s[0] == '<' { SafeOpening(s); }
      RemoveTagsStep(s);
      Consed(s, s[0], s[1..]);
    }
  }

  lemma SafeOpening(s: string)
    requires OpensSafe(s) && s != [] && s[0] == '<'
    ensures FirstClose(s[1..]) == 0 || FirstClose(s[1..]) == |s| - 1
  {
    var n := FirstClose(s[1..]);
    if n < |s| - 1 {
      assert s[1..][n] in s[1..];
    }
  }

  /** A pair of brackets without a body is no tag. */
  lemma EmptyTagStays(rest: string)
    ensures RemoveTags("<>" + rest) == "<>" + RemoveTags(rest)
  {
    RemoveTagsBehind(">", rest);
    BracketsJoined(rest);
    BracketsJoined(RemoveTags(rest));
    OpeningStays(">" + rest);
  }

  lemma BracketsJoined(rest: string)
    ensures "<>" + rest == "<" + (">" + rest)
  {
  }

  lemma OpeningStays(behind: string)
    requires behind != "" && behind[0] == '>'
    ensures RemoveTags("<" + behind) == "<" + RemoveTags(behind)
  {
    assert ("<" + behind)[1..] == behind;
  }

  /** An opening character that is never closed stays, with everything behind it. */
  lemma UnclosedTagStays(rest: string)
    requires '>' !in rest
    ensures RemoveTags("<" + rest) == "<" + RemoveTags(rest)
  {
    assert ("<" + rest)[1..] == rest;
  }

  lemma LeadingTagRemoved(body: string, rest: string)
    requires '>' !in body && body != []
    ensures RemoveTags("<" + body + ">" + rest) == RemoveTags(rest)
  {
    var s := "<" + body + ">" + rest;
    assert s[1..] == body + ">" + rest;
    FirstCloseAfter(body, rest);
    assert s[|body| + 2..] == rest;
  }

  /** A tag disappears with its body, and the text before it stays. */
  lemma RemoveTagsEquation(text: string, body: string, rest: string)
    requires '<' !in text && '>' !in body && body != []
    ensures RemoveTags(text + "<" + body + ">" + rest) == text + RemoveTags(rest)
  {
    LeadingTagRemoved(body, rest);
    RemoveTagsBehind(text, "<" + body + ">" + rest);
    JoinedBehind(text, body, rest);
  }

  lemma JoinedBehind(text: string, body: string, rest: string)
    ensures text + "<" + body + ">" + rest == text + ("<" + body + ">" + rest)
  {
  }

  lemma RemoveTagsStep(s: string)
    requires s != [] && (s[0] == '<' ==> FirstClose(s[1..]) == 0 || FirstClose(s[1..]) == |s| - 1)
    ensures RemoveTags(s) == [s[0]] + RemoveTags(s[1..])
  {
  }

  lemma Consed(s: string, c: char, rest: string)
    requires s != [] && s[0] == c && s[1..] == rest
    ensures s == [c] + rest
  {
  }

  /** Text without an opening character stays. */
  lemma {:induction false} RemoveTagsBehind(text: string, rest: string)
    requires '<' !in text
    ensures RemoveTags(text + rest) == text + RemoveTags(rest)
  {
    if text == [] {
      assert text + rest == rest;
    } else {
      var s := text + rest;
      assert s[0] == text[0] && text[0] in text;
      assert s[1..] == text[1..] + rest;
      RemoveTagsStep(s);
      RemoveTagsBehind(text[1..], rest);
      Consed(text + RemoveTags(rest), text[0], text[1..] + RemoveTags(rest));
    }
  }

  lemma {:induction false} FirstCloseAfter(body: string, rest: string)
    requires '>' !in body
    ensures FirstClose(body + ">" + rest) == |body|
  {
    if body != [] {
      assert (body + ">" + rest)[1..] == body[1..] + ">" + rest;
      assert body[0] in body;
      FirstCloseAfter(body[1..], rest);
    }
  }

  // ----- runs -----

  /** No run of six, except of characters in the exempt set (newlines, before the third rewrite). */
  predicate ShortRuns(s: string, newlineExempt: bool) {
    s == [] || (ShortRuns(s[1..], newlineExempt) && ((newlineExempt && s[0] == '\n') || RunLength(s) < 6))
  }

  lemma {:induction false} SixEqualRun(s: string)
    requires s != []
    ensures SixEqual(s, 0) <==> RunLength(s) >= 6
  {
  }

  lemma {:induction false} NoSixEqualIffShortRuns(s: string)
    ensures NoSixEqual(s) <==> ShortRuns(s, false)
  {
    if s != [] {
      NoSixEqualIffShortRuns(s[1..]);
      SixEqualRun(s);
      assert forall i :: 0 <= i < |s| - 1 ==> (SixEqual(s[1..], i) <==> SixEqual(s, i + 1));
      if NoSixEqual(s[1..]) {
        forall i | 0 < i < |s| ensures !SixEqual(s, i) {
          assert !SixEqual(s[1..], i - 1);
        }
      } else {
        var i :| 0 <= i < |s| - 1 && SixEqual(s[1..], i);
        assert SixEqual(s, i + 1);
      }
    }
  }

  lemma {:induction false} CollapseRunsHead(s: string)
    requires s != []
    ensures CollapseRuns(s) != [] && CollapseRuns(s)[0] == s[0]
    ensures RunLength(CollapseRuns(s)) == if s[0] != '\n' && RunLength(s) >= 6 then 3 else RunLength(s)
  {
    if s[0] != '\n' && RunLength(s) >= 6 {
      var rest := s[RunLength(s)..];
      if rest != [] { CollapseRunsHead(rest); }
      ThreeInARow(s[0], CollapseRuns(rest));
    } else if |s| > 1 {
      CollapseRunsHead(s[1..]);
      OneMore(s[0], CollapseRuns(s[1..]));
    }
  }

  lemma ThreeInARow(c: char, rest: string)
    requires rest == [] || rest[0] != c
    ensures RunLength([c, c, c] + rest) == 3
  {
    OneMore(c, rest);
    OneMore(c, [c] + rest);
    OneMore(c, [c] + ([c] + rest));
    assert [c] + ([c] + ([c] + rest)) == [c, c, c] + rest;
  }

  lemma OneMore(c: char, rest: string)
    ensures RunLength([c] + rest) == if rest != [] && rest[0] == c then 1 + RunLength(rest) else 1
  {
    assert ([c] + rest)[1..] == rest;
  }

  lemma {:induction false} CollapseRunsShort(s: string)
    ensures ShortRuns(CollapseRuns(s), true)
  {
    if s != [] {
      var r := CollapseRuns(s);
      CollapseRunsHead(s);
      if s[0] != '\n' && RunLength(s) >= 6 {
        var rest := CollapseRuns(s[RunLength(s)..]);
        CollapseRunsShort(s[RunLength(s)..]);
        assert r[1..] == [s[0], s[0]] + rest && r[1..][1..] == [s[0]] + rest && r[1..][1..][1..] == rest;
        assert RunLength(r) == 3 && RunLength(r[1..]) == 2 && RunLength(r[1..][1..]) == 1;
        assert ShortRuns(r[1..][1..], true);
        assert ShortRuns(r[1..], true);
      } else {
        CollapseRunsShort(s[1..]);
        assert r[1..] == CollapseRuns(s[1..]);
      }
    }
  }

  lemma {:induction false} CollapseRunsFixed(s: string)
    requires ShortRuns(s, true)
    ensures CollapseRuns(s) == s
  {
    if s != [] {
      CollapseRunsFixed(s[1..]);
    }
  }

  lemma {:induction false} CollapseRunsMembers(s: string, c: char)
    ensures c in CollapseRuns(s) <==> c in s
  {
    if s != [] {
      if s[0] != '\n' && RunLength(s) >= 6 {
        CollapseRunsMembers(s[RunLength(s)..], c);
        assert s == s[..RunLength(s)] + s[RunLength(s)..];
      } else {
        CollapseRunsMembers(s[1..], c);
      }
    }
  }

  lemma OpensSafeOne(c: char, rest: string)
    requires OpensSafe(rest) && (c == '<' ==> '>' !in rest)
    ensures OpensSafe([c] + rest)
  {
    assert ([c] + rest)[1..] == rest;
  }

  lemma OpensSafeTriple(c: char, rest: string)
    requires OpensSafe(rest) && (c == '<' ==> '>' !in rest)
    ensures OpensSafe([c, c, c] + rest)
  {
    OpensSafeOne(c, rest);
    OpensSafeOne(c, [c] + rest);
    OpensSafeOne(c, [c] + ([c] + rest));
    assert [c] + ([c] + ([c] + rest)) == [c, c, c] + rest;
  }

  /** The second rewrite brings back no tag. */
  lemma {:induction false} CollapseRunsKeepsSafe(s: string)
    requires OpensSafe(s)
    ensures OpensSafe(CollapseRuns(s))
  {
    if s != [] {
      var r := CollapseRuns(s);
      var n := RunLength(s);
      if s[0] != '\n' && n >= 6 {
        var rest := CollapseRuns(s[n..]);
        OpensSafeSuffix(s, n);
        CollapseRunsKeepsSafe(s[n..]);
        CollapseRunsMembers(s[n..], '>');
        if s[0] == '<' {
          assert s[1] == '<' && '>' !in s[1..];
          assert forall c :: c in s[n..] ==> c in s[1..];
        }
        OpensSafeTriple(s[0], rest);
      } else {
        CollapseRunsKeepsSafe(s[1..]);
        CollapseRunsMembers(s[1..], '>');
        if |s| > 1 { CollapseRunsHead(s[1..]); }
        assert r[1..] == CollapseRuns(s[1..]);
      }
    }
  }

  function Repeat(c: char, n: nat): string {
    if n == 0 then [] else [c] + Repeat(c, n - 1)
  }

  lemma {:induction false} RepeatRun(c: char, n: nat, rest: string)
    requires n > 0 && (rest == [] || rest[0] != c)
    ensures RunLength(Repeat(c, n) + rest) == n && (Repeat(c, n) + rest)[0] == c
    ensures |Repeat(c, n)| == n
  {
    var s := Repeat(c, n) + rest;
    assert s[1..] == Repeat(c, n - 1) + rest;
    if n > 1 {
      RepeatRun(c, n - 1, rest);
    }
  }

  lemma RepeatThree(c: char)
    ensures Repeat(c, 3) == [c, c, c]
  {
    assert Repeat(c, 1) == [c] && Repeat(c, 2) == [c] + Repeat(c, 1);
    assert Repeat(c, 3) == [c] + Repeat(c, 2);
  }

  lemma RepeatMore(c: char, n: nat, rest: string)
    requires n > 0
    ensures Repeat(c, n) + rest == [c] + (Repeat(c, n - 1) + rest)
    ensures n == 1 ==> Repeat(c, n - 1) + rest == rest
  {
  }

  lemma LongRunCollapses(c: char, n: nat, rest: string)
    requires n >= 6 && c != '\n' && (rest == [] || rest[0] != c)
    ensures CollapseRuns(Repeat(c, n) + rest) == [c, c, c] + CollapseRuns(rest)
  {
    var s := Repeat(c, n) + rest;
    RepeatRun(c, n, rest);
    assert s[n..] == rest;
  }

  lemma ShortRunStep(c: char, n: nat, rest: string)
    requires n > 0 && (n < 6 || c == '\n') && (rest == [] || rest[0] != c)
    ensures CollapseRuns(Repeat(c, n) + rest) == [c] + CollapseRuns(Repeat(c, n - 1) + rest)
  {
    var s := Repeat(c, n) + rest;
    RepeatRun(c, n, rest);
    assert s[1..] == Repeat(c, n - 1) + rest;
  }

  /** A maximal run keeps its length below six, and shrinks to three from six on; newlines always stay. */
  lemma {:induction false} CollapseRunsEquation(c: char, n: nat, rest: string)
    requires n > 0 && (rest == [] || rest[0] != c)
    ensures CollapseRuns(Repeat(c, n) + rest)
      == Repeat(c, if n >= 6 && c != '\n' then 3 else n) + CollapseRuns(rest)
  {
    if n >= 6 && c != '\n' {
      LongRunCollapses(c, n, rest);
      RepeatThree(c);
    } else {
      ShortRunStep(c, n, rest);
      if n > 1 {
        CollapseRunsEquation(c, n - 1, rest);
      } else {
        assert Repeat(c, 0) + rest == rest;
      }
      RepeatMore(c, n, CollapseRuns(rest));
    }
  }

  // ----- whitespace -----

  lemma {:induction false} CollapseSpacesMembers(s: string, c: char)
    requires !IsSpace(c)
    ensures c in CollapseSpaces(s) <==> c in s
  {
    if s != [] {
      if IsSpace(s[0]) {
        var n := SpaceRun(s);
        CollapseSpacesMembers(s[n..], c);
        assert s == s[..n] + s[n..];
      } else {
        CollapseSpacesMembers(s[1..], c);
      }
    }
  }

  lemma {:induction false} CollapseSpacesHead(s: string)
    requires s != []
    ensures CollapseSpaces(s) != []
    ensures CollapseSpaces(s)[0] == if IsSpace(s[0]) then ' ' else s[0]
  {
  }

  lemma {:induction false} CollapseSpacesSingle(s: string)
    ensures SpacesSingle(CollapseSpaces(s))
  {
    if s != [] {
      var rest := if IsSpace(s[0]) then s[SpaceRun(s)..] else s[1..];
      CollapseSpacesSingle(rest);
      if rest != [] { CollapseSpacesHead(rest); }
      var r := CollapseSpaces(s);
      assert r[1..] == CollapseSpaces(rest);
      forall i | 0 < i < |r| ensures IsSpace(r[i]) ==> r[i] == ' ' {
        assert r[i] == CollapseSpaces(rest)[i - 1];
      }
      forall i | 0 <= i < |r| - 1 ensures !(IsSpace(r[i]) && IsSpace(r[i + 1])) {
        assert r[i + 1] == CollapseSpaces(rest)[i];
        if i > 0 { assert r[i] == CollapseSpaces(rest)[i - 1]; }
      }
    }
  }

  lemma {:induction false} CollapseSpacesFixed(s: string)
    requires SpacesSingle(s)
    ensures CollapseSpaces(s) == s
  {
    if s != [] {
      var t := s[1..];
      forall i | 0 <= i < |t| - 1 ensures !(IsSpace(t[i]) && IsSpace(t[i + 1])) {
        var n := i + 1;
        assert !(IsSpace(s[n]) && IsSpace(s[n + 1]));
      }
      CollapseSpacesFixed(s[1..]);
      if IsSpace(s[0]) {
        assert SpaceRun(s[1..]) == 0;
      }
    }
  }

  /** The third rewrite brings back no tag. */
  lemma {:induction false} CollapseSpacesKeepsSafe(s: string)
    requires OpensSafe(s)
    ensures OpensSafe(CollapseSpaces(s))
  {
    if s != [] {
      var r := CollapseSpaces(s);
      if IsSpace(s[0]) {
        OpensSafeSuffix(s, SpaceRun(s));
        CollapseSpacesKeepsSafe(s[SpaceRun(s)..]);
        assert r[1..] == CollapseSpaces(s[SpaceRun(s)..]);
      } else {
        CollapseSpacesKeepsSafe(s[1..]);
        CollapseSpacesMembers(s[1..], '>');
        if |s| > 1 { CollapseSpacesHead(s[1..]); }
        assert r[1..] == CollapseSpaces(s[1..]);
      }
    }
  }

  lemma {:induction false} CollapseSpacesRun(s: string)
    requires s != [] && !IsSpace(s[0])
    ensures RunLength(CollapseSpaces(s)) == RunLength(s)
  {
    var r := CollapseSpaces(s);
    assert r[1..] == CollapseSpaces(s[1..]);
    if |s| > 1 {
      CollapseSpacesHead(s[1..]);
      if s[1] == s[0] { CollapseSpacesRun(s[1..]); }
    }
  }

  lemma {:induction false} ShortRunsSuffix(s: string, n: nat, newlineExempt: bool)
    requires ShortRuns(s, newlineExempt) && n <= |s|
    ensures ShortRuns(s[n..], newlineExempt)
  {
    if n > 0 {
      ShortRunsSuffix(s[1..], n - 1, newlineExempt);
      assert s[1..][n - 1..] == s[n..];
    }
  }

  /** The third rewrite brings back no long run, and removes the newline runs the second left alone. */
  lemma {:induction false} CollapseSpacesShort(s: string)
    requires ShortRuns(s, true)
    ensures ShortRuns(CollapseSpaces(s), false)
  {
    if s != [] {
      var r := CollapseSpaces(s);
      if IsSpace(s[0]) {
        var rest := s[SpaceRun(s)..];
        ShortRunsSuffix(s, SpaceRun(s), true);
        CollapseSpacesShort(rest);
        if rest != [] { CollapseSpacesHead(rest); }
        assert r[1..] == CollapseSpaces(rest);
        assert RunLength(r) == 1;
      } else {
        CollapseSpacesShort(s[1..]);
        CollapseSpacesRun(s);
        assert r[1..] == CollapseSpaces(s[1..]);
      }
    }
  }

  /** A maximal stretch of whitespace becomes one blank, and any other character stays. */
  lemma CollapseSpacesEquation(space: string, c: char, rest: string)
    requires space != [] && (forall i :: 0 <= i < |space| ==> IsSpace(space[i])) && !IsSpace(c)
    ensures CollapseSpaces(space + [c] + rest) == " " + CollapseSpaces([c] + rest)
    ensures CollapseSpaces([c] + rest) == [c] + CollapseSpaces(rest)
  {
    var s := space + [c] + rest;
    var n := SpaceRun(s);
    assert forall k :: 0 <= k < |space| ==> s[k] == space[k];
    assert s[|space|] == c;
    assert n == |space|;
    assert s[n..] == [c] + rest;
    assert ([c] + rest)[1..] == rest;
  }

  /** So does whitespace at the end; the empty text stays. */
  lemma TrailingSpacesEquation(space: string)
    requires forall i :: 0 <= i < |space| ==> IsSpace(space[i])
    ensures CollapseSpaces(space) == if space == "" then "" else " "
  {
    if space != "" {
      var n := SpaceRun(space);
      assert n == |space| && space[n..] == [];
    }
  }

  /** Among the ASCII characters, whitespace is tab, line feed, the two feeds, return, the four separators, blank. */
  lemma AsciiWhitespace(c: char)
    requires c as int < 128
    ensures IsSpace(c) <==> c in "\t\n\U{0B}\U{0C}\r\U{1C}\U{1D}\U{1E}\U{1F} "
  {
    var list := "\t\n\U{0B}\U{0C}\r\U{1C}\U{1D}\U{1E}\U{1F} ";
    assert list[0] == '\t' && list[1] == '\n' && list[2] as int == 11 && list[3] as int == 12 && list[4] == '\r';
    assert list[5] as int == 28 && list[6] as int == 29 && list[7] as int == 30 && list[8] as int == 31 && list[9] == ' ';
  }

  // ----- trim -----

  predicate SpaceOutside(s: string, i: int, j: int) {
    forall k :: 0 <= k < |s| && !(i <= k < j) ==> IsSpace(s[k])
  }

  /** Trimming cuts whitespace off both ends and nothing else. */
  lemma StripCuts(s: string)
    ensures Trimmed(Strip(s))
    ensures exists i, j :: 0 <= i <= j <= |s| && Strip(s) == s[i..j] && SpaceOutside(s, i, j)
  {
    var i := SpaceRun(s);
    var r := Strip(s);
    var j := i + |r|;
    assert s[i..j] == s[i..][..|r|] == r;
    forall k | 0 <= k < |s| && !(i <= k < j) ensures IsSpace(s[k]) {
      if k >= j { assert s[i..][k - i] == s[k]; }
    }
    if r != [] {
      assert r[0] == s[i];
    }
  }

  lemma StripFixed(s: string)
    requires Trimmed(s)
    ensures Strip(s) == s
  {
    assert SpaceRun(s) == 0;
    assert s[0..] == s;
  }

  lemma SliceOfSlice(s: string, a: nat, b: nat, i: nat, j: nat)
    requires a <= b <= |s| && i <= j <= b - a
    ensures s[a..b][i..j] == s[a + i..a + j]
  {
    var part, whole := s[a..b][i..j], s[a + i..a + j];
    forall k | 0 <= k < |part| ensures part[k] == whole[k] {
      assert part[k] == s[a..b][i + k] == s[a + i + k];
    }
  }

  /** Any part of a text keeps the other three conditions. */
  lemma PartKeepsConditions(s: string, a: nat, b: nat)
    requires a <= b <= |s| && NoTags(s) && NoSixEqual(s) && SpacesSingle(s)
    ensures NoTags(s[a..b]) && NoSixEqual(s[a..b]) && SpacesSingle(s[a..b])
  {
    var t := s[a..b];
    forall i, j | 0 <= i < j < |t| ensures !TagAt(t, i, j) {
      assert !TagAt(s, a + i, a + j);
      SliceOfSlice(s, a, b, i + 1, j);
    }
    forall i | 0 <= i < |t| ensures !SixEqual(t, i) {
      assert !SixEqual(s, a + i);
      if i + 6 <= |t| {
        assert forall k :: a + i <= k < a + i + 6 ==> s[k] == t[k - a];
      }
    }
  }

  // ----- main results -----

  /** Sanitizing any message gives a text in normal form that is no longer than the message. */
  lemma SanitizeNormal(message: string)
    ensures NormalForm(Sanitize(message)) && |Sanitize(message)| <= |message|
  {
    var noTags := RemoveTags(message);
    var shortRuns := CollapseRuns(noTags);
    var single := CollapseSpaces(shortRuns);
    RemoveTagsSafe(message);
    CollapseRunsShort(noTags);
    CollapseRunsKeepsSafe(noTags);
    CollapseSpacesKeepsSafe(shortRuns);
    CollapseSpacesShort(shortRuns);
    CollapseSpacesSingle(shortRuns);
    NoTagsIffOpensSafe(single);
    NoSixEqualIffShortRuns(single);
    StripCuts(single);
    var i, j :| 0 <= i <= j <= |single| && Strip(single) == single[i..j];
    PartKeepsConditions(single, i, j);
  }

  lemma {:induction false} ShortRunsExempt(s: string)
    requires ShortRuns(s, false)
    ensures ShortRuns(s, true)
  {
    if s != [] { ShortRunsExempt(s[1..]); }
  }

  /** The normal form is exactly what sanitizing leaves alone. */
  lemma SanitizeFixesExactlyNormal(message: string)
    ensures Sanitize(message) == message <==> NormalForm(message)
  {
    SanitizeNormal(message);
    if NormalForm(message) {
      NoTagsIffOpensSafe(message);
      NoSixEqualIffShortRuns(message);
      ShortRunsExempt(message);
      RemoveTagsFixed(message);
      CollapseRunsFixed(message);
      CollapseSpacesFixed(message);
      StripFixed(message);
    }
  }

  lemma SanitizeIdempotent(message: string)
    ensures Sanitize(Sanitize(message)) == Sanitize(message)
  {
    SanitizeNormal(message);
    SanitizeFixesExactlyNormal(Sanitize(message));
  }
}
