/** The tweet text cleaner `cleanText` of app.py: six rewriting steps applied
    in order, each a total function on strings. Replacements follow Python's
    `str.replace` (every non-overlapping occurrence, scanning left to right);
    the regular-expression steps follow `re.sub` (leftmost match first, then
    the scan resumes after the match). */
module TextCleaner {

  // ---------------------------------------------------------------------------
  // Character classes
  // ---------------------------------------------------------------------------

  /** The characters kept by `[^a-zA-Z0-9 \n\.]` (app.py:81). */
  predicate Allowed(c: char) {
    ('a' <= c <= 'z') || ('A' <= c <= 'Z') || ('0' <= c <= '9') || c == ' ' || c == '\n' || c == '.'
  }

  /** Python's `\s` on str patterns: the characters for which str.isspace holds. */
  predicate IsSpace(c: char) {
    ('\t' <= c <= '\r') || ('\U{1c}' <= c <= '\U{1f}') || c == ' ' || c == '\U{85}' || c == '\U{a0}'
    || c == '\U{1680}' || ('\U{2000}' <= c <= '\U{200a}') || c == '\U{2028}' || c == '\U{2029}'
    || c == '\U{202f}' || c == '\U{205f}' || c == '\U{3000}'
  }

  /** Python's `\w`, restricted to ASCII: letters, digits and the underscore. */
  predicate IsWordChar(c: char) {
    ('a' <= c <= 'z') || ('A' <= c <= 'Z') || ('0' <= c <= '9') || c == '_'
  }

  /** Concatenation regroups freely. */
  lemma ConcatAssoc(x: string, y: string, z: string)
    ensures x + (y + z) == (x + y) + z
  {
  }

  /** Splitting off the first character of a prefix. */
  lemma SliceAfterHead(s: string, k: nat)
    requires 0 < k <= |s|
    ensures s[..k] == [s[0]] + s[1..][..k - 1]
    ensures s[1..][k - 1..] == s[k..]
  {
  }

  // ---------------------------------------------------------------------------
  // Steps 1-3: str.replace
  // ---------------------------------------------------------------------------

  /** `pat` occurs in `s` starting at index `i`. */
  predicate OccursAt(s: string, pat: string, i: int) {
    0 <= i && i + |pat| <= |s| && s[i..i + |pat|] == pat
  }

  predicate Occurs(s: string, pat: string) {
    exists i :: 0 <= i <= |s| && OccursAt(s, pat, i)
  }

  /** `s.replace(pat, rep)`: every non-overlapping occurrence of `pat`, found
      left to right, is replaced by `rep`. */
  function ReplaceAll(s: string, pat: string, rep: string): (r: string)
    requires pat != []
    ensures |rep| <= |pat| ==> |r| <= |s|
    ensures forall c :: c in r ==> c in s || c in rep
    decreases |s|
  {
    if |s| < |pat| then s
    else if s[..|pat|] == pat then rep + ReplaceAll(s[|pat|..], pat, rep)
    else [s[0]] + ReplaceAll(s[1..], pat, rep)
  }

  /** When the replacement is shorter than the pattern, a replacement happens
      exactly when the pattern occurs: the text comes back unchanged if and
      only if the pattern does not occur in it. */
  lemma {:induction false} ReplaceAllUnchangedIff(s: string, pat: string, rep: string)
    requires pat != [] && |rep| < |pat|
    ensures ReplaceAll(s, pat, rep) == s <==> !Occurs(s, pat)
  {
    if Occurs(s, pat) {
      var i :| OccursAt(s, pat, i);
      ReplaceAllShortens(s, pat, rep, i);
    } else {
      ReplaceAllAbsent(s, pat, rep);
    }
  }

  lemma {:induction false} ReplaceAllShortens(s: string, pat: string, rep: string, i: int)
    requires pat != [] && |rep| < |pat|
    requires OccursAt(s, pat, i)
    ensures |ReplaceAll(s, pat, rep)| < |s|
    decreases |s|
  {
    if s[..|pat|] != pat {
      assert i != 0;
      assert s[1..][i - 1..i - 1 + |pat|] == s[i..i + |pat|];
      ReplaceAllShortens(s[1..], pat, rep, i - 1);
    }
  }

  lemma {:induction false} ReplaceAllAbsent(s: string, pat: string, rep: string)
    requires pat != []
    requires !Occurs(s, pat)
    ensures ReplaceAll(s, pat, rep) == s
    decreases |s|
  {
    if |s| >= |pat| {
      assert !OccursAt(s, pat, 0);
      forall i | OccursAt(s[1..], pat, i) ensures OccursAt(s, pat, i + 1) {
        assert s[1..][i..i + |pat|] == s[i + 1..i + 1 + |pat|];
      }
      ReplaceAllAbsent(s[1..], pat, rep);
      assert [s[0]] + s[1..] == s;
    }
  }

  /** Where `pat` does not start, the scan copies one character and moves on. */
  lemma ReplaceAllSkip(s: string, pat: string, rep: string)
    requires pat != [] && s != [] && !OccursAt(s, pat, 0)
    ensures ReplaceAll(s, pat, rep) == [s[0]] + ReplaceAll(s[1..], pat, rep)
  {
    if |s| >= |pat| {
      assert s[..|pat|] == s[0..|pat|];
    }
  }

  /** No occurrence in the first `|a|` positions of `a + b` means none in the
      first `|a| - 1` positions of `a[1..] + b`. */
  lemma NoOccurrenceShift(a: string, b: string, pat: string)
    requires a != []
    requires forall i :: 0 <= i < |a| ==> !OccursAt(a + b, pat, i)
    ensures forall i :: 0 <= i < |a| - 1 ==> !OccursAt(a[1..] + b, pat, i)
  {
    forall i | 0 <= i < |a| - 1 ensures !OccursAt(a[1..] + b, pat, i) {
      if OccursAt(a[1..] + b, pat, i) {
        assert (a[1..] + b)[i..i + |pat|] == (a + b)[i + 1..i + 1 + |pat|];
        assert OccursAt(a + b, pat, i + 1);
      }
    }
  }

  /** What a replacement keeps: a stretch in which no occurrence of `pat`
      starts is copied verbatim, and the scan then carries on with the rest. */
  lemma {:induction false} ReplaceAllCopiesPrefix(a: string, b: string, pat: string, rep: string)
    requires pat != []
    requires forall i :: 0 <= i < |a| ==> !OccursAt(a + b, pat, i)
    ensures ReplaceAll(a + b, pat, rep) == a + ReplaceAll(b, pat, rep)
    decreases |a|
  {
    if a == [] {
      assert a + b == b;
    } else {
      NoOccurrenceShift(a, b, pat);
      ReplaceAllCopiesPrefix(a[1..], b, pat, rep);
      ReplaceAllSkip(a + b, pat, rep);
      assert (a + b)[0] == a[0] && (a + b)[1..] == a[1..] + b;
      assert [a[0]] + (a[1..] + ReplaceAll(b, pat, rep)) == a + ReplaceAll(b, pat, rep);
    }
  }

  /** An occurrence at the scan position becomes `rep`, and the scan resumes
      right after it. */
  lemma ReplaceAllAtMatch(pat: string, b: string, rep: string)
    requires pat != []
    ensures ReplaceAll(pat + b, pat, rep) == rep + ReplaceAll(b, pat, rep)
  {
    assert (pat + b)[..|pat|] == pat;
    assert (pat + b)[|pat|..] == b;
  }

  // ---------------------------------------------------------------------------
  // Step 4: re.sub('[^a-zA-Z0-9 \n\.]', '', x)
  // ---------------------------------------------------------------------------

  /** Deletes every character outside the allowed class. */
  function KeepAllowed(s: string): (r: string)
    ensures forall c :: c in r ==> Allowed(c)
    ensures forall c :: Allowed(c) ==> multiset(r)[c] == multiset(s)[c]
    ensures |r| <= |s|
    ensures (forall i :: 0 <= i < |s| ==> Allowed(s[i])) ==> r == s
  {
    if s == [] then []
    else
      assert s == [s[0]] + s[1..];
      (if Allowed(s[0]) then [s[0]] else []) + KeepAllowed(s[1..])
  }

  /** One character at a time: the head is kept exactly when it is allowed. */
  lemma KeepAllowedCons(c: char, t: string)
    ensures KeepAllowed([c] + t) == (if Allowed(c) then [c] else []) + KeepAllowed(t)
  {
    assert ([c] + t)[0] == c && ([c] + t)[1..] == t;
  }

  /** Deletion keeps the order of what survives: the step works character by
      character, so it distributes over concatenation. */
  lemma {:induction false} KeepAllowedConcat(a: string, b: string)
    ensures KeepAllowed(a + b) == KeepAllowed(a) + KeepAllowed(b)
    decreases |a|
  {
    if a == [] {
      assert a + b == b;
    } else {
      var c, t := a[0], a[1..];
      assert a == [c] + t;
      assert a + b == [c] + (t + b);
      KeepAllowedConcat(t, b);
      KeepAllowedCons(c, t);
      KeepAllowedCons(c, t + b);
      ConcatAssoc(if Allowed(c) then [c] else [], KeepAllowed(t), KeepAllowed(b));
    }
  }

  // ---------------------------------------------------------------------------
  // Step 5: re.sub(r'http\S+', '', x)
  // ---------------------------------------------------------------------------

  /** Length of the longest prefix of `t` without whitespace: how far the
      greedy `\S+` reaches. */
  function NonSpaceRun(t: string): (n: nat)
    ensures n <= |t|
    ensures forall i :: 0 <= i < n ==> !IsSpace(t[i])
    ensures n < |t| ==> IsSpace(t[n])
  {
    if t == [] || IsSpace(t[0]) then 0 else 1 + NonSpaceRun(t[1..])
  }

  /** `http\S+` matches at index `i` of `s`. */
  predicate UrlAt(s: string, i: int) {
    0 <= i && i + 4 < |s| && s[i..i + 4] == "http" && !IsSpace(s[i + 4])
  }

  /** No `http` in `s` is followed by a non-whitespace character. */
  predicate UrlFree(s: string) {
    forall i :: 0 <= i < |s| ==> !UrlAt(s, i)
  }

  /** Deletes each leftmost `http` together with the whole run of
      non-whitespace characters after it. */
  function StripUrls(s: string): (r: string)
    ensures |r| <= |s|
    ensures forall c :: c in r ==> c in s
    decreases |s|
  {
    if UrlAt(s, 0) then StripUrls(s[4 + NonSpaceRun(s[4..])..])
    else if s == [] then []
    else [s[0]] + StripUrls(s[1..])
  }

  /** A text that starts with whitespace keeps that character. */
  lemma StripUrlsAtSpace(u: string)
    requires u != [] && IsSpace(u[0])
    ensures StripUrls(u) == [u[0]] + StripUrls(u[1..])
  {
    assert !UrlAt(u, 0);
  }

  /** After a deleted URL the output is empty or resumes at whitespace. */
  lemma StripUrlsHead(t: string)
    ensures UrlAt(t, 0) ==> StripUrls(t) == [] || IsSpace(StripUrls(t)[0])
  {
  }

  /** A whitespace-free prefix of the output was copied from the input. */
  lemma {:induction false} StripUrlsPrefix(t: string, j: nat)
    requires j <= |StripUrls(t)|
    requires forall k :: 0 <= k < j ==> !IsSpace(StripUrls(t)[k])
    ensures j <= |t| && StripUrls(t)[..j] == t[..j]
    decreases |t|
  {
    if j > 0 {
      StripUrlsHead(t);
      var rest := StripUrls(t[1..]);
      assert StripUrls(t) == [t[0]] + rest;
      forall k | 0 <= k < j - 1 ensures !IsSpace(rest[k]) {
        assert rest[k] == StripUrls(t)[k + 1];
      }
      StripUrlsPrefix(t[1..], j - 1);
      assert StripUrls(t)[..j] == [t[0]] + rest[..j - 1];
      assert t[..j] == [t[0]] + t[1..][..j - 1];
    }
  }

  /** Whether `http\S+` matches at the start depends only on the first five
      characters. */
  lemma UrlAtHeadSwap(c: char, u: string, v: string)
    requires UrlAt([c] + u, 0)
    requires |v| >= 4 && v[..4] == u[..4]
    ensures UrlAt([c] + v, 0)
  {
  }

  /** The output's first four characters after a match are non-whitespace. */
  lemma UrlAtTail(c: char, u: string)
    requires UrlAt([c] + u, 0)
    ensures |u| >= 4 && forall k :: 0 <= k < 4 ==> !IsSpace(u[k])
  {
    var r := [c] + u;
    forall k | 0 <= k < 4 ensures !IsSpace(u[k]) {
      assert u[k] == r[k + 1];
      assert k < 3 ==> r[k + 1] == r[..4][k + 1];
    }
  }

  /** The greedy run stops at the first whitespace character. */
  lemma {:induction false} NonSpaceRunStops(u: string, w: char, b: string)
    requires IsSpace(w)
    ensures NonSpaceRun(u + [w] + b) == NonSpaceRun(u)
    decreases |u|
  {
    if u == [] {
      assert (u + [w] + b)[0] == w;
    } else if !IsSpace(u[0]) {
      assert (u + [w] + b)[0] == u[0];
      assert (u + [w] + b)[1..] == u[1..] + [w] + b;
      NonSpaceRunStops(u[1..], w, b);
    } else {
      assert (u + [w] + b)[0] == u[0];
    }
  }

  /** A match at the start of `a + [w] + b`, with `w` whitespace, lies within
      `a`: it is already a match at the start of `a`. */
  lemma UrlAtBeforeSpace(a: string, w: char, b: string)
    requires IsSpace(w)
    ensures UrlAt(a + [w] + b, 0) ==> |a| >= 5 && UrlAt(a, 0)
  {
    var s := a + [w] + b;
    if UrlAt(s, 0) {
      assert s[|a|] == w;
      forall k | 0 <= k < 4 ensures !IsSpace(s[k]) {
        assert s[k] == s[..4][k];
      }
      assert a[..4] == s[..4];
    }
  }

  /** A match at the start of `a` is a match at the start of any extension. */
  lemma UrlAtExtend(a: string, rest: string)
    ensures UrlAt(a, 0) ==> UrlAt(a + rest, 0)
  {
    if UrlAt(a, 0) {
      assert (a + rest)[..4] == a[..4];
    }
  }

  /** What line 82 keeps: whitespace is never deleted, and it splits the text
      into two parts cleaned independently, because a greedy `\S+` cannot
      cross it. */
  lemma {:induction false} StripUrlsSplitAtSpace(a: string, w: char, b: string)
    requires IsSpace(w)
    ensures StripUrls(a + [w] + b) == StripUrls(a) + [w] + StripUrls(b)
    decreases |a|
  {
    var s := a + [w] + b;
    UrlAtBeforeSpace(a, w, b);
    if UrlAt(s, 0) {
      assert s[4..] == a[4..] + [w] + b;
      NonSpaceRunStops(a[4..], w, b);
      var k := 4 + NonSpaceRun(a[4..]);
      assert s[k..] == a[k..] + [w] + b;
      StripUrlsSplitAtSpace(a[k..], w, b);
    } else if a == [] {
      assert s == [w] + b;
      StripUrlsAtSpace(s);
    } else {
      UrlAtExtend(a, [w] + b);
      assert s == a + ([w] + b);
      assert s[0] == a[0] && s[1..] == a[1..] + [w] + b;
      StripUrlsSplitAtSpace(a[1..], w, b);
      assert StripUrls(s) == [a[0]] + (StripUrls(a[1..]) + [w] + StripUrls(b));
      assert StripUrls(a) == [a[0]] + StripUrls(a[1..]);
      ConcatAssoc([a[0]], StripUrls(a[1..]), [w] + StripUrls(b));
      ConcatAssoc(StripUrls(a[1..]), [w], StripUrls(b));
      ConcatAssoc([a[0]] + StripUrls(a[1..]), [w], StripUrls(b));
    }
  }

  /** A match at the start of the output, right after a copied first
      character, was already a match at the start of the input. */
  lemma StripUrlsHeadMatch(s: string)
    requires s != []
    ensures UrlAt([s[0]] + StripUrls(s[1..]), 0) ==> UrlAt(s, 0)
  {
    var rest := StripUrls(s[1..]);
    if UrlAt([s[0]] + rest, 0) {
      UrlAtTail(s[0], rest);
      StripUrlsPrefix(s[1..], 4);
      UrlAtHeadSwap(s[0], rest, s[1..]);
      assert [s[0]] + s[1..] == s;
    }
  }

  /** Line 82 leaves no `http` followed by a non-whitespace character: the
      greedy match runs to whitespace or to the end, so no new one forms. */
  lemma {:induction false} StripUrlsUrlFree(s: string)
    ensures UrlFree(StripUrls(s))
    decreases |s|
  {
    if UrlAt(s, 0) {
      StripUrlsUrlFree(s[4 + NonSpaceRun(s[4..])..]);
    } else if s != [] {
      var rest := StripUrls(s[1..]);
      var r := [s[0]] + rest;
      StripUrlsUrlFree(s[1..]);
      StripUrlsHeadMatch(s);
      forall i | 0 < i < |r| ensures !UrlAt(r, i) {
        if i + 4 < |r| {
          assert rest[i - 1..i + 3] == r[i..i + 4];
          assert !UrlAt(rest, i - 1);
        }
      }
      assert StripUrls(s) == r;
    }
  }

  /** A text with nothing for `http\S+` to match comes back unchanged. */
  lemma {:induction false} StripUrlsIdentity(s: string)
    requires UrlFree(s)
    ensures StripUrls(s) == s
    decreases |s|
  {
    if s != [] {
      assert !UrlAt(s, 0);
      forall i ensures !UrlAt(s[1..], i) {
        if 0 <= i && i + 4 < |s| - 1 {
          assert s[1..][i..i + 4] == s[i + 1..i + 5];
          assert !UrlAt(s, i + 1);
        }
      }
      StripUrlsIdentity(s[1..]);
      assert [s[0]] + s[1..] == s;
    }
  }

  /** Line 82 is idempotent on its own. */
  lemma StripUrlsIdempotent(s: string)
    ensures StripUrls(StripUrls(s)) == StripUrls(s)
  {
    StripUrlsUrlFree(s);
    StripUrlsIdentity(StripUrls(s));
  }

  /** A copied first character: where no match starts, the scan keeps the
      character and moves on. */
  lemma StripUrlsSkip(s: string)
    requires s != [] && !UrlAt(s, 0)
    ensures StripUrls(s) == [s[0]] + StripUrls(s[1..])
  {
  }

  /** The scan copies the first `k` characters when no match starts among
      them. */
  lemma {:induction false} StripUrlsKeepsPrefix(s: string, k: nat)
    requires k <= |s|
    requires forall i :: 0 <= i < k ==> !UrlAt(s, i)
    ensures StripUrls(s) == s[..k] + StripUrls(s[k..])
    decreases k
  {
    if k > 0 {
      var t := s[1..];
      assert forall i :: 0 <= i < k - 1 ==> !UrlAt(t, i) by {
        forall i | 0 <= i < k - 1 ensures !UrlAt(t, i) {
          if i + 4 < |t| {
            assert t[i..i + 4] == s[i + 1..i + 5];
            assert !UrlAt(s, i + 1);
          }
        }
      }
      StripUrlsKeepsPrefix(t, k - 1);
      StripUrlsSkip(s);
      SliceAfterHead(s, k);
      ConcatAssoc([s[0]], t[..k - 1], StripUrls(s[k..]));
    }
  }

  /** What line 82 keeps: a stretch in which no `http\S+` match starts is
      copied verbatim, and the scan then carries on with the rest. */
  lemma StripUrlsCopiesPrefix(a: string, b: string)
    requires forall i :: 0 <= i < |a| ==> !UrlAt(a + b, i)
    ensures StripUrls(a + b) == a + StripUrls(b)
  {
    StripUrlsKeepsPrefix(a + b, |a|);
    assert (a + b)[..|a|] == a && (a + b)[|a|..] == b;
  }

  /** A whitespace-free run of non-whitespace characters is as long as itself. */
  lemma NonSpaceRunWhole(u: string)
    requires forall i :: 0 <= i < |u| ==> !IsSpace(u[i])
    ensures NonSpaceRun(u) == |u|
  {
  }

  /** At a match the scan drops `http` and the greedy run after it. */
  lemma StripUrlsDrop(s: string, k: nat)
    requires UrlAt(s, 0) && k == 4 + NonSpaceRun(s[4..])
    ensures StripUrls(s) == StripUrls(s[k..])
  {
    var r := s[k..];
    assert StripUrls(s) == (if UrlAt(s, 0) then StripUrls(r) else []);
  }

  /** The pieces of `"http" + u + t`. */
  lemma HttpSlices(u: string, t: string)
    requires u != []
    ensures |"http" + u + t| > 4
    ensures ("http" + u + t)[..4] == "http" && ("http" + u + t)[4] == u[0]
    ensures ("http" + u + t)[4..] == u + t
    ensures ("http" + u + t)[4 + |u|..] == t
  {
  }

  /** What line 82 deletes: `http` and the whole whitespace-free run after it;
      the scan resumes at the whitespace that ends the run, or at the end. */
  lemma StripUrlsAtMatch(u: string, t: string)
    requires u != [] && forall i :: 0 <= i < |u| ==> !IsSpace(u[i])
    requires t == [] || IsSpace(t[0])
    ensures StripUrls("http" + u + t) == StripUrls(t)
  {
    HttpSlices(u, t);
    NonSpaceRunWhole(u);
    if t == [] {
      assert u + t == u;
    } else {
      assert u + t == u + [t[0]] + t[1..];
      NonSpaceRunStops(u, t[0], t[1..]);
    }
    StripUrlsDrop("http" + u + t, 4 + |u|);
  }

  // ---------------------------------------------------------------------------
  // Step 6: re.sub(r'\w+:\s?', '', x)
  // ---------------------------------------------------------------------------

  /** Length of the longest prefix of word characters: how far `\w+` reaches. */
  function WordRun(t: string): (n: nat)
    ensures n <= |t|
    ensures forall i :: 0 <= i < n ==> IsWordChar(t[i])
    ensures n < |t| ==> !IsWordChar(t[n])
  {
    if t == [] || !IsWordChar(t[0]) then 0 else 1 + WordRun(t[1..])
  }

  /** `\w+:` matches at the start of `s`. Backtracking `\w+` cannot help: a
      shorter run is followed by a word character, never by ':'. */
  predicate LabelAt(s: string) {
    s != [] && IsWordChar(s[0]) && WordRun(s) < |s| && s[WordRun(s)] == ':'
  }

  /** Length of the match of `\w+:\s?` at the start of `s`. */
  function LabelLength(s: string): (n: nat)
    requires LabelAt(s)
    ensures 2 <= n <= |s|
  {
    var k := WordRun(s) + 1;
    if k < |s| && IsSpace(s[k]) then k + 1 else k
  }

  /** Deletes each leftmost `word:` label with at most one whitespace after it. */
  function StripLabels(s: string): (r: string)
    ensures |r| <= |s|
    ensures forall c :: c in r ==> c in s
    ensures ':' !in s ==> r == s
    decreases |s|
  {
    if LabelAt(s) then StripLabels(s[LabelLength(s)..])
    else if s == [] then []
    else
      assert s == [s[0]] + s[1..];
      [s[0]] + StripLabels(s[1..])
  }

  /** Where no `\w+:` match starts, the scan keeps the character and moves on. */
  lemma StripLabelsSkip(s: string)
    requires s != [] && !LabelAt(s)
    ensures StripLabels(s) == [s[0]] + StripLabels(s[1..])
  {
  }

  /** The scan copies the first `k` characters when no match starts among
      them. */
  lemma {:induction false} StripLabelsKeepsPrefix(s: string, k: nat)
    requires k <= |s|
    requires forall i :: 0 <= i < k ==> !LabelAt(s[i..])
    ensures StripLabels(s) == s[..k] + StripLabels(s[k..])
    decreases k
  {
    if k > 0 {
      var t := s[1..];
      assert forall i :: 0 <= i < k - 1 ==> !LabelAt(t[i..]) by {
        forall i | 0 <= i < k - 1 ensures !LabelAt(t[i..]) {
          assert t[i..] == s[i + 1..];
        }
      }
      assert !LabelAt(s) by {
        assert s[0..] == s;
      }
      StripLabelsKeepsPrefix(t, k - 1);
      StripLabelsSkip(s);
      SliceAfterHead(s, k);
      ConcatAssoc([s[0]], t[..k - 1], StripLabels(s[k..]));
    }
  }

  /** What line 83 keeps: a stretch in which no `\w+:` match starts is copied
      verbatim, and the scan then carries on with the rest. */
  lemma StripLabelsCopiesPrefix(a: string, b: string)
    requires forall i :: 0 <= i < |a| ==> !LabelAt((a + b)[i..])
    ensures StripLabels(a + b) == a + StripLabels(b)
  {
    StripLabelsKeepsPrefix(a + b, |a|);
    assert (a + b)[..|a|] == a && (a + b)[|a|..] == b;
  }

  /** The word run stops at the first character that is not a word character. */
  lemma {:induction false} WordRunStops(w: string, c: char, t: string)
    requires forall i :: 0 <= i < |w| ==> IsWordChar(w[i])
    requires !IsWordChar(c)
    ensures WordRun(w + [c] + t) == |w|
    decreases |w|
  {
    var s := w + [c] + t;
    if w == [] {
      assert s[0] == c;
    } else {
      assert s[0] == w[0] && s[1..] == w[1..] + [c] + t;
      WordRunStops(w[1..], c, t);
    }
  }

  /** What line 83 deletes: a word, its ':' and at most one whitespace
      character after it; the scan resumes right after. */
  lemma StripLabelsAtLabel(w: string, t: string)
    requires w != [] && forall i :: 0 <= i < |w| ==> IsWordChar(w[i])
    ensures StripLabels(w + ":" + t) == StripLabels(if t != [] && IsSpace(t[0]) then t[1..] else t)
  {
    var s := w + ":" + t;
    assert s == w + [':'] + t;
    WordRunStops(w, ':', t);
    assert s[0] == w[0] && s[|w|] == ':';
    assert LabelAt(s);
    assert s[|w| + 1..] == t;
    if t != [] {
      assert s[|w| + 1] == t[0];
      assert s[|w| + 2..] == t[1..];
    }
  }

  // ---------------------------------------------------------------------------
  // cleanText
  // ---------------------------------------------------------------------------

  /** The first five steps: lines 78-82. */
  function CleanUpToUrls(x: string): string {
    var noRetweet := ReplaceAll(x, "RT", "");
    var spaceDot := ReplaceAll(noRetweet, " .", ".");
    var dotSpace := ReplaceAll(spaceDot, ". ", ".");
    StripUrls(KeepAllowed(dotSpace))
  }

  /** `cleanText(x)`: lines 78-83 in order. Only ASCII letters, digits, space,
      newline and '.' survive, and no step lengthens the text. */
  function CleanText(x: string): (r: string)
    ensures forall c :: c in r ==> Allowed(c)
    ensures |r| <= |x|
  {
    StripLabels(CleanUpToUrls(x))
  }

  /** The last step (line 83) never changes anything: line 81 has already
      deleted every ':', so `\w+:\s?` cannot match. */
  lemma LabelStepIsNoOp(x: string)
    ensures ':' !in CleanUpToUrls(x)
    ensures CleanText(x) == CleanUpToUrls(x)
  {
  }

  /** No `http` in a cleaned text is followed by a non-whitespace character. */
  lemma CleanTextUrlFree(x: string)
    ensures UrlFree(CleanText(x))
  {
    var noRetweet := ReplaceAll(x, "RT", "");
    var spaceDot := ReplaceAll(noRetweet, " .", ".");
    var dotSpace := ReplaceAll(spaceDot, ". ", ".");
    StripUrlsUrlFree(KeepAllowed(dotSpace));
    LabelStepIsNoOp(x);
  }

  /** Cleaning is not idempotent: line 81 can join the letters of a retweet
      marker that line 78 ran too early to see. */
  lemma CleanTextNotIdempotent()
    ensures CleanText("R!T") == "RT"
    ensures CleanText(CleanText("R!T")) == ""
  {
    SampleFirstPass();
    SampleSecondPass();
    LabelStepIsNoOp("R!T");
    LabelStepIsNoOp("RT");
  }

  lemma SampleFirstPass()
    ensures CleanUpToUrls("R!T") == "RT"
  {
    SampleReplaceSteps();
    SampleKeepAllowed();
    SampleStripUrls();
  }

  lemma SampleSecondPass()
    ensures CleanUpToUrls("RT") == ""
  {
    assert ReplaceAll("RT", "RT", "") == "";
    assert ReplaceAll("", " .", ".") == "";
    assert ReplaceAll("", ". ", ".") == "";
    assert KeepAllowed("") == "";
    assert StripUrls("") == "";
  }

  lemma SampleReplaceSteps()
    ensures ReplaceAll("R!T", "RT", "") == "R!T"
    ensures ReplaceAll("R!T", " .", ".") == "R!T"
    ensures ReplaceAll("R!T", ". ", ".") == "R!T"
  {
    var s := "R!T";
    assert s[..2] == "R!" && s[1..] == "!T";
    assert "!T"[..2] == "!T" && "!T"[1..] == "T";
    assert ReplaceAll("T", "RT", "") == "T";
    assert ReplaceAll("!T", "RT", "") == "!T";
  }

  lemma SampleKeepAllowed()
    ensures KeepAllowed("R!T") == "RT"
  {
    SampleKeepAllowedLast();
    SampleKeepAllowedBang();
    SampleKeepAllowedFirst();
  }

  lemma SampleKeepAllowedLast()
    ensures KeepAllowed("T") == "T"
  {
    assert "T"[1..] == "";
  }

  lemma SampleKeepAllowedBang()
    ensures KeepAllowed("!T") == KeepAllowed("T")
  {
    assert "!T"[1..] == "T" && !Allowed('!');
  }

  lemma SampleKeepAllowedFirst()
    ensures KeepAllowed("R!T") == ['R'] + KeepAllowed("!T")
  {
    assert "R!T"[1..] == "!T";
  }

  lemma SampleStripUrls()
    ensures StripUrls("RT") == "RT"
  {
    assert !UrlAt("RT", 0) && !UrlAt("T", 0);
    assert "RT"[1..] == "T" && "T"[1..] == "";
  }
}
