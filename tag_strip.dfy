/**
 * The cell cleaner of the spider: `str.replace(r'<[^>]+>', '', regex=True)`.
 * Python's `re.sub` scans left to right; at every position it tries the
 * pattern, deletes the (leftmost, non-overlapping) match and resumes after it,
 * or keeps one character and moves on.
 */
module TagStrip {
  import opened Wrappers
  import opened Seqs

  /** The language of the pattern `<[^>]+>`: `<`, one or more characters other than `>`, then `>`. */
  predicate IsTag(t: seq<char>)
  {
    |t| >= 3 && t[0] == '<' && t[|t| - 1] == '>' && forall k :: 1 <= k < |t| - 1 ==> t[k] != '>'
  }

  /** The position of the first `c` in `s`, if any. */
  function IndexOf(s: seq<char>, c: char): (r: Option<nat>)
    ensures r.Some? ==> r.value < |s| && s[r.value] == c
    ensures forall k :: 0 <= k < |s| && (r.None? || k < r.value) ==> s[k] != c
  {
    if s == [] then None
    else if s[0] == c then Some(0)
    else match IndexOf(s[1..], c)
      case None => None
      case Some(j) => Some(j + 1)
  }

  /**
   * The length of the match of `<[^>]+>` that starts at the beginning of `s`.
   * Because `[^>]` cannot cross a `>`, the match, when there is one, ends at
   * the first `>` after the `<`, and exists only if that `>` is not the very
   * next character.
   */
  function MatchAt(s: seq<char>): (r: Option<nat>)
    ensures r.Some? ==> r.value <= |s| && IsTag(s[..r.value])
    ensures forall n :: 0 <= n <= |s| && IsTag(s[..n]) ==> r == Some(n)
  {
    if |s| < 2 || s[0] != '<' then None
    else match IndexOf(s[1..], '>')
      case None =>
        assert forall n :: 0 <= n <= |s| && IsTag(s[..n]) ==> s[1..][n - 2] == '>';
        None
      case Some(j) =>
        if j == 0 then None
        else
          assert forall n :: 0 <= n <= |s| && IsTag(s[..n]) ==> s[1..][n - 2] == '>' && (j < n - 2 ==> s[..n][j + 1] == '>');
          Some(j + 2)
  }

  /** Deletes every leftmost, non-overlapping match of `<[^>]+>` from `s`. */
  function Strip(s: seq<char>): (r: seq<char>)
    ensures |r| <= |s|
    decreases |s|
  {
    if s == [] then []
    else match MatchAt(s)
      case Some(n) => Strip(s[n..])
      case None => [s[0]] + Strip(s[1..])
  }

  /** No match of the pattern starts at any position of `s`. */
  predicate TagFree(s: seq<char>)
  {
    forall i :: 0 <= i <= |s| ==> MatchAt(s[i..]).None?
  }

  /** No substring of `s` belongs to the pattern's language. */
  ghost predicate NoTagSubstring(s: seq<char>)
  {
    forall i, j :: 0 <= i <= j <= |s| ==> !IsTag(s[i..j])
  }

  lemma TagFreeHasNoTag(s: seq<char>)
    requires TagFree(s)
    ensures NoTagSubstring(s)
  {
    forall i, j | 0 <= i <= j <= |s|
      ensures !IsTag(s[i..j])
    {
      assert s[i..][..j - i] == s[i..j];
      assert MatchAt(s[i..]).None?;
    }
  }

  /** Cleaning only deletes characters: the result is a sub-sequence of the input. */
  lemma {:induction false} StripSubsequence(s: seq<char>)
    ensures Subsequence(Strip(s), s)
    decreases |s|
  {
    if s != [] {
      match MatchAt(s)
      case Some(n) =>
        StripSubsequence(s[n..]);
        SubsequenceSkip(Strip(s[n..]), s, n);
      case None =>
        StripSubsequence(s[1..]);
        assert ([s[0]] + Strip(s[1..]))[1..] == Strip(s[1..]);
    }
  }

  /** Cleaning never brings in a character that was not there. */
  lemma StripMembers(s: seq<char>)
    ensures forall c :: c in Strip(s) ==> c in s
  {
    StripSubsequence(s);
    SubsequenceMembers(Strip(s), s);
  }

  /** A cell without `<` is left unchanged. */
  lemma {:induction false} StripWithoutOpen(s: seq<char>)
    requires '<' !in s
    ensures Strip(s) == s
    decreases |s|
  {
    if s != [] {
      assert '<' !in s[1..];
      StripWithoutOpen(s[1..]);
      assert s == [s[0]] + s[1..];
    }
  }

  /** A string in which no match starts is its own cleaning. */
  lemma {:induction false} StripTagFree(s: seq<char>)
    requires TagFree(s)
    ensures Strip(s) == s
    decreases |s|
  {
    if s != [] {
      assert MatchAt(s[0..]).None?;
      assert s[0..] == s;
      assert TagFree(s[1..]) by {
        forall i | 0 <= i <= |s[1..]|
          ensures MatchAt(s[1..][i..]).None?
        {
          assert s[1..][i..] == s[i + 1..];
          assert MatchAt(s[i + 1..]).None?;
        }
      }
      StripTagFree(s[1..]);
      assert s == [s[0]] + s[1..];
    }
  }

  /** After cleaning, no match of the pattern starts anywhere. */
  lemma {:induction false} StripIsTagFree(s: seq<char>)
    ensures TagFree(Strip(s))
    decreases |s|
  {
    if s != [] {
      match MatchAt(s)
      case Some(n) =>
        StripIsTagFree(s[n..]);
      case None =>
        var rest := Strip(s[1..]);
        var r := [s[0]] + rest;
        StripIsTagFree(s[1..]);
        forall i | 0 <= i <= |r|
          ensures MatchAt(r[i..]).None?
        {
          if i == 0 {
            assert r[0..] == r;
            if s[0] == '<' && |s| >= 2 {
              match IndexOf(s[1..], '>')
              case None =>
                StripMembers(s[1..]);
                assert '>' !in rest;
                assert r[1..] == rest;
              case Some(j) =>
                assert j == 0;
                assert MatchAt(s[1..]).None?;
                assert rest == [s[1]] + Strip(s[2..]) by {
                  assert s[1..][1..] == s[2..];
                }
                assert r[1..] == rest;
            }
          } else {
            assert r[i..] == rest[i - 1..];
            assert MatchAt(rest[i - 1..]).None?;
          }
        }
    }
  }

  /** No substring of a cleaned string matches `<[^>]+>`. */
  lemma StripLeavesNoTag(s: seq<char>)
    ensures NoTagSubstring(Strip(s))
  {
    StripIsTagFree(s);
    TagFreeHasNoTag(Strip(s));
  }

  /** Cleaning is idempotent: a second pass changes nothing. */
  lemma StripIdempotent(s: seq<char>)
    ensures Strip(Strip(s)) == Strip(s)
  {
    StripIsTagFree(s);
    StripTagFree(Strip(s));
  }

  /** A tag at the front is deleted as a whole, and the scan resumes right after it. */
  lemma StripTagPrefix(t: seq<char>, u: seq<char>)
    requires IsTag(t)
    ensures Strip(t + u) == Strip(u)
  {
    assert (t + u)[..|t|] == t;
    assert MatchAt(t + u) == Some(|t|);
    assert (t + u)[|t|..] == u;
  }

  /** The example cell of the spider's data: `<span>1,234</span>` cleans to `1,234`. */
  lemma StripSpanExample()
    ensures Strip("<span>1,234</span>") == "1,234"
  {
    var open, text, close := "<span>", "1,234", "</span>";
    assert IsTag(open);
    assert IsTag(close);
    assert '<' !in text;
    assert open + (text + close) == "<span>1,234</span>";
    StripTagPrefix(open, text + close);
    StripPlainPrefix(text, close);
    assert close + [] == close;
    StripTagPrefix(close, []);
    assert text + [] == text;
  }

  /** Characters before the first `<` are kept as they are. */
  lemma {:induction false} StripPlainPrefix(p: seq<char>, u: seq<char>)
    requires '<' !in p
    ensures Strip(p + u) == p + Strip(u)
    decreases |p|
  {
    if p != [] {
      assert (p + u)[1..] == p[1..] + u;
      assert '<' !in p[1..];
      StripPlainPrefix(p[1..], u);
      assert p == [p[0]] + p[1..];
    }
  }
}
