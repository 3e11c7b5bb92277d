/** Small generic helpers shared by the model: an Option type, the two table
    queries the handlers use (first matching row, rows kept by a filter) and
    the string operations behind case-insensitive lookups and searches. */
module Common {

  datatype Option<T> = None | Some(value: T)

  /** Index of the first row of `s` that satisfies `p`: what `.first()` on a
      filtered query (or a single-row `get`) returns, reading the table in
      primary-key order. */
  function FindFirst<T>(s: seq<T>, p: T -> bool): (r: Option<nat>)
    ensures r.Some? ==> r.value < |s| && p(s[r.value])
    ensures r.Some? ==> forall j :: 0 <= j < r.value ==> !p(s[j])
    ensures r.None? <==> forall j :: 0 <= j < |s| ==> !p(s[j])
  {
    if s == [] then None
    else if p(s[0]) then Some(0)
    else match FindFirst(s[1..], p)
      case None => None
      case Some(k) => Some(k + 1)
  }

  /** The rows of `s` that `keep` accepts, in table order: what a filtered
      query yields, and what a bulk `delete()` of the complement leaves. */
  function Filter<T>(s: seq<T>, keep: T -> bool): (r: seq<T>)
    ensures |r| <= |s|
    ensures forall i :: 0 <= i < |r| ==> r[i] in s && keep(r[i])
    ensures forall i :: 0 <= i < |s| && keep(s[i]) ==> s[i] in r
  {
    if s == [] then []
    else
      var init := Filter(s[..|s| - 1], keep);
      assert s == s[..|s| - 1] + [s[|s| - 1]];
      if keep(s[|s| - 1]) then init + [s[|s| - 1]] else init
  }

  /** A filter that keeps every row changes nothing. */
  lemma {:induction false} FilterKeepingAll<T>(s: seq<T>, keep: T -> bool)
    requires forall i :: 0 <= i < |s| ==> keep(s[i])
    ensures Filter(s, keep) == s
  {
    if s != [] {
      FilterKeepingAll(s[..|s| - 1], keep);
      assert s == s[..|s| - 1] + [s[|s| - 1]];
    }
  }

  /** A filter that accepts none of the rows yields nothing. */
  lemma {:induction false} FilterKeepingNothing<T>(s: seq<T>, keep: T -> bool)
    requires forall i :: 0 <= i < |s| ==> !keep(s[i])
    ensures Filter(s, keep) == []
  {
    if s != [] {
      FilterKeepingNothing(s[..|s| - 1], keep);
    }
  }

  /** ASCII lower-casing of one character. */
  function LowerChar(c: char): char
  {
    if 'A' <= c <= 'Z' then (c as int - 'A' as int + 'a' as int) as char else c
  }

  /** `str.lower()`, restricted to ASCII letters. */
  function Lower(s: string): (r: string)
    ensures |r| == |s|
  {
    seq(|s|, i requires 0 <= i < |s| => LowerChar(s[i]))
  }

  /** Lower-casing twice is lower-casing once: a stored lower-case name is
      found again by a lookup that lower-cases it. */
  lemma LowerIdempotent(s: string)
    ensures Lower(Lower(s)) == Lower(s)
  {
    assert forall i :: 0 <= i < |s| ==> LowerChar(LowerChar(s[i])) == LowerChar(s[i]);
  }

  /** The characters for which Python's `str.isspace()` holds: the ones
      `str.strip()` removes. */
  predicate IsSpace(c: char)
  {
    || c == ' ' || '\t' <= c <= '\r' || '\U{1C}' <= c <= '\U{1F}'
    || c == '\U{85}' || c == '\U{A0}' || c == '\U{1680}'
    || '\U{2000}' <= c <= '\U{200A}' || c == '\U{2028}' || c == '\U{2029}'
    || c == '\U{202F}' || c == '\U{205F}' || c == '\U{3000}'
  }

  /** `str.strip()`: white space removed from both ends. The lemmas below
      state what the result is. */
  function Trim(s: string): (r: string)
    decreases |s|
  {
    if s == [] then []
    else if IsSpace(s[0]) then Trim(s[1..])
    else if IsSpace(s[|s| - 1]) then Trim(s[..|s| - 1])
    else s
  }

  /** Stripping leaves nothing exactly when `s` holds nothing but white
      space, and otherwise a value that starts and ends with a character
      that is not white space. */
  lemma {:induction false} TrimBlankExactlyWhenAllSpace(s: string)
    ensures Trim(s) == [] <==> forall k :: 0 <= k < |s| ==> IsSpace(s[k])
    ensures Trim(s) != [] ==> !IsSpace(Trim(s)[0]) && !IsSpace(Trim(s)[|Trim(s)| - 1])
    decreases |s|
  {
    if s != [] {
      if IsSpace(s[0]) {
        TrimBlankExactlyWhenAllSpace(s[1..]);
        SpacesAfterFirst(s, s[1..]);
      } else if IsSpace(s[|s| - 1]) {
        TrimBlankExactlyWhenAllSpace(s[..|s| - 1]);
        SpacesBeforeLast(s, s[..|s| - 1]);
      }
    }
  }

  lemma SpacesAfterFirst(s: string, rest: string)
    requires s != [] && IsSpace(s[0]) && rest == s[1..]
    ensures (forall k :: 0 <= k < |s| ==> IsSpace(s[k])) <==> (forall k :: 0 <= k < |rest| ==> IsSpace(rest[k]))
  {
    assert forall k :: 1 <= k < |s| ==> rest[k - 1] == s[k];
  }

  lemma SpacesBeforeLast(s: string, rest: string)
    requires s != [] && IsSpace(s[|s| - 1]) && rest == s[..|s| - 1]
    ensures (forall k :: 0 <= k < |s| ==> IsSpace(s[k])) <==> (forall k :: 0 <= k < |rest| ==> IsSpace(rest[k]))
  {
    assert forall k :: 0 <= k < |rest| ==> rest[k] == s[k];
  }

  /** Everything of `s` before `a` and from `b` on is white space. */
  predicate StrippedAt(s: string, a: nat, b: nat)
    requires a <= b <= |s|
  {
    && (forall k :: 0 <= k < a ==> IsSpace(s[k]))
    && (forall k :: b <= k < |s| ==> IsSpace(s[k]))
  }

  /** Stripping removes white space from the two ends of `s` and nothing
      else: its result is the slice of `s` that the white space around it
      leaves, so that its first and last characters are not white space. */
  lemma {:induction false} TrimRemovesOnlyEnds(s: string)
    ensures exists a, b :: 0 <= a <= b <= |s| && Trim(s) == s[a..b] && StrippedAt(s, a, b)
    decreases |s|
  {
    if s == [] {
      assert StrippedAt(s, 0, 0);
    } else if IsSpace(s[0]) {
      TrimRemovesOnlyEnds(s[1..]);
      StripAfterFirst(s, s[1..], Trim(s[1..]));
    } else if IsSpace(s[|s| - 1]) {
      TrimRemovesOnlyEnds(s[..|s| - 1]);
      StripBeforeLast(s, s[..|s| - 1], Trim(s[..|s| - 1]));
    } else {
      assert s == s[0..|s|] && StrippedAt(s, 0, |s|);
    }
  }

  lemma StripAfterFirst(s: string, rest: string, r: string)
    requires s != [] && rest == s[1..]
    requires exists a, b :: 0 <= a <= b <= |rest| && r == rest[a..b] && StrippedAt(rest, a, b)
    requires IsSpace(s[0])
    ensures exists a, b :: 0 <= a <= b <= |s| && r == s[a..b] && StrippedAt(s, a, b)
  {
    var a, b :| 0 <= a <= b <= |rest| && r == rest[a..b] && StrippedAt(rest, a, b);
    assert rest[a..b] == s[a + 1..b + 1];
    assert forall k :: 1 <= k < |s| ==> rest[k - 1] == s[k];
    assert StrippedAt(s, a + 1, b + 1);
  }

  lemma StripBeforeLast(s: string, rest: string, r: string)
    requires s != [] && rest == s[..|s| - 1]
    requires exists a, b :: 0 <= a <= b <= |rest| && r == rest[a..b] && StrippedAt(rest, a, b)
    requires IsSpace(s[|s| - 1])
    ensures exists a, b :: 0 <= a <= b <= |s| && r == s[a..b] && StrippedAt(s, a, b)
  {
    var a, b :| 0 <= a <= b <= |rest| && r == rest[a..b] && StrippedAt(rest, a, b);
    assert rest[a..b] == s[a..b];
    assert forall k :: 0 <= k < |rest| ==> rest[k] == s[k];
    assert StrippedAt(s, a, b);
  }

  /** Stripping skips a leading white-space character. */
  lemma TrimSkipsFirst(x: string)
    requires x != [] && IsSpace(x[0])
    ensures Trim(x) == Trim(x[1..])
  {
  }

  /** Stripping skips a trailing white-space character after a non-space
      first one. */
  lemma TrimSkipsLast(x: string)
    requires x != [] && !IsSpace(x[0]) && IsSpace(x[|x| - 1])
    ensures Trim(x) == Trim(x[..|x| - 1])
  {
  }

  /** White space in front of a value does not change what it strips to. */
  lemma {:induction false} TrimIgnoresLeadingSpace(pre: string, s: string)
    requires forall k :: 0 <= k < |pre| ==> IsSpace(pre[k])
    ensures Trim(pre + s) == Trim(s)
    decreases |pre|
  {
    if pre != [] {
      var x := pre + s;
      assert IsSpace(pre[0]) && x[0] == pre[0];
      TrimSkipsFirst(x);
      assert x[1..] == pre[1..] + s;
      TrimIgnoresLeadingSpace(pre[1..], s);
    } else {
      assert pre + s == s;
    }
  }

  /** White space after a value does not change what it strips to. */
  lemma {:induction false} TrimIgnoresTrailingSpace(s: string, post: string)
    requires forall k :: 0 <= k < |post| ==> IsSpace(post[k])
    ensures Trim(s + post) == Trim(s)
    decreases |s| + |post|
  {
    if s == [] {
      assert s + post == post;
      TrimBlankExactlyWhenAllSpace(post);
    } else if IsSpace(s[0]) {
      SpaceBeforeTrailing(s, post);
      TrimIgnoresTrailingSpace(s[1..], post);
    } else if post != [] {
      var m := |post| - 1;
      TrailingSpaceDropped(s, post);
      TrimIgnoresTrailingSpace(s, post[..m]);
    } else {
      assert s + post == s;
    }
  }

  lemma SpaceBeforeTrailing(s: string, post: string)
    requires s != [] && IsSpace(s[0])
    ensures Trim(s + post) == Trim(s[1..] + post)
  {
    var x := s + post;
    assert x[0] == s[0];
    TrimSkipsFirst(x);
    assert x[1..] == s[1..] + post;
  }

  lemma TrailingSpaceDropped(s: string, post: string)
    requires s != [] && !IsSpace(s[0]) && post != [] && IsSpace(post[|post| - 1])
    ensures Trim(s + post) == Trim(s + post[..|post| - 1])
  {
    var x, y := s + post, s + post[..|post| - 1];
    assert x[..|x| - 1] == y;
    assert Trim(x) == Trim(x[..|x| - 1]) by {
      assert x[0] == s[0] && x[|x| - 1] == post[|post| - 1];
      TrimSkipsLast(x);
    }
  }

  /** Padding a value with white space on both ends does not change what it
      strips to. */
  lemma TrimIgnoresPadding(pre: string, s: string, post: string)
    requires forall k :: 0 <= k < |pre| ==> IsSpace(pre[k])
    requires forall k :: 0 <= k < |post| ==> IsSpace(post[k])
    ensures Trim(pre + s + post) == Trim(s)
  {
    assert pre + s + post == pre + (s + post);
    TrimIgnoresLeadingSpace(pre, s + post);
    TrimIgnoresTrailingSpace(s, post);
  }

  /** The string holds a NUL character, scanned from the front. */
  predicate HasNul(s: string)
    decreases |s|
  {
    s != [] && (s[0] == '\0' || HasNul(s[1..]))
  }

  /** The scan finds a NUL character exactly when one occurs. */
  lemma {:induction false} HasNulFindsIt(s: string)
    ensures HasNul(s) <==> '\0' in s
    decreases |s|
  {
    if s != [] {
      HasNulFindsIt(s[1..]);
      assert s == [s[0]] + s[1..];
    }
  }

  /** Lower-casing neither creates nor removes a NUL character. */
  lemma {:induction false} LowerKeepsNul(s: string)
    ensures HasNul(Lower(s)) == HasNul(s)
    decreases |s|
  {
    if s != [] {
      LowerKeepsNul(s[1..]);
      LowerDropsFirst(s);
    }
  }

  /** Lower-casing neither creates nor removes white space. */
  lemma LowerCharKeepsSpace(c: char)
    ensures IsSpace(LowerChar(c)) == IsSpace(c)
  {
  }

  /** Lower-casing and stripping white space can be done in either order. */
  lemma {:induction false} LowerCommutesWithTrim(s: string)
    ensures Trim(Lower(s)) == Lower(Trim(s))
    decreases |s|
  {
    if s != [] {
      var n := |s| - 1;
      var t := Lower(s);
      assert t[0] == LowerChar(s[0]) && t[n] == LowerChar(s[n]);
      LowerCharKeepsSpace(s[0]);
      LowerCharKeepsSpace(s[n]);
      if IsSpace(s[0]) {
        LowerDropsFirst(s);
        LowerCommutesWithTrim(s[1..]);
      } else if IsSpace(s[n]) {
        LowerDropsLast(s);
        LowerCommutesWithTrim(s[..n]);
      }
    }
  }

  lemma LowerDropsFirst(s: string)
    requires s != []
    ensures Lower(s)[1..] == Lower(s[1..])
  {
  }

  lemma LowerDropsLast(s: string)
    requires s != []
    ensures Lower(s)[..|s| - 1] == Lower(s[..|s| - 1])
  {
  }

  /** `needle` occurs in `hay` starting at position `i`. */
  predicate OccursAt(hay: string, needle: string, i: nat)
  {
    i + |needle| <= |hay| && hay[i..i + |needle|] == needle
  }

  /** Substring test, as SQL `LIKE '%needle%'` performs it. */
  function Contains(hay: string, needle: string): (b: bool)
    ensures b <==> exists i: nat :: OccursAt(hay, needle, i)
    decreases |hay|
  {
    if |needle| > |hay| then false
    else if hay[..|needle|] == needle then
      assert OccursAt(hay, needle, 0);
      true
    else
      var rest := Contains(hay[1..], needle);
      assert rest ==> exists i: nat :: OccursAt(hay, needle, i) by {
        if rest {
          var i: nat :| OccursAt(hay[1..], needle, i);
          assert hay[1..][i..i + |needle|] == hay[i + 1..i + 1 + |needle|];
          assert OccursAt(hay, needle, i + 1);
        }
      }
      assert (exists i: nat :: OccursAt(hay, needle, i)) ==> rest by {
        if i: nat :| OccursAt(hay, needle, i) {
          assert i != 0;
          assert hay[1..][i - 1..i - 1 + |needle|] == hay[i..i + |needle|];
          assert OccursAt(hay[1..], needle, i - 1);
        }
      }
      rest
  }

  /** Django's `icontains`: a substring test that ignores ASCII case. */
  predicate ContainsIgnoringCase(hay: string, needle: string)
  {
    Contains(Lower(hay), Lower(needle))
  }

  /** Case does not matter to `icontains`, on either side. */
  lemma ContainsIgnoringCaseIgnoresCase(hay: string, needle: string)
    ensures ContainsIgnoringCase(Lower(hay), needle) == ContainsIgnoringCase(hay, needle)
    ensures ContainsIgnoringCase(hay, Lower(needle)) == ContainsIgnoringCase(hay, needle)
  {
    LowerIdempotent(hay);
    LowerIdempotent(needle);
  }
}
