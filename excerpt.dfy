/**
  The excerpt of a feed item (src/services/substackFeed.js, line 34): the
  description with every `<...>` run deleted by a global regular-expression
  replace, cut to its first 150 characters, followed by three dots.

  The global replace of `<[^>]*>` scans left to right: at a `<` that has a `>`
  somewhere after it, the match runs to the FIRST such `>` (the class `[^>]`
  cannot cross one, but it may contain further `<`), the match is deleted and
  the scan resumes after it. A `<` with no `>` after it matches nothing, and
  neither can any later position, so the rest of the text is kept.
*/
module Excerpts {

  /** Number of characters of stripped text kept in an excerpt (`substring(0, 150)`). */
  const ExcerptLength := 150

  /** The marker appended to every excerpt. */
  const Ellipsis := "..."

  /** No `<` is followed, anywhere later, by a `>`: the text holds no complete `<...>` run. */
  predicate TagFree(s: string) {
    forall i, j :: 0 <= i < j < |s| && s[i] == '<' ==> s[j] != '>'
  }

  /** Position of the first occurrence of `c` in `s`. */
  function IndexOf(s: string, c: char): (i: nat)
    requires c in s
    ensures i < |s| && s[i] == c
    ensures forall k :: 0 <= k < i ==> s[k] != c
  {
    if s[0] == c then 0 else 1 + IndexOf(s[1..], c)
  }

  /** `s.replace(/<[^>]*>/g, '')` with leftmost-match semantics. */
  function StripTags(s: string): (r: string)
    ensures |r| <= |s|
    decreases |s|
  {
    if s == [] then []
    else if s[0] == '<' && '>' in s[1..] then
      // the match is s[0..close], ending at the first '>' after the '<'
      var close := 1 + IndexOf(s[1..], '>');
      StripTags(s[close + 1..])
    else
      [s[0]] + StripTags(s[1..])
  }

  /**
    `m` maps each position of `r` to a position of `s` holding the same
    character, in strictly increasing order: `r` is `s` with some characters
    deleted and the rest kept in order.
  */
  ghost predicate KeptAt(m: seq<int>, r: string, s: string) {
    && |m| == |r|
    && (forall k :: 0 <= k < |m| ==> 0 <= m[k] < |s| && r[k] == s[m[k]])
    && (forall j, k :: 0 <= j < k < |m| ==> m[j] < m[k])
  }

  /** Every position of `m` moved `d` places on. */
  ghost function Shift(m: seq<int>, d: int): (m': seq<int>)
    ensures |m'| == |m| && forall k :: 0 <= k < |m| ==> m'[k] == m[k] + d
  {
    seq(|m|, k requires 0 <= k < |m| => m[k] + d)
  }

  /** A subsequence of a suffix is a subsequence of the whole. */
  lemma KeptInSuffix(m: seq<int>, r: string, s: string, from: nat)
    requires from <= |s| && KeptAt(m, r, s[from..])
    ensures KeptAt(Shift(m, from), r, s)
  {
  }

  /** Keeping the first character in front of a subsequence of the rest. */
  lemma KeptWithHead(m: seq<int>, r: string, s: string)
    requires s != [] && KeptAt(m, r, s[1..])
    ensures KeptAt([0] + Shift(m, 1), [s[0]] + r, s)
  {
  }

  /** A subsequence holds only characters of the text it was taken from. */
  lemma KeptCharsOccur(m: seq<int>, r: string, s: string)
    requires KeptAt(m, r, s)
    ensures forall c :: c in r ==> c in s
  {
    forall c | c in r ensures c in s {
      var k :| 0 <= k < |r| && r[k] == c;
      assert s[m[k]] == c;
    }
  }

  /** Stripping only deletes: the result is a subsequence of the input. */
  lemma {:induction false} StripTagsOnlyDeletes(s: string)
    ensures exists m :: KeptAt(m, StripTags(s), s)
    ensures forall c :: c in StripTags(s) ==> c in s
    decreases |s|
  {
    var r := StripTags(s);
    if s == [] {
      assert KeptAt([], r, s);
    } else if s[0] == '<' && '>' in s[1..] {
      var from := 1 + IndexOf(s[1..], '>') + 1;
      StripTagsOnlyDeletes(s[from..]);
      var m :| KeptAt(m, r, s[from..]);
      KeptInSuffix(m, r, s, from);
      KeptCharsOccur(Shift(m, from), r, s);
    } else {
      var rest := StripTags(s[1..]);
      StripTagsOnlyDeletes(s[1..]);
      var m :| KeptAt(m, rest, s[1..]);
      KeptWithHead(m, rest, s);
      KeptCharsOccur([0] + Shift(m, 1), r, s);
    }
  }

  /** No complete `<...>` run survives stripping. */
  lemma {:induction false} StripTagsIsTagFree(s: string)
    ensures TagFree(StripTags(s))
    decreases |s|
  {
    if s != [] {
      if s[0] == '<' && '>' in s[1..] {
        var close := 1 + IndexOf(s[1..], '>');
        StripTagsIsTagFree(s[close + 1..]);
      } else {
        var rest := StripTags(s[1..]);
        StripTagsIsTagFree(s[1..]);
        StripTagsOnlyDeletes(s[1..]);
        var r := [s[0]] + rest;
        forall i, j | 0 <= i < j < |r| && r[i] == '<' ensures r[j] != '>' {
          if i > 0 {
            assert rest[i - 1] == '<';
          } else {
            assert r[j] == rest[j - 1] && rest[j - 1] in rest;
          }
        }
      }
    }
  }

  /** `StripTags(s)` followed by `.substring(0, 150) + '...'`. */
  function Excerpt(description: string): (r: string)
    ensures 3 <= |r| <= ExcerptLength + 3
    ensures r[|r| - 3..] == Ellipsis
    ensures var text := StripTags(description);
            |r| - 3 == (if |text| < ExcerptLength then |text| else ExcerptLength) &&
            r[..|r| - 3] == text[..|r| - 3]
    ensures TagFree(r)
  {
    var text := StripTags(description);
    StripTagsIsTagFree(description);
    var kept := text[..if |text| < ExcerptLength then |text| else ExcerptLength];
    TruncatedIsTagFree(text, |kept|);
    kept + Ellipsis
  }

  /** Cutting a tag-free text and appending the ellipsis keeps it tag-free. */
  lemma TruncatedIsTagFree(text: string, n: nat)
    requires TagFree(text) && n <= |text|
    ensures TagFree(text[..n] + Ellipsis)
  {
  }

  /** The fixed points of the stripper are exactly the tag-free texts. */
  lemma {:induction false} StripTagsFixedPoints(s: string)
    ensures StripTags(s) == s <==> TagFree(s)
    decreases |s|
  {
    StripTagsIsTagFree(s);
    if s != [] {
      if s[0] == '<' && '>' in s[1..] {
        var close := 1 + IndexOf(s[1..], '>');
        assert s[close] == '>';
        assert !TagFree(s);
      } else if TagFree(s) {
        assert TagFree(s[1..]) by {
          forall i, j | 0 <= i < j < |s[1..]| && s[1..][i] == '<' ensures s[1..][j] != '>' {
            assert s[i + 1] == '<';
          }
        }
        StripTagsFixedPoints(s[1..]);
      }
    }
  }

  /** Stripping twice removes nothing more than stripping once. */
  lemma StripTagsIdempotent(s: string)
    ensures StripTags(StripTags(s)) == StripTags(s)
  {
    StripTagsIsTagFree(s);
    StripTagsFixedPoints(StripTags(s));
  }

  /** Text without any `<` passes through unchanged. */
  lemma StripTagsKeepsPlainText(s: string)
    requires '<' !in s
    ensures StripTags(s) == s
  {
  }

  /** A complete tag at the front is deleted and the scan resumes after its `>`. */
  lemma StripTagsDropsLeadingTag(t: string, b: string)
    requires '>' !in t
    ensures StripTags(['<'] + t + ['>'] + b) == StripTags(b)
  {
    var s := ['<'] + t + ['>'] + b;
    assert s[1..] == t + ['>'] + b;
    assert s[1..][|t|] == '>';
    var close := 1 + IndexOf(s[1..], '>');
    assert close == |t| + 1 by {
      assert forall k :: 0 <= k < |t| ==> s[1..][k] == t[k];
    }
    assert s[close + 1..] == b;
  }

  /** A leading character other than `<` is kept. */
  lemma StripTagsKeepsLeadingChar(c: char, s: string)
    requires c != '<'
    ensures StripTags([c] + s) == [c] + StripTags(s)
  {
  }

  /**
    A tag `<t>` preceded by text without `<` is removed, and the scan resumes
    right after it: `StripTags(a + "<" + t + ">" + b) == a + StripTags(b)`.
  */
  lemma {:induction false} StripTagsRemovesTag(a: string, t: string, b: string)
    requires '<' !in a && '>' !in t
    ensures StripTags(a + ['<'] + t + ['>'] + b) == a + StripTags(b)
    decreases |a|
  {
    if a == [] {
      assert a + ['<'] + t + ['>'] + b == ['<'] + t + ['>'] + b;
      StripTagsDropsLeadingTag(t, b);
    } else {
      var tail := a[1..] + ['<'] + t + ['>'] + b;
      assert a + ['<'] + t + ['>'] + b == [a[0]] + tail;
      assert a[0] in a;
      StripTagsKeepsLeadingChar(a[0], tail);
      assert '<' !in a[1..] by {
        assert forall k :: 0 <= k < |a[1..]| ==> a[1..][k] == a[k + 1];
      }
      StripTagsRemovesTag(a[1..], t, b);
      ConsAppend(a, StripTags(b));
    }
  }

  /** Putting the head of `a` back in front of the rest of `a` followed by `v`. */
  lemma ConsAppend(a: string, v: string)
    requires a != []
    ensures [a[0]] + (a[1..] + v) == a + v
  {
  }

  /**
    A run of plain text followed by two tags: only the text and what follows
    are left. A step of the proof of `StripExample`, cut to its shape.
  */
  lemma StripTagsTextThenTwoTags(c: string, t3: string, t4: string, xs: string)
    requires '<' !in c && '<' !in xs && '>' !in t3 && '>' !in t4
    ensures StripTags(c + ['<'] + t3 + ['>'] + (['<'] + t4 + ['>'] + xs)) == c + xs
  {
    StripTagsRemovesTag(c, t3, ['<'] + t4 + ['>'] + xs);
    StripTagsDropsLeadingTag(t4, xs);
    StripTagsKeepsPlainText(xs);
  }

  /**
    Four tags around two runs of plain text: the shape of `StripExample`'s
    markup, proved in general so that the literal strings stay out of the
    sequence reasoning.
  */
  lemma StripTagsAroundTwoRuns(t1: string, a: string, t2: string, c: string, t3: string, t4: string, xs: string)
    requires '<' !in a && '<' !in c && '<' !in xs
    requires '>' !in t1 && '>' !in t2 && '>' !in t3 && '>' !in t4
    ensures StripTags(['<'] + t1 + ['>'] + (a + ['<'] + t2 + ['>'] + (c + ['<'] + t3 + ['>'] + (['<'] + t4 + ['>'] + xs))))
            == a + (c + xs)
  {
    var b2 := c + ['<'] + t3 + ['>'] + (['<'] + t4 + ['>'] + xs);
    var b1 := a + ['<'] + t2 + ['>'] + b2;
    StripTagsDropsLeadingTag(t1, b1);
    assert StripTags(['<'] + t1 + ['>'] + b1) == StripTags(b1);
    StripTagsRemovesTag(a, t2, b2);
    assert StripTags(b1) == a + StripTags(b2);
    StripTagsTextThenTwoTags(c, t3, t4, xs);
    assert StripTags(b2) == c + xs;
  }

  /** The example markup `<p>Hello <b>World</b></p>` followed by `xs`, tag by tag. */
  lemma ExampleMarkupParts(xs: string)
    ensures "<p>Hello <b>World</b></p>" + xs ==
            ['<'] + "p" + ['>'] + ("Hello " + ['<'] + "b" + ['>'] + ("World" + ['<'] + "/b" + ['>'] + (['<'] + "/p" + ['>'] + xs)))
    ensures "Hello " + ("World" + xs) == "Hello World" + xs
  {
  }

  /** The example markup followed by text without `<` strips to "Hello World" and that text. */
  lemma StripExample(xs: string)
    requires '<' !in xs
    ensures StripTags("<p>Hello <b>World</b></p>" + xs) == "Hello World" + xs
  {
    ExampleMarkupParts(xs);
    StripTagsAroundTwoRuns("p", "Hello ", "b", "World", "/b", "/p", xs);
  }

  /** "Hello World", then x's, then the ellipsis: no angle bracket anywhere. */
  lemma HelloWorldHasNoBrackets(ys: string)
    requires forall k :: 0 <= k < |ys| ==> ys[k] == 'x'
    ensures '<' !in "Hello World" + ys + Ellipsis && '>' !in "Hello World" + ys + Ellipsis
  {
  }

  /**
    The description `<p>Hello <b>World</b></p>` followed by 200 x's gives
    "Hello World", 139 x's and the ellipsis: no angle bracket is left.
  */
  lemma ExcerptExample(xs: string)
    requires |xs| == 200 && forall k :: 0 <= k < |xs| ==> xs[k] == 'x'
    ensures Excerpt("<p>Hello <b>World</b></p>" + xs) == "Hello World" + xs[..139] + Ellipsis
    ensures '<' !in Excerpt("<p>Hello <b>World</b></p>" + xs)
    ensures '>' !in Excerpt("<p>Hello <b>World</b></p>" + xs)
  {
    assert '<' !in xs by {
      assert forall k :: 0 <= k < |xs| ==> xs[k] != '<';
    }
    StripExample(xs);
    var text := "Hello World" + xs;
    assert text[..ExcerptLength] == "Hello World" + xs[..139];
    HelloWorldHasNoBrackets(xs[..139]);
  }
}
