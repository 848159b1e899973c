/**
 * Text helpers of the blog (controllers/blogController.js, models/blogModel.js):
 * the slug transform, the reading-time estimate and the listing's paging flags.
 */
module Slugs {
  import opened Common

  // ---------------------------------------------------------------------
  // The slug transform
  // ---------------------------------------------------------------------

  /** The characters a slug is made of: `[a-z0-9-]`. */
  predicate IsSlugChar(c: char)
  {
    'a' <= c <= 'z' || '0' <= c <= '9' || c == '-'
  }

  /** The characters `/[^a-z0-9\s-]/g` leaves in place. */
  predicate Kept(c: char)
  {
    IsSlugChar(c) || IsSpace(c)
  }

  /** No whitespace at all. */
  predicate NoSpace(s: string)
  {
    forall i :: 0 <= i < |s| ==> !IsSpace(s[i])
  }

  /** Two hyphens in a row. */
  predicate NoDoubleHyphen(s: string)
  {
    forall i :: 0 <= i < |s| - 1 ==> !(s[i] == '-' && s[i + 1] == '-')
  }

  /** `.replace(/[^a-z0-9\s-]/g, '')`. */
  function Keep(s: string): (r: string)
    ensures forall i :: 0 <= i < |r| ==> Kept(r[i])
    ensures (forall i :: 0 <= i < |s| ==> Kept(s[i])) ==> r == s
  {
    if s == [] then []
    else if Kept(s[0]) then [s[0]] + Keep(s[1..])
    else Keep(s[1..])
  }

  /** `.replace(/\s+/g, '-')`: each run of whitespace becomes one hyphen. */
  function Hyphenate(s: string): (r: string)
    ensures NoSpace(r)
    ensures (forall i :: 0 <= i < |s| ==> Kept(s[i])) ==> forall i :: 0 <= i < |r| ==> IsSlugChar(r[i])
    ensures NoSpace(s) ==> r == s
    decreases |s|
  {
    if s == [] then []
    else if IsSpace(s[0]) then "-" + Hyphenate(s[LeadingSpaces(s)..])
    else [s[0]] + Hyphenate(s[1..])
  }

  /** The number of hyphens `s` starts with. */
  function LeadingHyphens(s: string): (n: nat)
    ensures n <= |s|
    ensures forall k :: 0 <= k < n ==> s[k] == '-'
    ensures n == |s| || s[n] != '-'
  {
    if |s| > 0 && s[0] == '-' then 1 + LeadingHyphens(s[1..]) else 0
  }

  /** `.replace(/-+/g, '-')`: each run of hyphens becomes one. */
  function Collapse(s: string): (r: string)
    ensures (forall i :: 0 <= i < |s| ==> IsSlugChar(s[i])) ==> forall i :: 0 <= i < |r| ==> IsSlugChar(r[i])
    ensures NoDoubleHyphen(r)
    ensures s != [] ==> r != [] && r[0] == s[0]
    decreases |s|
  {
    if s == [] then []
    else if s[0] == '-' then "-" + Collapse(s[LeadingHyphens(s)..])
    else [s[0]] + Collapse(s[1..])
  }

  /** Collapsing leaves a string without double hyphens unchanged. */
  lemma {:induction false} CollapseOfSingle(s: string)
    requires NoDoubleHyphen(s)
    ensures Collapse(s) == s
    decreases |s|
  {
    if s != [] {
      var t := s[1..];
      assert NoDoubleHyphen(t) by {
        forall i | 0 <= i < |t| - 1
          ensures !(t[i] == '-' && t[i + 1] == '-')
        {
          assert t[i] == s[i + 1] && t[i + 1] == s[i + 2];
        }
      }
      CollapseOfSingle(t);
      if s[0] == '-' {
        assert t == [] || t[0] != '-';
        assert LeadingHyphens(s) == 1 + LeadingHyphens(t);
        assert LeadingHyphens(s) == 1;
        assert Collapse(s) == "-" + Collapse(t);
      } else {
        assert Collapse(s) == [s[0]] + Collapse(t);
      }
      assert s == [s[0]] + t;
    }
  }

  /**
   * The slug the controller and the model both derive from a title:
   * lowercase, drop what is not `[a-z0-9\s-]`, whitespace runs to one
   * hyphen, hyphen runs to one. The closing `.trim('-')` is
   * `String.prototype.trim`, which takes no argument and only strips
   * whitespace, of which none is left; so the transform is these four steps.
   */
  function Slug(title: string): (r: string)
    ensures forall i :: 0 <= i < |r| ==> IsSlugChar(r[i])
    ensures NoDoubleHyphen(r)
  {
    Collapse(Hyphenate(Keep(Lower(title))))
  }

  /** A slug is its own slug: regenerating it changes nothing. */
  lemma SlugIdempotent(title: string)
    ensures Slug(Slug(title)) == Slug(title)
  {
    SlugOfSlug(Slug(title));
  }

  /** Case does not matter to the slug. */
  lemma SlugIgnoresCase(title: string)
    ensures Slug(Lower(title)) == Slug(title)
  {
    LowerIdempotent(title);
  }

  /** A non-empty word of lower-case letters. */
  predicate LowerWord(w: string)
  {
    w != [] && forall i :: 0 <= i < |w| ==> 'a' <= w[i] <= 'z'
  }

  /** A string already made of slug characters, without double hyphens, is its own slug. */
  lemma SlugOfSlug(s: string)
    requires forall i :: 0 <= i < |s| ==> IsSlugChar(s[i])
    requires NoDoubleHyphen(s)
    ensures Slug(s) == s
  {
    assert Lower(s) == s;
    assert Keep(s) == s;
    assert Hyphenate(s) == s;
    CollapseOfSingle(s);
  }

  lemma KeepCons(c: char, t: string)
    ensures Keep([c] + t) == if Kept(c) then [c] + Keep(t) else Keep(t)
  {
    assert ([c] + t)[1..] == t;
  }

  /** Filtering distributes over concatenation. */
  lemma {:induction false} KeepAppend(x: string, y: string)
    ensures Keep(x + y) == Keep(x) + Keep(y)
    decreases |x|
  {
    if x != [] {
      ConsAppend(x, y);
      KeepCons(x[0], x[1..] + y);
      KeepAppend(x[1..], y);
      KeepCons(x[0], x[1..]);
      assert x == [x[0]] + x[1..];
      if Kept(x[0]) {
        assert [x[0]] + (Keep(x[1..]) + Keep(y)) == ([x[0]] + Keep(x[1..])) + Keep(y);
      }
    } else {
      assert x + y == y;
    }
  }

  lemma HyphenateCons(c: char, t: string)
    requires !IsSpace(c)
    ensures Hyphenate([c] + t) == [c] + Hyphenate(t)
  {
    assert ([c] + t)[1..] == t;
  }

  /** A space-free prefix passes through `Hyphenate` unchanged. */
  lemma {:induction false} HyphenatePrefix(a: string, t: string)
    requires NoSpace(a)
    ensures Hyphenate(a + t) == a + Hyphenate(t)
    decreases |a|
  {
    if a == [] {
      assert a + t == t;
    } else {
      var rest := a[1..];
      assert NoSpace(rest) by {
        forall i | 0 <= i < |rest|
          ensures !IsSpace(rest[i])
        {
          assert rest[i] == a[i + 1];
        }
      }
      assert !IsSpace(a[0]);
      ConsAppend(a, t);
      HyphenateCons(a[0], rest + t);
      HyphenatePrefix(rest, t);
      ConsAppend(a, Hyphenate(t));
    }
  }

  lemma ConsAppend(a: string, u: string)
    requires a != []
    ensures a + u == [a[0]] + (a[1..] + u)
  {
    assert a == [a[0]] + a[1..];
  }

  /** One space before a word becomes one hyphen. */
  lemma HyphenateSpaceWord(w: string)
    requires LowerWord(w)
    ensures Hyphenate(" " + w) == "-" + w
  {
    var s := " " + w;
    assert s[1..] == w;
    assert LeadingSpaces(s) == 1 + LeadingSpaces(w);
    assert LeadingSpaces(w) == 0;
  }

  /** A padded title keeps its leading hyphen: the trailing `trim('-')` removes nothing. */
  lemma SlugKeepsEdgeHyphen(w: string)
    requires LowerWord(w)
    ensures Slug(" " + w) == "-" + w
  {
    var s := " " + w;
    assert Lower(s) == s;
    assert Keep(s) == s;
    HyphenateSpaceWord(w);
    CollapseOfSingle("-" + w);
  }

  lemma HyphenateTwoWords(a: string, b: string)
    requires LowerWord(a) && LowerWord(b)
    ensures Hyphenate(a + " " + b) == a + "-" + b
  {
    assert a + " " + b == a + (" " + b);
    assert NoSpace(a);
    HyphenatePrefix(a, " " + b);
    HyphenateSpaceWord(b);
    assert a + ("-" + b) == a + "-" + b;
  }

  lemma KeepLowerTwoWords(a: string, b: string)
    requires LowerWord(a) && LowerWord(b)
    ensures Keep(Lower(a + " " + b)) == a + " " + b
  {
    var s := a + " " + b;
    assert Lower(s) == s;
    assert Keep(s) == s;
  }

  lemma JoinedHasSingleHyphen(a: string, b: string)
    requires LowerWord(a) && LowerWord(b)
    ensures NoDoubleHyphen(a + "-" + b)
  {
  }

  /** Two words joined by a space are joined by a hyphen. */
  lemma SlugJoinsWords(a: string, b: string)
    requires LowerWord(a) && LowerWord(b)
    ensures Slug(a + " " + b) == a + "-" + b
  {
    KeepLowerTwoWords(a, b);
    HyphenateTwoWords(a, b);
    JoinedHasSingleHyphen(a, b);
    CollapseOfSingle(a + "-" + b);
  }

  /** Punctuation is dropped. */
  lemma SlugDropsPunctuation(w: string)
    requires LowerWord(w)
    ensures Slug(w + "!") == w
  {
    var s := w + "!";
    assert Lower(s) == s;
    KeepAppend(w, "!");
    assert Keep("!") == [] by {
      assert "!"[1..] == [];
    }
    assert Keep(w) == w;
    assert Keep(s) == w;
    assert Slug(s) == Collapse(Hyphenate(w));
    assert Lower(w) == w;
    SlugOfSlug(w);
  }

  // ---------------------------------------------------------------------
  // readingTime
  // ---------------------------------------------------------------------

  /** The number of runs of whitespace in `s`. */
  function SpaceRuns(s: string): nat
  {
    if s == [] then 0
    else
      var n := |s|;
      SpaceRuns(s[..n - 1]) + if IsSpace(s[n - 1]) && (n == 1 || !IsSpace(s[n - 2])) then 1 else 0
  }

  /** `content.split(/\s+/).length`: one more piece than there are whitespace runs. */
  function Pieces(s: string): nat
  {
    SpaceRuns(s) + 1
  }

  /** Runs of whitespace add up across a join where they do not touch. */
  lemma {:induction false} SpaceRunsAppend(a: string, b: string)
    requires a == [] || b == [] || !IsSpace(a[|a| - 1]) || !IsSpace(b[0])
    ensures SpaceRuns(a + b) == SpaceRuns(a) + SpaceRuns(b)
    decreases |b|
  {
    if b == [] {
      assert a + b == a;
    } else {
      var n := |b|;
      var b' := b[..n - 1];
      assert (a + b)[..|a + b| - 1] == a + b';
      assert (a + b)[|a + b| - 1] == b[n - 1];
      SpaceRunsAppend(a, b');
      if n >= 2 {
        assert (a + b)[|a + b| - 2] == b[n - 2];
      } else if a != [] {
        assert (a + b)[|a + b| - 2] == a[|a| - 1];
        assert b' == [];
        assert a + b' == a;
      }
    }
  }

  /** Joining two texts with one space makes the pieces add up. */
  lemma PiecesOfJoin(a: string, b: string)
    requires a != [] && b != [] && !IsSpace(a[|a| - 1]) && !IsSpace(b[0])
    ensures Pieces(a + " " + b) == Pieces(a) + Pieces(b)
  {
    SpaceRunsAppend(a, " ");
    assert (a + " ")[|a + " "| - 1] == ' ';
    SpaceRunsAppend(a + " ", b);
  }

  /** A text without whitespace is one piece. */
  lemma {:induction false} OneWord(s: string)
    requires forall i :: 0 <= i < |s| ==> !IsSpace(s[i])
    ensures Pieces(s) == 1
    decreases |s|
  {
    if s != [] {
      OneWord(s[..|s| - 1]);
    }
  }

  const WordsPerMinute := 200

  /** `Math.ceil(a / b)` for a positive divisor. */
  function CeilDiv(a: int, b: int): (q: int)
    requires b > 0
    ensures (q - 1) * b < a <= q * b
  {
    -((-a) / b)
  }

  /**
   * The `readingTime` virtual: 0 for missing or empty content, otherwise
   * the pieces of a whitespace split, 200 to the minute, rounded up.
   */
  function ReadingTime(content: Option<string>): (m: nat)
    ensures content.None? || content.value == [] ==> m == 0
    ensures content.Some? && content.value != [] ==>
      m >= 1 && (m - 1) * WordsPerMinute < Pieces(content.value) <= m * WordsPerMinute
  {
    if content.None? || content.value == [] then 0
    else CeilDiv(Pieces(content.value), WordsPerMinute)
  }

  /**
   * A trailing newline is one more piece: a text of exactly 200 words, then
   * a newline, reads as two minutes instead of one.
   */
  lemma TrailingSpaceCounts(s: string)
    requires s != [] && !IsSpace(s[|s| - 1])
    ensures Pieces(s + "\n") == Pieces(s) + 1
    ensures Pieces(s) == WordsPerMinute ==> ReadingTime(Some(s + "\n")) == ReadingTime(Some(s)) + 1
  {
    SpaceRunsAppend(s, "\n");
  }

  // ---------------------------------------------------------------------
  // getAllBlogs paging flags
  // ---------------------------------------------------------------------

  datatype Paging = Paging(hasNext: bool, hasPrev: bool)

  /**
   * `hasNext: page < Math.ceil(total / limit)` and `hasPrev: page > 1`. A
   * zero limit makes the page count Infinity (NaN when there is nothing),
   * and a negative limit makes it a non-positive ceiling.
   */
  function PagingOf(page: int, limit: int, total: nat): (p: Paging)
    ensures p.hasPrev <==> page > 1
    ensures limit > 0 ==> (p.hasNext <==> page < CeilDiv(total, limit))
    ensures limit == 0 ==> (p.hasNext <==> total > 0)
    ensures limit < 0 ==> (p.hasNext <==> page < -(total / -limit))
  {
    var next :=
      if limit > 0 then page < CeilDiv(total, limit)
      else if limit == 0 then total > 0
      else page < -(total / -limit);
    Paging(next, page > 1)
  }

  /** With a positive limit there is a next page exactly when items lie beyond this one. */
  lemma HasNextMeansMore(page: int, limit: int, total: nat)
    requires limit > 0
    ensures PagingOf(page, limit, total).hasNext <==> page * limit < total
  {
    var c := CeilDiv(total, limit);
    if page < c {
      MulMono(page, c - 1, limit);
    } else {
      MulMono(c, page, limit);
    }
  }

  lemma MulMono(x: int, y: int, b: int)
    requires x <= y && b > 0
    ensures x * b <= y * b
  {
    assert y * b - x * b == (y - x) * b;
  }
}
