/** Plain-text previews of rendered markdown (build.js:131-134 and
    235-238): `html.replace(/<[^>]*>/g, "").slice(0, n)`. The HTML that
    `marked.parse` produces is an input here.

    `<[^>]*>` matches at a `<` exactly when a `>` follows somewhere later
    (`[^>]*` crosses newlines and further `<`), and the match then ends at the
    first such `>`. A `<` with no `>` after it, and a `>` outside a match,
    are ordinary characters and stay. */
module Preview {

  /** Index of the first `c` in `s`. */
  function FirstIndex(s: string, c: char): (i: nat)
    requires c in s
    ensures i < |s| && s[i] == c && c !in s[..i]
  {
    if s[0] == c then 0
    else
      var j := FirstIndex(s[1..], c);
      assert s[..j + 1] == [s[0]] + s[1..][..j];
      j + 1
  }

  /** `s.replace(/<[^>]*>/g, "")`. */
  function StripTags(s: string): string
    decreases |s|
  {
    if s == [] then []
    else if s[0] == '<' && '>' in s then StripTags(s[FirstIndex(s, '>') + 1..])
    else [s[0]] + StripTags(s[1..])
  }

  /** `a` is obtained from `b` by deleting characters. */
  predicate IsSubsequence(a: string, b: string)
    decreases |b|
  {
    a == [] ||
    (b != [] && ((a[0] == b[0] && IsSubsequence(a[1..], b[1..])) || IsSubsequence(a, b[1..])))
  }

  /** No tag is left: no `<` is followed, anywhere later, by a `>`. */
  predicate Tagless(s: string) {
    forall i, j :: 0 <= i < j < |s| && s[i] == '<' ==> s[j] != '>'
  }

  lemma {:induction false} SubsequenceOfSuffix(a: string, b: string, k: nat)
    requires k <= |b| && IsSubsequence(a, b[k..])
    ensures IsSubsequence(a, b)
    decreases k
  {
    if k > 0 {
      assert b[k..] == b[1..][k - 1..];
      SubsequenceOfSuffix(a, b[1..], k - 1);
    }
  }

  /** Stripping only deletes characters. */
  lemma {:induction false} StripIsSubsequence(s: string)
    ensures IsSubsequence(StripTags(s), s)
    decreases |s|
  {
    if s != [] {
      if s[0] == '<' && '>' in s {
        var k := FirstIndex(s, '>') + 1;
        StripIsSubsequence(s[k..]);
        SubsequenceOfSuffix(StripTags(s), s, k);
      } else {
        StripIsSubsequence(s[1..]);
        assert ([s[0]] + StripTags(s[1..]))[1..] == StripTags(s[1..]);
      }
    }
  }

  lemma {:induction false} SubsequenceKeepsAbsence(a: string, b: string, c: char)
    requires IsSubsequence(a, b) && c !in b
    ensures c !in a
    decreases |b|
  {
    if a != [] {
      if a[0] == b[0] && IsSubsequence(a[1..], b[1..]) {
        SubsequenceKeepsAbsence(a[1..], b[1..], c);
        assert a == [a[0]] + a[1..];
      } else {
        SubsequenceKeepsAbsence(a, b[1..], c);
      }
    }
  }

  /** After stripping, no tag is left. */
  lemma {:induction false} StripLeavesNoTag(s: string)
    ensures Tagless(StripTags(s))
    decreases |s|
  {
    if s != [] {
      if s[0] == '<' && '>' in s {
        StripLeavesNoTag(s[FirstIndex(s, '>') + 1..]);
      } else {
        var rest := StripTags(s[1..]);
        StripLeavesNoTag(s[1..]);
        if s[0] == '<' {
          StripIsSubsequence(s[1..]);
          SubsequenceKeepsAbsence(rest, s[1..], '>');
        }
        var r := [s[0]] + rest;
        forall i, j | 0 <= i < j < |r| && r[i] == '<'
          ensures r[j] != '>'
        {
          if i > 0 {
            assert r[i] == rest[i - 1] && r[j] == rest[j - 1];
          } else {
            assert r[j] == rest[j - 1] && rest[j - 1] in rest;
          }
        }
      }
    }
  }

  /** A string with no tag in it is left as it is. */
  lemma {:induction false} StripTagless(s: string)
    requires Tagless(s)
    ensures StripTags(s) == s
    decreases |s|
  {
    if s != [] {
      assert Tagless(s[1..]) by {
        forall i, j | 0 <= i < j < |s[1..]| && s[1..][i] == '<'
          ensures s[1..][j] != '>'
        {
          assert s[1..][i] == s[i + 1] && s[1..][j] == s[j + 1];
        }
      }
      StripTagless(s[1..]);
      assert s == [s[0]] + s[1..];
    }
  }

  /** Stripping twice is stripping once. */
  lemma StripIdempotent(s: string)
    ensures StripTags(StripTags(s)) == StripTags(s)
  {
    StripLeavesNoTag(s);
    StripTagless(StripTags(s));
  }

  /** A tag goes whole and nothing around it goes: before the first `<` every
      character is kept, and `<`, the text up to the next `>`, and that `>`
      are removed. With `StripTagless` this fixes the strip on every text. */
  lemma {:induction false} TagGoesWhole(p: string, q: string, r: string)
    requires '<' !in p && '>' !in q
    ensures StripTags(p + "<" + q + ">" + r) == p + StripTags(r)
    decreases |p|
  {
    var s := p + "<" + q + ">" + r;
    if p == [] {
      assert s == "<" + q + ">" + r;
      assert s[0] == '<' && s[|q| + 1] == '>';
      var k := FirstIndex(s, '>');
      assert k == |q| + 1 by {
        assert forall j :: 1 <= j < |q| + 1 ==> s[j] == q[j - 1];
      }
      assert s[k + 1..] == r;
    } else {
      assert s[0] == p[0] && p[0] != '<';
      assert s[1..] == p[1..] + "<" + q + ">" + r;
      TagGoesWhole(p[1..], q, r);
      assert [p[0]] + p[1..] == p;
    }
  }

  /** Only tags go: a `>` with no `<` before it, and a `<` with no `>`
      after it, are kept as text. */
  lemma StrayBracketsStay()
    ensures StripTags("a > b") == "a > b"
    ensures StripTags("1 < 2") == "1 < 2"
  {
    var s, t := "a > b", "1 < 2";
    assert forall i :: 0 <= i < |s| ==> s[i] != '<';
    StripTagless(s);
    assert forall j :: 0 <= j < |t| ==> t[j] != '>';
    StripTagless(t);
  }

  /** A tag pair around text leaves the text. */
  lemma TagsGo()
    ensures StripTags("<p>x</p>") == "x"
  {
    var s := "<p>x</p>";
    assert s[2] == '>';
    assert FirstIndex(s, '>') == 2;
    var t := s[3..];
    assert t == "x</p>";
    assert t[1..] == "</p>";
    assert t[1..][3] == '>';
    assert FirstIndex(t[1..], '>') == 3;
    assert t[1..][4..] == [];
  }

  /** `text.slice(0, n)` for a non-negative `n`: the first `n` characters,
      or all of them when there are fewer. */
  function Slice(s: string, n: nat): (r: string)
    ensures r <= s && |r| == if n <= |s| then n else |s|
  {
    if n <= |s| then s[..n] else s
  }

  /** The preview `marked.parse(content).replace(/<[^>]*>/g, "").slice(0, n)`:
      a prefix (`<=`) of the stripped text, `n` characters long unless the
      stripped text is shorter, with no tag left in it. */
  function Preview(html: string, n: nat): (r: string)
    ensures |r| <= n
    ensures r <= StripTags(html)
    ensures |r| == n || r == StripTags(html)
    ensures Tagless(r)
  {
    StripLeavesNoTag(html);
    Slice(StripTags(html), n)
  }

  /** The preview shown for each entry of the article list
      (build.js:131-134). */
  function ListPreview(html: string): (r: string)
    ensures |r| <= 300 && r <= StripTags(html)
    ensures |StripTags(html)| >= 300 ==> |r| == 300
    ensures |StripTags(html)| < 300 ==> r == StripTags(html)
  {
    Preview(html, 300)
  }

  /** The page description of an article page (build.js:235-238). */
  function Description(html: string): (r: string)
    ensures |r| <= 120 && r <= StripTags(html)
    ensures |StripTags(html)| >= 120 ==> |r| == 120
    ensures |StripTags(html)| < 120 ==> r == StripTags(html)
  {
    Preview(html, 120)
  }
}
