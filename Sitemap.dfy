/** `generateSitemap` (build.js:250-284): one `<url>` block per content
    directory holding an article, in directory order, with
    `loc = base + "/articles/" + dir` and `lastmod` the ISO text of the
    article's date, inside a fixed XML envelope. `toISOString` throws a
    RangeError on an invalid date, which ends the step. */
module Sitemap {
  import opened Values
  import opened Content

  datatype Url = Url(loc: string, lastmod: string)

  /** The absolute address of an article page (build.js:260-262). */
  function Loc(base: Value, dir: string): string {
    base.shown + "/articles/" + dir
  }

  /** `urls` (build.js:253-268): the directories without `index.md` give
      `null` and are filtered out; an invalid date throws. */
  function UrlEntries(base: Value, dirs: seq<PostDir>): (r: Result<seq<Url>, JsError>)
    ensures r.Ok? <==> DatesValid(dirs)
    ensures r.Err? ==> r.error == RangeError
    ensures r.Ok? ==> |r.value| == |Indexed(dirs)|
    ensures r.Ok? ==> forall k :: 0 <= k < |r.value| ==>
      r.value[k] == Url(Loc(base, Indexed(dirs)[k].name), Indexed(dirs)[k].post.value.isoDate)
  {
    if dirs == [] then Ok([])
    else
      var d := dirs[0];
      if d.post.Some? && d.post.value.time.Invalid? then
        Err(RangeError)
      else
        match UrlEntries(base, dirs[1..])
        case Err(e) =>
          assert !DatesValid(dirs[1..]);
          assert !DatesValid(dirs) by {
            if DatesValid(dirs) { DatesValidTail(dirs); }
          }
          Err(e)
        case Ok(rest) =>
          assert DatesValid(dirs) by {
            forall k | 0 <= k < |dirs| && dirs[k].post.Some? ensures dirs[k].post.value.time.Valid? {
              if k > 0 { assert dirs[k] == dirs[1..][k - 1]; }
            }
          }
          if d.post.Some? then Ok([Url(Loc(base, d.name), d.post.value.isoDate)] + rest)
          else Ok(rest)
  }

  const Head: string := "<?xml version=\"1.0\" encoding=\"UTF-8\"?>\n  <urlset xmlns=\"http://www.sitemaps.org/schemas/sitemap/0.9\">\n    "

  const Tail: string := "\n  </urlset>"

  /** One `<url>` block (build.js:274-278). */
  function Block(u: Url): string {
    "\n      <url>\n        <loc>" + u.loc + "</loc>\n        <lastmod>" + u.lastmod + "</lastmod>\n      </url>"
  }

  /** `urls.map(block).join("")`. */
  function Blocks(urls: seq<Url>): string {
    if urls == [] then "" else Block(urls[0]) + Blocks(urls[1..])
  }

  /** The contents of `sitemap.xml`, or the exception that stops it. */
  function SitemapXml(base: Value, dirs: seq<PostDir>): (r: Result<string, JsError>)
    ensures r.Ok? <==> DatesValid(dirs)
    ensures r.Err? ==> r.error == RangeError
    ensures r.Ok? ==> |r.value| >= |Head| + |Tail| && Head <= r.value && r.value[|r.value| - |Tail|..] == Tail
    ensures r.Ok? ==> r.value == Head + Blocks(UrlEntries(base, dirs).value) + Tail
  {
    match UrlEntries(base, dirs)
    case Err(e) => Err(e)
    case Ok(urls) =>
      var xml := Head + Blocks(urls) + Tail;
      assert xml[..|Head|] == Head;
      assert xml[|xml| - |Tail|..] == Tail;
      Ok(xml)
  }

  /** One more entry adds its block at the end. */
  lemma {:induction false} BlocksSnoc(us: seq<Url>, u: Url)
    ensures Blocks(us + [u]) == Blocks(us) + Block(u)
  {
    if us == [] {
      assert [] + [u] == [u];
      assert [u][1..] == [];
    } else {
      assert (us + [u])[1..] == us[1..] + [u];
      BlocksSnoc(us[1..], u);
    }
  }

  lemma DatesValidPrefix(dirs: seq<PostDir>, d: PostDir)
    requires DatesValid(dirs + [d])
    ensures DatesValid(dirs)
  {
    forall k | 0 <= k < |dirs| && dirs[k].post.Some? ensures dirs[k].post.value.time.Valid? {
      assert (dirs + [d])[k] == dirs[k];
    }
  }

  /** One more directory holding an article adds its entry at the end:
      the entries follow directory order. */
  lemma UrlEntriesSnoc(base: Value, dirs: seq<PostDir>, d: PostDir)
    requires DatesValid(dirs + [d]) && d.post.Some?
    ensures DatesValid(dirs)
    ensures UrlEntries(base, dirs + [d]) == Ok(UrlEntries(base, dirs).value + [Url(Loc(base, d.name), d.post.value.isoDate)])
  {
    DatesValidPrefix(dirs, d);
    IndexedSnoc(dirs, d);
    assert UrlEntries(base, dirs + [d]).Ok? && UrlEntries(base, dirs).Ok?;
    var r := UrlEntries(base, dirs + [d]).value;
    var s := UrlEntries(base, dirs).value + [Url(Loc(base, d.name), d.post.value.isoDate)];
    assert |r| == |s|;
    forall k | 0 <= k < |r| ensures r[k] == s[k] {
      if k < |UrlEntries(base, dirs).value| {
        assert Indexed(dirs + [d])[k] == Indexed(dirs)[k];
      } else {
        assert Indexed(dirs + [d])[k] == d;
      }
    }
    assert r == s;
  }

  /** One more directory holding an article adds exactly its `<url>` block
      before the closing tag. */
  lemma SitemapGrows(base: Value, dirs: seq<PostDir>, d: PostDir)
    requires DatesValid(dirs + [d]) && d.post.Some?
    ensures DatesValid(dirs)
    ensures SitemapXml(base, dirs + [d]).value ==
      Head + Blocks(UrlEntries(base, dirs).value) + Block(Url(Loc(base, d.name), d.post.value.isoDate)) + Tail
  {
    var u := Url(Loc(base, d.name), d.post.value.isoDate);
    UrlEntriesSnoc(base, dirs, d);
    var us := UrlEntries(base, dirs).value;
    assert SitemapXml(base, dirs + [d]).value == Head + Blocks(us + [u]) + Tail;
    assert Blocks(us + [u]) == Blocks(us) + Block(u) by {
      BlocksSnoc(us, u);
    }
    Regroup(Head, Blocks(us), Block(u), Tail);
  }

  lemma Regroup(h: string, a: string, b: string, t: string)
    ensures h + (a + b) + t == h + a + b + t
  {
  }

  /** A directory without `index.md` leaves no trace in the sitemap. */
  lemma SkippedDirLeavesNoBlock(base: Value, dirs: seq<PostDir>, d: PostDir)
    requires WellFormed(d) && "index.md" !in d.files
    ensures SitemapXml(base, dirs + [d]) == SitemapXml(base, dirs)
  {
    SkippedDirLeavesNoUrl(base, dirs, d);
  }

  /** A directory without `index.md` adds no entry. */
  lemma {:induction false} SkippedDirLeavesNoUrl(base: Value, dirs: seq<PostDir>, d: PostDir)
    requires WellFormed(d) && "index.md" !in d.files
    ensures UrlEntries(base, dirs + [d]) == UrlEntries(base, dirs)
  {
    if dirs != [] {
      assert (dirs + [d])[1..] == dirs[1..] + [d];
      SkippedDirLeavesNoUrl(base, dirs[1..], d);
    }
  }
}
