/** The generators and the top-level sequence of the build script
    (build.js:67-301), run against the output tree `public/`. Each
    generator is a method that changes the tree; its postcondition says what
    the tree is afterwards in terms of the tree before, and the lemmas say
    what that tree contains. */
module Build {
  import opened Values
  import opened Content
  import opened Output
  import Pages
  import Sitemap

  // ---------------------------------------------------------------------
  // The article pages (build.js:168-248).

  /** `public/articles/<name>`'s entries in the tree `root`. */
  function PostDirAt(root: map<string, Node>, name: string): map<string, Node> {
    Child(Child(root, "articles"), name)
  }

  /** `root` with `public/articles/<name>` set to `contents`. */
  function WithPostDir(root: map<string, Node>, name: string, contents: map<string, Node>): map<string, Node> {
    WithDir(root, "articles", WithDir(Child(root, "articles"), name, contents))
  }

  /** The files an article directory copies: all but `index.md`. */
  function Copies(d: PostDir): map<string, Node> {
    map f | f in d.files && f != "index.md" :: File(d.files[f])
  }

  /** `public/articles/<dir>/` after the article's turn: what was there,
      then the copied files, then the page (build.js:194-205, 246). */
  function PostOutput(existing: map<string, Node>, d: PostDir, page: string): map<string, Node> {
    (existing + Copies(d))["index.html" := File(page)]
  }

  /** The tree after `generatePostPage` has handled `dirs`, one after the
      other, starting from `root`. */
  function PostsTree(root: map<string, Node>, site: Site, dirs: seq<PostDir>): map<string, Node>
    decreases |dirs|
  {
    if dirs == [] then root
    else
      var before := PostsTree(root, site, dirs[..|dirs| - 1]);
      var d := dirs[|dirs| - 1];
      if d.post.None? then before
      else WithPostDir(before, d.name, PostOutput(PostDirAt(before, d.name), d, Pages.DetailPage(site, d)))
  }

  /** None of the writes `generatePostPage` makes for `dirs` would be
      refused: `public/articles` and each article's directory can be made
      or are directories, and each file it writes is free or a file. */
  predicate PostSlotsFree(root: map<string, Node>, dirs: seq<PostDir>) {
    && DirSlot(root, "articles")
    && forall k :: 0 <= k < |dirs| && dirs[k].post.Some? ==>
      && DirSlot(Child(root, "articles"), dirs[k].name)
      && FileSlot(PostDirAt(root, dirs[k].name), "index.html")
      && forall f :: f in dirs[k].files ==> FileSlot(PostDirAt(root, dirs[k].name), f)
  }

  /** Handling the articles leaves the top-level entries other than
      `articles` as they were, and `articles` a directory if it was free or
      one. */
  lemma {:induction false} PostsTreeTop(root: map<string, Node>, site: Site, dirs: seq<PostDir>)
    ensures var r := PostsTree(root, site, dirs);
      && (forall n :: n != "articles" ==> (n in r <==> n in root))
      && (forall n :: n != "articles" && n in root ==> r[n] == root[n])
      && (DirSlot(root, "articles") ==> DirSlot(r, "articles"))
      && ("articles" in root && root["articles"].Dir? ==> "articles" in r && r["articles"].Dir?)
    decreases |dirs|
  {
    if dirs != [] {
      PostsTreeTop(root, site, dirs[..|dirs| - 1]);
    }
  }

  /** Every entry of `articles` no article is named after is left as it
      was. */
  lemma {:induction false} PostsTreeOther(root: map<string, Node>, site: Site, dirs: seq<PostDir>, name: string)
    requires forall k :: 0 <= k < |dirs| && dirs[k].post.Some? ==> dirs[k].name != name
    ensures var r := PostsTree(root, site, dirs);
      && (name in Child(r, "articles") <==> name in Child(root, "articles"))
      && (name in Child(root, "articles") ==> Child(r, "articles")[name] == Child(root, "articles")[name])
    decreases |dirs|
  {
    if dirs != [] {
      var prefix := dirs[..|dirs| - 1];
      forall k | 0 <= k < |prefix| && prefix[k].post.Some? ensures prefix[k].name != name {
        assert prefix[k] == dirs[k];
      }
      PostsTreeOther(root, site, prefix, name);
    }
  }

  /** Every directory holding an article ends up as
      `public/articles/<dir>/`, holding what was there before, the copied
      files and the rendered page. */
  lemma {:induction false} PostsTreeArticle(root: map<string, Node>, site: Site, dirs: seq<PostDir>, k: nat)
    requires DistinctNames(dirs)
    requires k < |dirs| && dirs[k].post.Some?
    ensures var a := Child(PostsTree(root, site, dirs), "articles");
      && "articles" in PostsTree(root, site, dirs)
      && dirs[k].name in a
      && a[dirs[k].name] == Dir(PostOutput(PostDirAt(root, dirs[k].name), dirs[k], Pages.DetailPage(site, dirs[k])))
    decreases |dirs|
  {
    var prefix := dirs[..|dirs| - 1];
    var last := dirs[|dirs| - 1];
    var before := PostsTree(root, site, prefix);
    assert DistinctNames(prefix) by {
      forall i, j | 0 <= i < j < |prefix| ensures prefix[i].name != prefix[j].name {
        assert prefix[i] == dirs[i] && prefix[j] == dirs[j];
      }
    }
    if k == |dirs| - 1 {
      PostsTreeLast(root, site, dirs);
    } else {
      assert prefix[k] == dirs[k];
      PostsTreeArticle(root, site, prefix, k);
      assert last.name != dirs[k].name;
      var b := Child(before, "articles");
      assert dirs[k].name in b;
      if last.post.Some? {
        var out := PostOutput(PostDirAt(before, last.name), last, Pages.DetailPage(site, last));
        assert PostsTree(root, site, dirs) == WithPostDir(before, last.name, out);
        WithPostDirFacts(before, last.name, out, out);
        assert Child(PostsTree(root, site, dirs), "articles")[dirs[k].name] == b[dirs[k].name];
      } else {
        assert PostsTree(root, site, dirs) == before;
      }
    }
  }

  /** The last directory's article is written where it belongs. */
  lemma PostsTreeLast(root: map<string, Node>, site: Site, dirs: seq<PostDir>)
    requires DistinctNames(dirs)
    requires dirs != [] && dirs[|dirs| - 1].post.Some?
    ensures var last := dirs[|dirs| - 1];
      var a := Child(PostsTree(root, site, dirs), "articles");
      && "articles" in PostsTree(root, site, dirs)
      && last.name in a
      && a[last.name] == Dir(PostOutput(PostDirAt(root, last.name), last, Pages.DetailPage(site, last)))
  {
    var prefix := dirs[..|dirs| - 1];
    var last := dirs[|dirs| - 1];
    var before := PostsTree(root, site, prefix);
    assert PostDirAt(before, last.name) == PostDirAt(root, last.name) by {
      forall i | 0 <= i < |prefix| && prefix[i].post.Some? ensures prefix[i].name != last.name {
        assert prefix[i] == dirs[i];
      }
      PostsTreeOther(root, site, prefix, last.name);
    }
    var out := PostOutput(PostDirAt(root, last.name), last, Pages.DetailPage(site, last));
    assert PostsTree(root, site, dirs) == WithPostDir(before, last.name, out);
    WithPostDirFacts(before, last.name, out, out);
  }

  /** An article's output directory holds exactly the files of its
      content directory other than `index.md`, unchanged, and `index.html`
      (build.js:199-205, 246). */
  lemma PostOutputFiles(d: PostDir, page: string)
    ensures var out := PostOutput(map[], d, page);
      && (forall f :: f in out <==> (f in d.files && f != "index.md") || f == "index.html")
      && out["index.html"] == File(page)
      && (forall f :: f in out && f != "index.html" ==> out[f] == File(d.files[f]))
  {
    var out := PostOutput(map[], d, page);
    assert map[] + Copies(d) == Copies(d);
  }

  lemma WithPostDirFacts(root: map<string, Node>, name: string, c: map<string, Node>, c': map<string, Node>)
    ensures Child(WithPostDir(root, name, c), "articles") == Child(root, "articles")[name := Dir(c)]
    ensures PostDirAt(WithPostDir(root, name, c), name) == c
    ensures WithPostDir(WithPostDir(root, name, c), name, c') == WithPostDir(root, name, c')
    ensures var r := WithPostDir(root, name, c);
      "articles" in r && r["articles"].Dir? && name in r["articles"].children && r["articles"].children[name].Dir?
  {
    var r := WithPostDir(root, name, c);
    assert Child(r, "articles") == Child(root, "articles")[name := Dir(c)];
    assert Child(root, "articles")[name := Dir(c)][name := Dir(c')] == Child(root, "articles")[name := Dir(c')];
  }

  /** Writing one file into `public/articles/<name>/` of a tree whose
      article directory is `now`. */
  lemma WriteStep(before: map<string, Node>, name: string, now: map<string, Node>, file: string, v: Node)
    ensures var e := WithPostDir(before, name, now);
      && "articles" in e && e["articles"].Dir? && name in e["articles"].children
      && e["articles"].children[name].Dir? && e["articles"].children[name].children == now
      && WithDir(e, "articles", WithDir(Child(e, "articles"), name, Child(Child(e, "articles"), name)[file := v]))
         == WithPostDir(before, name, now[file := v])
  {
    WithPostDirFacts(before, name, now, now[file := v]);
  }

  /** Setting an article directory to what it already holds changes
      nothing. */
  lemma WithPostDirSelf(root: map<string, Node>, name: string)
    requires "articles" in root && root["articles"].Dir?
    requires name in root["articles"].children && root["articles"].children[name].Dir?
    ensures WithPostDir(root, name, PostDirAt(root, name)) == root
  {
    var a := Child(root, "articles");
    assert a[name := Dir(PostDirAt(root, name))] == a;
    assert root["articles" := Dir(a)] == root;
  }

  /** The files copied once those in `pending` are still to go. */
  function Copied(d: PostDir, pending: set<string>): map<string, Node> {
    map f | f in d.files && f != "index.md" && f !in pending :: File(d.files[f])
  }

  /** Copying one more file adds it to what was copied. */
  lemma CopiedStep(d: PostDir, pending: set<string>, file: string, existing: map<string, Node>)
    requires file in pending && pending <= d.files.Keys
    ensures file == "index.md" ==> existing + Copied(d, pending - {file}) == existing + Copied(d, pending)
    ensures file != "index.md" ==>
      existing + Copied(d, pending - {file}) == (existing + Copied(d, pending))[file := File(d.files[file])]
  {
    if file == "index.md" {
      assert Copied(d, pending - {file}) == Copied(d, pending);
    } else {
      assert Copied(d, pending - {file}) == Copied(d, pending)[file := File(d.files[file])];
    }
  }

  lemma CopiedNone(d: PostDir, root: map<string, Node>, name: string)
    ensures PostDirAt(root, name) + Copied(d, d.files.Keys) == PostDirAt(root, name)
    ensures Copied(d, {}) == Copies(d)
  {
    assert Copied(d, d.files.Keys) == map[];
  }

  /** A file still to copy is not among the copied ones, so its slot is
      as it was. */
  lemma CopiedSlot(d: PostDir, pending: set<string>, file: string, existing: map<string, Node>)
    requires file in pending && FileSlot(existing, file)
    ensures FileSlot(existing + Copied(d, pending), file)
  {
  }

  /** `postFiles.forEach(...)` (build.js:199-205): every file but
      `index.md` is copied into `public/articles/<name>/`, replacing a file
      of that name. */
  method CopyPostFiles(out: PublicDir, name: string, d: PostDir)
    requires out.present
    requires "articles" in out.entries && out.entries["articles"].Dir?
    requires name in out.entries["articles"].children && out.entries["articles"].children[name].Dir?
    requires forall f :: f in d.files ==> FileSlot(PostDirAt(out.entries, name), f)
    modifies out
    ensures out.present
    ensures out.entries == WithPostDir(old(out.entries), name, PostDirAt(old(out.entries), name) + Copies(d))
  {
    ghost var before := out.entries;
    WithPostDirSelf(before, name);
    var pending := d.files.Keys;
    CopiedNone(d, before, name);
    while pending != {}
      invariant out.present
      invariant pending <= d.files.Keys
      invariant out.entries == WithPostDir(before, name, PostDirAt(before, name) + Copied(d, pending))
      decreases pending
    {
      var file :| file in pending;
      ghost var now := PostDirAt(before, name) + Copied(d, pending);
      CopiedStep(d, pending, file, PostDirAt(before, name));
      if file != "index.md" {
        CopiedSlot(d, pending, file, PostDirAt(before, name));
        WriteStep(before, name, now, file, File(d.files[file]));
        out.WriteInSubDir("articles", name, file, d.files[file]);
      }
      pending := pending - {file};
    }
  }

  /** The body of `generatePostPage`'s loop for one directory
      (build.js:187-247). */
  method GeneratePostPage(out: PublicDir, site: Site, d: PostDir)
    requires out.present && WellFormed(d)
    requires "index.md" in d.files ==>
      && DirSlot(out.entries, "articles")
      && DirSlot(Child(out.entries, "articles"), d.name)
      && FileSlot(PostDirAt(out.entries, d.name), "index.html")
      && forall f :: f in d.files ==> FileSlot(PostDirAt(out.entries, d.name), f)
    modifies out
    ensures out.present
    ensures out.entries == if "index.md" !in d.files then old(out.entries)
      else WithPostDir(old(out.entries), d.name, PostOutput(PostDirAt(old(out.entries), d.name), d, Pages.DetailPage(site, d)))
  {
    if "index.md" !in d.files {
      return;
    }
    ghost var before := out.entries;
    out.MakeSubDir("articles", d.name);
    assert out.entries == WithPostDir(before, d.name, PostDirAt(before, d.name));
    WithPostDirFacts(before, d.name, PostDirAt(before, d.name), map[]);
    CopyPostFiles(out, d.name, d);
    ghost var copied := PostDirAt(before, d.name) + Copies(d);
    WithPostDirFacts(before, d.name, PostDirAt(before, d.name), copied);
    assert out.entries == WithPostDir(before, d.name, copied);
    WithPostDirFacts(before, d.name, copied, map[]);
    var page := Pages.DetailPage(site, d);
    out.WriteInSubDir("articles", d.name, "index.html", page);
    WithPostDirFacts(before, d.name, copied, copied["index.html" := File(page)]);
  }

  /** `generatePostPage` (build.js:168-248): for each directory in order,
      skip it without `index.md`; otherwise make
      `public/articles/<dir>/`, copy every file but `index.md` into it, and
      write the rendered page as its `index.html`. */
  method GeneratePostPages(out: PublicDir, site: Site, dirs: seq<PostDir>)
    requires out.present
    requires AllWellFormed(dirs) && DistinctNames(dirs)
    requires PostSlotsFree(out.entries, dirs)
    modifies out
    ensures out.present
    ensures out.entries == PostsTree(old(out.entries), site, dirs)
  {
    ghost var root := out.entries;
    for i := 0 to |dirs|
      invariant out.present
      invariant out.entries == PostsTree(root, site, dirs[..i])
    {
      var d := dirs[i];
      assert WellFormed(d);
      assert dirs[..i + 1][..i] == dirs[..i];
      assert dirs[..i + 1][i] == d;
      forall k | 0 <= k < |dirs[..i]| && dirs[..i][k].post.Some? ensures dirs[..i][k].name != d.name {
        assert dirs[..i][k] == dirs[k];
      }
      PostsTreeOther(root, site, dirs[..i], d.name);
      PostsTreeTop(root, site, dirs[..i]);
      assert PostDirAt(out.entries, d.name) == PostDirAt(root, d.name);
      GeneratePostPage(out, site, d);
    }
    assert dirs[..|dirs|] == dirs;
  }

  // ---------------------------------------------------------------------
  // The other generators.

  /** `generateIndexPage` (build.js:67-89). */
  method GenerateIndexPage(out: PublicDir, site: Site) returns (r: Result<(), JsError>)
    requires out.present && FileSlot(out.entries, "index.html")
    modifies out
    ensures out.present
    ensures r.Ok? <==> Pages.IndexPage(site).Ok?
    ensures r.Err? ==> r.error == TypeError && out.entries == old(out.entries)
    ensures r.Ok? ==> out.entries == old(out.entries)["index.html" := File(Pages.IndexPage(site).value)]
  {
    match Pages.IndexPage(site)
    case Err(e) =>
      return Err(e);
    case Ok(page) =>
      out.WriteFile("index.html", page);
      return Ok(());
  }

  /** `generateArticlesPage` (build.js:91-166). */
  method GenerateArticlesPage(out: PublicDir, site: Site, dirs: seq<PostDir>)
    requires out.present && DatesValid(dirs)
    requires DirSlot(out.entries, "articles") && FileSlot(Child(out.entries, "articles"), "index.html")
    modifies out
    ensures out.present
    ensures out.entries == WithDir(old(out.entries), "articles",
      Child(old(out.entries), "articles")["index.html" := File(Pages.ArticlesPage(site, dirs))])
  {
    var page := Pages.ArticlesPage(site, dirs);
    out.MakeDir("articles");
    out.WriteInDir("articles", "index.html", page);
  }

  /** `generateSitemap` (build.js:250-284). */
  method GenerateSitemap(out: PublicDir, site: Site, dirs: seq<PostDir>) returns (r: Result<(), JsError>)
    requires out.present && FileSlot(out.entries, "sitemap.xml")
    modifies out
    ensures out.present
    ensures r.Ok? <==> DatesValid(dirs)
    ensures r.Err? ==> r.error == RangeError && out.entries == old(out.entries)
    ensures r.Ok? ==> out.entries == old(out.entries)["sitemap.xml" := File(Sitemap.SitemapXml(site.config.base, dirs).value)]
  {
    match Sitemap.SitemapXml(site.config.base, dirs)
    case Err(e) =>
      return Err(e);
    case Ok(xml) =>
      out.WriteFile("sitemap.xml", xml);
      return Ok(());
  }

  // ---------------------------------------------------------------------
  // The whole run (build.js:286-301).

  /** The tree once the landing page and the article list are written
      into the cleaned tree. */
  function Listed(cleaned: map<string, Node>, index: string, list: string): map<string, Node> {
    cleaned["index.html" := File(index)]["articles" := Dir(map["index.html" := File(list)])]
  }

  /** The finished tree: the articles written into the listed tree, then
      the sitemap. */
  function Finished(cleaned: map<string, Node>, index: string, list: string, xml: string,
                    site: Site, dirs: seq<PostDir>): map<string, Node> {
    PostsTree(Listed(cleaned, index, list), site, dirs)["sitemap.xml" := File(xml)]
  }

  /** What the run leaves in `public/`, starting from the entries `start`
      it had (none if it did not exist). */
  function FinalTree(start: map<string, Node>, site: Site, dirs: seq<PostDir>): map<string, Node>
    requires DatesValid(dirs)
  {
    var cleaned := Kept(start, Excludes);
    match Pages.IndexPage(site)
    case Err(_) => cleaned
    case Ok(index) =>
      Finished(cleaned, index, Pages.ArticlesPage(site, dirs), Sitemap.SitemapXml(site.config.base, dirs).value, site, dirs)
  }

  /** Every page's social-preview image names a file the clean keeps: the
      URL is the site's base followed by an allow-listed entry of
      `public/`. */
  lemma OgImageSurvivesClean(c: Config)
    ensures exists n :: n in Excludes && Pages.OgImage(c).shown == c.base.shown + "/" + n
  {
    assert "og-image.png" in Excludes;
    assert Pages.OgImage(c).shown == c.base.shown + "/" + "og-image.png";
  }

  /** A run whose landing page throws stops after the clean: `public/` holds
      exactly the allow-listed entries it had, unchanged. */
  lemma FailedRunOnlyCleans(start: map<string, Node>, site: Site, dirs: seq<PostDir>)
    requires DatesValid(dirs) && Pages.IndexPage(site).Err?
    ensures FinalTree(start, site, dirs).Keys == set n | n in start && n in Excludes
    ensures forall n :: n in FinalTree(start, site, dirs) ==> FinalTree(start, site, dirs)[n] == start[n]
  {
  }

  /** In the listed tree every article's directory is still to be made. */
  lemma ListedSlots(cleaned: map<string, Node>, index: string, list: string, dirs: seq<PostDir>)
    requires forall k :: 0 <= k < |dirs| && dirs[k].post.Some? ==> dirs[k].name != "index.html"
    ensures PostSlotsFree(Listed(cleaned, index, list), dirs)
    ensures forall k :: 0 <= k < |dirs| && dirs[k].post.Some? ==> PostDirAt(Listed(cleaned, index, list), dirs[k].name) == map[]
  {
    var listed := Listed(cleaned, index, list);
    assert Child(listed, "articles") == map["index.html" := File(list)];
  }

  /** The run: make `public/` if needed, clean it, then the four
      generators in turn. A TypeError from the landing page ends the run
      after the clean. The article list needs valid dates (see Articles),
      and then the sitemap cannot fail. The content directories are
      listed by `readdirSync`, so their names are distinct; none holding
      an article may be named `index.html`, the list page's name. */
  method Build(out: PublicDir, site: Site, dirs: seq<PostDir>) returns (r: Result<(), JsError>)
    requires AllWellFormed(dirs) && DistinctNames(dirs)
    requires DatesValid(dirs)
    requires forall k :: 0 <= k < |dirs| && dirs[k].post.Some? ==> dirs[k].name != "index.html"
    modifies out
    ensures out.present
    ensures r.Ok? <==> Pages.IndexPage(site).Ok?
    ensures r.Err? ==> r.error == TypeError
    ensures out.entries == FinalTree(if old(out.present) then old(out.entries) else map[], site, dirs)
  {
    out.Create();
    out.Clean(Excludes);
    ghost var cleaned := out.entries;
    assert "index.html" !in Excludes && "articles" !in Excludes && "sitemap.xml" !in Excludes;
    assert "articles" !in cleaned && "index.html" !in cleaned && "sitemap.xml" !in cleaned;
    r := GenerateIndexPage(out, site);
    if r.Err? {
      return;
    }
    ghost var index := Pages.IndexPage(site).value;
    var list := Pages.ArticlesPage(site, dirs);
    GenerateArticlesPage(out, site, dirs);
    ghost var listed := Listed(cleaned, index, list);
    assert out.entries == listed;
    ListedSlots(cleaned, index, list, dirs);
    GeneratePostPages(out, site, dirs);
    PostsTreeTop(listed, site, dirs);
    var done := GenerateSitemap(out, site, dirs);
  }

  /** The top level of the finished tree, for any landing page, list page
      and sitemap text. */
  lemma ListedTop(cleaned: map<string, Node>, index: string, list: string, xml: string,
                  site: Site, dirs: seq<PostDir>)
    ensures var t := Finished(cleaned, index, list, xml, site, dirs);
      && t.Keys == cleaned.Keys + {"index.html", "articles", "sitemap.xml"}
      && (forall n :: n in cleaned && n != "index.html" && n != "articles" && n != "sitemap.xml" ==> t[n] == cleaned[n])
      && t["index.html"] == File(index)
      && t["sitemap.xml"] == File(xml)
      && t["articles"].Dir?
  {
    var listed := Listed(cleaned, index, list);
    PostsTreeTop(listed, site, dirs);
    var posts := PostsTree(listed, site, dirs);
    assert listed.Keys == cleaned.Keys + {"index.html", "articles"};
    assert posts.Keys == cleaned.Keys + {"index.html", "articles"};
  }

  /** The `articles` directory of the finished tree: the list page, and
      one directory per article holding its copied files and its page. */
  lemma {:induction false} ListedArticles(cleaned: map<string, Node>, index: string, list: string,
                                          site: Site, dirs: seq<PostDir>)
    requires DistinctNames(dirs)
    requires forall k :: 0 <= k < |dirs| && dirs[k].post.Some? ==> dirs[k].name != "index.html"
    ensures var a := Child(PostsTree(Listed(cleaned, index, list), site, dirs), "articles");
      && "index.html" in a && a["index.html"] == File(list)
      && (forall k :: 0 <= k < |dirs| && dirs[k].post.Some? ==>
            dirs[k].name in a && a[dirs[k].name] == Dir(PostOutput(map[], dirs[k], Pages.DetailPage(site, dirs[k]))))
      && (forall n :: n in a ==> n == "index.html" || exists k :: 0 <= k < |dirs| && dirs[k].post.Some? && dirs[k].name == n)
  {
    var listed := Listed(cleaned, index, list);
    var a := Child(PostsTree(listed, site, dirs), "articles");
    ListedSlots(cleaned, index, list, dirs);
    assert Child(listed, "articles") == map["index.html" := File(list)];
    PostsTreeOther(listed, site, dirs, "index.html");
    forall k | 0 <= k < |dirs| && dirs[k].post.Some?
      ensures dirs[k].name in a && a[dirs[k].name] == Dir(PostOutput(map[], dirs[k], Pages.DetailPage(site, dirs[k])))
    {
      PostsTreeArticle(listed, site, dirs, k);
    }
    forall n | n in a
      ensures n == "index.html" || exists k :: 0 <= k < |dirs| && dirs[k].post.Some? && dirs[k].name == n
    {
      if n != "index.html" && forall k :: 0 <= k < |dirs| && dirs[k].post.Some? ==> dirs[k].name != n {
        PostsTreeOther(listed, site, dirs, n);
      }
    }
  }

  /** What the run produces, when the landing page renders: the
      allow-listed entries it found, unchanged; `index.html`, `articles`
      and `sitemap.xml`; in `articles`, the list page and one directory per
      content directory holding an article, with that directory's files
      but `index.md` and its page; nothing for a directory without
      `index.md`. */
  lemma FinalTreeContents(start: map<string, Node>, site: Site, dirs: seq<PostDir>)
    requires AllWellFormed(dirs) && DistinctNames(dirs)
    requires DatesValid(dirs)
    requires forall k :: 0 <= k < |dirs| && dirs[k].post.Some? ==> dirs[k].name != "index.html"
    requires Pages.IndexPage(site).Ok?
    ensures var t := FinalTree(start, site, dirs);
      && t.Keys == Kept(start, Excludes).Keys + {"index.html", "articles", "sitemap.xml"}
      && (forall n :: n in start && n in Excludes ==> t[n] == start[n])
      && t["index.html"] == File(Pages.IndexPage(site).value)
      && t["sitemap.xml"] == File(Sitemap.SitemapXml(site.config.base, dirs).value)
      && t["articles"].Dir?
      && var a := t["articles"].children;
      && "index.html" in a && a["index.html"] == File(Pages.ArticlesPage(site, dirs))
      && (forall k :: 0 <= k < |dirs| && "index.md" in dirs[k].files ==>
            dirs[k].name in a && a[dirs[k].name] == Dir(PostOutput(map[], dirs[k], Pages.DetailPage(site, dirs[k]))))
      && (forall n :: n in a ==> n == "index.html" || exists k :: 0 <= k < |dirs| && "index.md" in dirs[k].files && dirs[k].name == n)
  {
    var cleaned := Kept(start, Excludes);
    var index := Pages.IndexPage(site).value;
    var list := Pages.ArticlesPage(site, dirs);
    var xml := Sitemap.SitemapXml(site.config.base, dirs).value;
    KeptContents(start, index, list, xml, site, dirs);
    assert forall k :: 0 <= k < |dirs| ==> (dirs[k].post.Some? <==> "index.md" in dirs[k].files) by {
      forall k | 0 <= k < |dirs| ensures dirs[k].post.Some? <==> "index.md" in dirs[k].files {
        assert WellFormed(dirs[k]);
      }
    }
  }

  /** `FinalTreeContents` for any landing page, list page and sitemap
      text. */
  lemma KeptContents(start: map<string, Node>, index: string, list: string, xml: string, site: Site, dirs: seq<PostDir>)
    requires DistinctNames(dirs)
    requires forall k :: 0 <= k < |dirs| && dirs[k].post.Some? ==> dirs[k].name != "index.html"
    ensures var t := Finished(Kept(start, Excludes), index, list, xml, site, dirs);
      && t.Keys == Kept(start, Excludes).Keys + {"index.html", "articles", "sitemap.xml"}
      && (forall n :: n in start && n in Excludes ==> t[n] == start[n])
      && t["index.html"] == File(index)
      && t["sitemap.xml"] == File(xml)
      && t["articles"].Dir?
      && var a := t["articles"].children;
      && "index.html" in a && a["index.html"] == File(list)
      && (forall k :: 0 <= k < |dirs| && dirs[k].post.Some? ==>
            dirs[k].name in a && a[dirs[k].name] == Dir(PostOutput(map[], dirs[k], Pages.DetailPage(site, dirs[k]))))
      && (forall n :: n in a ==> n == "index.html" || exists k :: 0 <= k < |dirs| && dirs[k].post.Some? && dirs[k].name == n)
  {
    var cleaned := Kept(start, Excludes);
    assert "index.html" !in Excludes && "articles" !in Excludes && "sitemap.xml" !in Excludes;
    var t := Finished(cleaned, index, list, xml, site, dirs);
    ListedTop(cleaned, index, list, xml, site, dirs);
    ListedArticles(cleaned, index, list, site, dirs);
    assert t["articles"] == PostsTree(Listed(cleaned, index, list), site, dirs)["articles"];
    forall n | n in start && n in Excludes ensures t[n] == start[n] {
      assert n in cleaned && cleaned[n] == start[n];
    }
  }
}
