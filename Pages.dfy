/** The pages the generators render: each is the base template filled with
    the page's variables, its `header`, `content` and `footer` themselves
    rendered from their templates first (build.js:67-89, 91-157, 168-244). */
module Pages {
  import opened Values
  import opened Content
  import Template
  import Preview
  import Articles
  import Sitemap

  /** The variables of the header template (build.js:72-75). */
  function HeaderVars(site: Site): map<string, Value> {
    map["name" := site.config.authorName, "github" := site.config.authorGithub]
  }

  /** The rendered header (build.js:72-75, 99-102, 175-178). */
  function Header(site: Site): string {
    Template.Render(site.templates.header, HeaderVars(site))
  }

  /** The variables of the footer template (build.js:104-107). */
  function FooterVars(site: Site): map<string, Value> {
    map["year" := Number(site.year), "name" := site.config.authorName]
  }

  /** The rendered footer (build.js:104-107, 180-183). */
  function Footer(site: Site): string {
    Template.Render(site.templates.footer, FooterVars(site))
  }

  /** The description of the landing and list pages (build.js:81, 151). */
  function SiteDescription(c: Config): (r: Value)
    ensures r.truthy && |r.shown| == |c.authorName.shown| + 46
    ensures r.shown[15..15 + |c.authorName.shown|] == c.authorName.shown
  {
    Str("All the latest " + c.authorName.shown + " posts, straight from the head.")
  }

  /** The social-preview image of every page (build.js:83, 153, 240). */
  function OgImage(c: Config): Value {
    Str(c.base.shown + "/og-image.png")
  }

  /** The variables of the base template for the landing page, around its
      rendered content (build.js:79-86). */
  function IndexPageVars(site: Site, content: string): map<string, Value> {
    var c := site.config;
    map[
      "title" := c.authorName,
      "description" := SiteDescription(c),
      "url" := c.base,
      "ogImage" := OgImage(c),
      "header" := Str(Header(site)),
      "content" := Str(content)]
  }

  /** `generateIndexPage`'s page (build.js:67-86). Its content template is
      rendered with no variables object, which throws a TypeError as soon
      as the template holds a placeholder. */
  function IndexPage(site: Site): (r: Result<string, JsError>)
    ensures r.Ok? <==> !Template.HasPlaceholder(site.templates.main)
    ensures r.Err? ==> r.error == TypeError
  {
    match Template.RenderNoVariables(site.templates.main)
    case Err(e) => Err(e)
    case Ok(content) => Ok(Template.Render(site.templates.base, IndexPageVars(site, content)))
  }

  /** The variables of the `articles/post-list` template (build.js:144-147). */
  function ListVars(site: Site, dirs: seq<PostDir>): map<string, Value>
    requires DatesValid(dirs)
  {
    map[
      "name" := site.config.authorName,
      "posts" := Str(Articles.PostList(site.templates.postItem, dirs))]
  }

  /** The variables of the base template for the list page
      (build.js:149-157). */
  function ArticlesPageVars(site: Site, dirs: seq<PostDir>): map<string, Value>
    requires DatesValid(dirs)
  {
    var c := site.config;
    map[
      "title" := c.authorName,
      "description" := SiteDescription(c),
      "url" := c.base,
      "ogImage" := OgImage(c),
      "header" := Str(Header(site)),
      "content" := Str(Template.Render(site.templates.postList, ListVars(site, dirs))),
      "footer" := Str(Footer(site))]
  }

  /** `generateArticlesPage`'s page (build.js:144-157). */
  function ArticlesPage(site: Site, dirs: seq<PostDir>): string
    requires DatesValid(dirs)
  {
    Template.Render(site.templates.base, ArticlesPageVars(site, dirs))
  }

  /** The keys the lemmas below use are keys the placeholder pattern
      captures. */
  lemma PageKeys()
    ensures Template.IsKey("posts") && Template.IsKey("content")
    ensures Template.IsKey("name") && Template.IsKey("year")
  {
    assert "posts" == ['p', 'o', 's', 't', 's'];
    assert "content" == ['c', 'o', 'n', 't', 'e', 'n', 't'];
    assert "name" == ['n', 'a', 'm', 'e'];
    assert "year" == ['y', 'e', 'a', 'r'];
  }

  /** Wherever the header template has `{{name}}`, the header has the
      author's name (nothing if that name is falsy), with the text on
      either side rendered on its own. */
  lemma HeaderShowsName(site: Site, pre: string, post: string)
    requires site.templates.header == pre + Template.Placeholder("name") + post
    ensures Header(site) == Template.Render(pre, HeaderVars(site))
      + (if site.config.authorName.truthy then site.config.authorName.shown else "")
      + Template.Render(post, HeaderVars(site))
  {
    PageKeys();
    Template.RenderAround(pre, "name", post, HeaderVars(site));
  }

  /** Wherever the footer template has `{{year}}`, the footer has the year's
      decimal digits; year 0 is falsy and renders as nothing. */
  lemma FooterShowsYear(site: Site, pre: string, post: string)
    requires site.templates.footer == pre + Template.Placeholder("year") + post
    ensures Footer(site) == Template.Render(pre, FooterVars(site))
      + (if site.year > 0 then Decimal(site.year) else "")
      + Template.Render(post, FooterVars(site))
  {
    PageKeys();
    Template.RenderAround(pre, "year", post, FooterVars(site));
  }

  /** Wherever the base template has `{{content}}`, the landing page has the
      text of `main.html`, verbatim. */
  lemma IndexPageShowsMain(site: Site, pre: string, post: string)
    requires site.templates.base == pre + Template.Placeholder("content") + post
    ensures var main := site.templates.main;
      IndexPage(site).Ok? ==>
        IndexPage(site).value == Template.Render(pre, IndexPageVars(site, main)) + main
          + Template.Render(post, IndexPageVars(site, main))
  {
    var main := site.templates.main;
    if IndexPage(site).Ok? {
      PageKeys();
      var vars := IndexPageVars(site, main);
      assert "content" in vars && vars["content"] == Str(main);
      Template.RenderAroundValue(pre, "content", post, vars, main);
    }
  }

  /** The sitemap lists an article under the very URL its page gives
      itself. */
  lemma SitemapLocIsPageUrl(site: Site, d: PostDir)
    requires d.post.Some?
    ensures DetailPageVars(site, d)["url"] == Str(Sitemap.Loc(site.config.base, d.name))
  {
  }

  /** The page title is a template literal: an article without a title is
      titled "undefined - <author>". */
  lemma MissingTitleShowsUndefined(site: Site, d: PostDir)
    requires d.post.Some? && d.post.value.title == Undefined
    ensures "title" in DetailPageVars(site, d)
    ensures DetailPageVars(site, d)["title"] == Str("undefined - " + site.config.authorName.shown)
  {
  }

  /** Wherever the base template has `{{content}}` and the list template
      has `{{posts}}`, the list page has the article list there, inside the
      rendered list template. */
  lemma ArticlesPageShowsList(site: Site, dirs: seq<PostDir>, basePre: string, basePost: string, listPre: string, listPost: string)
    requires DatesValid(dirs)
    requires site.templates.base == basePre + Template.Placeholder("content") + basePost
    requires site.templates.postList == listPre + Template.Placeholder("posts") + listPost
    ensures var lv := ListVars(site, dirs);
      var bv := ArticlesPageVars(site, dirs);
      ArticlesPage(site, dirs) == Template.Render(basePre, bv)
        + (Template.Render(listPre, lv) + Articles.PostList(site.templates.postItem, dirs) + Template.Render(listPost, lv))
        + Template.Render(basePost, bv)
  {
    var list := Articles.PostList(site.templates.postItem, dirs);
    var lv := ListVars(site, dirs);
    var bv := ArticlesPageVars(site, dirs);
    var content := Template.Render(site.templates.postList, lv);
    PageKeys();
    assert content == Template.Render(listPre, lv) + list + Template.Render(listPost, lv) by {
      assert "posts" in lv && lv["posts"] == Str(list);
      Template.RenderAroundValue(listPre, "posts", listPost, lv, list);
    }
    assert ArticlesPage(site, dirs) == Template.Render(basePre, bv) + content + Template.Render(basePost, bv) by {
      assert "content" in bv && bv["content"] == Str(content);
      Template.RenderAroundValue(basePre, "content", basePost, bv, content);
    }
  }

  /** The variables of the `articles/post-detail` template
      (build.js:211-231). */
  function DetailVars(site: Site, p: Post): map<string, Value> {
    var c := site.config;
    var g := c.giscus;
    map[
      "date" := p.date,
      "localeDate" := Str(p.localeDate),
      "title" := p.title,
      "github" := c.authorGithub,
      "name" := c.authorName,
      "content" := Str(p.html),
      "repo" := g.repo,
      "repoId" := g.repoId,
      "category" := g.category,
      "categoryId" := g.categoryId,
      "mapping" := g.mapping,
      "reactionsEnabled" := g.reactionsEnabled,
      "inputPosition" := g.inputPosition,
      "theme" := g.theme,
      "lang" := g.lang]
  }

  /** The variables of the base template for an article page
      (build.js:233-244). The title is a template literal, so a missing
      title shows as "undefined". */
  function DetailPageVars(site: Site, d: PostDir): (vars: map<string, Value>)
    requires d.post.Some?
    ensures "url" in vars && "description" in vars
    ensures vars["url"] == Str(site.config.base.shown + "/articles/" + d.name)
    ensures vars["description"] == Str(Preview.Description(d.post.value.html))
    ensures |vars["description"].shown| <= 120
    ensures vars["description"].shown <= Preview.StripTags(d.post.value.html)
  {
    var c := site.config;
    var p := d.post.value;
    map[
      "title" := Str(p.title.shown + " - " + c.authorName.shown),
      "description" := Str(Preview.Description(p.html)),
      "url" := Str(c.base.shown + "/articles/" + d.name),
      "ogImage" := OgImage(c),
      "header" := Str(Header(site)),
      "content" := Str(Template.Render(site.templates.postDetail, DetailVars(site, p))),
      "footer" := Str(Footer(site))]
  }

  /** `articles/<dir>/index.html` (build.js:233-246). */
  function DetailPage(site: Site, d: PostDir): string
    requires d.post.Some?
  {
    Template.Render(site.templates.base, DetailPageVars(site, d))
  }

  /** Wherever the base template and the `post-detail` template have
      `{{content}}`, an article's page has the article's HTML there, inside
      the rendered `post-detail` template. */
  lemma DetailPageShowsArticle(site: Site, d: PostDir, basePre: string, basePost: string, detailPre: string, detailPost: string)
    requires d.post.Some?
    requires site.templates.base == basePre + Template.Placeholder("content") + basePost
    requires site.templates.postDetail == detailPre + Template.Placeholder("content") + detailPost
    ensures var dv := DetailVars(site, d.post.value);
      var bv := DetailPageVars(site, d);
      DetailPage(site, d) == Template.Render(basePre, bv)
        + (Template.Render(detailPre, dv) + d.post.value.html + Template.Render(detailPost, dv))
        + Template.Render(basePost, bv)
  {
    var p := d.post.value;
    var dv := DetailVars(site, p);
    var bv := DetailPageVars(site, d);
    var content := Template.Render(site.templates.postDetail, dv);
    PageKeys();
    assert content == Template.Render(detailPre, dv) + p.html + Template.Render(detailPost, dv) by {
      assert "content" in dv && dv["content"] == Str(p.html);
      Template.RenderAroundValue(detailPre, "content", detailPost, dv, p.html);
    }
    assert DetailPage(site, d) == Template.Render(basePre, bv) + content + Template.Render(basePost, bv) by {
      assert "content" in bv && bv["content"] == Str(content);
      Template.RenderAroundValue(basePre, "content", basePost, bv, content);
    }
  }
}
