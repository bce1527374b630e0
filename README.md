# A verified model of the wizora static-site build

The build script `build.js` turns a directory of markdown articles into a
static site under `public/`. It runs these steps:

1. Make `public/` if needed.
2. Clean `public/`, keeping a fixed allow-list of asset entries.
3. Write the landing page.
4. Write the article list.
5. Write one page per article, with the article's other files copied beside it.
6. Write `sitemap.xml`.

Every page is a template whose `{{key}}` placeholders are filled by a
regular-expression replace. Previews are the rendered HTML with tags
removed, cut to 300 characters for the list and 120 for a page description.
The markdown renderer adds `target='_blank' rel='noreferrer' ` after the
`<a` of every link.

This project models that core in Dafny and proves what it promises.

| module | models |
|---|---|
| `Values` | the JavaScript values the script passes around, seen through `String(v)` and `v \|\| ""`; the exceptions it can throw |
| `Template` | `renderTemplate`, the regular expression `{{(\w+)}}` scanned left to right, with a reference semantics (see below) |
| `Preview` | the tag strip `replace(/<[^>]*>/g, "")` and the `slice(0, n)` previews |
| `Links` | the renderer's link rewrite `link.replace("<a", …)` |
| `Content` | what the build reads: configuration, templates, content directories |
| `Articles` | the article list: filter, stable latest-first sort, join |
| `Sitemap` | the sitemap entries and the XML envelope |
| `Pages` | the variables each page is rendered with |
| `Output` | `public/` as a tree; `PublicDir` is a class whose methods are the script's file-system calls, with `cleanDirectory` as a loop over the entries |
| `Build` | the four generators as methods on `PublicDir`, the top-level run, and what the finished tree holds |

Some choices in the model:

- **Template reference semantics.** A template is read as a sequence of
  segments: literal characters and placeholders (`Segment`). The scan's
  reading is the unique one in which no literal stands where the pattern
  matches (`Leftmost`). Rendering is filling each hole of that reading with
  its value (`RenderIsFill`).
- **Articles and `index.md`.** A content directory's article (`post`) is
  present exactly when the directory holds `index.md` (`WellFormed`). The
  top-level run and the page loop require this of every directory, and the
  per-directory test is on `index.md`, as in the code.
- **Sort reference.** The article order is any latest-first ordering that
  keeps articles of equal date in directory order. Such an ordering is
  unique, and the insertion sort of the model produces it (`SortUnique`).
- **The output tree.** Each generator method's postcondition gives the new
  tree in terms of the old one. `FinalTreeContents` says what the whole run
  leaves in `public/`.
- **What the code does at the edges.**
  - The pattern `<[^>]*>` strips tags, but it keeps a `>` that no `<`
    opens and a `<` that no `>` closes. `Preview.StrayBracketsStay` shows
    `"a > b"` and `"1 < 2"` unchanged. What holds for every preview is that
    no `<` is followed by a `>` (`Tagless`).
  - The sitemap step calls `toISOString`. On an invalid date this throws a
    RangeError, so the sitemap step fails and nothing is written
    (`Sitemap.UrlEntries`).
  - The link rewrite inserts `target='_blank' rel='noreferrer' `, with
    single quotes and a trailing space (`Links.Attributes`).

## Model

| member | source | states |
|---|---|---|
| Values.Decimal | build.js:105 | `String(year)`: one or more digits, with no leading zero unless the number is 0 |
| Values.DecimalRoundTrip | build.js:105 | reading `String(n)`'s digits back gives `n` |
| Template.MatchAt | build.js:44 | a match of `{{(\w+)}}` at the start of a text is two braces, a non-empty run of word characters, two braces; the result is the captured key's length |
| Template.MatchAtPlaceholder | build.js:44 | the pattern matches `{{k}}` for every word-character key `k`, whatever follows, capturing exactly `k` |
| Template.Tokenize | build.js:44 | every template has a leftmost segment reading that spells it exactly |
| Template.LeftmostUnique | build.js:44 | two leftmost readings of the same template are equal: the scan's reading is unique |
| Template.Lookup | build.js:44 | `variables[key] \|\| ""`; its meaning is given by `RenderPlaceholder` (a placeholder renders as its lookup) and `MissingKeyRendersEmpty` |
| Template.Render | build.js:43-45 | `renderTemplate`; its meaning is given by `RenderIsFill` (the reference reading), `RenderPlaceholder` and `RenderIdempotent` |
| Template.RenderAround | build.js:44 | wherever a template has a placeholder, the text before it renders on its own, the placeholder becomes its value, and the text after it renders on its own: no match reaches across its boundaries |
| Template.RenderAroundValue | build.js:44 | the same for a key holding a string: the placeholder becomes exactly that string |
| Template.MatchAtExtend | build.js:44 | a match cannot start in a text and reach into a placeholder that follows it |
| Template.RenderIsFill | build.js:43-45 | rendering equals the reference: each placeholder of the leftmost reading becomes its value (or nothing) and every other character is kept |
| Template.RenderPlaceholder | build.js:44 | a placeholder becomes `variables[key] \|\| ""`, and scanning resumes right after the match |
| Template.MissingKeyRendersEmpty | build.js:44 | a missing or falsy variable renders as the empty string |
| Template.RenderWithoutPlaceholder | build.js:44 | a template where the pattern matches nowhere renders as itself |
| Template.RenderIdempotent | build.js:43-45 | on such templates, rendering twice equals rendering once |
| Template.SpacedBracesStayLiteral | build.js:44 | `{{ a }}` is not a placeholder and is kept verbatim |
| Template.DashedBracesStayLiteral | build.js:44 | `{{a-b}}` is not a placeholder and is kept verbatim |
| Template.ValueNotRescanned | build.js:44 | a value that itself looks like a placeholder is inserted as is, not expanded |
| Template.RenderNoVariables | build.js:77 | rendering with no variables object throws a TypeError exactly when the template has a placeholder; otherwise it returns the template unchanged |
| Preview.StripTags | build.js:133 | the tag strip `replace(/<[^>]*>/g, "")`; its meaning is given by `TagGoesWhole` and `StripTagless`, which together fix it on every text, and by `StripIsSubsequence`, `StripLeavesNoTag` and `StripIdempotent` |
| Preview.StripIsSubsequence | build.js:133 | stripping tags only deletes characters |
| Preview.StripLeavesNoTag | build.js:133 | after stripping, no `<` is followed by a `>` |
| Preview.StripTagless | build.js:133 | a text without such a pair is left unchanged |
| Preview.StripIdempotent | build.js:133 | stripping twice equals stripping once |
| Preview.TagGoesWhole | build.js:133 | before the first `<` every character is kept; `<`, the text up to the next `>`, and that `>` are removed, and stripping resumes after it |
| Preview.StrayBracketsStay | build.js:133 | a lone `>` and a lone `<` are kept as text |
| Preview.TagsGo | build.js:133 | `<p>x</p>` strips to `x` |
| Preview.Slice | build.js:134 | `slice(0, n)` is the prefix of length `n`, or the whole text when it is shorter |
| Preview.Preview | build.js:131-134 | the preview is a prefix of the stripped text, at most `n` long, exactly `n` long unless it is all of the stripped text, and has no tag |
| Preview.ListPreview | build.js:131-134 | the list preview is the first 300 stripped characters, or all of them if fewer |
| Preview.Description | build.js:235-238 | the page description is the first 120 stripped characters, or all of them if fewer |
| Links.IndexOf | build.js:31 | `indexOf` returns the first position of the pattern, or none when it occurs nowhere |
| Links.ReplaceFirst | build.js:31 | `replace` with a string pattern; its meaning is given by `ReplaceFirstAtFirst` and `ReplaceFirstAbsent` |
| Links.ReplaceFirstAtFirst | build.js:31 | only the first occurrence of the pattern is replaced, and the text around it is kept |
| Links.ReplaceFirstAbsent | build.js:31 | a text in which the pattern occurs nowhere is returned unchanged |
| Links.RewriteLink | build.js:29-32 | the renderer's link rewrite; its meaning is given by `RewriteInsertsAfterFirstAnchor` and `RewriteRoundTrip` |
| Links.RewriteInsertsAfterFirstAnchor | build.js:29-32 | a link without `<a` is unchanged; otherwise exactly the attribute text is inserted after its first `<a` |
| Links.RewriteRoundTrip | build.js:31 | removing the inserted text from the rewritten link gives back the original link |
| Links.RewriteAnchor | build.js:29-32 | an anchor starting with `<a` becomes `<a target='_blank' rel='noreferrer' ` followed by the rest |
| Content.Indexed | build.js:112-114 | the directories kept are those holding an article: each kept one holds one and is in the input, and every input directory holding one is kept |
| Content.IndexedSnoc | build.js:112-114 | the filter keeps directory order: appending a directory appends it to the kept ones exactly when it holds an article |
| Content.IndexedArticles | build.js:114 | when each directory's article is there exactly when its `index.md` is, the kept directories are exactly those holding `index.md` |
| Articles.ItemVars | build.js:124-136 | an item's `localeDate` is the article's locale date, its `title` the front-matter title, its `preview` exactly `ListPreview` of the article (the first 300 stripped characters) and its `slug` `/articles/` + dir |
| Articles.ItemOf | build.js:122-137 | the `{date, html}` object of one article; `Items` states that the k-th item is the k-th article's time value and its entry rendered with `ItemVars` |
| Articles.Items | build.js:111-139 | there is one item per directory holding an article, in directory order: the k-th is that article's time value and rendered list entry |
| Articles.Insert | build.js:140 | inserting into a latest-first list keeps it latest-first and adds exactly the one item |
| Articles.SortByDate | build.js:140 | the sorted list is latest-first and a permutation of the items |
| Articles.InsertWithDate | build.js:140 | inserting an item puts it ahead of every item of its own date and leaves other dates' order alone |
| Articles.SortStable | build.js:140 | the sort keeps items of equal date in their original order |
| Articles.SortedStableUnique | build.js:140 | two latest-first orderings that agree on the order within each date are equal |
| Articles.SortUnique | build.js:140 | every latest-first, stable ordering of the items is the sort's result |
| Articles.LaterFirst | build.js:140 | of two articles with different dates, the later one is listed first, whichever order they come in |
| Articles.Htmls | build.js:141 | `.map((post) => post.html)`: one string per item, in order, the k-th being the k-th item's HTML |
| Articles.Join | build.js:142 | `join("\n")`; its meaning is given by `JoinSnoc` |
| Articles.JoinSnoc | build.js:142 | the separator goes between items only: one more item appends the separator and that item |
| Articles.PostList | build.js:111-142 | `postItems`, the list's HTML; its meaning is given by `ListItems`, `SortUnique` and `LaterFirst` |
| Articles.ListItems | build.js:111-142 | the list holds exactly one item per article (one per kept directory, which by `Content.IndexedArticles` is one per directory with `index.md`), latest first, stable within a date |
| Sitemap.Loc | build.js:260-262 | an entry's `loc`; `Pages.SitemapLocIsPageUrl` shows it is the URL the article's page gives itself |
| Sitemap.UrlEntries | build.js:253-268 | the entries are one `Url(base + "/articles/" + dir, ISO date)` per article in directory order; the step throws a RangeError exactly when an article's date is invalid |
| Sitemap.Block | build.js:272-279 | one entry's `<url>` element; `SitemapGrows` shows each article adds exactly its block |
| Sitemap.Blocks | build.js:270-281 | `urls.map(...).join("")`; its meaning is given by `BlocksSnoc` |
| Sitemap.SitemapXml | build.js:270-283 | the sitemap fails exactly when a date is invalid; otherwise it is the XML header and `<urlset …>`, one `<url>` block per entry in order, and `</urlset>` |
| Sitemap.BlocksSnoc | build.js:270-283 | the blocks of the entries are joined in entry order: one more entry appends exactly its block |
| Sitemap.UrlEntriesSnoc | build.js:253-268 | appending an article directory appends exactly its `Url(base + "/articles/" + dir, ISO date)` to the entries |
| Sitemap.SitemapGrows | build.js:253-283 | appending an article directory inserts exactly its `<url>` block just before `</urlset>` |
| Sitemap.SkippedDirLeavesNoUrl | build.js:258 | adding a directory without `index.md` leaves the sitemap entries unchanged |
| Sitemap.SkippedDirLeavesNoBlock | build.js:258 | adding a directory without `index.md` leaves the whole sitemap unchanged |
| Pages.HeaderVars | build.js:72-75 | the header template's variables, `name` and `github`; `HeaderShowsName` shows what `name` becomes |
| Pages.Header | build.js:72-75 | the rendered header; its meaning is given by `HeaderShowsName` |
| Pages.HeaderShowsName | build.js:72-75 | wherever the header template has `{{name}}`, the header has the author's name there (nothing if the name is falsy), with the text on either side rendered on its own |
| Pages.FooterVars | build.js:104-107 | the footer template's variables, `year` as a number and `name`; `FooterShowsYear` shows what `year` becomes |
| Pages.Footer | build.js:104-107 | the rendered footer; its meaning is given by `FooterShowsYear` |
| Pages.FooterShowsYear | build.js:104-107 | wherever the footer template has `{{year}}`, the footer has the year's decimal digits there (nothing for year 0, which is falsy), with the text on either side rendered on its own |
| Pages.SiteDescription | build.js:81 | the description of the landing and list pages is never empty and holds the author's name right after `All the latest ` |
| Pages.OgImage | build.js:83 | the social-preview image of every page; `Build.OgImageSurvivesClean` shows it names a file the clean keeps |
| Pages.IndexPageVars | build.js:79-86 | the base template's variables for the landing page; `IndexPageShowsMain` shows `content` carries `main.html` into the page |
| Pages.IndexPage | build.js:67-86 | the landing page renders exactly when the main template has no placeholder; otherwise the step throws a TypeError |
| Pages.IndexPageShowsMain | build.js:67-86 | wherever the base template has `{{content}}`, the landing page has the text of `main.html` there, verbatim, with the text on either side rendered on its own |
| Pages.ListVars | build.js:144-147 | the list template's variables; `ArticlesPageShowsList` shows `posts` carries the article list into the page |
| Pages.ArticlesPageVars | build.js:149-157 | the base template's variables for the list page; `ArticlesPageShowsList` shows `content` carries the rendered list into the page |
| Pages.ArticlesPage | build.js:144-157 | the list page; its meaning is given by `ArticlesPageShowsList` |
| Pages.ArticlesPageShowsList | build.js:144-157 | wherever the base template has `{{content}}` and the list template has `{{posts}}`, the list page has the article list there, inside the rendered list template, with the text on either side rendered on its own |
| Pages.DetailVars | build.js:211-231 | the `post-detail` template's variables; `DetailPageShowsArticle` shows `content` carries the article's HTML into the page |
| Pages.DetailPage | build.js:233-246 | an article's page; its meaning is given by `DetailPageVars` and `DetailPageShowsArticle` |
| Pages.DetailPageShowsArticle | build.js:211-246 | wherever the base and `post-detail` templates have `{{content}}`, an article's page has the article's HTML there, inside the rendered `post-detail` template, with the text on either side rendered on its own |
| Pages.DetailPageVars | build.js:233-244 | an article page's `url` is `base + "/articles/" + dir`, and its description is exactly `Description` of the article: the first 120 stripped characters |
| Pages.SitemapLocIsPageUrl | build.js:239 | the sitemap lists an article under the very URL its page gives itself (`base + "/articles/" + dir`) |
| Pages.MissingTitleShowsUndefined | build.js:234 | the page title is a template literal, so an article without a title is titled `undefined - <author>` |
| Output.Kept | build.js:55-57 | the entries kept by the clean are exactly those whose names are allow-listed |
| Output.PublicDir.Create | build.js:286-288 | `public/` exists afterwards; an existing one is left as it was, a new one is empty |
| Output.PublicDir.Clean | build.js:47-65 | a missing directory is left alone; otherwise exactly the allow-listed entries remain, unchanged |
| Output.PublicDir.WriteFile | build.js:88 | the named top-level file gets the content and nothing else changes |
| Output.PublicDir.MakeDir | build.js:161-163 | the directory exists afterwards, with its old entries if it was there |
| Output.PublicDir.MakeSubDir | build.js:195-197 | `dir/sub` exists afterwards, keeping whatever both held before |
| Output.PublicDir.WriteInDir | build.js:165 | the file in the directory gets the content and nothing else changes |
| Output.PublicDir.WriteInSubDir | build.js:203 | the file in `dir/sub` gets the content and nothing else changes |
| Build.PostsTree | build.js:168-248 | the tree after the article pages; its meaning is given by `PostsTreeTop`, `PostsTreeOther` and `PostsTreeArticle` |
| Build.PostsTreeTop | build.js:187-247 | the article pages leave every top-level entry other than `articles` unchanged |
| Build.PostsTreeOther | build.js:187-247 | entries of `articles` that no article is named after are unchanged |
| Build.PostsTreeArticle | build.js:187-247 | each article's directory ends up holding what was there, its copied files and its page |
| Build.PostsTreeLast | build.js:187-247 | the directory handled last ends up holding what was there, its copied files and its page |
| Build.Copies | build.js:199-205 | the files the copy loop brings over, all but `index.md`; its meaning is given by `PostOutputFiles`, `CopiedStep` and `CopyPostFiles` |
| Build.PostOutput | build.js:194-205 | an article's output directory: what was there, then the copies, then `index.html`; `PostOutputFiles` and `PostsTreeArticle` say what it holds |
| Build.PostOutputFiles | build.js:194-246 | a new article directory holds exactly the content directory's files except `index.md`, unchanged, plus `index.html` with the page |
| Build.CopiedStep | build.js:199-205 | copying one more file adds exactly that file, and `index.md` is never copied |
| Build.CopyPostFiles | build.js:199-205 | after the copy loop, the article directory holds what it held plus every file except `index.md` |
| Build.GeneratePostPage | build.js:187-247 | a directory without `index.md` changes nothing; otherwise its output directory is made, the files are copied and its page is written |
| Build.GeneratePostPages | build.js:168-248 | after the loop, the tree is every article directory written in turn, in directory order |
| Build.GenerateIndexPage | build.js:67-89 | on a TypeError nothing is written; otherwise `index.html` holds the landing page |
| Build.GenerateArticlesPage | build.js:159-165 | `articles/index.html` holds the list page, and the rest of `articles` is kept |
| Build.GenerateSitemap | build.js:250-284 | on a RangeError nothing is written; otherwise `sitemap.xml` holds the sitemap |
| Build.Build | build.js:286-301 | the run fails with a TypeError exactly when the landing page does; the tree it leaves is `FinalTree` of what `public/` held |
| Build.FinalTree | build.js:286-301 | the tree a run leaves: on a TypeError the cleaned tree, since the landing page is the first thing written (`FailedRunOnlyCleans`); otherwise the finished tree, which `FinalTreeContents` spells out |
| Build.OgImageSurvivesClean | build.js:83 | every page's social-preview image URL is the site's base followed by an entry of `public/` that the clean keeps |
| Build.FailedRunOnlyCleans | build.js:286-299 | a run whose landing page throws leaves exactly the allow-listed entries `public/` had, unchanged |
| Build.ListedTop | build.js:286-301 | the finished tree's top level is the kept entries plus `index.html`, `articles` and `sitemap.xml`, with their pages |
| Build.ListedArticles | build.js:286-301 | `articles` holds the list page and one directory per article, and nothing else |
| Build.KeptContents | build.js:286-301 | the same for a cleaned tree: allow-listed entries survive unchanged and the article directories hold their files and pages |
| Build.FinalTreeContents | build.js:286-301 | after a successful run, `public/` holds exactly the allow-listed entries it had, unchanged, the landing page, the sitemap, and `articles` with the list page and one directory per content directory holding `index.md` (that directory's files except `index.md`, plus its page) |

## Left out

- The libraries are not modelled: YAML loading, front-matter parsing,
  markdown rendering and code highlighting. Their results are inputs: the
  `Config`, each `Post`, and the HTML of each article and each link.
- The date functions are inputs: `new Date(...)`'s time value,
  `toLocaleDateString` and `toISOString`. The current year is a parameter.
- Reading files is not modelled: template loading, the listing of
  `content/` and each article's own listing. The listings are sequences
  and maps in the model.
- Articles.Items requires valid dates, and so do `Articles.PostList`
  and `Build.Build`. With an invalid date the comparator returns NaN, and
  the order the sort then produces is unspecified.
- Build.Build requires the content directory names to be distinct, as
  `readdirSync` lists them. It also requires that no article directory is
  named `index.html`, which would collide with the list page.
- Output.PublicDir: calls the file system would refuse are excluded by the
  methods' preconditions rather than modelled as errors. Examples are
  writing a file where a directory stands, or making a directory where a
  file stands. Such a call throws and ends the run.
- Every entry of an article directory is taken to be a file. A
  subdirectory there makes `copyFileSync` throw.
- Every entry of `content/` is taken to be a directory. A plain file there
  makes `generatePostPage`'s `readdirSync` throw.
- Output.PublicDir.Clean removes the entries in an unspecified order (a
  set), not in `readdirSync` order. The result does not depend on the
  order.
- Build.CopyPostFiles copies in an unspecified order. The copies are of
  distinct names, so the result does not depend on the order.
- Template.Lookup does not model the object prototype: a key such as
  `{{constructor}}` would read an inherited property in JavaScript, which
  the model treats as missing.
- `slice` counts UTF-16 code units; the model counts characters.
- Values.Decimal models `String(n)` only for the non-negative integers
  the footer's year needs.
