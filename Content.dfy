/** What the build reads: the configuration (`config.yaml`, build.js:15),
    the templates (build.js:39-41), and the content directories
    (`content/<dir>/`, build.js:109-118, 185-192, 251-258). Parsing YAML,
    front matter and markdown is done by libraries and is not modelled:
    their results are the fields below. */
module Content {
  import opened Values

  /** The comment widget settings, passed through to the article page. */
  datatype Giscus = Giscus(
    repo: Value, repoId: Value, category: Value, categoryId: Value,
    mapping: Value, reactionsEnabled: Value, inputPosition: Value,
    theme: Value, lang: Value)

  datatype Config = Config(base: Value, authorName: Value, authorGithub: Value, giscus: Giscus)

  /** The template files, read from `templates/<name>.html`. */
  datatype Templates = Templates(
    base: string, header: string, footer: string, main: string,
    postList: string, postItem: string, postDetail: string)

  /** Everything the page generators share: the configuration, the
      templates, and the current year from the clock (`new Date().getFullYear()`). */
  datatype Site = Site(config: Config, templates: Templates, year: nat)

  /** The time value of `new Date(metadata.date)`, in milliseconds since
      the epoch, or an invalid date (whose time value is NaN). */
  datatype Time = Valid(ms: int) | Invalid

  /** An article parsed from its `index.md`: the front-matter fields the
      script reads, the date functions' results for that date, and the HTML
      `marked.parse` makes of the body. */
  datatype Post = Post(
    title: Value,        // metadata.title
    date: Value,         // metadata.date, as parsed
    time: Time,          // new Date(metadata.date)
    localeDate: string,  // its toLocaleDateString("en-US", { long month })
    isoDate: string,     // its toISOString() (used only when time is valid)
    html: string)        // marked.parse(content)

  /** One entry of `content/`: its name, the files in it (name to contents)
      and, when one of them is `index.md`, the article it holds. */
  datatype PostDir = PostDir(name: string, files: map<string, string>, post: Option<Post>)

  /** The article is there exactly when `index.md` is. */
  predicate WellFormed(d: PostDir) {
    d.post.Some? <==> "index.md" in d.files
  }

  /** Every directory's article is there exactly when its `index.md` is. */
  predicate AllWellFormed(dirs: seq<PostDir>) {
    forall k :: 0 <= k < |dirs| ==> WellFormed(dirs[k])
  }

  /** Directory names as `readdirSync` lists them: no name twice. */
  predicate DistinctNames(dirs: seq<PostDir>) {
    forall i, j :: 0 <= i < j < |dirs| ==> dirs[i].name != dirs[j].name
  }

  /** The directories that hold an article, in directory order: those the
      generators do not skip. */
  function Indexed(dirs: seq<PostDir>): (r: seq<PostDir>)
    ensures forall k :: 0 <= k < |r| ==> r[k].post.Some? && r[k] in dirs
    ensures forall d :: d in dirs && d.post.Some? ==> d in r
    ensures |r| <= |dirs|
  {
    if dirs == [] then []
    else if dirs[0].post.Some? then [dirs[0]] + Indexed(dirs[1..])
    else Indexed(dirs[1..])
  }

  /** Filtering keeps directory order: one more directory at the end adds
      it at the end when it holds an article, and nothing otherwise. */
  lemma {:induction false} IndexedSnoc(dirs: seq<PostDir>, d: PostDir)
    ensures Indexed(dirs + [d]) == Indexed(dirs) + (if d.post.Some? then [d] else [])
  {
    if dirs == [] {
      assert [] + [d] == [d];
      assert [d][1..] == [];
    } else {
      assert (dirs + [d])[1..] == dirs[1..] + [d];
      IndexedSnoc(dirs[1..], d);
    }
  }

  /** The directories kept are exactly those with an `index.md`
      (build.js:114, 192, 258). */
  lemma IndexedArticles(dirs: seq<PostDir>)
    requires AllWellFormed(dirs)
    ensures forall k :: 0 <= k < |Indexed(dirs)| ==> "index.md" in Indexed(dirs)[k].files
    ensures forall d :: d in dirs && "index.md" in d.files ==> d in Indexed(dirs)
  {
    forall k | 0 <= k < |Indexed(dirs)| ensures "index.md" in Indexed(dirs)[k].files {
      var j :| 0 <= j < |dirs| && dirs[j] == Indexed(dirs)[k];
      assert WellFormed(dirs[j]);
    }
    forall d | d in dirs && "index.md" in d.files ensures d in Indexed(dirs) {
      var j :| 0 <= j < |dirs| && dirs[j] == d;
      assert WellFormed(dirs[j]);
    }
  }

  /** Every article's date is a valid one. */
  predicate DatesValid(dirs: seq<PostDir>) {
    forall k :: 0 <= k < |dirs| && dirs[k].post.Some? ==> dirs[k].post.value.time.Valid?
  }

  lemma DatesValidTail(dirs: seq<PostDir>)
    requires dirs != [] && DatesValid(dirs)
    ensures DatesValid(dirs[1..])
  {
    forall k | 0 <= k < |dirs[1..]| && dirs[1..][k].post.Some?
      ensures dirs[1..][k].post.value.time.Valid?
    {
      assert dirs[1..][k] == dirs[k + 1];
    }
  }
}
