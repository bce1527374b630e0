/** The article list (build.js:109-142): every content directory with an
    `index.md` becomes a list item `{date, html}`, directories without one
    become `""` and are dropped by `filter(Boolean)`, the items are sorted by
    `(a, b) => b.date - a.date`, and their HTML is joined with newlines.

    `Array.prototype.sort` is stable, so with a consistent comparator its
    result is the one ordering that is non-increasing in date and keeps
    items of equal date in directory order. The model sorts by insertion;
    `SortUnique` shows that it produces exactly that ordering. With an
    invalid date the comparator returns NaN and the order is not specified,
    so the list requires valid dates. */
module Articles {
  import opened Values
  import opened Content
  import Template
  import Preview

  /** A list item: the post's time value and its rendered HTML. */
  type Item = (int, string)

  /** The variables of the `articles/post-item` template (build.js:124-136). */
  function ItemVars(d: PostDir): (vars: map<string, Value>)
    requires d.post.Some?
    ensures "slug" in vars && vars["slug"] == Str("/articles/" + d.name)
    ensures "title" in vars && vars["title"] == d.post.value.title
    ensures "localeDate" in vars && vars["localeDate"] == Str(d.post.value.localeDate)
    ensures "preview" in vars && vars["preview"] == Str(Preview.ListPreview(d.post.value.html))
    ensures |vars["preview"].shown| <= 300
    ensures vars["preview"].shown <= Preview.StripTags(d.post.value.html)
  {
    var p := d.post.value;
    map[
      "localeDate" := Str(p.localeDate),
      "title" := p.title,
      "preview" := Str(Preview.ListPreview(p.html)),
      "slug" := Str("/articles/" + d.name)]
  }

  function ItemOf(itemTemplate: string, d: PostDir): Item
    requires d.post.Some? && d.post.value.time.Valid?
  {
    (d.post.value.time.ms, Template.Render(itemTemplate, ItemVars(d)))
  }

  /** The `map(...).filter(Boolean)` stage: one item per directory holding
      an article, in directory order; the others contribute nothing. */
  function Items(itemTemplate: string, dirs: seq<PostDir>): (r: seq<Item>)
    requires DatesValid(dirs)
    ensures |r| == |Indexed(dirs)|
    ensures forall k :: 0 <= k < |r| ==>
      Indexed(dirs)[k].post.value.time.Valid? && r[k] == ItemOf(itemTemplate, Indexed(dirs)[k])
  {
    if dirs == [] then []
    else
      DatesValidTail(dirs);
      var rest := Items(itemTemplate, dirs[1..]);
      if dirs[0].post.Some? then [ItemOf(itemTemplate, dirs[0])] + rest else rest
  }

  /** Ordered by date, latest first. */
  predicate SortedDesc(s: seq<Item>) {
    forall i, j :: 0 <= i < j < |s| ==> s[i].0 >= s[j].0
  }

  /** The items of `s` with date `d`, in their order in `s`. */
  function WithDate(s: seq<Item>, d: int): seq<Item> {
    if s == [] then []
    else if s[0].0 == d then [s[0]] + WithDate(s[1..], d)
    else WithDate(s[1..], d)
  }

  /** Places `x` before the first item that is not later than it. */
  function Insert(x: Item, s: seq<Item>): (r: seq<Item>)
    requires SortedDesc(s)
    ensures SortedDesc(r)
    ensures multiset(r) == multiset(s) + multiset{x}
    ensures r != [] && (r[0] == x || (s != [] && r[0] == s[0]))
  {
    if s == [] || x.0 >= s[0].0 then [x] + s
    else
      var rest := Insert(x, s[1..]);
      assert s == [s[0]] + s[1..];
      assert s[0].0 >= rest[0].0;
      [s[0]] + rest
  }

  /** `sort((a, b) => b.date - a.date)`. */
  function SortByDate(s: seq<Item>): (r: seq<Item>)
    ensures SortedDesc(r)
    ensures multiset(r) == multiset(s)
  {
    if s == [] then []
    else
      assert s == [s[0]] + s[1..];
      Insert(s[0], SortByDate(s[1..]))
  }

  lemma {:induction false} InsertWithDate(x: Item, s: seq<Item>, d: int)
    requires SortedDesc(s)
    ensures WithDate(Insert(x, s), d) == if x.0 == d then [x] + WithDate(s, d) else WithDate(s, d)
  {
    if s != [] && x.0 < s[0].0 {
      InsertWithDate(x, s[1..], d);
      assert ([s[0]] + Insert(x, s[1..]))[1..] == Insert(x, s[1..]);
    } else {
      assert ([x] + s)[1..] == s;
    }
  }

  /** The sort is stable: items with the same date keep their relative
      order. */
  lemma {:induction false} SortStable(s: seq<Item>, d: int)
    ensures WithDate(SortByDate(s), d) == WithDate(s, d)
  {
    if s != [] {
      SortStable(s[1..], d);
      InsertWithDate(s[0], SortByDate(s[1..]), d);
    }
  }

  lemma {:induction false} WithDateMember(s: seq<Item>, d: int, y: Item)
    requires y in WithDate(s, d)
    ensures y in s && y.0 == d
  {
    if s[0].0 == d && y == s[0] {
    } else {
      WithDateMember(s[1..], d, y);
    }
  }

  lemma {:induction false} SortedFirstIsLatest(s: seq<Item>, y: Item)
    requires SortedDesc(s) && y in s
    ensures s[0].0 >= y.0
  {
    var k :| 0 <= k < |s| && s[k] == y;
    if k > 0 {
      assert s[0].0 >= s[k].0;
    }
  }

  lemma WithDateTail(s: seq<Item>, d: int)
    requires s != []
    ensures WithDate(s, d) == if s[0].0 == d then [s[0]] + WithDate(s[1..], d) else WithDate(s[1..], d)
  {
  }

  lemma WithDateOfFirst(s: seq<Item>)
    requires s != []
    ensures WithDate(s, s[0].0) != []
  {
  }

  /** Two orderings that are both latest-first and agree on the order of
      each date's items are the same ordering. */
  lemma {:induction false} SortedStableUnique(t: seq<Item>, u: seq<Item>)
    requires SortedDesc(t) && SortedDesc(u)
    requires forall d :: WithDate(t, d) == WithDate(u, d)
    ensures t == u
  {
    if t != [] { WithDateOfFirst(t); }
    if u != [] { WithDateOfFirst(u); }
    if t != [] && u != [] {
      var a, b := t[0], u[0];
      assert WithDate(t, a.0) == [a] + WithDate(t[1..], a.0);
      assert a in WithDate(u, a.0);
      WithDateMember(u, a.0, a);
      SortedFirstIsLatest(u, a);
      assert WithDate(u, b.0) == [b] + WithDate(u[1..], b.0);
      assert b in WithDate(t, b.0);
      WithDateMember(t, b.0, b);
      SortedFirstIsLatest(t, b);
      assert a.0 == b.0;
      assert WithDate(t, a.0) == WithDate(u, a.0);
      assert a == WithDate(t, a.0)[0] == WithDate(u, a.0)[0] == b;
      forall d ensures WithDate(t[1..], d) == WithDate(u[1..], d) {
        WithDateTail(t, d);
        WithDateTail(u, d);
        assert WithDate(t, d) == WithDate(u, d);
        if d == a.0 {
          assert WithDate(t, d)[1..] == WithDate(t[1..], d);
          assert WithDate(u, d)[1..] == WithDate(u[1..], d);
        }
      }
      assert SortedDesc(t[1..]) && SortedDesc(u[1..]) by {
        forall i, j | 0 <= i < j < |t[1..]| ensures t[1..][i].0 >= t[1..][j].0 {
          assert t[1..][i] == t[i + 1] && t[1..][j] == t[j + 1];
        }
        forall i, j | 0 <= i < j < |u[1..]| ensures u[1..][i].0 >= u[1..][j].0 {
          assert u[1..][i] == u[i + 1] && u[1..][j] == u[j + 1];
        }
      }
      SortedStableUnique(t[1..], u[1..]);
      assert t == [a] + t[1..] && u == [b] + u[1..];
    }
  }

  /** The sorted list is the one a stable sort with the comparator
      `b.date - a.date` yields: any latest-first ordering of the items that
      keeps equal dates in their original order equals it. */
  lemma SortUnique(s: seq<Item>, t: seq<Item>)
    requires SortedDesc(t)
    requires forall d :: WithDate(t, d) == WithDate(s, d)
    ensures t == SortByDate(s)
  {
    forall d ensures WithDate(t, d) == WithDate(SortByDate(s), d) {
      SortStable(s, d);
    }
    SortedStableUnique(t, SortByDate(s));
  }

  /** Two posts of different dates: the later one comes first. */
  lemma LaterFirst(older: Item, newer: Item)
    requires older.0 < newer.0
    ensures SortByDate([older, newer]) == [newer, older]
    ensures SortByDate([newer, older]) == [newer, older]
  {
    assert [older, newer][1..] == [newer];
    assert [newer, older][1..] == [older];
  }

  function Htmls(items: seq<Item>): (r: seq<string>)
    ensures |r| == |items| && forall k :: 0 <= k < |r| ==> r[k] == items[k].1
  {
    if items == [] then [] else [items[0].1] + Htmls(items[1..])
  }

  /** `array.join(sep)`. */
  function Join(xs: seq<string>, sep: string): string {
    if xs == [] then ""
    else if |xs| == 1 then xs[0]
    else xs[0] + sep + Join(xs[1..], sep)
  }

  /** The separator goes between items only: one more item appends the
      separator and that item. */
  lemma {:induction false} JoinSnoc(xs: seq<string>, x: string, sep: string)
    requires xs != []
    ensures Join(xs + [x], sep) == Join(xs, sep) + sep + x
  {
    if |xs| > 1 {
      assert (xs + [x])[1..] == xs[1..] + [x];
      JoinSnoc(xs[1..], x, sep);
    }
  }

  /** `postItems` (build.js:111-142): the article list's HTML. */
  function PostList(itemTemplate: string, dirs: seq<PostDir>): string
    requires DatesValid(dirs)
  {
    Join(Htmls(SortByDate(Items(itemTemplate, dirs))), "\n")
  }

  /** The items of the list are exactly one per article, in the order of
      a stable latest-first sort of the directories' items: directories
      without `index.md` contribute nothing, every article contributes its
      item once. */
  lemma ListItems(itemTemplate: string, dirs: seq<PostDir>)
    requires DatesValid(dirs)
    ensures var r := SortByDate(Items(itemTemplate, dirs));
      && |r| == |Indexed(dirs)|
      && SortedDesc(r)
      && (forall d :: WithDate(r, d) == WithDate(Items(itemTemplate, dirs), d))
      && (forall x :: x in r <==> exists k :: 0 <= k < |Indexed(dirs)| && x == ItemOf(itemTemplate, Indexed(dirs)[k]))
  {
    var items := Items(itemTemplate, dirs);
    var r := SortByDate(items);
    forall d ensures WithDate(r, d) == WithDate(items, d) {
      SortStable(items, d);
    }
    assert |r| == |multiset(r)| == |multiset(items)| == |items|;
    forall x ensures x in r <==> x in items {
      assert x in r <==> x in multiset(r);
      assert x in items <==> x in multiset(items);
    }
  }
}
