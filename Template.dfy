/** The template engine: `renderTemplate` (build.js:43-45), a global
    `replace` of the regular expression `{{(\w+)}}` whose callback returns
    `variables[key] || ""`.

    The scan is modelled on suffixes of the template: at each position either
    the pattern matches there (and the match is replaced, scanning resumes
    after it) or the character is copied and scanning resumes one further on.
    Since `}` is not a word character, the greedy `\w+` never needs to give
    characters back, so a match at a position is determined by the longest
    run of word characters after the opening braces. */
module Template {
  import opened Values

  /** `\w`: ASCII letters, digits and underscore. */
  predicate IsWordChar(c: char) {
    'A' <= c <= 'Z' || 'a' <= c <= 'z' || '0' <= c <= '9' || c == '_'
  }

  /** A key the pattern can capture: one or more word characters. */
  predicate IsKey(k: string) {
    |k| > 0 && forall i :: 0 <= i < |k| ==> IsWordChar(k[i])
  }

  /** The text a placeholder for key `k` is written as. */
  function Placeholder(k: string): string {
    "{{" + k + "}}"
  }

  /** Length of the run of word characters that starts `s`. */
  function WordRun(s: string): (n: nat)
    ensures n <= |s|
    ensures forall i :: 0 <= i < n ==> IsWordChar(s[i])
    ensures n < |s| ==> !IsWordChar(s[n])
  {
    if s != [] && IsWordChar(s[0]) then 1 + WordRun(s[1..]) else 0
  }

  /** Whether `{{(\w+)}}` matches at the start of `s`, and if so the length
      of the captured key. */
  function MatchAt(s: string): (m: Option<nat>)
    ensures m.Some? ==> 4 + m.value <= |s|
    ensures m.Some? ==> s[..4 + m.value] == Placeholder(s[2..2 + m.value])
    ensures m.Some? ==> IsKey(s[2..2 + m.value])
  {
    if |s| >= 2 && s[0] == '{' && s[1] == '{' then
      var n := WordRun(s[2..]);
      if n > 0 && 4 + n <= |s| && s[2 + n] == '}' && s[3 + n] == '}' then Some(n) else None
    else None
  }

  /** `variables[key] || ""`. */
  function Lookup(vars: map<string, Value>, key: string): string {
    if key in vars && vars[key].truthy then vars[key].shown else ""
  }

  /** `renderTemplate(template, variables)`. */
  function Render(t: string, vars: map<string, Value>): string
    decreases |t|
  {
    if t == [] then []
    else match MatchAt(t)
      case Some(n) => Lookup(vars, t[2..2 + n]) + Render(t[4 + n..], vars)
      case None => [t[0]] + Render(t[1..], vars)
  }

  /** Whether the pattern matches anywhere in `t`. */
  predicate HasPlaceholder(t: string)
    decreases |t|
  {
    t != [] && (MatchAt(t).Some? || HasPlaceholder(t[1..]))
  }

  // ---------------------------------------------------------------------
  // Reference semantics: a template is a sequence of segments, literal
  // characters and placeholders, and rendering fills each placeholder.

  datatype Segment = Lit(c: char) | Hole(key: string)

  function Spell(g: Segment): string {
    match g
    case Lit(c) => [c]
    case Hole(k) => Placeholder(k)
  }

  /** The template text a segment sequence spells. */
  function Source(segs: seq<Segment>): string {
    if segs == [] then [] else Spell(segs[0]) + Source(segs[1..])
  }

  /** The text obtained by keeping every literal and replacing every hole
      by its variable's value (or nothing). */
  function Fill(segs: seq<Segment>, vars: map<string, Value>): string {
    if segs == [] then []
    else
      (match segs[0] case Lit(c) => [c] case Hole(k) => Lookup(vars, k))
      + Fill(segs[1..], vars)
  }

  /** The decomposition the regular expression's left-to-right, leftmost,
      non-overlapping scan produces: every hole is a match of the pattern,
      and no literal stands where the pattern would match. */
  predicate Leftmost(segs: seq<Segment>) {
    segs == [] ||
    ((segs[0].Hole? ==> IsKey(segs[0].key)) &&
     (segs[0].Lit? ==> MatchAt(Source(segs)).None?) &&
     Leftmost(segs[1..]))
  }

  /** The pattern matches a placeholder written for any key, capturing
      exactly that key, whatever follows it. With the ensures of MatchAt
      this makes MatchAt an exact description of `{{(\w+)}}`. */
  lemma {:induction false} MatchAtPlaceholder(k: string, rest: string)
    requires IsKey(k)
    ensures MatchAt(Placeholder(k) + rest) == Some(|k|)
  {
    var s := Placeholder(k) + rest;
    WordRunStopsAtBrace(k, "}}" + rest);
    assert s[2..] == k + ("}}" + rest);
  }

  lemma {:induction false} WordRunStopsAtBrace(k: string, rest: string)
    requires forall i :: 0 <= i < |k| ==> IsWordChar(k[i])
    requires rest != [] && rest[0] == '}'
    ensures WordRun(k + rest) == |k|
  {
    if k != [] {
      assert (k + rest)[1..] == k[1..] + rest;
      WordRunStopsAtBrace(k[1..], rest);
    } else {
      assert k + rest == rest;
    }
  }

  /** Splitting a template into segments the way the scan does. */
  function Tokenize(t: string): (segs: seq<Segment>)
    ensures Source(segs) == t
    ensures Leftmost(segs)
    decreases |t|
  {
    if t == [] then []
    else match MatchAt(t)
      case Some(n) =>
        var rest := Tokenize(t[4 + n..]);
        assert ([Hole(t[2..2 + n])] + rest)[1..] == rest;
        assert t == t[..4 + n] + t[4 + n..];
        [Hole(t[2..2 + n])] + rest
      case None =>
        var rest := Tokenize(t[1..]);
        assert ([Lit(t[0])] + rest)[1..] == rest;
        assert t == [t[0]] + t[1..];
        [Lit(t[0])] + rest
  }

  /** What the first segment of a leftmost reading says about the
      template's text: the match at its start and the text after it. */
  lemma HeadReading(a: seq<Segment>)
    requires a != [] && Leftmost(a)
    ensures var s := Source(a);
      && MatchAt(s) == (if a[0].Hole? then Some(|a[0].key|) else None)
      && (a[0].Hole? ==> 4 + |a[0].key| <= |s| && a[0].key == s[2..2 + |a[0].key|] && Source(a[1..]) == s[4 + |a[0].key|..])
      && (a[0].Lit? ==> a[0].c == s[0] && Source(a[1..]) == s[1..])
  {
    var s := Source(a);
    assert s == Spell(a[0]) + Source(a[1..]);
    if a[0].Hole? {
      var k := a[0].key;
      MatchAtPlaceholder(k, Source(a[1..]));
      assert s[..4 + |k|] == Placeholder(k);
      assert s[2..2 + |k|] == Placeholder(k)[2..2 + |k|] == k;
      assert s[4 + |k|..] == Source(a[1..]);
    } else {
      assert s[1..] == Source(a[1..]);
    }
  }

  /** Two leftmost readings of one template start with the same segment. */
  lemma LeftmostHead(a: seq<Segment>, b: seq<Segment>)
    requires a != [] && b != [] && Leftmost(a) && Leftmost(b)
    requires Source(a) == Source(b)
    ensures a[0] == b[0] && Source(a[1..]) == Source(b[1..])
  {
    HeadReading(a);
    HeadReading(b);
  }

  /** The leftmost decomposition of a template is unique: there is only one
      way to read a template as the scan reads it. */
  lemma {:induction false} LeftmostUnique(a: seq<Segment>, b: seq<Segment>)
    requires Leftmost(a) && Leftmost(b)
    requires Source(a) == Source(b)
    ensures a == b
  {
    if a != [] && b != [] {
      LeftmostHead(a, b);
      LeftmostUnique(a[1..], b[1..]);
      assert a == [a[0]] + a[1..] && b == [b[0]] + b[1..];
    }
  }

  /** Rendering replaces each hole of the leftmost decomposition by its
      value and keeps every other character: `Render` is `Fill` of the
      template's one leftmost reading. */
  lemma {:induction false} RenderIsFill(t: string, segs: seq<Segment>, vars: map<string, Value>)
    requires Leftmost(segs) && Source(segs) == t
    ensures Render(t, vars) == Fill(segs, vars)
    decreases |t|
  {
    if segs != [] {
      assert t == Spell(segs[0]) + Source(segs[1..]);
      match segs[0]
      case Hole(k) =>
        MatchAtPlaceholder(k, Source(segs[1..]));
        assert t[2..2 + |k|] == k;
        assert t[4 + |k|..] == Source(segs[1..]);
        RenderIsFill(t[4 + |k|..], segs[1..], vars);
      case Lit(c) =>
        assert t[1..] == Source(segs[1..]);
        RenderIsFill(t[1..], segs[1..], vars);
    }
  }

  /** A placeholder is replaced by its value, verbatim: the inserted text
      is not scanned again, and scanning resumes right after the match. */
  lemma RenderPlaceholder(k: string, rest: string, vars: map<string, Value>)
    requires IsKey(k)
    ensures Render(Placeholder(k) + rest, vars) == Lookup(vars, k) + Render(rest, vars)
  {
    var t := Placeholder(k) + rest;
    MatchAtPlaceholder(k, rest);
    assert t[2..2 + |k|] == k;
    assert t[4 + |k|..] == rest;
  }

  /** Text that starts with a non-word character does not lengthen the run
      of word characters before it. */
  lemma {:induction false} WordRunAppend(a: string, x: string)
    requires x != [] && !IsWordChar(x[0])
    ensures WordRun(a + x) == WordRun(a)
    decreases |a|
  {
    if a == [] {
      assert a + x == x;
    } else if IsWordChar(a[0]) {
      assert (a + x)[1..] == a[1..] + x;
      WordRunAppend(a[1..], x);
    }
  }

  /** A match cannot reach from a non-empty text into a placeholder that
      follows it: the pattern matches at the start of the whole exactly as
      it matches at the start of the text. */
  lemma MatchAtExtend(p: string, k: string, rest: string)
    requires p != [] && IsKey(k)
    ensures MatchAt(p + Placeholder(k) + rest) == MatchAt(p)
  {
    var t := Placeholder(k) + rest;
    var s := p + Placeholder(k) + rest;
    assert s == p + t;
    assert t[0] == '{' && t[1] == '{';
    if |p| >= 2 && p[0] == '{' && p[1] == '{' {
      assert s[2..] == p[2..] + t;
      WordRunAppend(p[2..], t);
    } else if |p| == 1 && p[0] == '{' {
      assert s[2..] == t[1..];
    }
  }

  /** A placeholder anywhere in a template: the text before it renders on
      its own, the placeholder becomes its value, and the text after it
      renders on its own. No match reaches across its boundaries. */
  lemma {:induction false} RenderAround(p: string, k: string, rest: string, vars: map<string, Value>)
    requires IsKey(k)
    ensures Render(p + Placeholder(k) + rest, vars) == Render(p, vars) + Lookup(vars, k) + Render(rest, vars)
    decreases |p|, 1
  {
    if p == [] {
      assert p + Placeholder(k) + rest == Placeholder(k) + rest;
      RenderPlaceholder(k, rest, vars);
    } else {
      MatchAtExtend(p, k, rest);
      match MatchAt(p)
      case Some(n) => RenderAroundMatch(p, k, rest, vars, n);
      case None => RenderAroundLit(p, k, rest, vars);
    }
  }

  /** `RenderAround` for a key holding a string: the placeholder becomes
      that string. */
  lemma RenderAroundValue(p: string, k: string, rest: string, vars: map<string, Value>, v: string)
    requires IsKey(k) && k in vars && vars[k] == Str(v)
    ensures Render(p + Placeholder(k) + rest, vars) == Render(p, vars) + v + Render(rest, vars)
  {
    RenderAround(p, k, rest, vars);
  }

  /** `RenderAround` where a match starts the text before the placeholder. */
  lemma {:induction false} RenderAroundMatch(p: string, k: string, rest: string, vars: map<string, Value>, n: nat)
    requires IsKey(k) && p != []
    requires MatchAt(p) == Some(n) && MatchAt(p + Placeholder(k) + rest) == Some(n)
    ensures Render(p + Placeholder(k) + rest, vars) == Render(p, vars) + Lookup(vars, k) + Render(rest, vars)
    decreases |p|, 0
  {
    var s := p + Placeholder(k) + rest;
    var tail := p[4 + n..] + Placeholder(k) + rest;
    var head := Lookup(vars, p[2..2 + n]);
    assert s[2..2 + n] == p[2..2 + n];
    assert s[4 + n..] == tail;
    assert Render(s, vars) == head + Render(tail, vars);
    assert Render(p, vars) == head + Render(p[4 + n..], vars);
    RenderAround(p[4 + n..], k, rest, vars);
    Regroup(head, Render(p[4 + n..], vars), Lookup(vars, k), Render(rest, vars));
  }

  /** `RenderAround` where the text before the placeholder starts with a
      literal character. */
  lemma {:induction false} RenderAroundLit(p: string, k: string, rest: string, vars: map<string, Value>)
    requires IsKey(k) && p != []
    requires MatchAt(p).None? && MatchAt(p + Placeholder(k) + rest).None?
    ensures Render(p + Placeholder(k) + rest, vars) == Render(p, vars) + Lookup(vars, k) + Render(rest, vars)
    decreases |p|, 0
  {
    var s := p + Placeholder(k) + rest;
    var tail := p[1..] + Placeholder(k) + rest;
    assert s[0] == p[0];
    assert s[1..] == tail;
    assert Render(s, vars) == [p[0]] + Render(tail, vars);
    assert Render(p, vars) == [p[0]] + Render(p[1..], vars);
    RenderAround(p[1..], k, rest, vars);
    Regroup([p[0]], Render(p[1..], vars), Lookup(vars, k), Render(rest, vars));
  }

  lemma Regroup(a: string, b: string, c: string, d: string)
    ensures a + (b + c + d) == a + b + c + d
  {
  }

  /** A key with no value, or a falsy one, renders as nothing: the
      placeholder never survives into the output. */
  lemma MissingKeyRendersEmpty(k: string, vars: map<string, Value>)
    requires IsKey(k)
    requires k !in vars || !vars[k].truthy
    ensures Render(Placeholder(k), vars) == ""
  {
    RenderPlaceholder(k, "", vars);
    assert Placeholder(k) + "" == Placeholder(k);
  }

  /** A template in which the pattern matches nowhere renders as itself,
      whatever the variables. */
  lemma {:induction false} RenderWithoutPlaceholder(t: string, vars: map<string, Value>)
    requires !HasPlaceholder(t)
    ensures Render(t, vars) == t
    decreases |t|
  {
    if t != [] {
      RenderWithoutPlaceholder(t[1..], vars);
    }
  }

  /** Rendering is idempotent on templates without placeholders. */
  lemma RenderIdempotent(t: string, vars: map<string, Value>)
    requires !HasPlaceholder(t)
    ensures Render(Render(t, vars), vars) == Render(t, vars)
  {
    RenderWithoutPlaceholder(t, vars);
  }

  /** Without an opening brace the pattern cannot match. */
  lemma {:induction false} NoBraceNoPlaceholder(t: string)
    requires '{' !in t
    ensures !HasPlaceholder(t)
    decreases |t|
  {
    if t != [] {
      assert t[0] != '{';
      assert forall c :: c in t[1..] ==> c in t;
      NoBraceNoPlaceholder(t[1..]);
    }
  }

  /** Braces around something other than a run of word characters stay
      literal: `{{ a }}` is not a placeholder. */
  lemma SpacedBracesStayLiteral(vars: map<string, Value>)
    ensures Render("{{ a }}", vars) == "{{ a }}"
  {
    var t := "{{ a }}";
    assert t[2..] == " a }}" && t[1..][2..] == t[3..];
    assert WordRun(t[2..]) == 0;
    assert MatchAt(t).None?;
    assert t[1..][1] != '{';
    assert MatchAt(t[1..]).None?;
    assert '{' !in t[2..];
    NoBraceNoPlaceholder(t[2..]);
    assert !HasPlaceholder(t[1..]);
    RenderWithoutPlaceholder(t, vars);
  }

  /** `{{a-b}}` is not a placeholder either: the key stops at `-`. */
  lemma DashedBracesStayLiteral(vars: map<string, Value>)
    ensures Render("{{a-b}}", vars) == "{{a-b}}"
  {
    var u := "{{a-b}}";
    assert u[2..] == "a-b}}" && u[2..][1..] == "-b}}";
    assert WordRun(u[2..][1..]) == 0;
    assert WordRun(u[2..]) == 1;
    assert MatchAt(u).None?;
    assert u[1..][1] != '{';
    assert MatchAt(u[1..]).None?;
    assert '{' !in u[2..];
    NoBraceNoPlaceholder(u[2..]);
    assert !HasPlaceholder(u[1..]);
    RenderWithoutPlaceholder(u, vars);
  }

  /** A value that itself looks like a placeholder is inserted as it is. */
  lemma ValueNotRescanned(vars: map<string, Value>)
    requires "a" in vars && vars["a"] == Str("{{b}}")
    requires "b" in vars && vars["b"] == Str("B")
    ensures Render("{{a}}", vars) == "{{b}}"
  {
    assert IsKey("a");
    RenderPlaceholder("a", "", vars);
    assert Placeholder("a") + "" == "{{a}}";
  }

  /** `renderTemplate(template)` called with no variables object
      (build.js:77): the callback reads a property of `undefined`, which
      throws on the first match; without a match the template comes back
      unchanged. */
  function RenderNoVariables(t: string): (r: Result<string, JsError>)
    ensures r.Ok? <==> !HasPlaceholder(t)
    ensures r.Ok? ==> r.value == t && forall vars :: Render(t, vars) == r.value
    ensures r.Err? ==> r.error == TypeError
  {
    if HasPlaceholder(t) then Err(TypeError)
    else
      assert forall vars :: Render(t, vars) == t by {
        forall vars { RenderWithoutPlaceholder(t, vars); }
      }
      Ok(t)
  }
}
