/** The output directory `public/` (build.js:10, 47-65, 286-296) as a tree
    of files and directories that the build changes in place. Each method
    of `PublicDir` is one file-system call of the script; a call the
    file system would refuse (writing a file where a directory stands,
    creating a directory where a file stands) is excluded by its
    `requires`, since it would end the run. */
module Output {

  datatype Node = File(content: string) | Dir(children: map<string, Node>)

  /** The top-level entries the clean keeps (build.js:290-296). */
  const Excludes: seq<string> := ["fonts", "styles", "favicon.ico", "og-image.png", "robots.txt"]

  /** The entries whose names are in `excludes`, unchanged. */
  function Kept(entries: map<string, Node>, excludes: seq<string>): (r: map<string, Node>)
    ensures r.Keys == set n | n in entries && n in excludes
  {
    map n | n in entries && n in excludes :: entries[n]
  }

  /** The entries of the directory `name` in `m`, or none if there is no
      such directory. */
  function Child(m: map<string, Node>, name: string): map<string, Node> {
    if name in m && m[name].Dir? then m[name].children else map[]
  }

  /** `name` is free or already a directory: `mkdirSync` can make it or
      `existsSync` skips it. */
  predicate DirSlot(m: map<string, Node>, name: string) {
    name !in m || m[name].Dir?
  }

  /** `name` is free or a file: a write or copy can create or replace it. */
  predicate FileSlot(m: map<string, Node>, name: string) {
    name !in m || m[name].File?
  }

  /** `m` with the directory `dir` set to `contents`. */
  function WithDir(m: map<string, Node>, dir: string, contents: map<string, Node>): map<string, Node> {
    m[dir := Dir(contents)]
  }

  class PublicDir {
    /** Whether `public/` exists at all. */
    var present: bool
    /** Its top-level entries. */
    var entries: map<string, Node>

    constructor (present: bool, entries: map<string, Node>)
      ensures this.present == present && this.entries == entries
    {
      this.present := present;
      this.entries := entries;
    }

    /** `if (!fs.existsSync(OUTPUT_DIR)) fs.mkdirSync(OUTPUT_DIR)`
        (build.js:286-288). */
    method Create()
      modifies this
      ensures present
      ensures entries == if old(present) then old(entries) else map[]
    {
      if !present {
        present := true;
        entries := map[];
      }
    }

    /** `cleanDirectory("public", excludes)` (build.js:47-65): nothing
        happens to a missing directory; otherwise every top-level entry
        whose name is not in `excludes` is deleted, a directory with
        everything under it, and the others are left as they are. */
    method Clean(excludes: seq<string>)
      modifies this
      ensures present == old(present)
      ensures entries == if present then Kept(old(entries), excludes) else old(entries)
    {
      if !present {
        return;
      }
      var files := entries.Keys;
      while files != {}
        invariant present
        invariant files <= old(entries).Keys
        invariant entries == map n | n in old(entries) && (n in files || n in excludes) :: old(entries)[n]
        decreases files
      {
        var file :| file in files;
        if file !in excludes {
          // rmSync for a directory, unlinkSync for a file: the entry goes
          entries := map n | n in entries && n != file :: entries[n];
        }
        files := files - {file};
      }
    }

    /** `fs.writeFileSync("public/<name>", content)`. */
    method WriteFile(name: string, content: string)
      requires present && FileSlot(entries, name)
      modifies this
      ensures present
      ensures entries == old(entries)[name := File(content)]
    {
      entries := entries[name := File(content)];
    }

    /** `if (!fs.existsSync(p)) fs.mkdirSync(p, { recursive: true })` for
        `p = "public/<dir>"`. */
    method MakeDir(dir: string)
      requires present && DirSlot(entries, dir)
      modifies this
      ensures present
      ensures entries == WithDir(old(entries), dir, Child(old(entries), dir))
    {
      if dir !in entries {
        entries := entries[dir := Dir(map[])];
      }
    }

    /** The same for `p = "public/<dir>/<sub>"`: the missing directories on
        the way are created. */
    method MakeSubDir(dir: string, sub: string)
      requires present && DirSlot(entries, dir) && DirSlot(Child(entries, dir), sub)
      modifies this
      ensures present
      ensures entries == WithDir(old(entries), dir,
        WithDir(Child(old(entries), dir), sub, Child(Child(old(entries), dir), sub)))
    {
      var inner := Child(entries, dir);
      if dir !in entries || sub !in inner {
        entries := entries[dir := Dir(inner[sub := Dir(Child(inner, sub))])];
      } else {
        assert inner[sub] == Dir(Child(inner, sub));
        assert inner[sub := Dir(Child(inner, sub))] == inner;
        assert entries[dir] == Dir(inner);
      }
    }

    /** `fs.writeFileSync("public/<dir>/<name>", content)`. */
    method WriteInDir(dir: string, name: string, content: string)
      requires present && dir in entries && entries[dir].Dir?
      requires FileSlot(entries[dir].children, name)
      modifies this
      ensures present
      ensures entries == WithDir(old(entries), dir, Child(old(entries), dir)[name := File(content)])
    {
      entries := entries[dir := Dir(entries[dir].children[name := File(content)])];
    }

    /** `fs.copyFileSync(src, "public/<dir>/<sub>/<name>")` or
        `fs.writeFileSync` of the same path: the file gets `content`. */
    method WriteInSubDir(dir: string, sub: string, name: string, content: string)
      requires present && dir in entries && entries[dir].Dir?
      requires sub in entries[dir].children && entries[dir].children[sub].Dir?
      requires FileSlot(entries[dir].children[sub].children, name)
      modifies this
      ensures present
      ensures entries == WithDir(old(entries), dir,
        WithDir(Child(old(entries), dir), sub, Child(Child(old(entries), dir), sub)[name := File(content)]))
    {
      var inner := entries[dir].children;
      entries := entries[dir := Dir(inner[sub := Dir(inner[sub].children[name := File(content)])])];
    }
  }
}
