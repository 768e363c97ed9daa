/**
  The `downloads` tree: every regular file under it, by its path relative to the tree
  root, with its size in bytes. Path names, suffixes and parents follow pathlib.
  `clean_directory` (download.py:189-201) is the sweep that deletes every file whose
  suffix is not an allowed one.
*/
module Files {
  import opened Text

  type Tree = map<string, nat>

  /** `Path(p).name`: the last component. */
  function Name(p: string): string {
    AfterLast(p, '/')
  }

  /** The directory part of a path: what precedes the last `/`, or `""` at the root. */
  function Parent(p: string): (d: string)
    ensures |d| < |p| || d == ""
  {
    if |Name(p)| < |p| then p[..|p| - |Name(p)| - 1] else ""
  }

  /** `Path(dir) / name`, for a name without `/`. */
  function Join(dir: string, name: string): string {
    if dir == "" then name else dir + "/" + name
  }

  /** The parts of a joined path are the ones it was joined from. */
  lemma JoinSplits(dir: string, name: string)
    requires '/' !in name
    ensures Name(Join(dir, name)) == name
    ensures dir != "" ==> Parent(Join(dir, name)) == dir
  {
    var p := Join(dir, name);
    var n := Name(p);
    assert p[|p| - |name|..] == name;
    assert |n| == |name| by {
      if dir != "" {
        assert p[|p| - |name| - 1] == '/';
      }
    }
    assert n == name;
  }

  /** `PurePath.suffix` of a name: from its last dot, unless that dot is first or last. */
  function Suffix(name: string): string {
    var after := AfterLast(name, '.');
    if |after| < |name| && 0 < |name| - |after| - 1 && after != "" then "." + after else ""
  }

  /** A suffix is a dot, then at least one character, then no further dot; it ends the
      name and never starts it. */
  lemma SuffixShape(name: string)
    ensures var s := Suffix(name);
      s == "" || (s[0] == '.' && 2 <= |s| < |name| && s == name[|name| - |s|..] && '.' !in s[1..])
  {
    var after := AfterLast(name, '.');
    if Suffix(name) != "" {
      assert name[|name| - |after| - 1..] == "." + after;
    }
  }

  /** No dot after the first character: no suffix. */
  lemma NameWithoutSuffix(n: string)
    requires n == "" || '.' !in n[1..]
    ensures Suffix(n) == ""
  {
  }

  /** The suffixes `clean_directory` keeps. */
  const Allowed: set<string> := {".mp4", ".json", ".txt"}

  /** `s.lower() == t`, stated character by character. */
  predicate LowersTo(s: string, t: string) {
    |s| == |t| && forall k :: 0 <= k < |s| ==> LowerChar(s[k]) == t[k]
  }

  /** Whether the sweep keeps the file at `p` (`file_path.suffix.lower() in [".mp4", ".json", ".txt"]`). */
  predicate Keeps(p: string) {
    var s := Suffix(Name(p));
    LowersTo(s, ".mp4") || LowersTo(s, ".json") || LowersTo(s, ".txt")
  }

  /** The files of `t` that a sweep with test `keep` deletes. */
  function Rejected(t: Tree, keep: string -> bool): set<string> {
    set p | p in t && !keep(p)
  }

  /** The tree left by a sweep with test `keep`. */
  function Kept(t: Tree, keep: string -> bool): (r: Tree)
    ensures r.Keys == t.Keys - Rejected(t, keep)
    ensures forall p :: p in r ==> r[p] == t[p] && keep(p)
  {
    map p | p in t && keep(p) :: t[p]
  }

  /** Sweeping a swept tree deletes nothing and changes nothing. */
  lemma SweepIdempotent(t: Tree)
    ensures Rejected(Kept(t, Keeps), Keeps) == {}
    ensures Kept(Kept(t, Keeps), Keeps) == Kept(t, Keeps)
  {
  }

  /**
    A file whose name has no dot after its first character (`README`, `.json`,
    `clip`) has no suffix in pathlib's sense, so the sweep deletes it.
  */
  lemma NoSuffixIsSwept(p: string)
    requires Name(p) == "" || '.' !in Name(p)[1..]
    ensures !Keeps(p)
  {
    NameWithoutSuffix(Name(p));
  }

  /** The files under `downloads`, deleted one by one as the script works. */
  class DownloadDir {
    var files: Tree

    constructor (t: Tree)
      ensures files == t
    {
      files := t;
    }

    /**
      `clean_directory(DOWNLOAD_DIR)`: deletes every file whose lower-cased suffix is
      not allowed, in whatever order the walk meets them, and counts the deletions.
    */
    method Clean() returns (count: nat)
      modifies this
      ensures files == Kept(old(files), Keeps)
      ensures count == |Rejected(old(files), Keeps)|
    {
      count := SweepBy(Keeps);
    }

    /** The walk of `clean_directory`, for a given test of which files stay. */
    method SweepBy(keep: string -> bool) returns (count: nat)
      modifies this
      ensures files == Kept(old(files), keep)
      ensures count == |Rejected(old(files), keep)|
    {
      ghost var start := files;
      var pending := files.Keys;
      count := 0;
      ghost var deleted: set<string> := {};
      while pending != {}
        invariant pending <= start.Keys
        invariant forall q :: q in deleted <==> q in start && q !in pending && !keep(q)
        invariant count == |deleted|
        invariant files.Keys == start.Keys - deleted
        invariant forall q :: q in files ==> files[q] == start[q]
        decreases pending
      {
        var p :| p in pending;
        if !keep(p) {
          files := files - {p};
          deleted := deleted + {p};
          count := count + 1;
        }
        pending := pending - {p};
      }
      assert deleted == Rejected(start, keep);
    }

    /** Files created or overwritten by a download. */
    method Write(t: Tree)
      modifies this
      ensures files == old(files) + t
    {
      files := files + t;
    }

    /** `unlink(missing_ok=True)` of each path of `ps`. */
    method Delete(ps: set<string>)
      modifies this
      ensures files == old(files) - ps
    {
      files := files - ps;
    }
  }
}
