/**
 * The log directory (`mcp_logs`) as the source sees it: files directly in it
 * and in its per-ticker subdirectories, each a sequence of text lines, listed
 * in the order the directory enumerates them.  `pathlib` ordering and the
 * one mutable part, appending a line, live here too.
 */
module Files {
  import opened Wrappers
  import opened Dict
  import opened Text

  /** The name of the log directory itself. */
  const LogDirName := "mcp_logs"

  /**
   * A file under the log directory: `dir` is "" for a file directly in it,
   * otherwise the subdirectory's path relative to it.
   */
  datatype Path = Path(dir: string, name: string)

  /** Present files with their lines, in directory-listing order; a missing directory is an empty one. */
  type FileSystem = Dict<Path, seq<string>>

  /** `p.parent.name`: the last component of the directory that holds `p`. */
  function ParentName(p: Path): string {
    if p.dir == "" then LogDirName else Last(Split(p.dir, '/'))
  }

  function Last(parts: seq<string>): string
    requires parts != []
  {
    parts[|parts| - 1]
  }

  /** The lines of `p` (none for a missing file). */
  function Lines(fs: FileSystem, p: Path): seq<string> {
    match Get(fs, p)
    case None => []
    case Some(ls) => ls
  }

  /** Opening `p` with mode "a" and writing one line. */
  function AppendLine(fs: FileSystem, p: Path, line: string): (r: FileSystem)
    ensures Lines(r, p) == Lines(fs, p) + [line]
    ensures forall q :: q != p ==> Get(r, q) == Get(fs, q)
    ensures HasKey(r, p)
    ensures UniqueKeys(fs) ==> UniqueKeys(r)
  {
    Put(fs, p, Lines(fs, p) + [line])
  }

  /** Whether a file name matches the glob pattern `prefix*suffix`. */
  predicate NameMatches(name: string, prefix: string, suffix: string) {
    |prefix| + |suffix| <= |name| && StartsWith(name, prefix) && EndsWith(name, suffix)
  }

  /** `dir.glob(prefix + "*" + suffix)`: the matching files directly in `dir`, in listing order. */
  function Glob(fs: FileSystem, dir: string, prefix: string, suffix: string): (r: seq<Path>)
    ensures forall p :: p in r <==> HasKey(fs, p) && p.dir == dir && NameMatches(p.name, prefix, suffix)
  {
    if fs == [] then []
    else
      var p := fs[0].0;
      var rest := Glob(fs[1..], dir, prefix, suffix);
      if p.dir == dir && NameMatches(p.name, prefix, suffix) then [p] + rest else rest
  }

  /**
   * The log directory together with what has been written to it.  The
   * methods that write a log record take it and append through it.
   */
  class LogStore {
    var files: FileSystem

    constructor (initial: FileSystem)
      ensures files == initial
    {
      files := initial;
    }

    method Append(p: Path, line: string)
      modifies this
      ensures files == AppendLine(old(files), p, line)
    {
      files := AppendLine(files, p, line);
    }
  }

  // ---------------------------------------------------------------------------
  // pathlib: `stem`, and the order `sorted()` puts paths in (component by
  // component, each compared as a string).
  // ---------------------------------------------------------------------------

  /** Index of the last `c` in `s`, if any. */
  function LastIndexOf(s: string, c: char): (r: Option<nat>)
    ensures r.Some? ==> r.value < |s| && s[r.value] == c && c !in s[r.value + 1..]
    ensures r.None? ==> c !in s
  {
    if s == [] then None
    else if s[|s| - 1] == c then Some(|s| - 1)
    else
      var r := LastIndexOf(s[..|s| - 1], c);
      assert r.Some? ==> s[r.value + 1..] == s[..|s| - 1][r.value + 1..] + [s[|s| - 1]];
      r
  }

  /** `PurePath(name).stem`: the name without its last suffix; a leading dot does not start a suffix. */
  function Stem(name: string): (r: string)
    ensures EndsWith(name, ".jsonl") && |name| > 6 ==> r == name[..|name| - 6]
  {
    var suffixed := EndsWith(name, ".jsonl") && |name| > 6;
    assert suffixed ==> name[|name| - 6] == '.' && name[|name| - 5..] == "jsonl" by {
      if suffixed { assert name[|name| - 6..] == ".jsonl"; }
    }
    match LastIndexOf(name, '.')
    case Some(i) =>
      if 0 < i < |name| - 1 then name[..i] else name
    case None => name
  }

  function Parts(p: Path): seq<string> {
    (if p.dir == "" then [] else Split(p.dir, '/')) + [p.name]
  }

  predicate PartsLess(a: seq<string>, b: seq<string>) {
    if a == [] then b != []
    else if b == [] then false
    else Less(a[0], b[0]) || (a[0] == b[0] && PartsLess(a[1..], b[1..]))
  }

  /** `a < b` on paths. */
  predicate PathLess(a: Path, b: Path) {
    PartsLess(Parts(a), Parts(b))
  }

  lemma {:induction false} PartsLessIrreflexive(a: seq<string>)
    ensures !PartsLess(a, a)
  {
    if a != [] {
      LessIrreflexive(a[0]);
      PartsLessIrreflexive(a[1..]);
    }
  }

  lemma {:induction false} PartsLessTransitive(a: seq<string>, b: seq<string>, c: seq<string>)
    requires PartsLess(a, b) && PartsLess(b, c)
    ensures PartsLess(a, c)
  {
    if a != [] && b != [] && c != [] {
      if Less(a[0], b[0]) && Less(b[0], c[0]) {
        LessTransitive(a[0], b[0], c[0]);
      } else if a[0] == b[0] && b[0] == c[0] {
        PartsLessTransitive(a[1..], b[1..], c[1..]);
      }
    }
  }

  lemma {:induction false} PartsLessTotal(a: seq<string>, b: seq<string>)
    requires a != b
    ensures PartsLess(a, b) || PartsLess(b, a)
  {
    if a != [] && b != [] {
      if a[0] == b[0] {
        assert a == [a[0]] + a[1..] && b == [b[0]] + b[1..];
        PartsLessTotal(a[1..], b[1..]);
      } else {
        LessTotal(a[0], b[0]);
      }
    }
  }

  /** Different paths have different components. */
  lemma {:induction false} PartsInjective(a: Path, b: Path)
    requires Parts(a) == Parts(b)
    ensures a == b
  {
    var pa, pb := Parts(a), Parts(b);
    assert a.name == pa[|pa| - 1] && b.name == pb[|pb| - 1];
    if a.dir != "" && b.dir != "" {
      assert Split(a.dir, '/') == pa[..|pa| - 1];
      assert Split(b.dir, '/') == pb[..|pb| - 1];
      SplitJoin(a.dir, '/');
      SplitJoin(b.dir, '/');
    }
  }

  lemma {:induction false} PathLessIrreflexive(a: Path)
    ensures !PathLess(a, a)
  {
    PartsLessIrreflexive(Parts(a));
  }

  lemma {:induction false} PathLessTransitive(a: Path, b: Path, c: Path)
    requires PathLess(a, b) && PathLess(b, c)
    ensures PathLess(a, c)
  {
    PartsLessTransitive(Parts(a), Parts(b), Parts(c));
  }

  lemma {:induction false} PathLessTotal(a: Path, b: Path)
    requires a != b
    ensures PathLess(a, b) || PathLess(b, a)
  {
    if Parts(a) == Parts(b) {
      PartsInjective(a, b);
    }
    PartsLessTotal(Parts(a), Parts(b));
  }

  /** Ascending without repetitions. */
  predicate StrictlySorted(s: seq<Path>) {
    forall i, j :: 0 <= i < j < |s| ==> PathLess(s[i], s[j])
  }

  /** `x` put into its place in the strictly sorted `s`, unless it is already there. */
  function Insert(x: Path, s: seq<Path>): (r: seq<Path>)
    requires StrictlySorted(s)
    ensures StrictlySorted(r)
    ensures forall p :: p in r <==> p == x || p in s
  {
    if s == [] then [x]
    else if x == s[0] then s
    else if PathLess(x, s[0]) then
      forall j | 0 < j < |s| ensures PathLess(x, s[j]) {
        PathLessTransitive(x, s[0], s[j]);
      }
      [x] + s
    else
      PathLessTotal(x, s[0]);
      var t := Insert(x, s[1..]);
      assert forall p :: p in s <==> p == s[0] || p in s[1..] by {
        assert s == [s[0]] + s[1..];
      }
      forall p | p in t ensures PathLess(s[0], p) {
        if p != x {
          var j :| 0 <= j < |s[1..]| && s[1..][j] == p;
          assert s[j + 1] == p;
        }
      }
      var r := [s[0]] + t;
      forall i, j | 0 <= i < j < |r| ensures PathLess(r[i], r[j]) {
        assert r[j] == t[j - 1];
        if i > 0 { assert r[i] == t[i - 1]; }
      }
      r
  }

  /** `sorted(set(s))`: the distinct elements of `s`, ascending. */
  function SortedSet(s: seq<Path>): (r: seq<Path>)
    ensures StrictlySorted(r)
    ensures forall p :: p in r <==> p in s
  {
    if s == [] then []
    else
      var t := SortedSet(s[1..]);
      assert forall p :: p in s <==> p == s[0] || p in s[1..] by {
        assert s == [s[0]] + s[1..];
      }
      Insert(s[0], t)
  }

  /** A strictly sorted sequence is determined by its elements. */
  lemma {:induction false} SortedUnique(a: seq<Path>, b: seq<Path>)
    requires StrictlySorted(a) && StrictlySorted(b)
    requires forall p :: p in a <==> p in b
    ensures a == b
  {
    SameElementsEmpty(a, b);
    if a != [] {
      if a[0] != b[0] {
        // each head lies in the other sequence, after its head: both would precede each other
        assert a[0] in a && b[0] in b;
        var j :| 0 <= j < |b| && b[j] == a[0];
        var k :| 0 <= k < |a| && a[k] == b[0];
        PathLessTransitive(a[0], b[0], a[0]);
        PathLessIrreflexive(a[0]);
      } else {
        assert forall p :: p in a <==> p == a[0] || p in a[1..] by {
          assert a == [a[0]] + a[1..];
        }
        assert forall p :: p in b <==> p == b[0] || p in b[1..] by {
          assert b == [b[0]] + b[1..];
        }
        forall p ensures p in a[1..] <==> p in b[1..] {
          if p in a[1..] {
            var i :| 0 <= i < |a[1..]| && a[1..][i] == p;
            assert PathLess(a[0], a[i + 1]);
            if p == a[0] { PathLessIrreflexive(p); }
          }
          if p in b[1..] {
            var i :| 0 <= i < |b[1..]| && b[1..][i] == p;
            assert PathLess(b[0], b[i + 1]);
            if p == b[0] { PathLessIrreflexive(p); }
          }
        }
        SortedUnique(a[1..], b[1..]);
        assert a == [a[0]] + a[1..] && b == [b[0]] + b[1..];
      }
    }
  }

  lemma {:induction false} SameElementsEmpty(a: seq<Path>, b: seq<Path>)
    requires forall p :: p in a <==> p in b
    ensures a == [] <==> b == []
  {
    if a != [] { assert a[0] in a; }
    if b != [] { assert b[0] in b; }
  }

  /** `sorted(ps)[-1]`: the greatest path of a non-empty list. */
  function GreatestPath(ps: seq<Path>): (r: Path)
    requires ps != []
    ensures r in ps
    ensures forall q :: q in ps ==> q == r || PathLess(q, r)
  {
    if |ps| == 1 then ps[0]
    else
      var m := GreatestPath(ps[1..]);
      assert forall q :: q in ps <==> q == ps[0] || q in ps[1..] by {
        assert ps == [ps[0]] + ps[1..];
      }
      if PathLess(ps[0], m) then
        forall q | q in ps[1..] && q != m ensures PathLess(q, m) { }
        m
      else
        assert ps[0] != m ==> PathLess(m, ps[0]) by {
          if ps[0] != m { PathLessTotal(ps[0], m); }
        }
        forall q | q in ps[1..] && q != ps[0] ensures PathLess(q, ps[0]) {
          if q != m && ps[0] != m { PathLessTransitive(q, m, ps[0]); }
        }
        ps[0]
  }
}
