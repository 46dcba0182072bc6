/**
  The `pathlib` / `os.path` rules the scripts use, on paths written as strings
  with '/' as separator: `name`, `suffix`, `stem`, `parent`, `with_name` and
  joining (`dir / name`, `os.path.join`). Suffix and stem follow the Python 3.12
  rules: the suffix starts at the last '.' of the name, unless that '.' is the
  first or the last character of the name.
*/
module Paths {
  import opened Text

  /** `p.name`: the text after the last '/'. */
  function Name(p: string): (r: string)
    ensures forall i :: 0 <= i < |r| ==> r[i] != '/'
    ensures EndsWith(p, r)
  {
    AfterLast(p, '/')
  }

  /** Index in `name` where the suffix starts, or `|name|` when there is none. */
  function SuffixStart(name: string): (k: int)
    ensures 0 <= k <= |name|
    ensures k < |name| ==>
              0 < k < |name| - 1 && name[k] == '.' && forall i :: k < i < |name| ==> name[i] != '.'
  {
    var i := LastIndexOf(name, '.');
    if 0 < i < |name| - 1 then i else |name|
  }

  /** `p.suffix`: "" or a '.' followed by at least one character, none of them '.'. */
  function Suffix(p: string): (r: string)
    ensures r == "" || (|r| >= 2 && r[0] == '.' && forall i :: 1 <= i < |r| ==> r[i] != '.')
  {
    var n := Name(p);
    n[SuffixStart(n)..]
  }

  /** `p.stem`: the name without its suffix. */
  function Stem(p: string): (r: string)
  {
    var n := Name(p);
    n[..SuffixStart(n)]
  }

  lemma StemSuffixSplitName(p: string)
    ensures Stem(p) + Suffix(p) == Name(p)
  {
  }

  /** `p.parent` as a string: "" for a bare name, "/" for a child of the root. */
  function Parent(p: string): (r: string)
    ensures |r| <= |p|
  {
    var i := LastIndexOf(p, '/');
    if i < 0 then "" else if i == 0 then "/" else p[..i]
  }

  /** `dir / name` and `os.path.join(dir, name)`: an absolute `name` wins, an empty
      `dir` adds nothing, otherwise one '/' separates the two. */
  function Join(dir: string, name: string): (r: string)
    ensures |name| > 0 && name[0] == '/' ==> r == name
    ensures EndsWith(r, name)
  {
    if |name| > 0 && name[0] == '/' then name
    else if dir == "" then name
    else if dir[|dir| - 1] == '/' then dir + name
    else dir + "/" + name
  }

  /** A name without '/' is the name of the joined path. */
  lemma JoinName(dir: string, name: string)
    requires forall i :: 0 <= i < |name| ==> name[i] != '/'
    requires |name| > 0
    ensures Name(Join(dir, name)) == name
  {
    var r := Join(dir, name);
    assert r == name || r == dir + name || r == dir + "/" + name;
    assert r[|r| - |name|..] == name;
    assert |name| < |r| ==> r[|r| - |name| - 1] == '/';
  }

  /** Joining onto one directory is injective on names that agree on being absolute. */
  lemma JoinInjective(dir: string, a: string, b: string)
    requires (|a| > 0 && a[0] == '/') == (|b| > 0 && b[0] == '/')
    requires Join(dir, a) == Join(dir, b)
    ensures a == b
  {
    if !(|a| > 0 && a[0] == '/') && dir != "" {
      var d := if dir[|dir| - 1] == '/' then dir else dir + "/";
      assert Join(dir, a) == d + a && Join(dir, b) == d + b;
      assert a == (d + a)[|d|..] && b == (d + b)[|d|..];
    }
  }

  /** `p.with_name(name)`. */
  function WithName(p: string, name: string): string
  {
    Join(Parent(p), name)
  }

  /** The name a mirrored copy gets: `stem + "_mirror" + suffix`. */
  function MirrorName(p: string): string
  {
    Stem(p) + "_mirror" + Suffix(p)
  }

  /** `p.with_name(f"{p.stem}_mirror{p.suffix}")`. */
  function MirrorPath(p: string): string
  {
    WithName(p, MirrorName(p))
  }

  predicate IsMirrorStem(p: string)
  {
    EndsWith(Stem(p), "_mirror")
  }

  /** `rfind` finds the one occurrence after which the character no longer appears. */
  lemma LastIndexOfAt(s: string, c: char, j: int)
    requires 0 <= j < |s| && s[j] == c
    requires forall i :: j < i < |s| ==> s[i] != c
    ensures LastIndexOf(s, c) == j
  {
  }

  /** Inserting text without '.' between a stem and its suffix keeps the suffix. */
  lemma SuffixAfterInsert(stem: string, mid: string, suffix: string)
    requires |mid| > 0 && |suffix| >= 2 && suffix[0] == '.'
    requires forall i :: 1 <= i < |suffix| ==> suffix[i] != '.'
    ensures SuffixStart(stem + mid + suffix) == |stem| + |mid|
  {
    var m := stem + mid + suffix;
    var j := |stem| + |mid|;
    assert m[j] == suffix[0];
    assert forall i :: j < i < |m| ==> m[i] == suffix[i - j];
    LastIndexOfAt(m, '.', j);
  }

  lemma NameHasNoSlash(p: string)
    ensures '/' !in Stem(p) && '/' !in Suffix(p)
  {
    var n := Name(p);
    assert n == Stem(p) + Suffix(p);
  }

  lemma MirrorNameHasNoSlash(p: string)
    ensures forall i :: 0 <= i < |MirrorName(p)| ==> MirrorName(p)[i] != '/'
  {
    NameHasNoSlash(p);
    assert '/' !in "_mirror";
    assert '/' !in MirrorName(p);
  }

  /** The stem and suffix of a name built as `stem + "_mirror" + suffix`. */
  lemma MirrorNameSplit(stem: string, suffix: string)
    requires |suffix| >= 2 && suffix[0] == '.'
    requires forall i :: 1 <= i < |suffix| ==> suffix[i] != '.'
    ensures var m := stem + "_mirror" + suffix;
            m[..SuffixStart(m)] == stem + "_mirror" && m[SuffixStart(m)..] == suffix
  {
    var m := stem + "_mirror" + suffix;
    SuffixAfterInsert(stem, "_mirror", suffix);
    assert m == (stem + "_mirror") + suffix;
  }

  /** A path with a suffix has a mirror whose stem ends in `_mirror` and whose
      suffix is the original one, so the mirror is itself recognised as a mirror
      and keeps a supported extension. */
  lemma MirrorPathIsMirror(p: string)
    requires Suffix(p) != ""
    ensures Name(MirrorPath(p)) == MirrorName(p)
    ensures Stem(MirrorPath(p)) == Stem(p) + "_mirror"
    ensures Suffix(MirrorPath(p)) == Suffix(p)
    ensures IsMirrorStem(MirrorPath(p))
  {
    var m := MirrorName(p);
    MirrorNameHasNoSlash(p);
    JoinName(Parent(p), m);
    MirrorNameSplit(Stem(p), Suffix(p));
    var q := MirrorPath(p);
    assert Name(q) == m;
    assert Stem(q) == Stem(p) + "_mirror";
    var st := Stem(p) + "_mirror";
    assert st[|st| - 7..] == "_mirror";
  }

  /** A mirror path is never the path it was made from. */
  lemma MirrorPathDiffers(p: string)
    requires Suffix(p) != ""
    ensures MirrorPath(p) != p
  {
    MirrorPathIsMirror(p);
    assert Stem(MirrorPath(p)) == Stem(p) + "_mirror";
  }
}
