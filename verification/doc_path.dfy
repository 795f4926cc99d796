/**
 * Document paths of the `doc` command: the repair of paths that a Windows shell
 * rewrote into drive paths (`/x.sy` arriving as `D:/program_files/Git/x.sy`),
 * and the child name and full path that `doc insert` builds from them.
 */
module DocPath {
  import opened Wrappers
  import opened JsStrings

  /** `/^[A-Z]:\/[^/]/i`: a drive letter, `:/`, and a character other than `/`. */
  predicate IsDriveLike(s: string) {
    |s| >= 4 && IsAsciiLetter(s[0]) && s[1] == ':' && s[2] == '/' && s[3] != '/'
  }

  /** The separators of the two end-anchored segment patterns: `[^\/\\]` and `[^/]`. */
  predicate IsSep(c: char, backslash: bool) {
    c == '/' || (backslash && c == '\\')
  }

  /** The length of the segment `([^...]+)$` at the end of `s`; zero when `s` ends in a separator. */
  function TrailingSegment(s: string, backslash: bool): (n: nat)
    ensures n <= |s|
    ensures forall k :: |s| - n <= k < |s| ==> !IsSep(s[k], backslash)
    ensures n < |s| ==> IsSep(s[|s| - n - 1], backslash)
  {
    if |s| == 0 || IsSep(s[|s| - 1], backslash) then 0
    else 1 + TrailingSegment(s[..|s| - 1], backslash)
  }

  /** The final rule: a path that does not start with `/` gets one. */
  function Rooted(s: string): (r: string)
    ensures |r| >= 1 && r[0] == '/'
    ensures |s| >= 1 && s[0] == '/' ==> r == s
    ensures (|s| == 0 || s[0] != '/') ==> r == "/" + s
  {
    if |s| >= 1 && s[0] == '/' then s else "/" + s
  }

  /** What follows the first `Git/` of the path after the drive, or that path itself. */
  function AfterGit(rel: string): (r: string) {
    match IndexOf(rel, "Git/")
    case Some(i) => rel[i + 4..]
    case None => rel
  }

  /** `normalizeDocPath` as the source writes it. */
  function NormalizeDocPath(input: string): (r: string)
    ensures |r| >= 1 && r[0] == '/'
  {
    if IsDriveLike(input) then
      var rel := AfterGit(input[3..]);
      var noSep := TrailingSegment(input, true);
      var noSlash := TrailingSegment(input, false);
      if |rel| >= 1 && rel[0] == '/' then rel
      else if Lacks(input, "Git/") && noSep > 0 then "/" + input[|input| - noSep..]
      else if noSlash > 0 then "/" + input[|input| - noSlash..]
      else Rooted(input)
    else Rooted(input)
  }

  // ---------------------------------------------------------------------------
  // The branches.
  // ---------------------------------------------------------------------------

  /** A path that already starts with `/` is kept as it is. */
  lemma RootedKept(s: string)
    requires |s| >= 1 && s[0] == '/'
    ensures NormalizeDocPath(s) == s
  {
  }

  /** Any other path that is not a drive path gets a leading `/`. */
  lemma PlainPathRooted(s: string)
    requires !IsDriveLike(s) && (|s| == 0 || s[0] != '/')
    ensures NormalizeDocPath(s) == "/" + s
  {
  }

  /** The `Git/` of the drive path is the first one of the whole input: the drive prefix holds none. */
  lemma GitInDrivePath(s: string)
    requires IsDriveLike(s)
    ensures Lacks(s, "Git/") <==> Lacks(s[3..], "Git/")
  {
    forall i: nat | i < 3
      ensures !OccursAt(s, i, "Git/")
    {
      NoGitInDrive(s, i);
    }
    if !Lacks(s, "Git/") {
      var i :| 0 <= i <= |s| && OccursAt(s, i, "Git/");
      OccursAfterDrive(s, i);
    }
    if !Lacks(s[3..], "Git/") {
      var i :| 0 <= i <= |s[3..]| && OccursAt(s[3..], i, "Git/");
      OccursAfterDrive(s, i + 3);
    }
  }

  /** No `Git/` starts inside the drive prefix `X:/`. */
  lemma NoGitInDrive(s: string, i: nat)
    requires IsDriveLike(s) && i < 3
    ensures !OccursAt(s, i, "Git/")
  {
    if i + 4 <= |s| {
      assert s[i..i + 4][1] == s[i + 1];
      assert s[i..i + 4][0] == s[i];
    }
  }

  /** Occurrences after the drive prefix are those of the rest, shifted by three. */
  lemma OccursAfterDrive(s: string, i: nat)
    requires |s| >= 3 && 3 <= i
    ensures OccursAt(s, i, "Git/") <==> OccursAt(s[3..], i - 3, "Git/")
  {
    if i + 4 <= |s| {
      assert s[3..][i - 3..i + 1] == s[i..i + 4];
    }
  }

  /** A drive path without `Git/` and without a trailing separator keeps only its last segment. */
  lemma DriveLastSegment(s: string)
    requires IsDriveLike(s) && Lacks(s, "Git/") && !IsSep(s[|s| - 1], true)
    ensures var n := TrailingSegment(s, true);
      n >= 1 && NormalizeDocPath(s) == "/" + s[|s| - n..]
      && forall k :: |s| - n <= k < |s| ==> s[k] != '/' && s[k] != '\\'
  {
    GitInDrivePath(s);
    assert IndexOf(s[3..], "Git/").None?;
  }

  /** A drive path with `Git/` keeps what follows it when that starts with `/`, else its last segment. */
  lemma DriveGitPath(s: string, i: nat)
    requires IsDriveLike(s) && IndexOf(s[3..], "Git/") == Some(i) && s[|s| - 1] != '/'
    ensures var rest := s[3..][i + 4..];
      var n := TrailingSegment(s, false);
      NormalizeDocPath(s) == if |rest| >= 1 && rest[0] == '/' then rest else "/" + s[|s| - n..]
    ensures TrailingSegment(s, false) >= 1
  {
    GitInDrivePath(s);
  }

  /** A drive path ending in `/` falls through to the last rule. */
  lemma DriveTrailingSlash(s: string)
    requires IsDriveLike(s) && s[|s| - 1] == '/'
    requires var rel := AfterGit(s[3..]); |rel| == 0 || rel[0] != '/'
    ensures NormalizeDocPath(s) == "/" + s
  {
  }

  // ---------------------------------------------------------------------------
  // The `Git/` repair: the comment promises `/parent/child.sy` for
  // `D:/program_files/Git/parent/child.sy`, the code returns `/child.sy`.
  // ---------------------------------------------------------------------------

  /** With no `G` before it, the first `Git/` is the one after `pre`. */
  lemma FirstGit(pre: string, rest: string)
    requires 'G' !in pre
    ensures IndexOf(pre + "Git/" + rest, "Git/") == Some(|pre|)
  {
    var s := pre + "Git/" + rest;
    assert s[|pre|..|pre| + 4] == "Git/";
    assert OccursAt(s, |pre|, "Git/");
    forall j: nat | j < |pre|
      ensures !OccursAt(s, j, "Git/")
    {
      assert s[j] == pre[j];
    }
  }

  /** The drive path a shell makes of `/parent/child`. */
  function ShellPath(d: char, pre: string, parent: string, child: string): (r: string) {
    ([d] + ":/" + (pre + "Git/" + parent)) + "/" + child
  }

  /** The parts of such a path, once the drive is cut off. */
  lemma ShellPathParts(s: string, d: char, pre: string, parent: string, child: string)
    requires s == ShellPath(d, pre, parent, child)
    requires IsAsciiLetter(d) && (|pre| == 0 || pre[0] != '/') && 'G' !in pre
    requires |parent| >= 1 && parent[0] != '/' && |child| >= 1 && '/' !in child
    ensures IsDriveLike(s) && s[3..] == pre + "Git/" + (parent + "/" + child)
    ensures IndexOf(s[3..], "Git/") == Some(|pre|)
    ensures AfterGit(s[3..]) == parent + "/" + child
  {
    assert s[3..] == pre + "Git/" + (parent + "/" + child);
    FirstGit(pre, parent + "/" + child);
    assert (pre + "Git/" + (parent + "/" + child))[|pre| + 4..] == parent + "/" + child;
  }

  /** The last `/`-segment of `x + "/" + child` is `child`. */
  lemma {:induction false} SegmentAfterSlash(x: string, child: string)
    requires '/' !in child
    ensures TrailingSegment(x + "/" + child, false) == |child|
    ensures (x + "/" + child)[|x| + 1..] == child
  {
    var s := x + "/" + child;
    if |child| == 0 {
      assert s[|s| - 1] == '/';
    } else {
      var init := child[..|child| - 1];
      assert s[|s| - 1] == child[|child| - 1];
      assert s[..|s| - 1] == x + "/" + init;
      SegmentAfterSlash(x, init);
    }
  }

  /** As written: the parent folder is lost, only the last segment survives. */
  lemma GitParentDropped(d: char, pre: string, parent: string, child: string)
    requires IsAsciiLetter(d) && (|pre| == 0 || pre[0] != '/') && 'G' !in pre
    requires |parent| >= 1 && parent[0] != '/' && |child| >= 1 && '/' !in child
    ensures NormalizeDocPath(ShellPath(d, pre, parent, child)) == "/" + child
    ensures "/" + child != "/" + parent + "/" + child
  {
    var s := ShellPath(d, pre, parent, child);
    ShellPathParts(s, d, pre, parent, child);
    ShellPathSegment(s, d, pre, parent, child);
    assert AfterGit(s[3..])[0] == parent[0];
    GitLastSegment(s, child);
    assert |"/" + child| < |"/" + parent + "/" + child|;
  }

  /** A drive path whose part after `Git/` is not rooted keeps its last segment. */
  lemma GitLastSegment(s: string, last: string)
    requires IsDriveLike(s) && !Lacks(s[3..], "Git/")
    requires var rest := AfterGit(s[3..]); |rest| >= 1 && rest[0] != '/'
    requires TrailingSegment(s, false) == |last| >= 1 && s[|s| - |last|..] == last
    ensures NormalizeDocPath(s) == "/" + last
  {
    GitInDrivePath(s);
    assert !Lacks(s, "Git/");
  }

  /** The last segment of the shell path is the child. */
  lemma ShellPathSegment(s: string, d: char, pre: string, parent: string, child: string)
    requires s == ShellPath(d, pre, parent, child)
    requires |child| >= 1 && '/' !in child
    ensures TrailingSegment(s, false) == |child| && s[|s| - |child|..] == child
  {
    SegmentAfterSlash([d] + ":/" + (pre + "Git/" + parent), child);
  }

  /** The repair as the comments describe it: everything after `Git/`, rooted. */
  function NormalizeDocPathFixed(input: string): (r: string)
    ensures |r| >= 1 && r[0] == '/'
  {
    if IsDriveLike(input) then
      var rel := AfterGit(input[3..]);
      var noSep := TrailingSegment(input, true);
      var noSlash := TrailingSegment(input, false);
      if !Lacks(input[3..], "Git/") then Rooted(rel)
      else if noSep > 0 then "/" + input[|input| - noSep..]
      else if noSlash > 0 then "/" + input[|input| - noSlash..]
      else Rooted(input)
    else Rooted(input)
  }

  /** Repaired: the shell path of `/parent/child` comes back as `/parent/child`. */
  lemma FixedKeepsParent(d: char, pre: string, parent: string, child: string)
    requires IsAsciiLetter(d) && (|pre| == 0 || pre[0] != '/') && 'G' !in pre
    requires |parent| >= 1 && parent[0] != '/' && |child| >= 1 && '/' !in child
    ensures NormalizeDocPathFixed(ShellPath(d, pre, parent, child)) == "/" + parent + "/" + child
  {
    var s := ShellPath(d, pre, parent, child);
    ShellPathParts(s, d, pre, parent, child);
    FixedGitPath(s);
    var rest := parent + "/" + child;
    assert rest[0] == parent[0];
    assert Rooted(rest) == "/" + rest;
    assert "/" + rest == "/" + parent + "/" + child;
  }

  /** Repaired: a drive path with `Git/` keeps all of what follows it, rooted. */
  lemma FixedGitPath(s: string)
    requires IsDriveLike(s) && !Lacks(s[3..], "Git/")
    ensures NormalizeDocPathFixed(s) == Rooted(AfterGit(s[3..]))
  {
  }

  /** The repair changes nothing for paths without `Git/`. */
  lemma FixedAgreesWithoutGit(s: string)
    requires Lacks(s, "Git/")
    ensures NormalizeDocPathFixed(s) == NormalizeDocPath(s)
  {
    if IsDriveLike(s) {
      GitInDrivePath(s);
      assert IndexOf(s[3..], "Git/").None?;
      assert s[3..][0] == s[3];
    }
  }

  // ---------------------------------------------------------------------------
  // `doc insert`: the child name and the full path.
  // ---------------------------------------------------------------------------

  /** `childPath.replace(/^\//, '').replace(/\.sy$/, '')`. */
  function ChildName(childPath: string): (r: string)
    ensures |r| <= |childPath|
  {
    var bare := if |childPath| >= 1 && childPath[0] == '/' then childPath[1..] else childPath;
    if |bare| >= 3 && bare[|bare| - 3..] == ".sy" then bare[..|bare| - 3] else bare
  }

  /** The name of `/x.sy` is `x`. */
  lemma ChildNameOfDoc(x: string)
    ensures ChildName("/" + x + ".sy") == x
  {
    var p := "/" + x + ".sy";
    assert p[1..] == x + ".sy";
    assert (x + ".sy")[|x|..] == ".sy";
    assert (x + ".sy")[..|x|] == x;
  }

  /** A rooted `.sy` path is `/`, its name, and `.sy`. */
  lemma ChildNameRoundTrip(p: string)
    requires |p| >= 4 && p[0] == '/' && p[|p| - 3..] == ".sy"
    ensures "/" + ChildName(p) + ".sy" == p
  {
    assert p[1..][|p| - 4..] == p[|p| - 3..];
  }

  /** Without the `.sy` suffix only the leading `/` goes. */
  lemma ChildNameWithoutSuffix(p: string)
    requires |p| >= 1 && p[0] == '/' && (|p| < 4 || p[|p| - 3..] != ".sy")
    ensures ChildName(p) == p[1..]
  {
    if |p| >= 4 {
      assert p[1..][|p| - 4..] == p[|p| - 3..];
    }
  }

  /** The full human-readable path: under the root, or under the parent. */
  function FullPath(parentPath: string, childName: string): (r: string)
    ensures |r| >= |childName| + 1 && r[|r| - |childName|..] == childName
    ensures r[|r| - |childName| - 1] == '/'
    ensures (|parentPath| >= 1 && parentPath[0] == '/') ==> r[0] == '/'
  {
    if |parentPath| > 0 && parentPath != "/" then parentPath + "/" + childName else "/" + childName
  }

  /** Under the root the path is `/name`; under a parent it is the parent, `/` and the name. */
  lemma FullPathCases(parentPath: string, childName: string)
    ensures parentPath == "/" ==> FullPath(parentPath, childName) == "/" + childName
    ensures |parentPath| > 0 && parentPath != "/" ==> FullPath(parentPath, childName)[..|parentPath|] == parentPath
    ensures |parentPath| > 0 && parentPath != "/" ==> FullPath(parentPath, childName) == parentPath + "/" + childName
    ensures |parentPath| == 0 ==> FullPath(parentPath, childName) == "/" + childName
  {
  }

  /** The path `doc insert` builds from its two arguments starts at the root and ends with the child's name. */
  lemma InsertPath(parentArg: string, childArg: string)
    ensures var name := ChildName(NormalizeDocPath(childArg));
      var full := FullPath(NormalizeDocPath(parentArg), name);
      full[0] == '/' && full[|full| - |name|..] == name
  {
  }

  /** The same with the repaired normalisation. */
  lemma InsertPathFixed(parentArg: string, childArg: string)
    ensures var name := ChildName(NormalizeDocPathFixed(childArg));
      var full := FullPath(NormalizeDocPathFixed(parentArg), name);
      full[0] == '/' && full[|full| - |name|..] == name
  {
  }
}
