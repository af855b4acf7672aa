/**
 * POSIX path naming as the generator uses it: a sign's name is the base name
 * of its file path, its category the base name of the directory holding it.
 */
module Paths {

  const Sep: char := '/'

  /** `p.rfind('/') + 1`: the index just after the last separator, 0 when there is none. */
  function AfterLastSep(p: string): (i: nat)
    ensures i <= |p|
  {
    if p == [] then 0
    else if p[|p| - 1] == Sep then |p|
    else AfterLastSep(p[..|p| - 1])
  }

  /** `os.path.basename`: the part after the last separator. */
  function BaseName(p: string): string
  {
    p[AfterLastSep(p)..]
  }

  /** The index found is that of the last separator: none follows it. */
  lemma {:induction false} AfterLastSepIsLast(p: string)
    ensures var i := AfterLastSep(p);
            (forall k :: i <= k < |p| ==> p[k] != Sep) && (i > 0 ==> p[i - 1] == Sep)
    decreases |p|
  {
    if p != [] && p[|p| - 1] != Sep {
      AfterLastSepIsLast(p[..|p| - 1]);
    }
  }

  /** The base name is the part of the path after its last separator, and holds no separator itself. */
  lemma BaseNameIsLastComponent(p: string)
    ensures var r := BaseName(p);
            Sep !in r && |r| <= |p| && p[|p| - |r|..] == r && (|r| < |p| ==> p[|p| - |r| - 1] == Sep)
  {
    AfterLastSepIsLast(p);
  }

  /** `s.rstrip('/')`. */
  function RStripSep(s: string): string
  {
    if s != [] && s[|s| - 1] == Sep then RStripSep(s[..|s| - 1]) else s
  }

  /** Stripping removes exactly the trailing separators: what remains is a prefix not ending in one. */
  lemma {:induction false} RStripRemovesTrailingSeps(s: string)
    ensures var r := RStripSep(s);
            |r| <= |s| && s[..|r|] == r && (r != [] ==> r[|r| - 1] != Sep) &&
            forall k :: |r| <= k < |s| ==> s[k] == Sep
    decreases |s|
  {
    if s != [] && s[|s| - 1] == Sep {
      RStripRemovesTrailingSeps(s[..|s| - 1]);
    }
  }

  predicate AllSeps(s: string)
  {
    forall k :: 0 <= k < |s| ==> s[k] == Sep
  }

  /** `os.path.dirname`: everything before the base name, trailing separators removed unless it is all separators. */
  function DirName(p: string): string
  {
    var head := p[..AfterLastSep(p)];
    if head != [] && !AllSeps(head) then RStripSep(head) else head
  }

  /** `os.path.join(root, name)` for a name that is not absolute. */
  function Join(root: string, name: string): string
  {
    if root == [] || root[|root| - 1] == Sep then root + name else root + [Sep] + name
  }

  /** A separator followed by separator-free text: the last separator is the one in front. */
  lemma {:induction false} AfterLastSepOfSuffix(s: string, name: string)
    requires s != [] && s[|s| - 1] == Sep
    requires Sep !in name
    ensures AfterLastSep(s + name) == |s|
    decreases |name|
  {
    if name == [] {
      assert s + name == s;
    } else {
      var p := s + name;
      assert p[|p| - 1] == name[|name| - 1];
      assert p[..|p| - 1] == s + name[..|name| - 1];
      AfterLastSepOfSuffix(s, name[..|name| - 1]);
    }
  }

  /**
   * Joining a folder with a file name and splitting the path again gives
   * the file name back as the base name and the folder (without trailing
   * separators) as the directory name.
   */
  lemma JoinSplits(root: string, name: string)
    requires Sep !in name
    requires !AllSeps(root)
    ensures BaseName(Join(root, name)) == name
    ensures DirName(Join(root, name)) == RStripSep(root)
  {
    var p := Join(root, name);
    var s := if root[|root| - 1] == Sep then root else root + [Sep];
    assert p == s + name;
    AfterLastSepOfSuffix(s, name);
    assert p[|s|..] == name;
    var head := p[..|s|];
    assert head == s;
    assert !AllSeps(head) by {
      var k :| 0 <= k < |root| && root[k] != Sep;
      assert head[k] == root[k];
    }
    if s != root {
      assert s[..|s| - 1] == root;
    }
  }

  /** The category of a sign stored directly in `folder`: the folder's own name. */
  lemma CategoryIsFolderName(folder: string, name: string)
    requires Sep !in name
    requires !AllSeps(folder)
    ensures BaseName(DirName(Join(folder, name))) == BaseName(RStripSep(folder))
  {
    JoinSplits(folder, name);
  }
}
