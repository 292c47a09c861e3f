// The playlist of main/animation_player.c: finding the directory that holds
// the animations, and listing, classifying and sorting its files.
//
// The SD card is a directory tree given as a value: readdir's order is the
// order of a directory's children, and an entry whose stat fails or that is
// neither a regular file nor a directory is an Other node.
module Playlist {
  import opened Esp

  // ---------------------------------------------------------------------
  // File names
  // ---------------------------------------------------------------------

  /** asset_type_t. */
  datatype AssetType = Webp | Gif

  /** tolower for ASCII letters. */
  function Lower(c: char): char
  {
    if 'A' <= c <= 'Z' then (c as int + 32) as char else c
  }

  /** strcasecmp(a, b) == 0, compared from the last character back. */
  predicate EqualIgnoringCase(a: string, b: string)
    decreases |a|
  {
    |a| == |b| &&
    (|a| == 0 || (Lower(a[|a| - 1]) == Lower(b[|b| - 1]) && EqualIgnoringCase(a[..|a| - 1], b[..|b| - 1])))
  }

  /** The comparison is position by position: equal lengths, and equal characters after tolower at every index. */
  lemma {:induction false} EqualIgnoringCaseAt(a: string, b: string)
    ensures EqualIgnoringCase(a, b) <==> |a| == |b| && forall i :: 0 <= i < |a| ==> Lower(a[i]) == Lower(b[i])
    decreases |a|
  {
    if |a| == |b| && |a| > 0 {
      var n := |a| - 1;
      EqualIgnoringCaseAt(a[..n], b[..n]);
      if forall i :: 0 <= i < |a| ==> Lower(a[i]) == Lower(b[i]) {
        assert forall i :: 0 <= i < n ==> Lower(a[..n][i]) == Lower(b[..n][i]);
      }
      if EqualIgnoringCase(a, b) {
        forall i | 0 <= i < |a|
          ensures Lower(a[i]) == Lower(b[i])
        {
          if i < n {
            assert a[..n][i] == a[i] && b[..n][i] == b[i];
          }
        }
      }
    }
  }

  /** The name is at least as long as ext and ends in ext, ignoring case, compared from the last character back. */
  predicate EndsWithIgnoringCase(name: string, ext: string)
    decreases |ext|
  {
    |name| >= |ext| &&
    (|ext| == 0 ||
     (Lower(name[|name| - 1]) == Lower(ext[|ext| - 1]) && EndsWithIgnoringCase(name[..|name| - 1], ext[..|ext| - 1])))
  }

  /** Ending in ext is strcasecmp of the name's last |ext| characters against ext returning 0. */
  lemma {:induction false} EndsWithIsSuffixCompare(name: string, ext: string)
    ensures EndsWithIgnoringCase(name, ext) <==> |name| >= |ext| && EqualIgnoringCase(name[|name| - |ext|..], ext)
    decreases |ext|
  {
    if |name| >= |ext| && |ext| > 0 {
      var a := name[|name| - |ext|..];
      EndsWithIsSuffixCompare(name[..|name| - 1], ext[..|ext| - 1]);
      assert a[..|a| - 1] == name[..|name| - 1][|name| - |ext|..];
      assert a[|a| - 1] == name[|name| - 1];
    }
  }

  /** The file-name test the enumeration and the directory search share. */
  predicate IsAnimationName(name: string)
  {
    EndsWithIgnoringCase(name, ".webp") || EndsWithIgnoringCase(name, ".gif")
  }

  /** get_asset_type: WebP unless the name ends in ".gif"; WebP is also the default. */
  function AssetTypeOf(name: string): AssetType
  {
    if EndsWithIgnoringCase(name, ".webp") then Webp
    else if EndsWithIgnoringCase(name, ".gif") then Gif
    else Webp
  }

  /** A name cannot end in both extensions: their last letters differ even ignoring case. */
  lemma ExtensionsExclusive(name: string)
    ensures !(EndsWithIgnoringCase(name, ".webp") && EndsWithIgnoringCase(name, ".gif"))
  {
    LastLetter(name, ".webp");
    LastLetter(name, ".gif");
  }

  lemma LastLetter(name: string, ext: string)
    ensures EndsWithIgnoringCase(name, ext) && |ext| > 0 ==> Lower(name[|name| - 1]) == Lower(ext[|ext| - 1])
  {
  }

  /** The type of a name is GIF exactly when it ends in ".gif", ignoring case. */
  lemma AssetTypeMatchesExtension(name: string)
    ensures AssetTypeOf(name) == Gif <==> EndsWithIgnoringCase(name, ".gif")
    ensures EndsWithIgnoringCase(name, ".webp") ==> AssetTypeOf(name) == Webp
  {
    ExtensionsExclusive(name);
  }

  // ---------------------------------------------------------------------
  // The directory tree
  // ---------------------------------------------------------------------

  datatype Node =
    | File(name: string)                                        // a regular file
    | Dir(name: string, openable: bool, children: seq<Node>)   // opendir succeeds iff openable
    | Other(name: string)                                       // stat fails, or neither file nor directory

  /** Size of the path buffers; a joined path of this length or more is skipped. */
  const PathMax: int := 512

  function Join(dir: string, name: string): string
  {
    dir + "/" + name
  }

  /** readdir entries that the loops look at: not "." or "..", and a path that fits the buffer. */
  predicate Listed(dir: string, n: Node)
  {
    n.name != "." && n.name != ".." && |Join(dir, n.name)| < PathMax
  }

  /** An entry that counts as an animation file of the directory at dir. */
  predicate IsAnimationEntry(dir: string, n: Node)
  {
    Listed(dir, n) && n.File? && IsAnimationName(n.name)
  }

  predicate HasAnimationFiles(dir: string, entries: seq<Node>)
  {
    exists i :: 0 <= i < |entries| && IsAnimationEntry(dir, entries[i])
  }

  /** directory_has_animation_files: stops at the first animation file. */
  method DirectoryHasAnimationFiles(dir: string, d: Node) returns (has: bool)
    ensures has <==> d.Dir? && d.openable && HasAnimationFiles(dir, d.children)
  {
    if !d.Dir? || !d.openable {
      return false;
    }
    has := false;
    var i := 0;
    while i < |d.children|
      invariant 0 <= i <= |d.children|
      invariant forall j :: 0 <= j < i ==> !IsAnimationEntry(dir, d.children[j])
    {
      if IsAnimationEntry(dir, d.children[i]) {
        has := true;
        return;
      }
      i := i + 1;
    }
  }

  /** What find_animations_directory returns: the directory found, or an error. */
  datatype Search = Found(path: string) | Failed(err: Err)

  /**
   * find_animations_directory: a directory that cannot be opened fails; one
   * that holds animation files is the answer; otherwise its subdirectories
   * are searched in readdir order and the first success is returned.
   */
  function Find(path: string, n: Node): (r: Search)
    ensures r.Failed? ==> r.err == Fail || r.err == NotFound
    ensures r.Failed? && r.err == Fail <==> !(n.Dir? && n.openable)
    decreases n, 1
  {
    if !n.Dir? || !n.openable then Failed(Fail)
    else if HasAnimationFiles(path, n.children) then Found(path)
    else SearchChildren(path, n, 0)
  }

  function SearchChildren(path: string, n: Node, i: nat): (r: Search)
    requires n.Dir? && i <= |n.children|
    ensures r.Failed? ==> r.err == NotFound
    decreases n, 0, |n.children| - i
  {
    if i == |n.children| then Failed(NotFound)
    else
      var c := n.children[i];
      if Listed(path, c) && c.Dir? then
        var r := Find(Join(path, c.name), c);
        if r.Found? then r else SearchChildren(path, n, i + 1)
      else SearchChildren(path, n, i + 1)
  }

  /** Every directory below (and including) n that holds animation files, in preorder. */
  function Candidates(path: string, n: Node): seq<string>
    decreases n, 1
  {
    if !n.Dir? || !n.openable then []
    else (if HasAnimationFiles(path, n.children) then [path] else []) + ChildCandidates(path, n, 0)
  }

  function ChildCandidates(path: string, n: Node, i: nat): seq<string>
    requires n.Dir? && i <= |n.children|
    decreases n, 0, |n.children| - i
  {
    if i == |n.children| then []
    else
      var c := n.children[i];
      (if Listed(path, c) && c.Dir? then Candidates(Join(path, c.name), c) else []) + ChildCandidates(path, n, i + 1)
  }

  /** The search finds something exactly when some directory qualifies, and then it finds the first in preorder. */
  lemma {:induction false} FindIsFirstCandidate(path: string, n: Node)
    ensures Find(path, n).Found? <==> |Candidates(path, n)| > 0
    ensures Find(path, n).Found? ==> Find(path, n).path == Candidates(path, n)[0]
    decreases n, 1
  {
    if n.Dir? && n.openable && !HasAnimationFiles(path, n.children) {
      SearchIsFirstCandidate(path, n, 0);
    }
  }

  lemma {:induction false} SearchIsFirstCandidate(path: string, n: Node, i: nat)
    requires n.Dir? && i <= |n.children|
    ensures SearchChildren(path, n, i).Found? <==> |ChildCandidates(path, n, i)| > 0
    ensures SearchChildren(path, n, i).Found? ==> SearchChildren(path, n, i).path == ChildCandidates(path, n, i)[0]
    decreases n, 0, |n.children| - i
  {
    if i < |n.children| {
      var c := n.children[i];
      SearchIsFirstCandidate(path, n, i + 1);
      if Listed(path, c) && c.Dir? {
        FindIsFirstCandidate(Join(path, c.name), c);
      }
    }
  }

  // ---------------------------------------------------------------------
  // strcmp order and sorting
  // ---------------------------------------------------------------------

  /** strcmp(a, b) <= 0: byte-wise order, a proper prefix first. */
  predicate StrLe(a: string, b: string)
  {
    if a == [] then true
    else if b == [] then false
    else if a[0] != b[0] then a[0] < b[0]
    else StrLe(a[1..], b[1..])
  }

  lemma {:induction false} StrLeTotal(a: string, b: string)
    ensures StrLe(a, b) || StrLe(b, a)
  {
    if a != [] && b != [] && a[0] == b[0] {
      StrLeTotal(a[1..], b[1..]);
    }
  }

  lemma {:induction false} StrLeAntisymmetric(a: string, b: string)
    requires StrLe(a, b) && StrLe(b, a)
    ensures a == b
  {
    if a != [] && b != [] {
      StrLeAntisymmetric(a[1..], b[1..]);
      assert a == [a[0]] + a[1..] && b == [b[0]] + b[1..];
    }
  }

  lemma {:induction false} StrLeTransitive(a: string, b: string, c: string)
    requires StrLe(a, b) && StrLe(b, c)
    ensures StrLe(a, c)
  {
    if a != [] && b != [] && c != [] && a[0] == b[0] && b[0] == c[0] {
      StrLeTransitive(a[1..], b[1..], c[1..]);
    }
  }

  predicate Sorted(s: seq<string>)
  {
    forall i, j :: 0 <= i < j < |s| ==> StrLe(s[i], s[j])
  }

  /** Inserts x before the first element it does not follow. */
  function Insert(x: string, s: seq<string>): seq<string>
  {
    if s == [] then [x]
    else if StrLe(x, s[0]) then [x] + s
    else [s[0]] + Insert(x, s[1..])
  }

  /** The playlist order: the names sorted by strcmp, as qsort with compare_strings leaves them. */
  function SortByName(s: seq<string>): seq<string>
  {
    if s == [] then [] else Insert(s[0], SortByName(s[1..]))
  }

  lemma {:induction false} InsertKeepsElements(x: string, s: seq<string>)
    ensures multiset(Insert(x, s)) == multiset(s) + multiset{x}
    ensures |Insert(x, s)| == |s| + 1
  {
    if s != [] && !StrLe(x, s[0]) {
      InsertKeepsElements(x, s[1..]);
      assert s == [s[0]] + s[1..];
    }
  }

  lemma {:induction false} InsertSorted(x: string, s: seq<string>)
    requires Sorted(s)
    ensures Sorted(Insert(x, s))
  {
    if s == [] {
    } else if StrLe(x, s[0]) {
      var r := [x] + s;
      forall i, j | 0 <= i < j < |r|
        ensures StrLe(r[i], r[j])
      {
        if i == 0 && j > 1 {
          StrLeTransitive(x, s[0], s[j - 1]);
        }
      }
    } else {
      StrLeTotal(x, s[0]);
      InsertSorted(x, s[1..]);
      InsertKeepsElements(x, s[1..]);
      var t := Insert(x, s[1..]);
      var r := [s[0]] + t;
      forall i, j | 0 <= i < j < |r|
        ensures StrLe(r[i], r[j])
      {
        if i == 0 {
          assert t[j - 1] in multiset(t);
          assert t[j - 1] in multiset(s[1..]) || t[j - 1] == x;
          if t[j - 1] != x {
            var k :| 0 <= k < |s[1..]| && s[1..][k] == t[j - 1];
            assert s[k + 1] == t[j - 1];
          }
        }
      }
    }
  }

  /** The sorted list holds the same names, each as often, in strcmp order. */
  lemma {:induction false} SortByNameCorrect(s: seq<string>)
    ensures Sorted(SortByName(s))
    ensures multiset(SortByName(s)) == multiset(s)
  {
    if s != [] {
      SortByNameCorrect(s[1..]);
      InsertSorted(s[0], SortByName(s[1..]));
      InsertKeepsElements(s[0], SortByName(s[1..]));
      assert s == [s[0]] + s[1..];
    }
  }

  /**
   * Any sorting of the names gives the same list, whatever algorithm the C
   * library's qsort uses: two sorted lists with the same names are equal.
   */
  lemma {:induction false} SortedIsUnique(s: seq<string>, t: seq<string>)
    requires Sorted(s) && Sorted(t) && multiset(s) == multiset(t)
    ensures s == t
  {
    if s == [] {
      assert |t| == |multiset(t)| == 0;
    } else {
      assert |t| == |multiset(t)| == |multiset(s)| == |s|;
      SameHead(s, t);
      SortedTail(s);
      SortedTail(t);
      TailMultiset(s);
      TailMultiset(t);
      SortedIsUnique(s[1..], t[1..]);
      assert s == [s[0]] + s[1..] && t == [t[0]] + t[1..];
    }
  }

  lemma SameHead(s: seq<string>, t: seq<string>)
    requires Sorted(s) && Sorted(t) && multiset(s) == multiset(t) && s != [] && t != []
    ensures s[0] == t[0]
  {
    assert s[0] in multiset(t) && t[0] in multiset(s);
    SortedHeadIsLeast(s, t[0]);
    SortedHeadIsLeast(t, s[0]);
    StrLeAntisymmetric(s[0], t[0]);
  }

  lemma SortedTail(s: seq<string>)
    requires Sorted(s) && s != []
    ensures Sorted(s[1..])
  {
    forall i, j | 0 <= i < j < |s| - 1
      ensures StrLe(s[1..][i], s[1..][j])
    {
      assert s[1..][i] == s[i + 1] && s[1..][j] == s[j + 1];
    }
  }

  lemma TailMultiset(s: seq<string>)
    requires s != []
    ensures multiset(s[1..]) == multiset(s) - multiset{s[0]}
  {
    assert s == [s[0]] + s[1..];
  }

  /** The head of a sorted list comes no later than any of its elements. */
  lemma SortedHeadIsLeast(s: seq<string>, x: string)
    requires Sorted(s) && x in multiset(s)
    ensures StrLe(s[0], x)
  {
    var k :| 0 <= k < |s| && s[k] == x;
    if k == 0 {
      StrLeTotal(x, x);
    }
  }

  // ---------------------------------------------------------------------
  // Enumeration
  // ---------------------------------------------------------------------

  /** The names of the animation files of a directory, in readdir order. */
  function AnimationNames(dir: string, entries: seq<Node>): seq<string>
  {
    if entries == [] then []
    else
      var rest := AnimationNames(dir, entries[1..]);
      if IsAnimationEntry(dir, entries[0]) then [entries[0].name] + rest else rest
  }

  /** Only animation names are collected, and some are exactly when the directory holds an animation file. */
  lemma {:induction false} AnimationNamesFacts(dir: string, entries: seq<Node>)
    ensures forall i :: 0 <= i < |AnimationNames(dir, entries)| ==> IsAnimationName(AnimationNames(dir, entries)[i])
    ensures |AnimationNames(dir, entries)| == 0 <==> !HasAnimationFiles(dir, entries)
  {
    if entries != [] {
      AnimationNamesFacts(dir, entries[1..]);
      if HasAnimationFiles(dir, entries[1..]) {
        var i :| 0 <= i < |entries[1..]| && IsAnimationEntry(dir, entries[1..][i]);
        assert IsAnimationEntry(dir, entries[i + 1]);
      }
      if HasAnimationFiles(dir, entries) && !IsAnimationEntry(dir, entries[0]) {
        var i :| 0 <= i < |entries| && IsAnimationEntry(dir, entries[i]);
        assert IsAnimationEntry(dir, entries[1..][i - 1]);
      }
    }
  }

  /** s_sd_file_list: the playlist the player cycles through. */
  class FileList {
    var filenames: seq<string>
    var types: seq<AssetType>
    var count: nat
    var currentIndex: nat
    var animationsDir: Option<string>

    /** Consistent: one type per name, each recomputed from its name. */
    predicate Valid()
      reads this
    {
      |filenames| == |types| == count && forall i :: 0 <= i < count ==> types[i] == AssetTypeOf(filenames[i])
    }

    constructor ()
      ensures Valid() && count == 0 && animationsDir == None
    {
      filenames := [];
      types := [];
      count := 0;
      currentIndex := 0;
      animationsDir := None;
    }

    /** free_sd_file_list. */
    method Free()
      modifies this
      ensures Valid() && count == 0 && currentIndex == 0 && filenames == [] && animationsDir == None
    {
      filenames := [];
      types := [];
      count := 0;
      currentIndex := 0;
      animationsDir := None;
    }

    /**
     * enumerate_animation_files over the directory d at path dir: counts the
     * animation files, collects their names in readdir order, sorts them and
     * recomputes every type from its sorted name.
     */
    method Enumerate(dir: string, d: Node) returns (err: Err)
      modifies this
      ensures Valid()
      ensures err == Ok <==> d.Dir? && d.openable && HasAnimationFiles(dir, d.children)
      ensures !(d.Dir? && d.openable) ==> err == Fail
      ensures err != Ok ==> count == 0 && filenames == [] && animationsDir == None
      ensures err == Ok ==> (filenames == SortByName(AnimationNames(dir, d.children)) && count > 0 &&
                             currentIndex == 0 && animationsDir == Some(dir))
    {
      Free();
      if !d.Dir? || !d.openable {
        return Fail;
      }
      var animCount := CountAnimationFiles(dir, d.children);
      if animCount == 0 {
        return NotFound;
      }
      var names, readTypes := CollectAnimationFiles(dir, d.children);
      AnimationNamesFacts(dir, d.children);
      var sorted := SortByName(names);
      SortKeepsNameProperty(names);
      var sortedTypes := RecomputeTypes(sorted, readTypes);
      count := animCount;
      filenames := sorted;
      types := sortedTypes;
      currentIndex := 0;
      animationsDir := Some(dir);
      err := Ok;
    }
  }

  /**
   * What a successful enumeration leaves in the playlist: only animation
   * files, each once per directory entry, in strcmp order, and each typed
   * GIF exactly when its name ends in ".gif".
   */
  lemma PlaylistOrdered(dir: string, entries: seq<Node>)
    ensures var names := SortByName(AnimationNames(dir, entries));
      Sorted(names) && multiset(names) == multiset(AnimationNames(dir, entries)) &&
      forall i :: 0 <= i < |names| ==>
        IsAnimationName(names[i]) && (AssetTypeOf(names[i]) == Gif <==> EndsWithIgnoringCase(names[i], ".gif"))
  {
    var names := SortByName(AnimationNames(dir, entries));
    AnimationNamesFacts(dir, entries);
    SortByNameCorrect(AnimationNames(dir, entries));
    SortKeepsNameProperty(AnimationNames(dir, entries));
    forall i | 0 <= i < |names|
      ensures AssetTypeOf(names[i]) == Gif <==> EndsWithIgnoringCase(names[i], ".gif")
    {
      AssetTypeMatchesExtension(names[i]);
    }
  }

  /** Sorting a list of animation names gives a list of animation names of the same length. */
  lemma SortKeepsNameProperty(names: seq<string>)
    requires forall i :: 0 <= i < |names| ==> IsAnimationName(names[i])
    ensures |SortByName(names)| == |names|
    ensures forall i :: 0 <= i < |names| ==> IsAnimationName(SortByName(names)[i])
  {
    SortByNameCorrect(names);
    var t := SortByName(names);
    assert |t| == |multiset(t)| == |multiset(names)| == |names|;
    forall i | 0 <= i < |t|
      ensures IsAnimationName(t[i])
    {
      assert t[i] in multiset(names);
      var j :| 0 <= j < |names| && names[j] == t[i];
    }
  }

  /** The counting pass of enumerate_animation_files. */
  method CountAnimationFiles(dir: string, entries: seq<Node>) returns (n: nat)
    ensures n == |AnimationNames(dir, entries)|
    ensures n > 0 <==> HasAnimationFiles(dir, entries)
  {
    n := 0;
    var i := 0;
    while i < |entries|
      invariant 0 <= i <= |entries|
      invariant n == |AnimationNames(dir, entries[..i])|
    {
      NamesAppend(dir, entries[..i], entries[i]);
      assert entries[..i + 1] == entries[..i] + [entries[i]];
      if IsAnimationEntry(dir, entries[i]) {
        n := n + 1;
      }
      i := i + 1;
    }
    assert entries[..|entries|] == entries;
    AnimationNamesFacts(dir, entries);
  }

  /** The collecting pass of enumerate_animation_files: names in readdir order, each with its type. */
  method CollectAnimationFiles(dir: string, entries: seq<Node>) returns (names: seq<string>, types: seq<AssetType>)
    ensures names == AnimationNames(dir, entries)
    ensures |types| == |names| && forall i :: 0 <= i < |names| ==> types[i] == AssetTypeOf(names[i])
  {
    names := [];
    types := [];
    var i := 0;
    while i < |entries|
      invariant 0 <= i <= |entries|
      invariant names == AnimationNames(dir, entries[..i])
      invariant |types| == |names| && forall j :: 0 <= j < |names| ==> types[j] == AssetTypeOf(names[j])
    {
      NamesAppend(dir, entries[..i], entries[i]);
      assert entries[..i + 1] == entries[..i] + [entries[i]];
      if IsAnimationEntry(dir, entries[i]) {
        names := names + [entries[i].name];
        types := types + [AssetTypeOf(entries[i].name)];
      }
      i := i + 1;
    }
    assert entries[..|entries|] == entries;
  }

  /**
   * The loop after qsort: the types were filled in readdir order, so each is
   * recomputed from the name now at its index.
   */
  method RecomputeTypes(names: seq<string>, old_types: seq<AssetType>) returns (types: seq<AssetType>)
    requires |old_types| == |names|
    ensures |types| == |names|
    ensures forall i :: 0 <= i < |names| ==> types[i] == AssetTypeOf(names[i])
    ensures forall i :: 0 <= i < |names| ==> (types[i] == Gif <==> EndsWithIgnoringCase(names[i], ".gif"))
  {
    types := old_types;
    var i := 0;
    while i < |names|
      invariant 0 <= i <= |names| && |types| == |names|
      invariant forall j :: 0 <= j < i ==> types[j] == AssetTypeOf(names[j])
    {
      types := types[i := AssetTypeOf(names[i])];
      i := i + 1;
    }
    forall k | 0 <= k < |names|
      ensures types[k] == Gif <==> EndsWithIgnoringCase(names[k], ".gif")
    {
      AssetTypeMatchesExtension(names[k]);
    }
  }

  lemma NamesAppend(dir: string, entries: seq<Node>, e: Node)
    ensures AnimationNames(dir, entries + [e]) ==
      AnimationNames(dir, entries) + (if IsAnimationEntry(dir, e) then [e.name] else [])
    decreases |entries|
  {
    if entries == [] {
      assert ([] + [e])[1..] == [];
    } else {
      assert (entries + [e])[1..] == entries[1..] + [e];
      NamesAppend(dir, entries[1..], e);
    }
  }
}
