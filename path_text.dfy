/**
 * The few System.IO.Path and string operations the engine relies on, on
 * Windows path syntax: '\' and '/' separate directories, ':' ends a volume
 * name. StartsWith is an ordinal prefix test; case-insensitive comparison
 * folds ASCII letters only.
 */
module PathText {

  import opened Wrappers

  predicate IsDirectorySeparator(c: char) {
    c == '\\' || c == '/'
  }

  /** Separators at which the file-name and extension scans stop. */
  predicate IsNameBoundary(c: char) {
    IsDirectorySeparator(c) || c == ':'
  }

  /** string.StartsWith, as an ordinal prefix test. */
  predicate StartsWith(s: string, prefix: string) {
    prefix <= s
  }

  /**
   * Path.GetFileName: the text after the last separator (the whole path when
   * there is none).
   */
  function FileName(path: string): (name: string)
    ensures |name| <= |path| && name == path[|path| - |name|..]
    ensures forall k :: 0 <= k < |name| ==> !IsNameBoundary(name[k])
    ensures |name| < |path| ==> IsNameBoundary(path[|path| - |name| - 1])
  {
    if path == [] then []
    else if IsNameBoundary(path[|path| - 1]) then []
    else FileName(path[..|path| - 1]) + [path[|path| - 1]]
  }

  /**
   * The file name is the one boundary-free suffix that starts the path or
   * follows a boundary.
   */
  lemma FileNameIsUnique(path: string, s: string)
    requires |s| <= |path| && path[|path| - |s|..] == s
    requires forall k :: 0 <= k < |s| ==> !IsNameBoundary(s[k])
    requires |s| == |path| || IsNameBoundary(path[|path| - |s| - 1])
    ensures FileName(path) == s
  {
  }

  /**
   * Path.GetExtension: scanning from the end, the text from the first '.'
   * met (dot included), empty when a separator comes first, when there is no
   * dot, or when the dot is the last character.
   */
  function Extension(path: string): (ext: string)
    ensures ext == [] || (2 <= |ext| <= |path| && ext == path[|path| - |ext|..] && ext[0] == '.')
    ensures forall k :: 1 <= k < |ext| ==> ext[k] != '.' && !IsNameBoundary(ext[k])
    ensures forall i :: 0 <= i < |path| && ExtensionStartsAt(path, i) ==> ext == path[i..]
  {
    ExtensionFrom(path, |path|)
  }

  /**
   * path[i] is the '.' an extension starts with: it is not the last
   * character, and neither a '.' nor a boundary follows it.
   */
  predicate ExtensionStartsAt(path: string, i: nat)
    requires i < |path|
  {
    && path[i] == '.' && i + 1 < |path|
    && forall k :: i < k < |path| ==> path[k] != '.' && !IsNameBoundary(path[k])
  }

  /** The scan of Extension, looking at path[i - 1] and further left. */
  function ExtensionFrom(path: string, i: nat): (ext: string)
    requires i <= |path|
    requires forall k :: i <= k < |path| ==> path[k] != '.' && !IsNameBoundary(path[k])
    ensures ext == [] || (2 <= |ext| <= |path| && |path| - |ext| < i && ext == path[|path| - |ext|..] && ext[0] == '.')
    ensures forall k :: 1 <= k < |ext| ==> ext[k] != '.' && !IsNameBoundary(ext[k])
    ensures forall j :: 0 <= j < i && ExtensionStartsAt(path, j) ==> ext == path[j..]
    decreases i
  {
    if i == 0 then []
    else if path[i - 1] == '.' then (if i == |path| then [] else path[i - 1..])
    else if IsNameBoundary(path[i - 1]) then []
    else ExtensionFrom(path, i - 1)
  }

  /**
   * The length of the root of a path: 3 for a drive root such as "C:\",
   * 2 for a drive-relative "C:", 1 for a path that starts with a separator,
   * 0 for a relative path.
   */
  function RootLength(path: string): (n: nat)
    ensures n <= |path| && n <= 3
    ensures n == 0 <==> (|path| < 2 || path[1] != ':') && (path == [] || !IsDirectorySeparator(path[0]))
  {
    if 2 <= |path| && path[1] == ':' then (if 3 <= |path| && IsDirectorySeparator(path[2]) then 3 else 2)
    else if 1 <= |path| && IsDirectorySeparator(path[0]) then 1
    else 0
  }

  /** The characters of s that are not separators, in order. */
  function NonSeparators(s: string): (t: string)
    ensures |t| <= |s|
    ensures forall k :: 0 <= k < |t| ==> !IsDirectorySeparator(t[k])
    ensures s != [] && !IsDirectorySeparator(s[0]) ==> t != [] && t[0] == s[0]
  {
    if s == [] then []
    else if IsDirectorySeparator(s[0]) then NonSeparators(s[1..])
    else [s[0]] + NonSeparators(s[1..])
  }

  /**
   * Where the separators of s stand among its other characters: g[i] holds
   * when a separator lies just before the i-th non-separator character, and
   * the last flag when s ends with a separator.
   */
  function SeparatorGaps(s: string): (g: seq<bool>)
    ensures |g| == |NonSeparators(s)| + 1
    ensures g[0] <==> s != [] && IsDirectorySeparator(s[0])
  {
    if s == [] then [false]
    else if IsDirectorySeparator(s[0]) then SeparatorGaps(s[1..])[0 := true]
    else [false] + SeparatorGaps(s[1..])
  }

  /** Two separators at the start, as in a UNC or device path. */
  predicate LeadingPair(s: string) {
    2 <= |s| && IsDirectorySeparator(s[0]) && IsDirectorySeparator(s[1])
  }

  /** Only '\' separates, and no two separators are adjacent except a leading pair. */
  predicate InNormalForm(s: string) {
    && (forall k :: 0 <= k < |s| ==> s[k] != '/')
    && (forall k :: 1 <= k < |s| - 1 ==> !(IsDirectorySeparator(s[k]) && IsDirectorySeparator(s[k + 1])))
  }

  /**
   * The separators of a path in their normal form: each run of separators
   * becomes one '\', except that a leading pair stays a pair, and the other
   * characters are kept in order. NormalFormIsUnique shows that these
   * properties leave only one result.
   */
  function NormalizeSeparators(s: string): (r: string)
    ensures |r| <= |s|
    ensures InNormalForm(r)
    ensures NonSeparators(r) == NonSeparators(s)
    ensures SeparatorGaps(r) == SeparatorGaps(s)
    ensures LeadingPair(r) <==> LeadingPair(s)
  {
    if s != [] && IsDirectorySeparator(s[0]) then
      CollapseKeepsShape(s[1..]);
      var r := ['\\'] + CollapseSeparators(s[1..]);
      assert r[1..] == CollapseSeparators(s[1..]);
      r
    else
      CollapseKeepsShape(s);
      CollapseSeparators(s)
  }

  /** The scan of NormalizeSeparators keeps the other characters and the gaps that hold separators. */
  lemma {:induction false} CollapseKeepsShape(s: string)
    ensures NonSeparators(CollapseSeparators(s)) == NonSeparators(s)
    ensures SeparatorGaps(CollapseSeparators(s)) == SeparatorGaps(s)
    decreases |s|
  {
    if s != [] {
      var t := s[1..];
      var c := CollapseSeparators(t);
      CollapseKeepsShape(t);
      if IsDirectorySeparator(s[0]) && 1 < |s| && IsDirectorySeparator(s[1]) {
        assert SeparatorGaps(s) == SeparatorGaps(t);
      } else {
        var h := if IsDirectorySeparator(s[0]) then '\\' else s[0];
        assert ([h] + c)[1..] == c;
      }
    }
  }

  /**
   * Two strings with only '\' separators, no two of them adjacent, that
   * have the same other characters and separators in the same gaps are
   * equal.
   */
  lemma {:induction false} CollapsedFormIsUnique(a: string, b: string)
    requires forall k :: 0 <= k < |a| ==> a[k] != '/'
    requires forall k :: 0 <= k < |b| ==> b[k] != '/'
    requires forall k :: 0 <= k < |a| - 1 ==> !(IsDirectorySeparator(a[k]) && IsDirectorySeparator(a[k + 1]))
    requires forall k :: 0 <= k < |b| - 1 ==> !(IsDirectorySeparator(b[k]) && IsDirectorySeparator(b[k + 1]))
    requires NonSeparators(a) == NonSeparators(b) && SeparatorGaps(a) == SeparatorGaps(b)
    ensures a == b
    decreases |a|
  {
    if a != [] {
      var ta, tb := a[1..], b[1..];
      if IsDirectorySeparator(a[0]) {
        assert !SeparatorGaps(ta)[0] && !SeparatorGaps(tb)[0];
        assert SeparatorGaps(ta) == SeparatorGaps(a)[0 := false];
        assert SeparatorGaps(tb) == SeparatorGaps(b)[0 := false];
      } else {
        assert NonSeparators(ta) == NonSeparators(a)[1..];
        assert NonSeparators(tb) == NonSeparators(b)[1..];
        assert SeparatorGaps(ta) == SeparatorGaps(a)[1..] && SeparatorGaps(tb) == SeparatorGaps(b)[1..];
      }
      CollapsedFormIsUnique(ta, tb);
      assert a == [a[0]] + ta && b == [b[0]] + tb;
    }
  }

  /**
   * A string in normal form is determined by its other characters, the
   * gaps that hold separators and whether it starts with a pair.
   */
  lemma NormalFormIsUnique(a: string, b: string)
    requires InNormalForm(a) && InNormalForm(b)
    requires NonSeparators(a) == NonSeparators(b) && SeparatorGaps(a) == SeparatorGaps(b)
    requires LeadingPair(a) <==> LeadingPair(b)
    ensures a == b
  {
    if LeadingPair(a) {
      var ta, tb := a[1..], b[1..];
      assert SeparatorGaps(ta) == SeparatorGaps(a) && SeparatorGaps(tb) == SeparatorGaps(b);
      CollapsedFormIsUnique(ta, tb);
      assert a == [a[0]] + ta && b == [b[0]] + tb;
    } else {
      CollapsedFormIsUnique(a, b);
    }
  }

  /** Normalising twice changes nothing more. */
  lemma NormalizeSeparatorsIsIdempotent(s: string)
    ensures NormalizeSeparators(NormalizeSeparators(s)) == NormalizeSeparators(s)
  {
    var r := NormalizeSeparators(s);
    NormalFormIsUnique(NormalizeSeparators(r), r);
  }

  /** The scan of NormalizeSeparators after its first character. */
  function CollapseSeparators(s: string): (r: string)
    ensures |r| <= |s|
    ensures forall k :: 0 <= k < |r| ==> r[k] != '/'
    ensures forall k :: 0 <= k < |r| - 1 ==> !(IsDirectorySeparator(r[k]) && IsDirectorySeparator(r[k + 1]))
    ensures r != [] && IsDirectorySeparator(r[0]) ==> IsDirectorySeparator(s[0])
    ensures (forall k :: 0 <= k < |s| ==> s[k] != '/' && (IsDirectorySeparator(s[k]) ==> k + 1 == |s| || !IsDirectorySeparator(s[k + 1])))
      ==> r == s
  {
    if s == [] then []
    else if IsDirectorySeparator(s[0]) && 1 < |s| && IsDirectorySeparator(s[1]) then CollapseSeparators(s[1..])
    else [if IsDirectorySeparator(s[0]) then '\\' else s[0]] + CollapseSeparators(s[1..])
  }

  /**
   * The scan of GetDirectoryName, going left from i over positions at or
   * above the root: the position of the last separator it meets, or the
   * root length when it meets none.
   */
  function LastSeparator(path: string, root: nat, i: nat): (e: nat)
    requires root <= i <= |path|
    ensures root <= e <= i
    ensures e == root || (e < i && IsDirectorySeparator(path[e]))
    ensures forall k :: e < k < i ==> !IsDirectorySeparator(path[k])
    decreases i
  {
    if i == root then root
    else if IsDirectorySeparator(path[i - 1]) then i - 1
    else LastSeparator(path, root, i - 1)
  }

  /** Going left from e, drops the separators just before it, down to the root. */
  function TrimSeparators(path: string, root: nat, e: nat): (t: nat)
    requires root <= e <= |path|
    ensures root <= t <= e
    ensures t == root || !IsDirectorySeparator(path[t - 1])
    ensures forall k :: t <= k < e ==> IsDirectorySeparator(path[k])
    decreases e
  {
    if e > root && IsDirectorySeparator(path[e - 1]) then TrimSeparators(path, root, e - 1) else e
  }

  /**
   * Path.GetDirectoryName: None (the source's null) for an empty path or a
   * root; otherwise the path up to its last separator, with the separators
   * just before that one trimmed, the root kept, and the separators put in
   * normal form.
   */
  function DirectoryName(path: string): (dir: Option<string>)
    ensures dir.None? <==> |path| <= RootLength(path)
    ensures dir.Some? ==> |dir.value| < |path|
    ensures dir.Some? ==> forall k :: 0 <= k < |dir.value| ==> dir.value[k] != '/'
  {
    var root := RootLength(path);
    if |path| <= root then None
    else
      var e := TrimSeparators(path, root, LastSeparator(path, root, |path|));
      Some(NormalizeSeparators(path[..e]))
  }

  /**
   * The directory of a file: the file name `name` (no separator in it)
   * either follows a root directly ("C:\" + name) or follows a directory
   * `dir` and one separator (dir + "\" + name). Either way, when `dir` is
   * in normal form, GetDirectoryName gives `dir` back.
   */
  lemma DirectoryNameOfChild(dir: string, name: string, path: string)
    requires name != [] && forall k :: 0 <= k < |name| ==> !IsDirectorySeparator(name[k])
    requires NormalizeSeparators(dir) == dir
    requires || (path == dir + name && RootLength(path) == |dir|)
             || (&& path == dir + "\\" + name && RootLength(path) <= |dir|
                 && dir != [] && !IsDirectorySeparator(dir[|dir| - 1]))
    ensures DirectoryName(path) == Some(dir)
  {
    var root := RootLength(path);
    var e := LastSeparator(path, root, |path|);
    if path == dir + name && root == |dir| {
      LastSeparatorSkipsName(path, root, |dir|, |path|);
    } else {
      LastSeparatorSkipsName(path, root, |dir| + 1, |path|);
      assert path[|dir|] == '\\';
      assert path[|dir| - 1] == dir[|dir| - 1];
    }
    assert path[..TrimSeparators(path, root, e)] == dir;
  }

  /**
   * The directory of a file `name` that follows `dir` and one separator of
   * either kind, above the root: GetDirectoryName gives `dir` with its
   * separators in normal form.
   */
  lemma DirectoryNameOfChildAnySeparators(dir: string, sep: char, name: string)
    requires name != [] && forall k :: 0 <= k < |name| ==> !IsDirectorySeparator(name[k])
    requires IsDirectorySeparator(sep) && dir != [] && !IsDirectorySeparator(dir[|dir| - 1])
    requires RootLength(dir + [sep] + name) <= |dir|
    ensures DirectoryName(dir + [sep] + name) == Some(NormalizeSeparators(dir))
  {
    var path := dir + [sep] + name;
    var root := RootLength(path);
    LastSeparatorSkipsName(path, root, |dir| + 1, |path|);
    assert path[|dir|] == sep;
    assert LastSeparator(path, root, |dir| + 1) == |dir|;
    assert path[|dir| - 1] == dir[|dir| - 1];
    assert TrimSeparators(path, root, |dir|) == |dir|;
    assert path[..|dir|] == dir;
  }

  /** A path written with '/' gets its directory with '\'. */
  lemma DirectoryNameOfSlashedPath()
    ensures DirectoryName("C:/V/a.mp4") == Some("C:\\V")
  {
    var dir, path := "C:/V", "C:/V/a.mp4";
    assert path == dir + ['/'] + "a.mp4";
    assert RootLength(path) == 3;
    DirectoryNameOfChildAnySeparators(dir, '/', "a.mp4");
    NormalizeSlashedDirectory();
  }

  lemma NormalizeSlashedDirectory()
    ensures NormalizeSeparators("C:/V") == "C:\\V"
  {
    assert "C:/V"[1..] == ":/V" && ":/V"[1..] == "/V" && "/V"[1..] == "V";
  }

  /** The scan of GetDirectoryName passes over a stretch without separators. */
  lemma {:induction false} LastSeparatorSkipsName(path: string, root: nat, j: nat, i: nat)
    requires root <= j <= i <= |path|
    requires forall k :: j <= k < i ==> !IsDirectorySeparator(path[k])
    ensures LastSeparator(path, root, i) == LastSeparator(path, root, j)
    decreases i
  {
    if j < i {
      LastSeparatorSkipsName(path, root, j, i - 1);
    }
  }

  /** A file directly on a drive root has that root as its directory; the root itself has none. */
  lemma DirectoryNameOnDriveRoot()
    ensures DirectoryName("C:\\a.mp4") == Some("C:\\")
    ensures DirectoryName("C:\\") == None
  {
    DirectoryNameOfChild("C:\\", "a.mp4", "C:\\a.mp4");
  }

  function ToLowerAscii(c: char): char {
    if 'A' <= c <= 'Z' then (c as int + 32) as char else c
  }

  /** The string with every ASCII capital replaced by its small letter. */
  function ToLowerAsciiString(s: string): (r: string)
    ensures |r| == |s|
  {
    if s == [] then [] else [ToLowerAscii(s[0])] + ToLowerAsciiString(s[1..])
  }

  /** StringComparer.CurrentCultureIgnoreCase.Equals, for ASCII letters. */
  predicate EqualsIgnoreCase(a: string, b: string) {
    ToLowerAsciiString(a) == ToLowerAsciiString(b)
  }

  /** Enumerable.Contains(list, value, CurrentCultureIgnoreCase). */
  predicate ContainsIgnoreCase(list: seq<string>, value: string) {
    exists k :: 0 <= k < |list| && EqualsIgnoreCase(list[k], value)
  }

  /** An ordinal match is also a case-insensitive one. */
  lemma ContainsImpliesContainsIgnoreCase(list: seq<string>, value: string)
    requires value in list
    ensures ContainsIgnoreCase(list, value)
  {
    var k :| 0 <= k < |list| && list[k] == value;
    assert EqualsIgnoreCase(list[k], value);
  }
}
