/**
 The few pieces of the .NET base library that the asset filter relies on,
 modelled on values: `Path.GetFileName`, `Path.GetExtension`,
 `Path.GetFileNameWithoutExtension` (System.IO) and ordinal `String.IndexOf`.
 Paths are split on the Windows directory separators `/` and `\`.
 */
module BaseLibrary {
  import opened Options

  predicate IsDirectorySeparator(c: char) {
    c == '/' || c == '\\'
  }

  /** True when `sub` occurs in `s` starting at index `j`. */
  predicate OccursAt(s: string, sub: string, j: nat) {
    j + |sub| <= |s| && s[j..j + |sub|] == sub
  }

  /** Path.GetFileName: the longest suffix of `path` that holds no directory separator. */
  function GetFileName(path: string): (name: string)
    ensures |name| <= |path| && name == path[|path| - |name|..]
    ensures forall i :: 0 <= i < |name| ==> !IsDirectorySeparator(name[i])
    ensures |name| < |path| ==> IsDirectorySeparator(path[|path| - |name| - 1])
  {
    if path == [] then []
    else if IsDirectorySeparator(path[|path| - 1]) then []
    else GetFileName(path[..|path| - 1]) + [path[|path| - 1]]
  }

  /** String.LastIndexOf(char): the last index of `c` in `s`, None for -1. */
  function LastIndexOf(s: string, c: char): (r: Option<nat>)
    ensures r.Some? ==> r.value < |s| && s[r.value] == c
    ensures r.Some? ==> forall j :: r.value < j < |s| ==> s[j] != c
    ensures r.None? ==> forall j :: 0 <= j < |s| ==> s[j] != c
  {
    if s == [] then None
    else if s[|s| - 1] == c then Some(|s| - 1)
    else LastIndexOf(s[..|s| - 1], c)
  }

  /** The first index of `c` in `s`, or None; used to split a pattern at its alternation bars. */
  function FirstIndexOf(s: string, c: char): (r: Option<nat>)
    ensures r.Some? ==> r.value < |s| && s[r.value] == c
    ensures r.Some? ==> forall j :: 0 <= j < r.value ==> s[j] != c
    ensures r.None? ==> forall j :: 0 <= j < |s| ==> s[j] != c
  {
    if s == [] then None
    else if s[0] == c then Some(0)
    else match FirstIndexOf(s[1..], c)
      case None => None
      case Some(k) => Some(k + 1)
  }

  /**
   String.IndexOf(string) compared ordinally: the first index at which `sub`
   occurs in `s`, None for -1.
   */
  function IndexOf(s: string, sub: string): (r: Option<nat>)
    ensures r.Some? ==> OccursAt(s, sub, r.value)
    ensures r.Some? ==> forall j :: 0 <= j < r.value ==> !OccursAt(s, sub, j)
    ensures r.None? ==> forall j: nat :: !OccursAt(s, sub, j)
  {
    IndexOfFrom(s, sub, 0)
  }

  function IndexOfFrom(s: string, sub: string, from: nat): (r: Option<nat>)
    ensures r.Some? ==> from <= r.value && OccursAt(s, sub, r.value)
    ensures r.Some? ==> forall j :: from <= j < r.value ==> !OccursAt(s, sub, j)
    ensures r.None? ==> forall j: nat :: from <= j ==> !OccursAt(s, sub, j)
    decreases |s| - from
  {
    if from + |sub| > |s| then None
    else if s[from..from + |sub|] == sub then Some(from)
    else IndexOfFrom(s, sub, from + 1)
  }

  /**
   The extension of a file name: from its last '.' to its end, or the empty
   string when the name has no '.' or ends with one.
   */
  function ExtensionOf(name: string): (extension: string)
    ensures extension == [] || (|extension| >= 2 && extension[0] == '.')
    ensures |extension| <= |name|
  {
    match LastIndexOf(name, '.')
    case None => []
    case Some(i) => if i == |name| - 1 then [] else name[i..]
  }

  /**
   An extension is empty or a '.' followed by at least one character and no
   further '.', and it is a suffix of the file name.
   */
  lemma ExtensionOfShape(name: string)
    ensures var extension := ExtensionOf(name);
      && (extension == [] || (|extension| >= 2 && extension[0] == '.'))
      && |extension| <= |name| && extension == name[|name| - |extension|..]
      && (forall i :: 1 <= i < |extension| ==> extension[i] != '.')
  {
    match LastIndexOf(name, '.')
    case None =>
    case Some(i) =>
      var extension := name[i..];
      assert forall k :: 1 <= k < |extension| ==> extension[k] == name[i + k];
  }

  /** The base name of a file name: everything before its last '.'. */
  function StemOf(name: string): (stem: string)
    ensures |stem| <= |name| && stem == name[..|stem|]
  {
    match LastIndexOf(name, '.')
    case None => name
    case Some(i) => name[..i]
  }

  /** A file name with no directory separator has an extension with none either. */
  lemma ExtensionNoSeparator(name: string)
    requires forall i :: 0 <= i < |name| ==> !IsDirectorySeparator(name[i])
    ensures forall i :: 0 <= i < |ExtensionOf(name)| ==> !IsDirectorySeparator(ExtensionOf(name)[i])
  {
    ExtensionOfShape(name);
    var extension := ExtensionOf(name);
    assert forall k :: 0 <= k < |extension| ==> extension[k] == name[|name| - |extension| + k];
  }

  /** Path.GetExtension: the extension of the final segment of `path`. */
  function GetExtension(path: string): (extension: string)
    ensures forall i :: 0 <= i < |extension| ==> !IsDirectorySeparator(extension[i])
  {
    var name := GetFileName(path);
    ExtensionNoSeparator(name);
    ExtensionOf(name)
  }

  /** Path.GetFileNameWithoutExtension: the final segment of `path` up to its last '.'. */
  function GetFileNameWithoutExtension(path: string): (stem: string)
    ensures forall i :: 0 <= i < |stem| ==> !IsDirectorySeparator(stem[i])
  {
    StemOf(GetFileName(path))
  }

  /**
   The base name and the extension put back together give the file name,
   except for a file name ending in '.', whose extension is empty and whose
   base name has lost that final dot.
   */
  lemma StemAndExtension(name: string)
    ensures if |name| > 0 && name[|name| - 1] == '.'
      then name == StemOf(name) + "."
      else name == StemOf(name) + ExtensionOf(name)
  {
    match LastIndexOf(name, '.')
    case None =>
    case Some(i) =>
      assert name == name[..i] + name[i..];
      if i == |name| - 1 {
        assert name[i..] == ".";
      }
  }

  /** The extension is non-empty exactly when the file name holds a '.' and does not end with one. */
  lemma ExtensionPresent(name: string)
    ensures ExtensionOf(name) != [] <==>
      (|name| > 0 && name[|name| - 1] != '.' && exists i :: 0 <= i < |name| && name[i] == '.')
  {
    match LastIndexOf(name, '.')
    case None =>
    case Some(k) =>
      assert name[k] == '.';
  }

  /** A name with no separator, placed after a directory ending in a separator (or alone), is the file name. */
  lemma {:induction false} FileNameAfterDirectory(directory: string, name: string)
    requires directory == [] || IsDirectorySeparator(directory[|directory| - 1])
    requires forall i :: 0 <= i < |name| ==> !IsDirectorySeparator(name[i])
    ensures GetFileName(directory + name) == name
  {
    if name == [] {
      assert directory + name == directory;
    } else {
      var front := name[..|name| - 1];
      assert (directory + name)[..|directory + name| - 1] == directory + front;
      FileNameAfterDirectory(directory, front);
      assert name == front + [name[|name| - 1]];
    }
  }

  /** Appending an extension (a '.' followed by at least one character and no other '.') to a stem splits back into the two. */
  lemma ExtensionAfterStem(stem: string, extension: string)
    requires |extension| >= 2 && extension[0] == '.'
    requires forall i :: 1 <= i < |extension| ==> extension[i] != '.'
    ensures ExtensionOf(stem + extension) == extension
    ensures StemOf(stem + extension) == stem
  {
    var name := stem + extension;
    assert name[|stem|] == '.';
    var r := LastIndexOf(name, '.');
    assert forall j :: |stem| < j < |name| ==> name[j] == extension[j - |stem|];
    assert r == Some(|stem|);
    assert name[|stem|..] == extension;
    assert name[..|stem|] == stem;
  }

  /**
   A path written as a directory, a stem and an extension splits back into
   that stem and that extension.
   */
  lemma SplitPath(directory: string, stem: string, extension: string)
    requires directory == [] || IsDirectorySeparator(directory[|directory| - 1])
    requires forall i :: 0 <= i < |stem| ==> !IsDirectorySeparator(stem[i])
    requires |extension| >= 2 && extension[0] == '.'
    requires forall i :: 1 <= i < |extension| ==> extension[i] != '.' && !IsDirectorySeparator(extension[i])
    ensures GetExtension(directory + stem + extension) == extension
    ensures GetFileNameWithoutExtension(directory + stem + extension) == stem
  {
    var name := stem + extension;
    assert directory + stem + extension == directory + name;
    assert forall i :: |stem| <= i < |name| ==> name[i] == extension[i - |stem|];
    FileNameAfterDirectory(directory, name);
    ExtensionAfterStem(stem, extension);
  }
}
