/** The two `System.IO.Path` members the source relies on, reduced to string
    operations on Windows-style paths. */
module Paths {
  import opened Strings

  const DirectorySeparator: char := '\\'

  predicate IsSeparator(c: char) {
    c == '\\' || c == '/'
  }

  /** A rooted path: starts with a separator or a drive letter (`C:`). */
  predicate IsRooted(p: string) {
    (|p| >= 1 && IsSeparator(p[0])) || (|p| >= 2 && p[1] == ':')
  }

  /** The folder already ends where a name can follow directly: in a
      separator or in a volume colon. */
  predicate EndsInSeparator(dir: string) {
    dir != [] && (IsSeparator(dir[|dir| - 1]) || dir[|dir| - 1] == ':')
  }

  /** A single path segment: no separators and no volume colon. */
  predicate IsSegment(name: string) {
    forall i :: 0 <= i < |name| ==> !IsSeparator(name[i]) && name[i] != ':'
  }

  /** `Path.Combine(dir, name)`: a rooted or empty-folder name stands alone,
      an empty name leaves the folder, otherwise one separator joins the two
      unless the folder already ends in one or in a volume colon. */
  function Combine(dir: string, name: string): (p: string)
    ensures name != [] ==> p != []
  {
    if name == [] then dir
    else if dir == [] || IsRooted(name) then name
    else if EndsInSeparator(dir) then dir + name
    else dir + [DirectorySeparator] + name
  }

  /** The combined path ends with the name and, for a relative name, starts
      with the folder. */
  lemma CombineParts(dir: string, name: string)
    ensures EndsWith(Combine(dir, name), name)
    ensures !IsRooted(name) ==> StartsWith(Combine(dir, name), dir)
  {
  }

  /** `Path.GetDirectoryName(path)`: everything before the last separator, or the
      empty string when there is none. */
  function DirectoryName(path: string): (d: string)
    ensures |d| < |path| || path == []
    ensures StartsWith(path, d)
    decreases |path|
  {
    if path == [] then []
    else if IsSeparator(path[|path| - 1]) then path[..|path| - 1]
    else DirectoryName(path[..|path| - 1])
  }

  /** A file name's directory part does not depend on the file name. */
  lemma {:induction false} DirectoryNameOfSegment(dir: string, name: string)
    requires IsSegment(name)
    ensures DirectoryName(dir + [DirectorySeparator] + name) == dir
    decreases |name|
  {
    var p := dir + [DirectorySeparator] + name;
    if name == [] {
      assert p[..|p| - 1] == dir;
    } else {
      var shorter := name[..|name| - 1];
      assert p[..|p| - 1] == dir + [DirectorySeparator] + shorter;
      DirectoryNameOfSegment(dir, shorter);
    }
  }

  /** Combining a folder with a single non-empty segment and taking the
      directory name gives the folder back. */
  lemma DirectoryNameCombine(dir: string, name: string)
    requires dir != [] && !EndsInSeparator(dir)
    requires name != [] && IsSegment(name)
    ensures DirectoryName(Combine(dir, name)) == dir
  {
    DirectoryNameOfSegment(dir, name);
  }
}
