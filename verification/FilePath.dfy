/**
 * Go's `path/filepath.Base` and `path/filepath.Ext` on a system whose path
 * separator is `/` and whose paths carry no volume name.
 */
module FilePath {
  import opened GoStrings

  const Separator: char := '/'

  /** `path` without the run of separators that ends it. */
  function StripTrailingSeparators(path: string): (r: string)
    ensures |r| <= |path| && path[..|r|] == r
    ensures r == [] || r[|r| - 1] != Separator
    ensures forall i :: |r| <= i < |path| ==> path[i] == Separator
  {
    if path != [] && path[|path| - 1] == Separator
    then StripTrailingSeparators(path[..|path| - 1])
    else path
  }

  /**
   * `filepath.Base`: the last element of `path` once trailing separators are
   * dropped; "." for the empty path and "/" for a path made of separators only.
   */
  function Base(path: string): (r: string)
    ensures r != []
    ensures r == [Separator] || Separator !in r
    ensures path == [] ==> r == "."
  {
    if path == [] then "."
    else
      var p := StripTrailingSeparators(path);
      var last := p[LastIndex(p, Separator) + 1..];
      if last == [] then [Separator] else last
  }

  /**
   * `filepath.Ext`: the suffix of `path` that starts at the last dot of its last
   * element, or "" when that element has no dot.
   */
  function Ext(path: string): (r: string)
    ensures HasSuffix(path, r)
    ensures Separator !in r
    ensures r != [] ==> r[0] == '.' && '.' !in r[1..]
  {
    if path == [] || path[|path| - 1] == Separator then ""
    else if path[|path| - 1] == '.' then "."
    else
      var e := Ext(path[..|path| - 1]);
      if e == [] then "" else e + [path[|path| - 1]]
  }
}
