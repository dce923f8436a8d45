/**
 * The part of Node's POSIX `path.parse` that the configurator relies on: the
 * extension of the last path component.
 */
module NodePath {
  import opened Wrappers

  /** Trailing separators do not belong to the last component. */
  function TrimTrailingSlashes(p: string): (r: string)
    ensures |r| <= |p| && r == p[..|r|]
    ensures r == [] || r[|r| - 1] != '/'
    decreases |p|
  {
    if p != [] && p[|p| - 1] == '/' then TrimTrailingSlashes(p[..|p| - 1]) else p
  }

  /** The position of the last occurrence of `c` in `s`. */
  function LastIndexOf(s: string, c: char): (r: Option<nat>)
    ensures r.Some? ==> r.value < |s| && s[r.value] == c && forall j :: r.value < j < |s| ==> s[j] != c
    ensures r.None? ==> forall j :: 0 <= j < |s| ==> s[j] != c
    decreases |s|
  {
    if s == [] then None
    else if s[|s| - 1] == c then Some(|s| - 1)
    else LastIndexOf(s[..|s| - 1], c)
  }

  /** `path.parse(p).base`: the last component, without trailing separators. */
  function BaseName(p: string): (b: string)
    ensures forall j :: 0 <= j < |b| ==> b[j] != '/'
  {
    var t := TrimTrailingSlashes(p);
    match LastIndexOf(t, '/')
    case None => t
    case Some(i) => t[i + 1..]
  }

  /**
   * `path.parse(p).ext`: from the last dot of the base name to its end, or
   * empty when the base name has no dot, starts with its only dot (a dotfile
   * such as ".json") or is "..".
   */
  function Ext(p: string): string
  {
    var b := BaseName(p);
    if b == ".." then ""
    else match LastIndexOf(b, '.')
      case None => ""
      case Some(d) => if d == 0 then "" else b[d..]
  }

  /** The base name has something before a final ".json". */
  predicate EndsWithJson(p: string) {
    var b := BaseName(p);
    |b| > 5 && b[|b| - 5..] == ".json"
  }

  /** The extension is ".json" exactly when the base name is a non-empty name followed by ".json". */
  lemma ExtIsJsonIff(p: string)
    ensures Ext(p) == ".json" <==> EndsWithJson(p)
  {
    var b := BaseName(p);
    if EndsWithJson(p) {
      var d := |b| - 5;
      assert b[d] == '.';
      assert forall j :: d < j < |b| ==> b[j] != '.' by {
        assert b[d..] == ".json";
        forall j | d < j < |b| ensures b[j] != '.' {
          assert b[j] == b[d..][j - d];
        }
      }
      assert LastIndexOf(b, '.') == Some(d);
    }
    if Ext(p) == ".json" {
      var d := LastIndexOf(b, '.').value;
      assert b[d..] == ".json";
      assert b[|b| - 5..] == b[d..];
    }
  }
}
