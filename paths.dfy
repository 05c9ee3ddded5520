/**
 * Path helpers the writer relies on: PHP's `dirname` (POSIX flavour) and the set
 * of directories a recursive `mkdir` brings into existence.
 */
module Paths {

  /** Drops trailing slashes from `s[..n]`: the new end, just past the last non-slash character (0 if none). */
  function TrimSlashes(s: string, n: nat): (r: nat)
    requires n <= |s|
    ensures r <= n
    ensures r == 0 || s[r - 1] != '/'
    decreases n
  {
    if n > 0 && s[n - 1] == '/' then TrimSlashes(s, n - 1) else n
  }

  /** Drops the last name from `s[..n]`: the new end, just past the last slash (0 if none). */
  function TrimName(s: string, n: nat): (r: nat)
    requires n <= |s|
    ensures r <= n
    decreases n
  {
    if n > 0 && s[n - 1] != '/' then TrimName(s, n - 1) else n
  }

  /**
   * `dirname($path)`: trailing slashes are ignored, the last name is removed
   * together with the slashes before it; "." when there is no slash, "/" when only
   * the root is left, "" for the empty path.
   */
  function Dirname(path: string): (r: string)
    ensures path == "" <==> r == ""
    ensures path != "" ==> r == "." || r == "/" || (0 < |r| < |path| && r == path[..|r|] && r[|r| - 1] != '/')
  {
    if path == "" then
      ""
    else
      var a := TrimSlashes(path, |path|);
      if a == 0 then
        "/"
      else
        var b := TrimName(path, a);
        if b == 0 then
          "."
        else
          var d := TrimSlashes(path, b);
          if d == 0 then "/" else path[..d]
  }

  /** Dropping a name that follows a slash stops just past that slash. */
  lemma {:induction false} TrimNameStopsAtSlash(s: string, lo: nat, n: nat)
    requires 0 < lo <= n <= |s|
    requires s[lo - 1] == '/'
    requires forall k :: lo <= k < n ==> s[k] != '/'
    ensures TrimName(s, n) == lo
    decreases n
  {
    if n > lo {
      TrimNameStopsAtSlash(s, lo, n - 1);
    }
  }

  /** The parent of `dir + "/" + name`, for a plain file name and a directory without a trailing slash, is that directory. */
  lemma DirnameOfJoin(dir: string, name: string)
    requires dir != "" && dir[|dir| - 1] != '/'
    requires name != "" && '/' !in name
    ensures Dirname(dir + "/" + name) == dir
  {
    var path := dir + "/" + name;
    var n := |dir|;
    assert path[|path| - 1] == name[|name| - 1];
    assert TrimSlashes(path, |path|) == |path|;
    assert path[n] == '/';
    forall k | n + 1 <= k < |path| ensures path[k] != '/' {
      assert path[k] == name[k - n - 1];
    }
    TrimNameStopsAtSlash(path, n + 1, |path|);
    assert path[n - 1] == dir[n - 1];
    assert TrimSlashes(path, n + 1) == n;
    assert path[..n] == dir;
  }

  /** The directories `mkdir($dir, 0777, true)` makes sure of: `dir` and each of its slash-terminated prefixes. */
  function DirChain(dir: string): (r: set<string>)
    ensures dir in r
  {
    {dir} + set i | 0 < i < |dir| && dir[i] == '/' :: dir[..i]
  }
}
