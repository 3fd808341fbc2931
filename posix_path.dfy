/** The two POSIX path operations the scanner and the song record rely on: `os.path.join` and `os.path.basename`. */
module PosixPath {

  /**
   * `os.path.basename`: the part of `p` after its last '/', or all of `p`
   * when it has none.
   */
  function Basename(p: string): (b: string)
    ensures '/' !in b
    ensures |b| <= |p| && b == p[|p| - |b|..]
    ensures |b| < |p| ==> p[|p| - |b| - 1] == '/'
  {
    if p == [] || p[|p| - 1] == '/' then [] else Basename(p[..|p| - 1]) + [p[|p| - 1]]
  }

  /**
   * `os.path.join(root, name)` for two components: an absolute `name`
   * replaces `root`; otherwise a '/' is inserted unless `root` is empty or
   * already ends in one.
   */
  function Join(root: string, name: string): (path: string)
    ensures |name| <= |path| && path[|path| - |name|..] == name
    ensures !(|name| > 0 && name[0] == '/') ==> |root| <= |path| && path[..|root|] == root
    ensures |name| > 0 && name[0] == '/' ==> path == name
    ensures !(|name| > 0 && name[0] == '/') ==>
      |path| == |root| + |name| + (if root == [] || root[|root| - 1] == '/' then 0 else 1)
    ensures |path| == |root| + 1 + |name| ==> path[|root|] == '/'
  {
    if |name| > 0 && name[0] == '/' then name
    else if root == [] || root[|root| - 1] == '/' then root + name
    else root + "/" + name
  }

  /** A slash-free name placed after a '/' (or at the start) is the basename. */
  lemma {:induction false} BasenameAfterSlash(prefix: string, name: string)
    requires '/' !in name
    requires prefix == [] || prefix[|prefix| - 1] == '/'
    ensures Basename(prefix + name) == name
  {
    var p := prefix + name;
    if name == [] {
      assert p == prefix;
    } else {
      assert p[|p| - 1] == name[|name| - 1];
      assert p[..|p| - 1] == prefix + name[..|name| - 1];
      BasenameAfterSlash(prefix, name[..|name| - 1]);
    }
  }

  /** Joining a file name (which has no '/') onto any directory gives back that name as the basename. */
  lemma BasenameOfJoin(root: string, name: string)
    requires '/' !in name
    ensures Basename(Join(root, name)) == name
  {
    if root == [] || root[|root| - 1] == '/' {
      BasenameAfterSlash(root, name);
    } else {
      assert root + "/" + name == (root + "/") + name;
      BasenameAfterSlash(root + "/", name);
    }
  }
}
