/** ParkingLotAnnotTool/utils/filesystem.py: the extension helpers `ext`, `chext` and
    `isext`, over POSIX `os.path.splitext` (separator '/', extension separator '.'). */
module FileSystem {
  import opened Common

  /** `s.rfind(c)`: the last index of c in s, or -1. */
  function LastIndexOf(s: string, c: char): (r: int)
    ensures -1 <= r < |s|
    ensures r >= 0 ==> s[r] == c
    ensures forall k :: r < k < |s| ==> s[k] != c
  {
    if |s| == 0 then -1
    else if s[|s| - 1] == c then |s| - 1
    else LastIndexOf(s[..|s| - 1], c)
  }

  /** A character other than '.' in s[i..j]. */
  predicate HasNonDot(s: string, i: int, j: int)
  {
    exists k :: 0 <= i <= k < j <= |s| && s[k] != '.'
  }

  /** POSIX `os.path.splitext(p)`: split at the last '.' when it lies after the last
      '/' and is not part of the leading dots of the final component. */
  function SplitExt(p: string): (r: (string, string))
    ensures r.0 + r.1 == p
  {
    var sepIndex := LastIndexOf(p, '/');
    var dotIndex := LastIndexOf(p, '.');
    if dotIndex > sepIndex && HasNonDot(p, sepIndex + 1, dotIndex) then
      assert p[..dotIndex] + p[dotIndex..] == p;
      (p[..dotIndex], p[dotIndex..])
    else
      assert p + "" == p;
      (p, "")
  }

  function Root(p: string): string
  {
    SplitExt(p).0
  }

  /** `ext(path)`. */
  function Ext(p: string): (r: string)
    ensures r == "" || (r[0] == '.' && forall k :: 0 <= k < |r| ==> r[k] != '/')
  {
    SplitExt(p).1
  }

  /** `chext(path, ext)`. */
  function ChExt(p: string, e: string): (r: string)
    ensures |r| == |Root(p)| + |e|
  {
    Root(p) + e
  }

  /** The second argument of `isext`: a string, a list or tuple of strings, or any
      other value. */
  datatype ExtQuery = OneExt(e: string) | ExtCollection(es: seq<string>) | OtherType

  /** `isext(path, ext)`; None is the implicit `return None`. */
  function IsExt(p: string, q: ExtQuery): (r: Option<bool>)
    ensures q.OneExt? ==> r == Some(Ext(p) == q.e)
    ensures q.ExtCollection? ==> r == Some(Ext(p) in q.es)
    ensures q.OtherType? ==> r.None?
  {
    match q
    case OneExt(e) => Some(SplitExt(p).1 == e)
    case ExtCollection(es) => Some(SplitExt(p).1 in es)
    case OtherType => None
  }

  /** The extension is exactly the suffix from the last '.' when that dot comes after
      the last '/' and a character other than '.' precedes it in the final component;
      otherwise it is empty. */
  lemma ExtMeaning(p: string)
    ensures var sepIndex, dotIndex := LastIndexOf(p, '/'), LastIndexOf(p, '.');
      Ext(p) == if dotIndex > sepIndex && HasNonDot(p, sepIndex + 1, dotIndex) then p[dotIndex..] else ""
    ensures Ext(p) != "" ==> forall k :: 1 <= k < |Ext(p)| ==> Ext(p)[k] != '.'
  {
  }

  /** Putting back a path's own extension gives the path. */
  lemma ChExtOwnExt(p: string)
    ensures ChExt(p, Ext(p)) == p
  {
  }

  /** An extension `.` followed by characters that are neither '.' nor '/'. */
  predicate IsSimpleExt(e: string)
  {
    |e| >= 1 && e[0] == '.' && forall k :: 1 <= k < |e| ==> e[k] != '.' && e[k] != '/'
  }

  /** The final component of a root has a character other than '.'. */
  predicate HasStem(root: string)
  {
    HasNonDot(root, LastIndexOf(root, '/') + 1, |root|)
  }

  /** Appending a simple extension to a root: the last '/' and the final component's
      characters stay those of the root, and the last '.' is the one just added. */
  lemma {:induction false} SplitAppended(root: string, e: string)
    requires IsSimpleExt(e) && HasStem(root)
    ensures SplitExt(root + e) == (root, e)
  {
    var q := root + e;
    LastIndexOfAppend(root, e, '/');
    LastIndexOfAppend(root, e, '.');
    assert LastIndexOf(e, '.') == 0;
    var sepIndex := LastIndexOf(root, '/');
    assert LastIndexOf(e, '/') == -1;
    assert LastIndexOf(q, '/') == sepIndex;
    assert LastIndexOf(q, '.') == |root|;
    var k :| 0 <= sepIndex + 1 <= k < |root| <= |root| && root[k] != '.';
    assert q[k] == root[k];
    assert HasNonDot(q, sepIndex + 1, |root|);
    assert q[..|root|] == root && q[|root|..] == e;
  }

  /** The last index of c in s + t: in t if t has one, else in s. */
  lemma {:induction false} LastIndexOfAppend(s: string, t: string, c: char)
    ensures LastIndexOf(s + t, c) == if LastIndexOf(t, c) >= 0 then |s| + LastIndexOf(t, c) else LastIndexOf(s, c)
    decreases |t|
  {
    if |t| == 0 {
      assert s + t == s;
    } else {
      assert (s + t)[..|s + t| - 1] == s + t[..|t| - 1];
      LastIndexOfAppend(s, t[..|t| - 1], c);
    }
  }

  /** `ext(chext(p, e)) == e` for a simple extension and a root with a stem. */
  lemma ExtOfChExt(p: string, e: string)
    requires IsSimpleExt(e) && HasStem(Root(p))
    ensures Ext(ChExt(p, e)) == e
  {
    SplitAppended(Root(p), e);
  }

  /** Under the same condition `chext` is idempotent. */
  lemma ChExtIdempotent(p: string, e: string)
    requires IsSimpleExt(e) && HasStem(Root(p))
    ensures ChExt(ChExt(p, e), e) == ChExt(p, e)
  {
    SplitAppended(Root(p), e);
  }

  /** A root without a stem: `chext("dir/.", ".jpg")` is "dir/..jpg", whose extension is
      empty, so the condition on the root cannot be dropped. */
  lemma ChExtNeedsStem()
    ensures Ext(ChExt("dir/.", ".jpg")) == ""
  {
    assert SplitExt("dir/.") == ("dir/.", "") by {
      assert LastIndexOf("dir/.", '/') == 3 && LastIndexOf("dir/.", '.') == 4;
      assert !HasNonDot("dir/.", 4, 4);
    }
    var q := "dir/..jpg";
    assert ChExt("dir/.", ".jpg") == q;
    assert q[3] == '/' && q[5] == '.';
    assert forall k :: 3 < k < |q| ==> q[k] != '/';
    assert forall k :: 5 < k < |q| ==> q[k] != '.';
    assert LastIndexOf(q, '/') == 3 && LastIndexOf(q, '.') == 5;
    assert !HasNonDot(q, 4, 5) by {
      forall k | 4 <= k < 5 ensures q[k] == '.' { }
    }
  }
}
