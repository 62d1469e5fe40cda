/**
 Slash-separated manifest paths: splitting, joining, and the name checks of
 simple/manifest_validate.go.
 */
module Paths {
  /** strings.LastIndex(s, "/"). */
  function LastSlash(s: string): (i: int)
    ensures -1 <= i < |s|
    ensures i >= 0 ==> s[i] == '/'
    ensures forall k :: i < k < |s| ==> s[k] != '/'
  {
    if s == "" then -1
    else if s[|s| - 1] == '/' then |s| - 1
    else LastSlash(s[..|s| - 1])
  }

  function DirOf(p: string): string {
    if LastSlash(p) < 0 then "" else p[..LastSlash(p)]
  }

  function BaseOf(p: string): (b: string)
    ensures '/' !in b
  {
    p[LastSlash(p) + 1..]
  }

  function JoinPath(dir: string, base: string): string {
    if dir == "" then base else dir + "/" + base
  }

  lemma LastSlashUnique(s: string, i: int)
    requires -1 <= i < |s| && (i >= 0 ==> s[i] == '/') && forall k :: i < k < |s| ==> s[k] != '/'
    ensures LastSlash(s) == i
  {
  }

  /** Splitting inverts joining when the last element has no slash. */
  lemma SplitJoined(dir: string, base: string)
    requires '/' !in base
    ensures DirOf(JoinPath(dir, base)) == dir && BaseOf(JoinPath(dir, base)) == base
  {
    var p := JoinPath(dir, base);
    if dir == "" {
      LastSlashUnique(p, -1);
    } else {
      assert forall k :: |dir| < k < |p| ==> p[k] == base[k - |dir| - 1];
      LastSlashUnique(p, |dir|);
      assert p[..|dir|] == dir && p[|dir| + 1..] == base;
    }
  }

  /** A name without slashes, and with one in front, both belong to the root. */
  lemma RootNames(name: string)
    requires '/' !in name
    ensures DirOf(name) == "" && BaseOf(name) == name
    ensures DirOf("/" + name) == "" && BaseOf("/" + name) == name
  {
    LastSlashUnique(name, -1);
    LastSlashUnique("/" + name, 0);
  }

  /** Joining inverts splitting except for a slash at the front. */
  lemma JoinSplit(p: string)
    requires p != "" ==> p[0] != '/'
    ensures JoinPath(DirOf(p), BaseOf(p)) == p
  {
    var i := LastSlash(p);
    if i >= 0 {
      assert p == p[..i] + "/" + p[i + 1..];
    }
  }

  /** strings.Split(s, "/"). */
  function Split(s: string): (parts: seq<string>)
    ensures |parts| >= 1
    ensures forall i :: 0 <= i < |parts| ==> '/' !in parts[i]
    decreases |s|
  {
    var i := LastSlash(s);
    if i < 0 then [s] else Split(s[..i]) + [s[i + 1..]]
  }

  /** strings.Join(parts, "/"). */
  function Join(parts: seq<string>): string {
    if parts == [] then ""
    else if |parts| == 1 then parts[0]
    else Join(parts[..|parts| - 1]) + "/" + parts[|parts| - 1]
  }

  lemma {:induction false} JoinOfSplit(s: string)
    ensures Join(Split(s)) == s
    decreases |s|
  {
    var i := LastSlash(s);
    if i >= 0 {
      JoinOfSplit(s[..i]);
      var parts := Split(s);
      assert parts[..|parts| - 1] == Split(s[..i]);
      assert s == s[..i] + "/" + s[i + 1..];
    }
  }

  /** The prefixes of a path with non-empty segments form a chain of parents. */
  lemma {:induction false} PrefixChain(parts: seq<string>, i: nat)
    requires i < |parts| && forall j :: 0 <= j < |parts| ==> parts[j] != "" && '/' !in parts[j]
    ensures var dir, child := Join(parts[..i]), Join(parts[..i + 1]);
      && child == JoinPath(dir, parts[i]) && child != ""
      && DirOf(child) == dir && BaseOf(child) == parts[i]
  {
    hide LastSlash, DirOf, BaseOf;
    assert parts[..i + 1][..i] == parts[..i] && parts[..i + 1][i] == parts[i];
    if i > 0 {
      PrefixChain(parts, i - 1);
    }
    SplitJoined(Join(parts[..i]), parts[i]);
  }

  // ----- Checks ------------------------------------------------------------

  predicate ValidSegment(seg: string) {
    seg != "" && seg != "." && seg != ".." && ':' !in seg
  }

  /** A key of the directory map; the empty string is the root. */
  predicate ValidDirKey(dir: string) {
    dir == "" || (dir[0] != '/' && '\\' !in dir && forall seg :: seg in Split(dir) ==> ValidSegment(seg))
  }

  /** A file or subdirectory name: one segment. */
  predicate ValidEntryName(name: string) {
    name != "" && '/' !in name && '\\' !in name && name != "." && name != ".."
  }

  lemma InSplit(s: string, seg: string, ch: char)
    requires seg in Split(s) && ch in seg
    ensures ch in s
    decreases |s|
  {
    var i := LastSlash(s);
    if i >= 0 && seg in Split(s[..i]) {
      InSplit(s[..i], seg, ch);
    }
  }

  /** Every prefix of a valid key is a valid key, and every segment a valid name. */
  lemma ValidPrefix(dir: string, i: nat)
    requires dir != "" && ValidDirKey(dir) && i <= |Split(dir)|
    ensures ValidDirKey(Join(Split(dir)[..i]))
    ensures i < |Split(dir)| ==> ValidEntryName(Split(dir)[i])
  {
    var parts := Split(dir);
    assert forall seg :: seg in parts ==> ValidSegment(seg);
    if i < |parts| {
      assert ValidSegment(parts[i]);
      if '\\' in parts[i] { InSplit(dir, parts[i], '\\'); }
    }
    if i > 0 {
      var prefix := parts[..i];
      assert prefix[0] == parts[0] && ValidSegment(parts[0]);
      SplitOfJoin(prefix);
      JoinFirst(prefix);
      if '\\' in Join(prefix) {
        InJoin(prefix, '\\');
        var seg :| seg in prefix && '\\' in seg;
        InSplit(dir, seg, '\\');
      }
    }
  }

  lemma InJoin(parts: seq<string>, ch: char)
    requires ch in Join(parts) && ch != '/'
    ensures exists seg :: seg in parts && ch in seg
  {
    if |parts| > 1 {
      var init := parts[..|parts| - 1];
      if ch in Join(init) {
        InJoin(init, ch);
        var seg :| seg in init && ch in seg;
        assert seg in parts;
      } else {
        assert ch in parts[|parts| - 1];
      }
    }
  }

  lemma SeparateSegments(s: string, ch: char)
    requires ch != '/' && forall seg :: seg in Split(s) ==> ch !in seg
    ensures ch !in s
  {
    hide Split, Join;
    JoinOfSplit(s);
    NotInJoin(Split(s), ch);
  }

  lemma {:induction false} NotInJoin(parts: seq<string>, ch: char)
    requires ch != '/' && forall seg :: seg in parts ==> ch !in seg
    ensures ch !in Join(parts)
  {
    if |parts| > 1 { NotInJoin(parts[..|parts| - 1], ch); }
  }

  lemma JoinFirst(parts: seq<string>)
    requires |parts| >= 1 && parts[0] != ""
    ensures Join(parts) != "" && Join(parts)[0] == parts[0][0]
  {
    if |parts| > 1 { JoinFirst(parts[..|parts| - 1]); }
  }

  lemma {:induction false} SplitOfJoin(parts: seq<string>)
    requires |parts| >= 1 && forall i :: 0 <= i < |parts| ==> '/' !in parts[i]
    ensures Split(Join(parts)) == parts
  {
    if |parts| == 1 {
      LastSlashUnique(parts[0], -1);
    } else {
      var init, last := parts[..|parts| - 1], parts[|parts| - 1];
      SplitOfJoin(init);
      SplitAppend(Join(init), last);
      assert parts == init + [last];
    }
  }

  lemma SplitAppend(d: string, last: string)
    requires '/' !in last
    ensures Split(d + "/" + last) == Split(d) + [last]
  {
    var s := d + "/" + last;
    assert forall k :: |d| < k < |s| ==> s[k] == last[k - |d| - 1];
    LastSlashUnique(s, |d|);
    assert s[..|d|] == d && s[|d| + 1..] == last;
  }

  // ----- Ancestors -----------------------------------------------------------

  /** A path and the directories above it, the root left out. */
  function Ancestors(p: string): set<string> {
    set i | 1 <= i <= |Split(p)| :: Join(Split(p)[..i])
  }

  lemma SelfAncestor(p: string)
    ensures p in Ancestors(p)
  {
    JoinOfSplit(p);
    assert Split(p)[..|Split(p)|] == Split(p);
  }

  /** The ancestors of an ancestor are ancestors. */
  lemma AncestorsClosed(p: string, a: string)
    requires a in Ancestors(p)
    ensures Ancestors(a) <= Ancestors(p)
  {
    hide Split, Join;
    var i :| 1 <= i <= |Split(p)| && a == Join(Split(p)[..i]);
    SplitOfJoin(Split(p)[..i]);
    forall b | b in Ancestors(a) ensures b in Ancestors(p) {
      var j :| 1 <= j <= |Split(a)| && b == Join(Split(a)[..j]);
      assert Split(a)[..j] == Split(p)[..j];
    }
  }

  /** A path is not among the directories it is in. */
  lemma NotOwnAncestor(dir: string, base: string)
    requires '/' !in base && base != ""
    ensures JoinPath(dir, base) !in Ancestors(dir)
  {
    hide Split, Join;
    var p := JoinPath(dir, base);
    if dir == "" {
      SplitOfRoot();
    } else {
      SplitAppend(dir, base);
      forall a | a in Ancestors(dir) ensures a != p {
        var i :| 1 <= i <= |Split(dir)| && a == Join(Split(dir)[..i]);
        SplitOfJoin(Split(dir)[..i]);
      }
    }
  }

  lemma SplitOfRoot()
    ensures Split("") == [""] && Ancestors("") == {""}
  {
    assert Split("")[..1] == [""] && Join([""]) == "";
  }
}
