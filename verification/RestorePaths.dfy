/**
 The lexical check of simple/restore.go that a manifest path stays below the
 restore target.
 */
module RestorePaths {
  import opened ByteSeqs
  import opened Paths

  /** filepath.Clean on the segments of a relative path, onto the segments already kept. */
  function CleanOnto(segs: seq<string>, kept: seq<string>): seq<string>
    decreases |segs|
  {
    if segs == [] then kept
    else if segs[0] == "" || segs[0] == "." then CleanOnto(segs[1..], kept)
    else if segs[0] == ".." && kept != [] && kept[|kept| - 1] != ".." then CleanOnto(segs[1..], kept[..|kept| - 1])
    else CleanOnto(segs[1..], kept + [segs[0]])
  }

  predicate IsLetter(ch: char) {
    'A' <= ch <= 'Z' || 'a' <= ch <= 'z'
  }

  /** A drive prefix such as "C:" is rejected on every platform. */
  predicate DriveLike(p: string) {
    |p| >= 2 && p[1] == ':' && IsLetter(p[0])
  }

  /** safeRestoreComponents: the path elements below the target, or a refusal. */
  function SafeComponents(p: string): Option<seq<string>> {
    if p == "" || p[0] == '/' || p[0] == '\\' || DriveLike(p) then None
    else
      var clean := CleanOnto(Split(p), []);
      if clean != [] && clean[0] == ".." then None else Some(clean)
  }

  /** Up-steps come first, and what follows them are ordinary names. */
  predicate UpThenDown(segs: seq<string>) {
    && (forall i :: 0 <= i < |segs| ==> segs[i] != "" && segs[i] != "." && '/' !in segs[i])
    && (forall i, j :: 0 <= i < j < |segs| && segs[j] == ".." ==> segs[i] == "..")
  }

  lemma {:induction false} CleanKeepsShape(segs: seq<string>, kept: seq<string>)
    requires UpThenDown(kept) && forall i :: 0 <= i < |segs| ==> '/' !in segs[i]
    ensures UpThenDown(CleanOnto(segs, kept))
    decreases |segs|
  {
    if segs != [] {
      if segs[0] == "" || segs[0] == "." {
        CleanKeepsShape(segs[1..], kept);
      } else if segs[0] == ".." && kept != [] && kept[|kept| - 1] != ".." {
        CleanKeepsShape(segs[1..], kept[..|kept| - 1]);
      } else {
        CleanKeepsShape(segs[1..], kept + [segs[0]]);
      }
    }
  }

  /** An accepted path never climbs: every component is a plain name. */
  lemma SafeComponentsStayBelow(p: string)
    requires SafeComponents(p).Some?
    ensures forall i :: 0 <= i < |SafeComponents(p).value| ==>
      var seg := SafeComponents(p).value[i]; seg != "" && seg != "." && seg != ".." && '/' !in seg
  {
    CleanKeepsShape(Split(p), []);
  }

  /** Walking these segments from a directory so deep, some step leads above the root. */
  predicate Climbs(segs: seq<string>, depth: nat) {
    if segs == [] then false
    else if segs[0] == "" || segs[0] == "." then Climbs(segs[1..], depth)
    else if segs[0] == ".." then depth == 0 || Climbs(segs[1..], depth - 1)
    else Climbs(segs[1..], depth + 1)
  }

  lemma {:induction false} UpStays(segs: seq<string>, kept: seq<string>)
    requires kept != [] && kept[0] == ".."
    ensures CleanOnto(segs, kept) != [] && CleanOnto(segs, kept)[0] == ".."
    decreases |segs|
  {
    if segs != [] {
      if segs[0] == "" || segs[0] == "." {
        UpStays(segs[1..], kept);
      } else if segs[0] == ".." && kept[|kept| - 1] != ".." {
        UpStays(segs[1..], kept[..|kept| - 1]);
      } else {
        UpStays(segs[1..], kept + [segs[0]]);
      }
    }
  }

  lemma {:induction false} CleanClimbs(segs: seq<string>, kept: seq<string>)
    requires forall i :: 0 <= i < |kept| ==> kept[i] != ".."
    ensures var clean := CleanOnto(segs, kept); (clean != [] && clean[0] == "..") <==> Climbs(segs, |kept|)
    decreases |segs|
  {
    if segs != [] {
      if segs[0] == "" || segs[0] == "." {
        CleanClimbs(segs[1..], kept);
      } else if segs[0] != ".." {
        CleanClimbs(segs[1..], kept + [segs[0]]);
      } else if kept != [] {
        CleanClimbs(segs[1..], kept[..|kept| - 1]);
      } else {
        UpStays(segs[1..], [".."]);
        assert kept + [segs[0]] == [".."];
      }
    }
  }

  /** A path is refused exactly if it is empty, absolute, starts like a drive, or leads above the target on its way. */
  lemma RefusedIff(p: string)
    ensures SafeComponents(p).None? <==>
      || p == "" || p[0] == '/' || p[0] == '\\'
      || (|p| >= 2 && p[1] == ':' && ('A' <= p[0] <= 'Z' || 'a' <= p[0] <= 'z'))
      || Climbs(Split(p), 0)
  {
    CleanClimbs(Split(p), []);
  }

  lemma {:induction false} CleanIsIdentity(segs: seq<string>, kept: seq<string>)
    requires forall i :: 0 <= i < |segs| ==> segs[i] != "" && segs[i] != "." && segs[i] != ".."
    ensures CleanOnto(segs, kept) == kept + segs
    decreases |segs|
  {
    if segs != [] {
      CleanIsIdentity(segs[1..], kept + [segs[0]]);
      assert kept + [segs[0]] + segs[1..] == kept + segs;
    }
  }

  /** A path a manifest may hold is restored to itself, unless it looks like a drive. */
  lemma ProperPathKept(dir: string, base: string)
    requires ValidDirKey(dir) && ValidEntryName(base)
    ensures var p := JoinPath(dir, base);
      SafeComponents(p) == if DriveLike(p) then None else Some(Split(p))
    ensures Join(Split(JoinPath(dir, base))) == JoinPath(dir, base)
  {
    var p := JoinPath(dir, base);
    JoinOfSplit(p);
    if dir == "" {
      LastSlashUnique(base, -1);
      assert Split(p) == [base];
    } else {
      SplitAppend(dir, base);
      assert Split(p) == Split(dir) + [base];
    }
    forall i | 0 <= i < |Split(p)|
      ensures Split(p)[i] != "" && Split(p)[i] != "." && Split(p)[i] != ".."
    {
      if dir != "" && i < |Split(dir)| {
        assert Split(p)[i] in Split(dir);
      }
    }
    CleanIsIdentity(Split(p), []);
    assert [] + Split(p) == Split(p);
    assert p[0] != '\\' by { assert dir != "" ==> p[0] == dir[0] && dir[0] in dir; }
  }

  /** A directory key of a valid manifest is restored to itself; its segments hold no colon. */
  lemma KeyKept(k: string)
    requires ValidDirKey(k) && k != ""
    ensures SafeComponents(k) == Some(Split(k))
  {
    hide Split, Join;
    assert forall seg :: seg in Split(k) ==> ValidSegment(seg);
    SeparateSegments(k, ':');
    assert forall i :: 0 <= i < |Split(k)| ==> ValidSegment(Split(k)[i]);
    CleanIsIdentity(Split(k), []);
    assert [] + Split(k) == Split(k);
  }
}
