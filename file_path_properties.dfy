/** Properties of the path-suffix operations of FilePath.cs. */
module FilePathProperties {
  import opened Wrappers
  import opened FilePath

  /** The input is the RemovePathSuffix result followed only by separators,
      and that result no longer ends in one. */
  lemma RemovePathSuffixSplits(p: Platform, s: string)
    ensures var r := Unsuffixed(p, s);
      && s == r + s[|r|..]
      && (forall k | 0 <= k < |s[|r|..]| :: IsSeparator(p, s[|r|..][k]))
      && (r == [] || !IsSeparator(p, r[|r| - 1]))
  {
  }

  /** A path made only of separators becomes empty. */
  lemma AllSeparatorsBecomeEmpty(p: Platform, s: string)
    requires forall k | 0 <= k < |s| :: IsSeparator(p, s[k])
    ensures Unsuffixed(p, s) == []
  {
  }

  /** RemovePathSuffix is idempotent. */
  lemma RemovePathSuffixIdempotent(p: Platform, s: string)
    ensures Unsuffixed(p, Unsuffixed(p, s)) == Unsuffixed(p, s)
  {
  }

  /** RemovePathSuffix is the identity exactly on paths that do not end in a separator. */
  lemma RemovePathSuffixFixedPoints(p: Platform, s: string)
    ensures Unsuffixed(p, s) == s <==> (s == [] || !IsSeparator(p, s[|s| - 1]))
  {
  }

  /** AddPathSuffix is idempotent. */
  lemma AddPathSuffixIdempotent(p: Platform, s: string)
    ensures AddPathSuffix(p, AddPathSuffix(p, s)) == AddPathSuffix(p, s)
  {
  }

  /** Removing the suffix after adding it gives back the unsuffixed path. */
  lemma {:induction false} RemoveAfterAdd(p: Platform, s: string)
    requires s != []
    ensures Unsuffixed(p, AddPathSuffix(p, s)) == Unsuffixed(p, s)
  {
    if !IsSeparator(p, s[|s| - 1]) {
      var t := s + [p.directorySeparatorChar];
      assert t[..|t| - 1] == s;
    }
  }

  /** Adding the suffix to an unsuffixed, non-empty path appends exactly one
      DirectorySeparatorChar: the two together normalise the trailing run of
      separators to exactly one. */
  lemma AddAfterRemove(p: Platform, s: string)
    requires Unsuffixed(p, s) != []
    ensures AddPathSuffix(p, Unsuffixed(p, s)) == Unsuffixed(p, s) + [p.directorySeparatorChar]
  {
  }

  /** When GetDirectoryName gives back the directory itself (as it does for a
      separator-terminated directory that exists, or whose parent the system
      computes by dropping the last separator), a "*" last directory name
      always has a '*' for GetFileList to cut at: it never fails on a
      non-empty directory. */
  lemma {:induction false} WildcardDirectoryIsCut(p: Platform, directory: string, fileName: string)
    requires directory != []
    ensures FileListSearch(p, directory, fileName, directory).Success?
  {
    if LastDirectoryName(p, directory, directory) == Success("*") {
      var d := Unsuffixed(p, directory);
      var last := LastName(p, d);
      assert last == "*";
      assert d[|d| - 1] == last[0] == '*';
      assert directory[|d| - 1] == '*';
    }
  }
}
