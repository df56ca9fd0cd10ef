/** Path-suffix manipulation of Gemstone.IO.FilePath (FilePath.cs).

    The separator characters are parameters (`Platform`): on Windows they are
    '\\', '/' and the volume separator ':'; on Unix all three are '/'.
    A null string is modelled as the empty string, since every operation
    modelled here treats null and empty alike. What the file system answers
    (`GetDirectoryName`, `GetFileName`) is passed in as an input. */
module FilePath {
  import opened Wrappers

  /** Path.DirectorySeparatorChar, Path.AltDirectorySeparatorChar and
      Path.VolumeSeparatorChar of the running platform. */
  datatype Platform = Platform(
    directorySeparatorChar: char,
    altDirectorySeparatorChar: char,
    volumeSeparatorChar: char)

  const Windows := Platform('\\', '/', ':')
  const Unix := Platform('/', '/', '/')

  /** The exceptions the modelled operations can raise. */
  datatype PathError = ArgumentNull(paramName: string) | ArgumentOutOfRange(paramName: string)

  datatype SearchOption = TopDirectoryOnly | AllDirectories

  /** What GetFileList hands to the file enumeration. */
  datatype FileSearch = FileSearch(directory: string, pattern: string, option: SearchOption)

  /** A directory separator: what RemovePathSuffix strips and AddPathSuffix looks for. */
  predicate IsSeparator(p: Platform, c: char)
  {
    c == p.directorySeparatorChar || c == p.altDirectorySeparatorChar
  }

  /** A member of `dirVolChars` in GetLastDirectoryName. */
  predicate IsDirOrVolume(p: Platform, c: char)
  {
    IsSeparator(p, c) || c == p.volumeSeparatorChar
  }

  // ---------------------------------------------------------------------
  // RemovePathSuffix

  /** The path with its whole trailing run of separators removed. */
  function Unsuffixed(p: Platform, s: string): (r: string)
    ensures r <= s
    ensures forall k | |r| <= k < |s| :: IsSeparator(p, s[k])
    ensures r == [] || !IsSeparator(p, r[|r| - 1])
    decreases |s|
  {
    if s == [] || !IsSeparator(p, s[|s| - 1]) then s else Unsuffixed(p, s[..|s| - 1])
  }

  /** FilePath.RemovePathSuffix: drops the last character while it is a separator. */
  method RemovePathSuffix(p: Platform, filePath: string) returns (r: string)
    ensures r == Unsuffixed(p, filePath)
  {
    if filePath == [] {
      r := "";
    } else {
      r := filePath;
      var suffixChar := r[|r| - 1];
      while IsSeparator(p, suffixChar) && |r| > 0
        invariant Unsuffixed(p, r) == Unsuffixed(p, filePath)
        invariant |r| > 0 ==> suffixChar == r[|r| - 1]
        invariant |r| == 0 ==> IsSeparator(p, suffixChar)
        decreases |r|
      {
        r := r[..|r| - 1];
        if |r| > 0 {
          suffixChar := r[|r| - 1];
        }
      }
    }
  }

  // ---------------------------------------------------------------------
  // AddPathSuffix

  /** FilePath.AddPathSuffix: "." followed by the separator for an empty path;
      otherwise the path, with DirectorySeparatorChar appended unless it
      already ends with either separator. */
  function AddPathSuffix(p: Platform, filePath: string): (r: string)
    ensures |r| > 0 && IsSeparator(p, r[|r| - 1])
    ensures filePath == [] ==> r == ['.', p.directorySeparatorChar]
    ensures filePath != [] && IsSeparator(p, filePath[|filePath| - 1]) ==> r == filePath
    ensures filePath != [] && !IsSeparator(p, filePath[|filePath| - 1]) ==>
              r == filePath + [p.directorySeparatorChar]
  {
    if filePath == [] then
      ['.', p.directorySeparatorChar]
    else if !IsSeparator(p, filePath[|filePath| - 1]) then
      filePath + [p.directorySeparatorChar]
    else
      filePath
  }

  // ---------------------------------------------------------------------
  // GetLastDirectoryName

  /** String.IndexOfAny(dirVolChars): the first index of a separator or volume
      character, or -1. */
  function IndexOfAny(p: Platform, s: string): (i: int)
    ensures -1 <= i < |s|
    ensures i >= 0 ==> IsDirOrVolume(p, s[i])
    ensures forall k | 0 <= k < |s| && (i < 0 || k < i) :: !IsDirOrVolume(p, s[k])
    decreases |s|
  {
    if s == [] then -1
    else if IsDirOrVolume(p, s[0]) then 0
    else
      var j := IndexOfAny(p, s[1..]);
      if j < 0 then -1 else j + 1
  }

  /** The longest suffix of `s` free of separator and volume characters. */
  function LastName(p: Platform, s: string): string
    decreases |s|
  {
    if s == [] || IsDirOrVolume(p, s[|s| - 1]) then [] else LastName(p, s[..|s| - 1]) + [s[|s| - 1]]
  }

  lemma {:induction false} LastNameIsSuffix(p: Platform, s: string)
    ensures var r := LastName(p, s); |r| <= |s| && r == s[|s| - |r|..]
    decreases |s|
  {
    if s != [] && !IsDirOrVolume(p, s[|s| - 1]) {
      var n := |s|;
      var init := s[..n - 1];
      LastNameIsSuffix(p, init);
      var r0 := LastName(p, init);
      assert init[|init| - |r0|..] == s[n - 1 - |r0|..n - 1];
      assert s[n - 1 - |r0|..] == s[n - 1 - |r0|..n - 1] + [s[n - 1]];
    }
  }

  lemma {:induction false} LastNameIsFree(p: Platform, s: string)
    ensures forall k | 0 <= k < |LastName(p, s)| :: !IsDirOrVolume(p, LastName(p, s)[k])
    decreases |s|
  {
    if s != [] && !IsDirOrVolume(p, s[|s| - 1]) {
      var init := s[..|s| - 1];
      LastNameIsFree(p, init);
      var r0 := LastName(p, init);
      var r := r0 + [s[|s| - 1]];
      assert LastName(p, s) == r;
      forall k | 0 <= k < |r|
        ensures !IsDirOrVolume(p, r[k])
      {
        if k < |r0| {
          assert r[k] == r0[k];
          assert !IsDirOrVolume(p, r0[k]);
        } else {
          assert r[k] == s[|s| - 1];
          assert !IsDirOrVolume(p, s[|s| - 1]);
        }
      }
    }
  }

  lemma {:induction false} LastNameIsBounded(p: Platform, s: string)
    ensures var r := LastName(p, s); |r| == |s| || (|r| < |s| && IsDirOrVolume(p, s[|s| - |r| - 1]))
    decreases |s|
  {
    if s != [] && !IsDirOrVolume(p, s[|s| - 1]) {
      var init := s[..|s| - 1];
      LastNameIsBounded(p, init);
      var r0 := LastName(p, init);
      if |r0| < |init| {
        assert s[|s| - |r0| - 2] == init[|init| - |r0| - 1];
      }
    }
  }

  /** The last name is a suffix free of separator and volume characters, and
      it is either the whole string or preceded by such a character. */
  lemma LastNameShape(p: Platform, s: string)
    ensures var r := LastName(p, s);
      && |r| <= |s| && r == s[|s| - |r|..]
      && (forall k | 0 <= k < |r| :: !IsDirOrVolume(p, r[k]))
      && (|r| == |s| || IsDirOrVolume(p, s[|s| - |r| - 1]))
  {
    LastNameIsSuffix(p, s);
    LastNameIsFree(p, s);
    LastNameIsBounded(p, s);
  }

  /** Dropping everything up to a separator or volume character keeps the last name. */
  lemma {:induction false} LastNameAfterSeparator(p: Platform, s: string, i: nat)
    requires i < |s| && IsDirOrVolume(p, s[i])
    ensures LastName(p, s[i + 1..]) == LastName(p, s)
    decreases |s|
  {
    var n := |s|;
    if i < n - 1 && !IsDirOrVolume(p, s[n - 1]) {
      var init := s[..n - 1];
      LastNameAfterSeparator(p, init, i);
      assert s[i + 1..][..|s[i + 1..]| - 1] == init[i + 1..];
    }
  }

  /** A string free of separator and volume characters is its own last name. */
  lemma NoSeparatorIsLastName(p: Platform, s: string)
    requires forall k | 0 <= k < |s| :: !IsDirOrVolume(p, s[k])
    ensures LastName(p, s) == s
  {
  }

  /** What GetLastDirectoryName returns, given the path and what
      GetDirectoryName returned for it. */
  function LastDirectoryName(p: Platform, filePath: string, directoryName: string): Result<string, PathError>
  {
    if filePath == [] then Failure(ArgumentNull("filePath"))
    else Success(LastName(p, Unsuffixed(p, directoryName)))
  }

  /** FilePath.GetLastDirectoryName. `directoryName` is the value
      GetDirectoryName(filePath) returned; it consults the file system. */
  method GetLastDirectoryName(p: Platform, filePath: string, directoryName: string)
    returns (r: Result<string, PathError>)
    ensures r == LastDirectoryName(p, filePath, directoryName)
    ensures filePath == [] <==> r.Failure?
    ensures r.Success? ==>
              var d := Unsuffixed(p, directoryName);
              && |r.value| <= |d| && r.value == d[|d| - |r.value|..]
              && (forall k | 0 <= k < |r.value| :: !IsDirOrVolume(p, r.value[k]))
  {
    if filePath == [] {
      return Failure(ArgumentNull("filePath"));
    }
    var path := RemovePathSuffix(p, directoryName);
    var index := IndexOfAny(p, path);
    while index > -1
      invariant LastName(p, path) == LastName(p, Unsuffixed(p, directoryName))
      invariant index == IndexOfAny(p, path)
      decreases |path|
    {
      LastNameAfterSeparator(p, path, index);
      path := path[index + 1..];
      index := IndexOfAny(p, path);
    }
    NoSeparatorIsLastName(p, path);
    LastNameShape(p, Unsuffixed(p, directoryName));
    return Success(path);
  }

  // ---------------------------------------------------------------------
  // GetFileList: the pattern and option defaulting

  /** String.LastIndexOf("*"): the last index of '*', or -1. */
  function LastIndexOfStar(s: string): (i: int)
    ensures -1 <= i < |s|
    ensures i >= 0 ==> s[i] == '*'
    ensures forall k | 0 <= k < |s| && i < k :: s[k] != '*'
    decreases |s|
  {
    if s == [] then -1
    else if s[|s| - 1] == '*' then |s| - 1
    else LastIndexOfStar(s[..|s| - 1])
  }

  /** The search GetFileList starts. `directory` is GetDirectoryName(path),
      `fileName` is GetFileName(path), and `directoryOfDirectory` is what
      GetDirectoryName answers for `directory` inside GetLastDirectoryName. */
  function FileListSearch(p: Platform, directory: string, fileName: string, directoryOfDirectory: string)
    : (r: Result<FileSearch, PathError>)
    ensures r.Success? ==> r.value.pattern == (if fileName == [] then "*.*" else fileName)
    ensures r.Success? ==>
              (r.value.option == AllDirectories <==>
                 LastDirectoryName(p, directory, directoryOfDirectory) == Success("*"))
    ensures r.Success? && r.value.option == TopDirectoryOnly ==> r.value.directory == directory
    ensures r.Success? && r.value.option == AllDirectories ==>
              var n := |r.value.directory|;
              && n < |directory| && r.value.directory == directory[..n] && directory[n] == '*'
              && (forall k | n < k < |directory| :: directory[k] != '*')
    ensures r.Failure? <==>
              directory == [] ||
              (LastDirectoryName(p, directory, directoryOfDirectory) == Success("*") && '*' !in directory)
  {
    var pattern := if fileName == [] then "*.*" else fileName;
    match LastDirectoryName(p, directory, directoryOfDirectory)
    case Failure(e) => Failure(e)
    case Success(last) =>
      if last != "*" then
        Success(FileSearch(directory, pattern, TopDirectoryOnly))
      else
        var i := LastIndexOfStar(directory);
        if i < 0 then
          // String.Remove(-1) throws
          Failure(ArgumentOutOfRange("startIndex"))
        else
          Success(FileSearch(directory[..i], pattern, AllDirectories))
  }
}
