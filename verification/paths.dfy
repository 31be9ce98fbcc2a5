/**
  The two path helpers the player calls on file names: `os.path.basename`
  for display, and the lower-cased extension from `os.path.splitext` for
  the format filter, with POSIX separators.
 */
module Paths {

  const Sep: char := '/'

  /** The last position of `c` in `s`, or -1 when it does not occur
      (Python's `rfind`). */
  function LastIndexOf(s: string, c: char): (r: int)
    ensures -1 <= r < |s|
    ensures r >= 0 ==> s[r] == c && forall j :: r < j < |s| ==> s[j] != c
    ensures r == -1 ==> forall j :: 0 <= j < |s| ==> s[j] != c
  {
    if |s| == 0 then -1
    else if s[|s| - 1] == c then |s| - 1
    else LastIndexOf(s[..|s| - 1], c)
  }

  /** `os.path.basename`: everything after the last separator. */
  function Basename(p: string): (b: string)
    ensures Sep !in b
    ensures |b| <= |p| && b == p[|p| - |b|..]
    ensures |b| == |p| || p[|p| - |b| - 1] == Sep
  {
    p[LastIndexOf(p, Sep) + 1..]
  }

  /** True when `s` holds some character other than a dot. */
  predicate HasNonDot(s: string) {
    exists j :: 0 <= j < |s| && s[j] != '.'
  }

  /** `e` is the extension `os.path.splitext` finds in the file name `b`:
      either the suffix from the last dot, which has a non-dot character
      somewhere before it (so `.mp3` and `..mp3` are stems without
      extension), or nothing, and nothing only when `b` has no dot or only
      dots before its last one. */
  predicate IsExtensionOf(e: string, b: string) {
    && (e == "" ||
        (|e| <= |b| && e == b[|b| - |e|..] && e[0] == '.' && '.' !in e[1..] && HasNonDot(b[..|b| - |e|])))
    && (e == "" ==> LastIndexOf(b, '.') == -1 || !HasNonDot(b[..LastIndexOf(b, '.')]))
  }

  /** `os.path.splitext(p)[1]`: the extension of the path's file name. */
  function Extension(p: string): (e: string)
    ensures IsExtensionOf(e, Basename(p))
  {
    NameExtension(Basename(p))
  }

  /** The extension of a file name `b` that holds no separator. */
  function NameExtension(b: string): (e: string)
    ensures IsExtensionOf(e, b)
  {
    var dot := LastIndexOf(b, '.');
    if dot >= 0 && HasNonDot(b[..dot]) then
      ExtensionAt(b, dot);
      var e := b[dot..];
      assert |b| - |e| == dot;
      e
    else ""
  }

  /** The suffix from the last dot has no further dot. */
  lemma ExtensionAt(b: string, dot: nat)
    requires dot < |b| && b[dot] == '.'
    requires forall j :: dot < j < |b| ==> b[j] != '.'
    ensures '.' !in b[dot..][1..]
  {
    var e := b[dot..];
    assert forall j :: 1 <= j < |e| ==> e[j] == b[dot + j];
  }

  /** ASCII lower-casing of one character: an upper-case letter moves to
      the lower-case letter at the same place in the alphabet. */
  function LowerChar(c: char): (r: char)
    ensures 'A' <= c <= 'Z' ==> 'a' <= r <= 'z' && r as int - 'a' as int == c as int - 'A' as int
    ensures !('A' <= c <= 'Z') ==> r == c
  {
    if 'A' <= c <= 'Z' then (c as int - 'A' as int + 'a' as int) as char else c
  }

  /** `str.lower()` restricted to ASCII letters. */
  function Lower(s: string): (r: string)
    ensures |r| == |s|
    ensures forall j :: 0 <= j < |s| ==> r[j] == LowerChar(s[j])
  {
    if |s| == 0 then [] else [LowerChar(s[0])] + Lower(s[1..])
  }

  /** The format filter of `add_songs`: `.mp3` or `.flac`, in any letter
      case.  An accepted path ends in one of them. */
  function HasAudioExtension(p: string): (r: bool)
    ensures r ==> EndsInAudioSuffix(p)
  {
    var e := Lower(Extension(p));
    if e == ".mp3" || e == ".flac" then
      ExtensionIsSuffix(p);
      AudioSuffix(p, Extension(p));
      true
    else false
  }

  /** `e` is the last `|e|` characters of `p`. */
  predicate IsSuffix(e: string, p: string) {
    |e| <= |p| && e == p[|p| - |e|..]
  }

  /** `p` ends in `.mp3` or `.flac`, in any letter case. */
  predicate EndsInAudioSuffix(p: string) {
    |p| >= 4 && (Lower(p[|p| - 4..]) == ".mp3" || (|p| >= 5 && Lower(p[|p| - 5..]) == ".flac"))
  }

  /** An accepted path ends in `.mp3` or `.flac`, in any letter case. */
  lemma AcceptedPathsEndInAudioSuffix(p: string)
    requires HasAudioExtension(p)
    ensures EndsInAudioSuffix(p)
  {
    ExtensionIsSuffix(p);
    AudioSuffix(p, Extension(p));
  }

  /** A suffix of `p` that lower-cases to `.mp3` or `.flac` is the last four
      or five characters of `p`. */
  lemma AudioSuffix(p: string, e: string)
    requires IsSuffix(e, p)
    requires Lower(e) == ".mp3" || Lower(e) == ".flac"
    ensures EndsInAudioSuffix(p)
  {
    if Lower(e) == ".mp3" {
      Mp3Suffix(p, e);
    } else {
      FlacSuffix(p, e);
    }
  }

  lemma Mp3Suffix(p: string, e: string)
    requires IsSuffix(e, p) && Lower(e) == ".mp3"
    ensures EndsInAudioSuffix(p)
  {
    SuffixOfLength(p, e, 4);
  }

  lemma FlacSuffix(p: string, e: string)
    requires IsSuffix(e, p) && Lower(e) == ".flac"
    ensures EndsInAudioSuffix(p)
  {
    SuffixOfLength(p, e, 5);
  }

  /** A suffix of length `n` is `p`'s last `n` characters. */
  lemma SuffixOfLength(p: string, e: string, n: nat)
    requires IsSuffix(e, p) && |Lower(e)| == n
    ensures n <= |p| && p[|p| - n..] == e
  {
  }

  /** The extension is a suffix of the whole path. */
  lemma ExtensionIsSuffix(p: string)
    ensures IsSuffix(Extension(p), p)
  {
    var b := Basename(p);
    var e := Extension(p);
    assert IsSuffix(b, p);
    assert e == "" || IsSuffix(e, b);
    SuffixOfSuffix(p, b, e);
  }

  /** A suffix of a suffix of `p` is a suffix of `p`. */
  lemma SuffixOfSuffix(p: string, b: string, e: string)
    requires IsSuffix(b, p)
    requires e == "" || IsSuffix(e, b)
    ensures IsSuffix(e, p)
  {
    if e != "" {
      assert forall j :: 0 <= j < |e| ==> e[j] == b[|b| - |e| + j] == p[|p| - |e| + j];
    }
  }

  /** The last occurrence is pinned down by one occurrence with none after it. */
  lemma LastIndexOfAt(s: string, c: char, k: nat)
    requires k < |s| && s[k] == c
    requires forall j :: k < j < |s| ==> s[j] != c
    ensures LastIndexOf(s, c) == k
  {
  }

  /** The filter accepts every path whose file name is a stem holding a
      non-dot character followed by `.mp3` or `.flac`, in any letter case,
      whether or not a directory precedes it. */
  lemma FilterAccepts(dir: string, stem: string, ext: string)
    requires dir == [] || dir[|dir| - 1] == Sep
    requires Sep !in stem && HasNonDot(stem)
    requires Lower(ext) == ".mp3" || Lower(ext) == ".flac"
    ensures HasAudioExtension(dir + stem + ext)
  {
    assert dir + stem + ext == dir + (stem + ext);
    NoSepInAudioSuffix(ext);
    BasenameAfterDir(dir, stem + ext);
    NameWithAudioSuffix(stem, ext);
  }

  /** A suffix that lower-cases to `.mp3` or `.flac` holds no separator. */
  lemma NoSepInAudioSuffix(ext: string)
    requires Lower(ext) == ".mp3" || Lower(ext) == ".flac"
    ensures Sep !in ext
  {
    forall i | 0 <= i < |ext| ensures ext[i] != Sep {
      assert Lower(ext)[i] == LowerChar(ext[i]);
    }
  }

  /** The file name of a directory (empty, or ending in a separator)
      followed by a name without separators is that name. */
  lemma BasenameAfterDir(dir: string, b: string)
    requires dir == [] || dir[|dir| - 1] == Sep
    requires Sep !in b
    ensures Basename(dir + b) == b
  {
    var p := dir + b;
    if dir == [] {
      assert p == b;
    } else {
      forall j | |dir| - 1 < j < |p| ensures p[j] != Sep {
        assert p[j] == b[j - |dir|];
      }
      LastIndexOfAt(p, Sep, |dir| - 1);
      assert p[|dir|..] == b;
    }
  }

  /** The file-name half of `FilterAccepts`: a stem holding a non-dot
      followed by an accepted suffix has that suffix as its extension. */
  lemma NameWithAudioSuffix(stem: string, ext: string)
    requires HasNonDot(stem)
    requires Lower(ext) == ".mp3" || Lower(ext) == ".flac"
    ensures Lower(NameExtension(stem + ext)) == Lower(ext)
  {
    var b := stem + ext;
    assert b[|b| - |ext|..] == ext;
    assert b[..|b| - |ext|] == stem;
    DotThenNonDots(Lower(ext));
    ExtensionFromSuffix(b, Lower(ext));
  }

  /** Both accepted suffixes are a dot followed by non-dots. */
  lemma DotThenNonDots(s: string)
    requires s == ".mp3" || s == ".flac"
    ensures |s| > 0 && s[0] == '.' && forall i :: 0 < i < |s| ==> s[i] != '.'
  {
  }

  /** A file name ending in a suffix that lower-cases to a dot followed by
      non-dots, after a stem holding a non-dot, has that suffix as its
      extension. */
  lemma ExtensionFromSuffix(b: string, s: string)
    requires 0 < |s| <= |b|
    requires s[0] == '.' && forall i :: 0 < i < |s| ==> s[i] != '.'
    requires Lower(b[|b| - |s|..]) == s
    requires HasNonDot(b[..|b| - |s|])
    ensures NameExtension(b) == b[|b| - |s|..]
  {
    var k := |b| - |s|;
    LastDotAt(b, s);
    LastIndexOfAt(b, '.', k);
  }

  /** Such a suffix starts at the last dot of the name. */
  lemma LastDotAt(b: string, s: string)
    requires 0 < |s| <= |b|
    requires s[0] == '.' && forall i :: 0 < i < |s| ==> s[i] != '.'
    requires Lower(b[|b| - |s|..]) == s
    ensures b[|b| - |s|] == '.'
    ensures forall j :: |b| - |s| < j < |b| ==> b[j] != '.'
  {
    var k := |b| - |s|;
    var e := b[k..];
    LowerPointwise(e, s);
    assert b[k] == e[0];
    forall j | k < j < |b|
      ensures b[j] != '.'
    {
      assert b[j] == e[j - k];
    }
  }

  /** Lower-casing keeps dots and non-dots apart, position by position. */
  lemma LowerPointwise(x: string, y: string)
    requires Lower(x) == y
    ensures |x| == |y|
    ensures forall i :: 0 <= i < |x| ==> (x[i] == '.' <==> y[i] == '.')
  {
    forall i | 0 <= i < |x|
      ensures x[i] == '.' <==> y[i] == '.'
    {
      assert y[i] == LowerChar(x[i]);
    }
  }

  /** A name with a stem and an upper-case `.MP3` suffix passes the filter. */
  lemma FilterAcceptsUpperCase()
    ensures HasAudioExtension("/music/Song.MP3")
  {
    LowerUpperMp3();
    assert "Song"[0] != '.';
    assert "/music/" + "Song" + ".MP3" == "/music/Song.MP3";
    FilterAccepts("/music/", "Song", ".MP3");
  }

  lemma LowerUpperMp3()
    ensures Lower(".MP3") == ".mp3"
  {
    assert Lower(".MP3") == [LowerChar('.'), LowerChar('M'), LowerChar('P'), LowerChar('3')];
  }

  /** A file named only ".mp3" has no extension, as a leading dot starts no
      extension. */
  lemma FilterRejectsDotFile()
    ensures !HasAudioExtension("/music/.mp3")
  {
    var q := "/music/.mp3";
    LastIndexOfAt(q, Sep, 6);
    var b := Basename(q);
    assert b == ".mp3";
    LastIndexOfAt(b, '.', 0);
    assert b[..0] == [];
  }

  /** A dot in a directory name is not an extension of the file. */
  lemma FilterRejectsDottedDirectory()
    ensures !HasAudioExtension("/music.mp3/notes")
  {
    var u := "/music.mp3/notes";
    LastIndexOfAt(u, Sep, 10);
    var b := Basename(u);
    assert b == "notes";
    assert LastIndexOf(b, '.') == -1;
  }
}
