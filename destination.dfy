/** Where the walk loop of main.py sends a video or image (main.py:85-89,
    96, 109-113, 121): `<dest>/video|image/<YYYY-MM-DD or no-date>/<name>`. */
module Destination {
  import opened Wrappers
  import opened Paths
  import opened Dates
  import opened Classification

  const NoDateFolder: string := "no-date"

  /** The folder named after the capture date, or `no-date` without one. */
  function FolderName(date: Option<Date>): string {
    match date
    case Some(d) => FormatDate(d)
    case None => NoDateFolder
  }

  /** The inverse of FolderName: which capture date a folder name stands for. */
  function ParseFolderName(name: string): Option<Option<Date>> {
    if name == NoDateFolder then Some(None)
    else match ParseDate(name)
      case Some(d) => Some(Some(d))
      case None => None
  }

  /** A folder name tells the capture date back, so files of different
      dates, and dated and undated files, never share a folder; and the
      name is a single non-empty path component. */
  lemma FolderNameRoundTrip(date: Option<Date>)
    ensures ParseFolderName(FolderName(date)) == Some(date)
    ensures NoSep(FolderName(date)) && FolderName(date) != []
  {
    if date.Some? {
      var s := FormatDate(date.value);
      FormatDateRoundTrip(date.value);
      assert s != NoDateFolder by { assert |NoDateFolder| == 7; }
      assert Sep !in s by {
        forall i | 0 <= i < |s| ensures s[i] != Sep {
          if i < 4 { assert s[i] == s[..4][i]; }
          else if 4 < i < 7 { assert s[i] == s[5..7][i - 5]; }
          else if 7 < i { assert s[i] == s[8..][i - 8]; }
        }
      }
    }
  }

  /** `"video"` or `"image"`, the media folder below the destination root. */
  function MediaFolder(kind: Kind): string
    requires kind != Skipped
  {
    if kind == Video then "video" else "image"
  }

  /** `dest_folder`: `os.path.join(dest, "video"|"image", folder_name)`. */
  function DestFolder(dest: string, kind: Kind, date: Option<Date>): string
    requires kind != Skipped
  {
    Join(Join(dest, MediaFolder(kind)), FolderName(date))
  }

  /** `os.path.join(dest_folder, filename)`. */
  function DestPath(dest: string, kind: Kind, date: Option<Date>, filename: string): string
    requires kind != Skipped
  {
    Join(DestFolder(dest, kind, date), filename)
  }

  /** The destination is the root, the media folder, the date folder and
      the file's own name, one separator between each; the file keeps its
      name and sits directly in the date folder. */
  lemma DestPathLayout(dest: string, kind: Kind, date: Option<Date>, filename: string)
    requires kind != Skipped && NoSep(filename)
    ensures DestFolder(dest, kind, date) == JoinPrefix(dest) + MediaFolder(kind) + [Sep] + FolderName(date)
    ensures DestPath(dest, kind, date, filename)
            == JoinPrefix(dest) + MediaFolder(kind) + [Sep] + FolderName(date) + [Sep] + filename
    ensures Basename(DestPath(dest, kind, date, filename)) == filename
    ensures DirPart(DestPath(dest, kind, date, filename)) == JoinPrefix(DestFolder(dest, kind, date))
  {
    var media := MediaFolder(kind);
    var folder := FolderName(date);
    FolderNameRoundTrip(date);
    JoinName(dest, media);
    var a := Join(dest, media);
    assert JoinPrefix(a) == a + [Sep] by { assert a[|a| - 1] == media[|media| - 1]; }
    JoinName(a, folder);
    var b := Join(a, folder);
    assert JoinPrefix(b) == b + [Sep] by { assert b[|b| - 1] == folder[|folder| - 1]; }
    JoinName(b, filename);
  }

  /** Every date folder lies inside the destination root. */
  lemma DestFolderUnderDest(dest: string, kind: Kind, date: Option<Date>)
    requires kind != Skipped
    ensures JoinPrefix(dest) <= JoinPrefix(DestFolder(dest, kind, date))
  {
    DestPathLayout(dest, kind, date, []);
    var f := DestFolder(dest, kind, date);
    assert JoinPrefix(dest) <= f;
  }

  /** Under one root, a destination path determines the media folder, the
      date folder and the file name: distinct files never collide unless
      they share all three. */
  lemma DestPathInjective(dest: string, k1: Kind, d1: Option<Date>, f1: string,
                                        k2: Kind, d2: Option<Date>, f2: string)
    requires k1 != Skipped && k2 != Skipped && NoSep(f1) && NoSep(f2)
    requires DestPath(dest, k1, d1, f1) == DestPath(dest, k2, d2, f2)
    ensures k1 == k2 && d1 == d2 && f1 == f2
  {
    var p := JoinPrefix(dest);
    var t1 := RelativePath(k1, d1, f1);
    var t2 := RelativePath(k2, d2, f2);
    DestPathRelative(dest, k1, d1, f1);
    DestPathRelative(dest, k2, d2, f2);
    assert t1 == (p + t1)[|p|..];
    assert t2 == (p + t2)[|p|..];
    RelativePathInjective(k1, d1, f1, k2, d2, f2);
  }

  lemma RelativePathInjective(k1: Kind, d1: Option<Date>, f1: string, k2: Kind, d2: Option<Date>, f2: string)
    requires k1 != Skipped && k2 != Skipped
    requires RelativePath(k1, d1, f1) == RelativePath(k2, d2, f2)
    ensures k1 == k2 && d1 == d2 && f1 == f2
  {
    var m1, m2 := MediaFolder(k1), MediaFolder(k2);
    var n1, n2 := FolderName(d1), FolderName(d2);
    FolderNameRoundTrip(d1);
    FolderNameRoundTrip(d2);
    assert NoSep(m1) && NoSep(m2);
    SplitAtFirstSep(m1, n1 + [Sep] + f1, m2, n2 + [Sep] + f2);
    SplitAtFirstSep(n1, f1, n2, f2);
    assert Some(d1) == ParseFolderName(n1) == ParseFolderName(n2) == Some(d2);
  }

  /** The part of a destination below the root. */
  function RelativePath(kind: Kind, date: Option<Date>, filename: string): string
    requires kind != Skipped
  {
    MediaFolder(kind) + [Sep] + (FolderName(date) + [Sep] + filename)
  }

  lemma DestPathRelative(dest: string, kind: Kind, date: Option<Date>, filename: string)
    requires kind != Skipped && NoSep(filename)
    ensures DestPath(dest, kind, date, filename) == JoinPrefix(dest) + RelativePath(kind, date, filename)
  {
    DestPathLayout(dest, kind, date, filename);
    var p, m, n := JoinPrefix(dest), MediaFolder(kind), FolderName(date);
    var t := n + [Sep] + filename;
    calc {
      p + m + [Sep] + n + [Sep] + filename;
      { Assoc(p + m + [Sep] + n, [Sep], filename); }
      p + m + [Sep] + n + ([Sep] + filename);
      { Assoc(p + m + [Sep], n, [Sep] + filename); Assoc(n, [Sep], filename); }
      p + m + [Sep] + t;
      { Assoc(p + m, [Sep], t); }
      p + m + ([Sep] + t);
      { Assoc(p, m, [Sep] + t); Assoc(m, [Sep], t); }
      p + (m + [Sep] + t);
    }
  }
}
