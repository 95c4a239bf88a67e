/** The files that travel with a primary image (main.py:123-139): paths
    made from the image's path with its extension replaced, and with an
    extension appended, for `xmp`, `dng` and `arw` in both cases.  Each
    one that exists goes to the image's date folder under its own name. */
module Sidecars {
  import opened Paths

  /** `extensions_to_check` after it is extended with its upper-cased copy. */
  const CandidateExtensions: seq<string> := ["xmp", "dng", "arw", "XMP", "DNG", "ARW"]

  /** `f"{root}.{ext}"` for each extension, in order. */
  function WithExtensions(root: string): (r: seq<string>)
    ensures |r| == |CandidateExtensions|
  {
    seq(|CandidateExtensions|, i requires 0 <= i < |CandidateExtensions| => root + "." + CandidateExtensions[i])
  }

  /** `full_paths`: the six replaced-extension paths, then the six
      appended-extension paths. */
  function Candidates(fullPath: string): seq<string> {
    WithExtensions(SplitExtRoot(fullPath)) + WithExtensions(fullPath)
  }

  /** The list as main.py builds it: a list of three extensions
      extended by its upper-cased copy, then two comprehensions, the second
      appended to the first. */
  method SidecarCandidates(fullPath: string) returns (paths: seq<string>)
    ensures |paths| == 12
    ensures paths == Candidates(fullPath)
  {
    var extensions := ["xmp", "dng", "arw"];
    extensions := extensions + seq(|extensions|, i requires 0 <= i < |extensions| => Upper(extensions[i]));
    assert Upper("xmp") == "XMP" && Upper("dng") == "DNG" && Upper("arw") == "ARW";
    assert extensions == CandidateExtensions;
    var root := SplitExtRoot(fullPath);
    paths := seq(|extensions|, i requires 0 <= i < |extensions| => root + "." + extensions[i]);
    paths := paths + seq(|extensions|, i requires 0 <= i < |extensions| => fullPath + "." + extensions[i]);
  }

  /** Each `root.ext` lies in the directory of `root`, and its base name
      is the base name of `root` followed by `.ext`. */
  lemma WithExtensionsInDir(root: string)
    ensures forall i :: 0 <= i < |CandidateExtensions| ==>
              DirPart(WithExtensions(root)[i]) == DirPart(root)
              && Basename(WithExtensions(root)[i]) == Basename(root) + "." + CandidateExtensions[i]
  {
    forall i | 0 <= i < |CandidateExtensions|
      ensures DirPart(WithExtensions(root)[i]) == DirPart(root)
      ensures Basename(WithExtensions(root)[i]) == Basename(root) + "." + CandidateExtensions[i]
    {
      var tail := "." + CandidateExtensions[i];
      assert Sep !in tail;
      AppendKeepsDir(root, tail);
      assert WithExtensions(root)[i] == root + tail;
    }
  }

  /** Every candidate lies in the image's own directory: its destination
      therefore keeps the base name it has there. */
  lemma CandidatesInImageDir(fullPath: string)
    ensures forall c :: c in Candidates(fullPath) ==> DirPart(c) == DirPart(fullPath)
  {
    var root := SplitExtRoot(fullPath);
    SplitExtRootDir(fullPath);
    WithExtensionsInDir(root);
    WithExtensionsInDir(fullPath);
  }

  /** Appending text without separators extends the base name and keeps
      the directory part. */
  lemma AppendKeepsDir(p: string, tail: string)
    requires Sep !in tail
    ensures DirPart(p + tail) == DirPart(p)
    ensures Basename(p + tail) == Basename(p) + tail
  {
    RFindAppend(p, tail, Sep);
  }

  /** The twelve candidates are twelve different paths exactly when
      `splitext` finds an extension; otherwise both halves coincide. */
  lemma CandidatesDistinct(fullPath: string)
    ensures |Candidates(fullPath)| == 12
    ensures HasExtension(fullPath) <==>
              forall i, j :: 0 <= i < j < 12 ==> Candidates(fullPath)[i] != Candidates(fullPath)[j]
  {
    var c := Candidates(fullPath);
    var root := SplitExtRoot(fullPath);
    if HasExtension(fullPath) {
      forall i, j | 0 <= i < j < 12 ensures c[i] != c[j] {
        if j < 6 {
          ExtensionsDiffer(root, i, j);
        } else if i >= 6 {
          ExtensionsDiffer(fullPath, i - 6, j - 6);
        } else {
          assert |c[i]| == |root| + 4 && |c[j]| == |fullPath| + 4;
        }
      }
    } else {
      assert c[0] == c[6];
    }
  }

  lemma ExtensionsDiffer(root: string, i: int, j: int)
    requires 0 <= i < j < 6
    ensures root + "." + CandidateExtensions[i] != root + "." + CandidateExtensions[j]
  {
    var a, b := root + "." + CandidateExtensions[i], root + "." + CandidateExtensions[j];
    assert a[|root| + 1..] == CandidateExtensions[i];
    assert b[|root| + 1..] == CandidateExtensions[j];
  }

  /** For an image `base.ext` in a folder, the first six candidates are
      `base.xmp`, `base.dng`, `base.arw`, `base.XMP`, `base.DNG`,
      `base.ARW` in that folder, and the last six append to `base.ext`. */
  lemma CandidatesOfName(folder: string, base: string, ext: string)
    requires NoSep(base) && NoSep(ext) && Dot !in ext
    requires exists i :: 0 <= i < |base| && base[i] != Dot
    ensures var p := Join(folder, base + [Dot] + ext);
            Candidates(p) == WithExtensions(JoinPrefix(folder) + base) + WithExtensions(p)
  {
    SplitExtRootOfName(folder, base, ext);
  }
}
