/** How the walk loop of main.py sorts a file name (main.py:78, 97-103,
    140): by the lower-cased name's ending, videos first, then images,
    everything else skipped. */
module Classification {
  import opened Wrappers
  import opened Paths

  datatype Kind = Video | Image | Skipped

  /** The `if`/`elif`/`else` chain of the walk loop. */
  function Classify(filename: string): Kind {
    var lower := Lower(filename);
    if EndsWith(lower, ".mp4") || EndsWith(lower, ".mov") then Video
    else if EndsWith(lower, ".jpg") || EndsWith(lower, ".png") || EndsWith(lower, ".tif")
            || EndsWith(lower, ".arw") || EndsWith(lower, ".dng") || EndsWith(lower, ".jpeg")
    then Image
    else Skipped
  }

  // ------------------------------------------- reference by extension

  /** What follows the last dot of `s`, if it has one. */
  function LastExtension(s: string): Option<string> {
    var dot := RFind(s, Dot);
    if dot < 0 then None else Some(s[dot + 1..])
  }

  /** A reference sorting by the text after the last dot. */
  function KindOfExtension(ext: Option<string>): Kind {
    match ext
    case None => Skipped
    case Some(e) =>
      if e in ["mp4", "mov"] then Video
      else if e in ["jpg", "png", "tif", "arw", "dng", "jpeg"] then Image
      else Skipped
  }

  /** A string ends with `.e`, for `e` without dots, exactly when `e` is
      what follows its last dot. */
  lemma EndsWithExtension(s: string, ending: string)
    requires |ending| >= 1 && ending[0] == Dot && Dot !in ending[1..]
    ensures EndsWith(s, ending) <==> LastExtension(s) == Some(ending[1..])
  {
    var e := ending[1..];
    if EndsWith(s, ending) {
      var k := |s| - |ending|;
      assert s[k] == Dot;
      forall i | k < i < |s| ensures s[i] != Dot {
        assert s[i] == e[i - k - 1];
        assert e[i - k - 1] in e;
      }
      RFindUnique(s, Dot, k);
    }
    if LastExtension(s) == Some(e) {
      var dot := RFind(s, Dot);
      assert |s| - |ending| == dot;
      assert s[dot..] == [Dot] + s[dot + 1..];
      assert ending == [Dot] + e;
    }
  }

  /** Classify agrees with sorting by the extension after the last dot:
      the suffix tests of main.py are extension tests. */
  lemma ClassifyByExtension(filename: string)
    ensures Classify(filename) == KindOfExtension(LastExtension(Lower(filename)))
  {
    var s := Lower(filename);
    EndsWithExtension(s, ".mp4");
    EndsWithExtension(s, ".mov");
    EndsWithExtension(s, ".jpg");
    EndsWithExtension(s, ".png");
    EndsWithExtension(s, ".tif");
    EndsWithExtension(s, ".arw");
    EndsWithExtension(s, ".dng");
    EndsWithExtension(s, ".jpeg");
  }

  /** The sort ignores case: a name, its lower-cased and its upper-cased
      forms land in the same bucket. */
  lemma ClassifyIgnoresCase(filename: string)
    ensures Classify(Lower(filename)) == Classify(filename)
    ensures Classify(Upper(filename)) == Classify(filename)
  {
    LowerForgetsCase(filename);
  }

  /** `.tiff` is not among the image endings although `.tif` is, and a
      `.dng` raw file is a primary image, whatever precedes the ending. */
  lemma TiffIsSkipped(base: string)
    ensures Classify(base + ".tiff") == Skipped
    ensures Classify(base + ".TIF") == Image
    ensures Classify(base + ".DNG") == Image
  {
    LowerEndings();
    EndingKind(base, ".tiff", "tiff");
    EndingKind(base, ".TIF", "tif");
    EndingKind(base, ".DNG", "dng");
  }

  /** Raw `.dng` and `.arw` files, in either case, are images: listed on
      their own they are sorted by their own date and never logged, even
      when they are also sidecar candidates of another image. */
  lemma RawIsImage(base: string)
    ensures Classify(base + ".dng") == Image && Classify(base + ".DNG") == Image
    ensures Classify(base + ".arw") == Image && Classify(base + ".ARW") == Image
  {
    LowerEndings();
    EndingKind(base, ".dng", "dng");
    EndingKind(base, ".DNG", "dng");
    EndingKind(base, ".arw", "arw");
    EndingKind(base, ".ARW", "arw");
  }

  /** The endings the lemmas here are about, lower-cased. */
  lemma LowerEndings()
    ensures Lower(".tiff") == [Dot] + "tiff" && Lower(".TIF") == [Dot] + "tif" && Lower(".DNG") == [Dot] + "dng"
    ensures Lower(".jpg") == [Dot] + "jpg" && Lower(".xmp") == [Dot] + "xmp"
    ensures Lower(".dng") == [Dot] + "dng" && Lower(".arw") == [Dot] + "arw" && Lower(".ARW") == [Dot] + "arw"
    ensures Dot !in "tiff" && Dot !in "tif" && Dot !in "dng" && Dot !in "jpg" && Dot !in "xmp" && Dot !in "arw"
  {
  }

  /** A name made of anything and an ending `.e` is sorted by `e` alone. */
  lemma EndingKind(base: string, ending: string, e: string)
    requires Dot !in e && Lower(ending) == [Dot] + e
    ensures Classify(base + ending) == KindOfExtension(Some(e))
  {
    var n := base + ending;
    ClassifyByExtension(n);
    var l := Lower(n);
    assert l[|l| - |ending|..] == Lower(ending);
    EndsWithExtension(l, Lower(ending));
  }
}
