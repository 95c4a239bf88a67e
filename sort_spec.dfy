/** The walk loop of main.py (main.py:72-143) as functions on an abstract
    file system: a map from existing file paths to files, and the lines
    of the skip log.  One step handles one listed file name; a run folds
    the steps over a directory listing, and over the directories of the
    walk. */
module SortSpec {
  import opened Wrappers
  import opened Paths
  import opened CaptureDate
  import opened Classification
  import opened Destination
  import opened Sidecars

  /** A file as far as the sorter can tell: what exiftool reads from it
      (`None` when extraction fails). */
  datatype File = File(metadata: Option<Metadata>)

  /** The files that exist, by path. */
  type FileSystem = map<string, File>

  /** `--dest`, `--move`, and the `strptime` the run uses. */
  datatype Config = Config(dest: string, move: bool, parse: Parser)

  /** The file system and the lines appended to the `skipped` log. */
  datatype State = State(fs: FileSystem, log: seq<string>)

  /** The state after some steps, and the exception that ended them early. */
  datatype Run = Run(state: State, raised: Option<Error>)

  // ----------------------------------------------------------- transfer

  /** `copy_or_move(src, dst)`: `shutil.move` (a rename) or `shutil.copy`.
      Both replace a file already at `dst`; moving a path onto itself
      changes nothing. */
  function Transfer(fs: FileSystem, src: string, dst: string, move: bool): (r: FileSystem)
    requires src in fs
    ensures dst in r && r[dst] == fs[src]
    ensures move && src != dst ==> src !in r
    ensures !move ==> src in r && r[src] == fs[src] && fs.Keys <= r.Keys
    ensures forall p :: p != src && p != dst ==> (p in r <==> p in fs) && (p in r ==> r[p] == fs[p])
  {
    if src == dst then fs
    else if move then (fs - {src})[dst := fs[src]]
    else fs[dst := fs[src]]
  }

  /** `os.path.join(dest_folder, os.path.basename(candidate))`. */
  function SidecarDest(folder: string, c: string): string {
    Join(folder, Basename(c))
  }

  /** The loop over `full_paths`: each candidate that exists at its turn
      is transferred to the date folder under its own base name. */
  function SidecarPass(fs: FileSystem, cands: seq<string>, folder: string, move: bool): FileSystem
    decreases |cands|
  {
    if cands == [] then fs
    else
      var c := cands[0];
      var next := if c in fs then Transfer(fs, c, SidecarDest(folder, c), move) else fs;
      SidecarPass(next, cands[1..], folder, move)
  }

  // --------------------------------------------------------------- step

  /** One iteration of `for filename in filenames`: pass over a path that
      no longer exists; log a file whose kind is unknown; otherwise read
      its capture date (which may raise) and transfer it, and for an
      image each existing sidecar candidate too, to the date folder. */
  function Step(cfg: Config, st: State, dirpath: string, filename: string): Result<State, Error> {
    var full := Join(dirpath, filename);
    if full !in st.fs then Success(st)
    else
      var kind := Classify(filename);
      if kind == Skipped then Success(State(st.fs, st.log + [full]))
      else
        match CreationDate(st.fs[full].metadata, cfg.parse)
        case Failure(e) => Failure(e)
        case Success(date) =>
          var folder := DestFolder(cfg.dest, kind, date);
          var fs := Transfer(st.fs, full, Join(folder, filename), cfg.move);
          if kind == Video then Success(State(fs, st.log))
          else Success(State(SidecarPass(fs, Candidates(full), folder, cfg.move), st.log))
  }

  /** The steps over one directory listing, stopping at an exception. */
  function RunFiles(cfg: Config, st: State, dirpath: string, names: seq<string>): Run
    decreases |names|
  {
    if names == [] then Run(st, None)
    else match Step(cfg, st, dirpath, names[0])
      case Failure(e) => Run(st, Some(e))
      case Success(next) => RunFiles(cfg, next, dirpath, names[1..])
  }

  /** The whole walk: each directory's listing in turn. */
  function RunWalk(cfg: Config, st: State, walk: seq<(string, seq<string>)>): Run
    decreases |walk|
  {
    if walk == [] then Run(st, None)
    else
      var r := RunFiles(cfg, st, walk[0].0, walk[0].1);
      if r.raised.Some? then r else RunWalk(cfg, r.state, walk[1..])
  }

  // ------------------------------------------------- sidecar pass facts

  /** The pass never touches a path outside the candidates' directory `d`
      except by writing a destination, which lies in the folder. */
  predicate SeparateDirs(cands: seq<string>, folder: string, d: string) {
    JoinPrefix(folder) != d && forall c :: c in cands ==> DirPart(c) == d
  }

  lemma SidecarDestInFolder(folder: string, c: string)
    ensures DirPart(SidecarDest(folder, c)) == JoinPrefix(folder)
    ensures Basename(SidecarDest(folder, c)) == Basename(c)
  {
    JoinName(folder, Basename(c));
  }

  /** A path keeps its file through the pass when it is not a candidate
      and every candidate aimed at it that exists holds that same file. */
  lemma {:induction false} SidecarPassKeeps(fs: FileSystem, cands: seq<string>, folder: string, move: bool,
                                           d: string, k: string, v: File)
    requires SeparateDirs(cands, folder, d)
    requires k !in cands && k in fs && fs[k] == v
    requires forall c :: c in cands && SidecarDest(folder, c) == k && c in fs ==> fs[c] == v
    ensures k in SidecarPass(fs, cands, folder, move) && SidecarPass(fs, cands, folder, move)[k] == v
    decreases |cands|
  {
    if cands != [] {
      var c0 := cands[0];
      var rest := cands[1..];
      var next := if c0 in fs then Transfer(fs, c0, SidecarDest(folder, c0), move) else fs;
      SidecarDestInFolder(folder, c0);
      forall c | c in rest && SidecarDest(folder, c) == k && c in next
        ensures next[c] == v
      {
        assert c in cands;
        if c0 in fs {
          assert c != SidecarDest(folder, c0);
        }
      }
      assert forall c :: c in rest ==> c in cands;
      SidecarPassKeeps(next, rest, folder, move, d, k, v);
    }
  }

  /** Every candidate that exists when the pass starts ends at its
      destination with its file. */
  lemma {:induction false} SidecarPassPlaces(fs: FileSystem, cands: seq<string>, folder: string, move: bool, d: string)
    requires SeparateDirs(cands, folder, d)
    ensures forall c :: c in cands && c in fs ==>
              SidecarDest(folder, c) in SidecarPass(fs, cands, folder, move)
              && SidecarPass(fs, cands, folder, move)[SidecarDest(folder, c)] == fs[c]
    decreases |cands|
  {
    if cands != [] {
      var c0 := cands[0];
      var rest := cands[1..];
      assert forall c :: c in rest ==> c in cands;
      var next := if c0 in fs then Transfer(fs, c0, SidecarDest(folder, c0), move) else fs;
      SidecarDestInFolder(folder, c0);
      SidecarPassPlaces(next, rest, folder, move, d);
      if c0 in fs {
        var d0 := SidecarDest(folder, c0);
        forall c | c in rest && SidecarDest(folder, c) == d0 && c in next
          ensures next[c] == fs[c0]
        {
          SidecarDestInFolder(folder, c);
          DirPartBasename(c);
          DirPartBasename(c0);
          assert c == c0;
        }
        SidecarPassKeeps(next, rest, folder, move, d, d0, fs[c0]);
      }
      forall c | c in cands && c in fs && c != c0
        ensures SidecarDest(folder, c) in SidecarPass(fs, cands, folder, move)
        ensures SidecarPass(fs, cands, folder, move)[SidecarDest(folder, c)] == fs[c]
      {
        assert c in rest;
        if c0 in fs {
          SidecarDestInFolder(folder, c0);
          assert c != SidecarDest(folder, c0);
        }
      }
    }
  }

  /** The pass creates no file in the candidates' directory. */
  lemma {:induction false} SidecarPassAddsNothingInDir(fs: FileSystem, cands: seq<string>, folder: string, move: bool,
                                                      d: string, k: string)
    requires SeparateDirs(cands, folder, d)
    requires DirPart(k) == d && k !in fs
    ensures k !in SidecarPass(fs, cands, folder, move)
    decreases |cands|
  {
    if cands != [] {
      var c0 := cands[0];
      SidecarDestInFolder(folder, c0);
      assert forall c :: c in cands[1..] ==> c in cands;
      var next := if c0 in fs then Transfer(fs, c0, SidecarDest(folder, c0), move) else fs;
      SidecarPassAddsNothingInDir(next, cands[1..], folder, move, d, k);
    }
  }

  /** Moving leaves none of the candidates behind. */
  lemma {:induction false} SidecarPassMoveEmptiesDir(fs: FileSystem, cands: seq<string>, folder: string, d: string)
    requires SeparateDirs(cands, folder, d)
    ensures forall c :: c in cands ==> c !in SidecarPass(fs, cands, folder, true)
    decreases |cands|
  {
    if cands != [] {
      var c0 := cands[0];
      SidecarDestInFolder(folder, c0);
      assert forall c :: c in cands[1..] ==> c in cands;
      var next := if c0 in fs then Transfer(fs, c0, SidecarDest(folder, c0), true) else fs;
      SidecarPassMoveEmptiesDir(next, cands[1..], folder, d);
      SidecarPassAddsNothingInDir(next, cands[1..], folder, true, d, c0);
    }
  }

  /** Copying removes nothing. */
  lemma {:induction false} SidecarPassCopyKeepsFiles(fs: FileSystem, cands: seq<string>, folder: string)
    ensures fs.Keys <= SidecarPass(fs, cands, folder, false).Keys
    decreases |cands|
  {
    if cands != [] {
      var c0 := cands[0];
      var next := if c0 in fs then Transfer(fs, c0, SidecarDest(folder, c0), false) else fs;
      SidecarPassCopyKeepsFiles(next, cands[1..], folder);
    }
  }

  // ------------------------------------------------------ step facts

  /** A listed file that no longer exists (it went away earlier as a
      sidecar) is passed over; a file of unknown kind is logged by its
      full path and nothing else happens; a video or image is never
      logged; and only a date read can raise. */
  lemma StepLogs(cfg: Config, st: State, dirpath: string, filename: string)
    ensures Join(dirpath, filename) !in st.fs ==> Step(cfg, st, dirpath, filename) == Success(st)
    ensures Join(dirpath, filename) in st.fs && Classify(filename) == Skipped ==>
              Step(cfg, st, dirpath, filename) == Success(State(st.fs, st.log + [Join(dirpath, filename)]))
    ensures Classify(filename) != Skipped && Step(cfg, st, dirpath, filename).Success? ==>
              Step(cfg, st, dirpath, filename).value.log == st.log
    ensures Step(cfg, st, dirpath, filename).Failure? <==>
              Join(dirpath, filename) in st.fs && Classify(filename) != Skipped
              && CreationDate(st.fs[Join(dirpath, filename)].metadata, cfg.parse).Failure?
  {
  }

  /** A video or image whose date folder is not its own directory ends up
      at `<folder>/<filename>` with its file; in move mode it is gone from
      where it was.  For an image, every sidecar candidate that existed
      (other than the image itself, in move mode) ends up in the same
      folder under its own base name, with its file. */
  lemma StepPlacesMedia(cfg: Config, st: State, dirpath: string, filename: string)
    requires NoSep(filename)
    requires Join(dirpath, filename) in st.fs && Classify(filename) != Skipped
    requires CreationDate(st.fs[Join(dirpath, filename)].metadata, cfg.parse).Success?
    requires JoinPrefix(DestFolder(cfg.dest, Classify(filename),
                                   CreationDate(st.fs[Join(dirpath, filename)].metadata, cfg.parse).value))
             != JoinPrefix(dirpath)
    ensures Step(cfg, st, dirpath, filename).Success?
    ensures var full := Join(dirpath, filename);
            var folder := DestFolder(cfg.dest, Classify(filename), CreationDate(st.fs[full].metadata, cfg.parse).value);
            var next := Step(cfg, st, dirpath, filename).value;
            && Join(folder, filename) in next.fs && next.fs[Join(folder, filename)] == st.fs[full]
            && next.log == st.log
            && (cfg.move ==> full !in next.fs)
            && (Classify(filename) == Image ==>
                  forall c :: c in Candidates(full) && c in st.fs && (c != full || !cfg.move) ==>
                    SidecarDest(folder, c) in next.fs && next.fs[SidecarDest(folder, c)] == st.fs[c])
            && (Classify(filename) == Image && cfg.move ==>
                  forall c :: c in Candidates(full) ==> c !in next.fs)
  {
    var full := Join(dirpath, filename);
    var kind := Classify(filename);
    var date := CreationDate(st.fs[full].metadata, cfg.parse).value;
    var folder := DestFolder(cfg.dest, kind, date);
    var dst := Join(folder, filename);
    var d := JoinPrefix(dirpath);
    JoinName(dirpath, filename);
    JoinName(folder, filename);
    assert full != dst;
    var fs := Transfer(st.fs, full, dst, cfg.move);
    if kind == Image {
      var cands := Candidates(full);
      CandidatesInImageDir(full);
      assert SeparateDirs(cands, folder, d);
      assert SidecarDest(folder, full) == dst;
      forall c | c in cands && SidecarDest(folder, c) == dst && c in fs
        ensures fs[c] == st.fs[full]
      {
        SidecarDestInFolder(folder, c);
        DirPartBasename(c);
        DirPartBasename(full);
        assert c == full;
      }
      SidecarPassKeeps(fs, cands, folder, cfg.move, d, dst, st.fs[full]);
      SidecarPassPlaces(fs, cands, folder, cfg.move, d);
      if cfg.move {
        SidecarPassAddsNothingInDir(fs, cands, folder, cfg.move, d, full);
        SidecarPassMoveEmptiesDir(fs, cands, folder, d);
      }
      forall c | c in cands && c in st.fs && (c != full || !cfg.move)
        ensures c in fs && fs[c] == st.fs[c]
      {
        SidecarDestInFolder(folder, c);
        assert c != dst;
      }
    }
  }

  /** Nothing else changes: a path that is not a candidate and lies
      outside the date folder keeps its presence and its file. */
  lemma {:induction false} SidecarPassFrame(fs: FileSystem, cands: seq<string>, folder: string, move: bool, p: string)
    requires p !in cands && DirPart(p) != JoinPrefix(folder)
    ensures var r := SidecarPass(fs, cands, folder, move);
            (p in r <==> p in fs) && (p in r ==> r[p] == fs[p])
    decreases |cands|
  {
    if cands != [] {
      SidecarDestInFolder(folder, cands[0]);
      var next := if cands[0] in fs then Transfer(fs, cands[0], SidecarDest(folder, cands[0]), move) else fs;
      assert p !in cands[1..];
      SidecarPassFrame(next, cands[1..], folder, move, p);
    }
  }

  /** A step touches nothing but the listed file, its sidecar candidates
      when it is an image, and the destination tree: any other path keeps
      its presence and its file. */
  lemma StepFrame(cfg: Config, st: State, dirpath: string, filename: string, p: string)
    requires NoSep(filename) && Step(cfg, st, dirpath, filename).Success?
    requires p != Join(dirpath, filename) && !(JoinPrefix(cfg.dest) <= p)
    requires Classify(filename) == Image ==> p !in Candidates(Join(dirpath, filename))
    ensures var next := Step(cfg, st, dirpath, filename).value.fs;
            (p in next <==> p in st.fs) && (p in next ==> next[p] == st.fs[p])
  {
    var full := Join(dirpath, filename);
    var kind := Classify(filename);
    if full in st.fs && kind != Skipped {
      var date := CreationDate(st.fs[full].metadata, cfg.parse).value;
      var folder := DestFolder(cfg.dest, kind, date);
      DestFolderUnderDest(cfg.dest, kind, date);
      DirPartBasename(p);
      assert DirPart(p) <= p;
      assert DirPart(p) != JoinPrefix(folder);
      JoinName(folder, filename);
      var fs := Transfer(st.fs, full, Join(folder, filename), cfg.move);
      if kind == Image {
        SidecarPassFrame(fs, Candidates(full), folder, cfg.move, p);
      }
    }
  }

  /** In copy mode nothing disappears. */
  lemma StepCopyKeepsFiles(cfg: Config, st: State, dirpath: string, filename: string)
    requires !cfg.move && Step(cfg, st, dirpath, filename).Success?
    ensures st.fs.Keys <= Step(cfg, st, dirpath, filename).value.fs.Keys
  {
    var full := Join(dirpath, filename);
    if full in st.fs && Classify(filename) == Image {
      var date := CreationDate(st.fs[full].metadata, cfg.parse).value;
      var folder := DestFolder(cfg.dest, Image, date);
      var fs := Transfer(st.fs, full, Join(folder, filename), false);
      SidecarPassCopyKeepsFiles(fs, Candidates(full), folder);
    }
  }

  // ------------------------------------------------------- run facts

  /** The full paths of the listed names of unknown kind, in order. */
  function SkippedPaths(dirpath: string, names: seq<string>): (r: seq<string>)
    ensures |r| <= |names|
  {
    if names == [] then []
    else (if Classify(names[0]) == Skipped then [Join(dirpath, names[0])] else [])
         + SkippedPaths(dirpath, names[1..])
  }

  /** `p` is the full path of a listed name of unknown kind. */
  predicate SkippedIn(p: string, dirpath: string, names: seq<string>) {
    exists f :: f in names && Classify(f) == Skipped && p == Join(dirpath, f)
  }

  /** `p` is the full path of a name of unknown kind in some listing of the walk. */
  predicate SkippedInWalk(p: string, walk: seq<(string, seq<string>)>) {
    exists w :: w in walk && SkippedIn(p, w.0, w.1)
  }

  /** A directory run only appends to the log, and only full paths of
      listed names of unknown kind: images and videos are never logged. */
  lemma {:induction false} RunFilesLogsOnlySkipped(cfg: Config, st: State, dirpath: string, names: seq<string>)
    ensures var r := RunFiles(cfg, st, dirpath, names);
            && st.log <= r.state.log
            && forall i :: |st.log| <= i < |r.state.log| ==> SkippedIn(r.state.log[i], dirpath, names)
    decreases |names|
  {
    if names != [] {
      StepLogs(cfg, st, dirpath, names[0]);
      match Step(cfg, st, dirpath, names[0])
      case Failure(_) =>
      case Success(next) =>
        RunFilesLogsOnlySkipped(cfg, next, dirpath, names[1..]);
        var r := RunFiles(cfg, next, dirpath, names[1..]);
        forall i | |st.log| <= i < |r.state.log|
          ensures SkippedIn(r.state.log[i], dirpath, names)
        {
          if i < |next.log| {
            assert next.log == st.log + [Join(dirpath, names[0])];
            assert r.state.log[i] == next.log[i];
            assert names[0] in names;
          } else {
            assert SkippedIn(r.state.log[i], dirpath, names[1..]);
            var f :| f in names[1..] && Classify(f) == Skipped && r.state.log[i] == Join(dirpath, f);
            assert f in names;
          }
        }
    }
  }

  /** In copy mode, when every listed name exists, a run that raises
      nothing logs exactly the listed names of unknown kind, in order. */
  lemma {:induction false} CopyRunLogsEverySkipped(cfg: Config, st: State, dirpath: string, names: seq<string>)
    requires !cfg.move
    requires forall f :: f in names ==> Join(dirpath, f) in st.fs
    requires RunFiles(cfg, st, dirpath, names).raised.None?
    ensures RunFiles(cfg, st, dirpath, names).state.log == st.log + SkippedPaths(dirpath, names)
    decreases |names|
  {
    if names != [] {
      var f, rest := names[0], names[1..];
      assert f in names;
      assert Step(cfg, st, dirpath, f).Success?;
      var next := Step(cfg, st, dirpath, f).value;
      var entry := if Classify(f) == Skipped then [Join(dirpath, f)] else [];
      CopyStepLog(cfg, st, dirpath, f);
      assert forall g :: g in rest ==> g in names;
      assert RunFiles(cfg, st, dirpath, names) == RunFiles(cfg, next, dirpath, rest);
      CopyRunLogsEverySkipped(cfg, next, dirpath, rest);
      assert SkippedPaths(dirpath, names) == entry + SkippedPaths(dirpath, rest);
      Assoc(st.log, entry, SkippedPaths(dirpath, rest));
    }
  }

  /** One copy-mode step over an existing name that does not raise logs
      the name's path when its kind is unknown, and nothing otherwise; no
      file disappears. */
  lemma CopyStepLog(cfg: Config, st: State, dirpath: string, f: string)
    requires !cfg.move && Join(dirpath, f) in st.fs && Step(cfg, st, dirpath, f).Success?
    ensures Step(cfg, st, dirpath, f).value.log
            == st.log + (if Classify(f) == Skipped then [Join(dirpath, f)] else [])
    ensures st.fs.Keys <= Step(cfg, st, dirpath, f).value.fs.Keys
  {
    StepLogs(cfg, st, dirpath, f);
    StepCopyKeepsFiles(cfg, st, dirpath, f);
    assert st.log + [] == st.log;
  }

  /** The whole walk, too, only appends the full paths of files of
      unknown kind to the log. */
  lemma {:induction false} RunWalkLogsOnlySkipped(cfg: Config, st: State, walk: seq<(string, seq<string>)>)
    ensures var r := RunWalk(cfg, st, walk);
            && st.log <= r.state.log
            && forall i :: |st.log| <= i < |r.state.log| ==> SkippedInWalk(r.state.log[i], walk)
    decreases |walk|
  {
    if walk != [] {
      var w0 := walk[0];
      assert w0 in walk;
      RunFilesLogsOnlySkipped(cfg, st, w0.0, w0.1);
      var r0 := RunFiles(cfg, st, w0.0, w0.1);
      if r0.raised.None? {
        RunWalkLogsOnlySkipped(cfg, r0.state, walk[1..]);
        var r := RunWalk(cfg, r0.state, walk[1..]);
        forall i | |st.log| <= i < |r.state.log|
          ensures SkippedInWalk(r.state.log[i], walk)
        {
          if i < |r0.state.log| {
            assert r.state.log[i] == r0.state.log[i];
            assert SkippedIn(r0.state.log[i], w0.0, w0.1);
          } else {
            assert SkippedInWalk(r.state.log[i], walk[1..]);
            var w :| w in walk[1..] && SkippedIn(r.state.log[i], w.0, w.1);
            assert w in walk;
          }
        }
      } else {
        forall i | |st.log| <= i < |r0.state.log|
          ensures SkippedInWalk(r0.state.log[i], walk)
        {
          assert SkippedIn(r0.state.log[i], w0.0, w0.1);
        }
      }
    }
  }

  // ------------------------------------------------- listing order

  /** In move mode, a sidecar of unknown kind listed after its image
      travels with the image and is then passed over: it is not logged. */
  lemma SidecarAfterImage(cfg: Config, st: State, dirpath: string, img: string, sideName: string)
    requires cfg.move && NoSep(img) && Classify(img) == Image && Classify(sideName) == Skipped
    requires Join(dirpath, sideName) in Candidates(Join(dirpath, img))
    requires Join(dirpath, sideName) != Join(dirpath, img)
    requires Join(dirpath, img) in st.fs && Join(dirpath, sideName) in st.fs
    requires CreationDate(st.fs[Join(dirpath, img)].metadata, cfg.parse).Success?
    requires JoinPrefix(DestFolder(cfg.dest, Image, CreationDate(st.fs[Join(dirpath, img)].metadata, cfg.parse).value))
             != JoinPrefix(dirpath)
    ensures var side := Join(dirpath, sideName);
            var folder := DestFolder(cfg.dest, Image, CreationDate(st.fs[Join(dirpath, img)].metadata, cfg.parse).value);
            var r := RunFiles(cfg, st, dirpath, [img, sideName]);
            && r.raised.None? && r.state.log == st.log && side !in r.state.fs
            && SidecarDest(folder, side) in r.state.fs && r.state.fs[SidecarDest(folder, side)] == st.fs[side]
  {
    var full, side := Join(dirpath, img), Join(dirpath, sideName);
    var folder := DestFolder(cfg.dest, Image, CreationDate(st.fs[full].metadata, cfg.parse).value);
    StepPlacesMedia(cfg, st, dirpath, img);
    var next := Step(cfg, st, dirpath, img).value;
    assert side !in next.fs;
    assert SidecarDest(folder, side) in next.fs && next.fs[SidecarDest(folder, side)] == st.fs[side];
    StepLogs(cfg, next, dirpath, sideName);
    TwoSteps(cfg, st, dirpath, img, sideName);
  }

  /** A sidecar of unknown kind listed before its image is logged in its
      own turn and nevertheless transferred with the image afterwards: a
      file can be both logged and sorted. */
  lemma SidecarBeforeImage(cfg: Config, st: State, dirpath: string, img: string, sideName: string)
    requires NoSep(img) && Classify(img) == Image && Classify(sideName) == Skipped
    requires Join(dirpath, sideName) in Candidates(Join(dirpath, img))
    requires Join(dirpath, sideName) != Join(dirpath, img)
    requires Join(dirpath, img) in st.fs && Join(dirpath, sideName) in st.fs
    requires CreationDate(st.fs[Join(dirpath, img)].metadata, cfg.parse).Success?
    requires JoinPrefix(DestFolder(cfg.dest, Image, CreationDate(st.fs[Join(dirpath, img)].metadata, cfg.parse).value))
             != JoinPrefix(dirpath)
    ensures var side := Join(dirpath, sideName);
            var folder := DestFolder(cfg.dest, Image, CreationDate(st.fs[Join(dirpath, img)].metadata, cfg.parse).value);
            var r := RunFiles(cfg, st, dirpath, [sideName, img]);
            && r.raised.None? && r.state.log == st.log + [side]
            && SidecarDest(folder, side) in r.state.fs && r.state.fs[SidecarDest(folder, side)] == st.fs[side]
  {
    var full, side := Join(dirpath, img), Join(dirpath, sideName);
    var folder := DestFolder(cfg.dest, Image, CreationDate(st.fs[full].metadata, cfg.parse).value);
    StepLogs(cfg, st, dirpath, sideName);
    var mid := State(st.fs, st.log + [side]);
    StepPlacesMedia(cfg, mid, dirpath, img);
    var last := Step(cfg, mid, dirpath, img).value;
    assert SidecarDest(folder, side) in last.fs && last.fs[SidecarDest(folder, side)] == st.fs[side];
    TwoSteps(cfg, st, dirpath, sideName, img);
  }

  /** `dir/base.xmp` and `dir/base.jpg` are two different paths. */
  lemma SidecarNotImage(dirpath: string, base: string)
    requires base != [] && NoSep(base)
    ensures Join(dirpath, base + ".xmp") != Join(dirpath, base + ".jpg")
  {
    var img, sideName := base + ".jpg", base + ".xmp";
    assert base[0] in base;
    assert sideName[|base| + 1] == 'x' && img[|base| + 1] == 'j';
    JoinDistinct(dirpath, sideName, img);
  }

  lemma ImageAndSidecarKinds(base: string)
    ensures Classify(base + ".jpg") == Image && Classify(base + ".xmp") == Skipped
  {
    LowerEndings();
    EndingKind(base, ".jpg", "jpg");
    EndingKind(base, ".xmp", "xmp");
  }

  /** A run over two names is the two steps, when neither raises. */
  lemma TwoSteps(cfg: Config, st: State, dirpath: string, f: string, g: string)
    requires Step(cfg, st, dirpath, f).Success?
    requires Step(cfg, Step(cfg, st, dirpath, f).value, dirpath, g).Success?
    ensures RunFiles(cfg, st, dirpath, [f, g])
            == Run(Step(cfg, Step(cfg, st, dirpath, f).value, dirpath, g).value, None)
  {
    var next := Step(cfg, st, dirpath, f).value;
    var last := Step(cfg, next, dirpath, g).value;
    assert [g][1..] == [];
    assert RunFiles(cfg, next, dirpath, [g]) == RunFiles(cfg, last, dirpath, []) == Run(last, None);
    assert [f, g][1..] == [g];
  }

  /** `dir/base.xmp` is the first sidecar candidate of `dir/base.jpg`. */
  lemma SidecarOfImage(dirpath: string, base: string)
    requires base != [] && NoSep(base) && Dot !in base
    ensures Join(dirpath, base + ".xmp") in Candidates(Join(dirpath, base + ".jpg"))
  {
    var a := JoinPrefix(dirpath);
    assert base + ".jpg" == base + [Dot] + "jpg";
    assert base + ".xmp" == base + [Dot] + "xmp";
    assert base[0] != Dot && base[0] != Sep by { assert base[0] in base; }
    CandidatesOfName(dirpath, base, "jpg");
    JoinDotted(dirpath, base, "xmp");
    assert Candidates(Join(dirpath, base + ".jpg"))[0] == WithExtensions(a + base)[0];
  }
}
