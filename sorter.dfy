/** The `__main__` walk loop of main.py (main.py:72-143) as a class whose
    methods change the file system and the skip log step by step, each
    method proved against the functions of SortSpec. */
module Sorting {
  import opened Wrappers
  import opened Paths
  import opened CaptureDate
  import opened Classification
  import opened Destination
  import opened Sidecars
  import opened SortSpec

  class Sorter {
    /** `--dest`, `--move` and the date parser, fixed for the run. */
    const cfg: Config
    /** The files that exist, by path. */
    var fs: FileSystem
    /** The lines appended to `logs/<run>/skipped`. */
    var log: seq<string>

    constructor (cfg: Config, fs: FileSystem)
      ensures this.cfg == cfg && this.fs == fs && this.log == []
    {
      this.cfg := cfg;
      this.fs := fs;
      this.log := [];
    }

    function Snapshot(): State
      reads this
    {
      State(fs, log)
    }

    /** `copy_or_move(src, dst)`. */
    method CopyOrMove(src: string, dst: string)
      requires src in fs
      modifies this
      ensures fs == Transfer(old(fs), src, dst, cfg.move) && log == old(log)
    {
      if src != dst {
        var file := fs[src];
        if cfg.move {
          fs := fs - {src};
        }
        fs := fs[dst := file];
      }
    }

    /** The sidecar block of the image branch (main.py:123-139). */
    method MoveSidecars(fullPath: string, folder: string)
      modifies this
      ensures fs == SidecarPass(old(fs), Candidates(fullPath), folder, cfg.move) && log == old(log)
    {
      var fullPaths := SidecarCandidates(fullPath);
      for i := 0 to |fullPaths|
        invariant SidecarPass(old(fs), fullPaths, folder, cfg.move) == SidecarPass(fs, fullPaths[i..], folder, cfg.move)
        invariant log == old(log)
      {
        assert fullPaths[i..][1..] == fullPaths[i + 1..];
        var candidate := fullPaths[i];
        if candidate in fs {
          CopyOrMove(candidate, Join(folder, Basename(candidate)));
        }
      }
    }

    /** The body of `for filename in filenames`. */
    method ProcessFile(dirpath: string, filename: string) returns (raised: Option<Error>)
      modifies this
      ensures raised.None? ==> Step(cfg, old(Snapshot()), dirpath, filename) == Success(Snapshot())
      ensures raised.Some? ==> Step(cfg, old(Snapshot()), dirpath, filename) == Failure(raised.value)
                               && fs == old(fs) && log == old(log)
    {
      var fullPath := Join(dirpath, filename);
      if fullPath !in fs {
        return None;
      }
      var kind := Classify(filename);
      if kind == Skipped {
        log := log + [fullPath];
        return None;
      }
      var createDate := GetCreationDate(fs[fullPath].metadata, cfg.parse);
      if createDate.Failure? {
        return Some(createDate.error);
      }
      var destFolder := DestFolder(cfg.dest, kind, createDate.value);
      CopyOrMove(fullPath, Join(destFolder, filename));
      if kind == Image {
        MoveSidecars(fullPath, destFolder);
      }
      raised := None;
    }

    /** `for filename in filenames` over one directory's listing. */
    method ProcessDirectory(dirpath: string, filenames: seq<string>) returns (raised: Option<Error>)
      modifies this
      ensures Run(Snapshot(), raised) == RunFiles(cfg, old(Snapshot()), dirpath, filenames)
    {
      var i := 0;
      raised := None;
      while i < |filenames|
        invariant 0 <= i <= |filenames|
        invariant raised.None?
        invariant RunFiles(cfg, old(Snapshot()), dirpath, filenames)
                  == RunFiles(cfg, Snapshot(), dirpath, filenames[i..])
        decreases |filenames| - i
      {
        assert filenames[i..][1..] == filenames[i + 1..];
        raised := ProcessFile(dirpath, filenames[i]);
        if raised.Some? {
          return;
        }
        i := i + 1;
      }
      assert filenames[i..] == [];
    }

    /** `for dirpath, dirnames, filenames in os.walk(args.src)`, the walk
        given as its sequence of directories and their listings. */
    method Sort(walk: seq<(string, seq<string>)>) returns (raised: Option<Error>)
      modifies this
      ensures Run(Snapshot(), raised) == RunWalk(cfg, old(Snapshot()), walk)
    {
      raised := None;
      for i := 0 to |walk|
        invariant raised.None?
        invariant RunWalk(cfg, old(Snapshot()), walk) == RunWalk(cfg, Snapshot(), walk[i..])
      {
        assert walk[i..][1..] == walk[i + 1..];
        raised := ProcessDirectory(walk[i].0, walk[i].1);
        if raised.Some? {
          return;
        }
      }
      assert walk[|walk|..] == [];
    }
  }
}
