/** The app's download directory (`getExternalFilesDir(DIRECTORY_DOWNLOADS)`), the file names it
    uses there, and the temp-file promotion of `removeTmpFile`. */
module Files {

  type Byte = bv8

  /** The directory's files by relative path. A directory exists while some file lies under it;
      empty directories are not represented. */
  type Store = map<string, seq<Byte>>

  const BusStopFile: string := "stop/busStop"
  const BusStopTmpFile: string := "stop/busStop_Tmp"
  const EtaFilePrefix: string := "eta/ETA_"
  const EtaTmpFilePrefix: string := "eta/ETA_Tmp_"
  const EtaFolder: string := "eta"

  /** `STOP_ETA_JSON_FILE_NAME + stopID`: where the ETA feed of a stop is read from. */
  function EtaFile(stopID: string): (p: string)
    ensures |p| == |EtaFilePrefix| + |stopID|
    ensures p[..|EtaFilePrefix|] == EtaFilePrefix && p[|EtaFilePrefix|..] == stopID
  {
    EtaFilePrefix + stopID
  }

  /** `STOP_ETA_JSON_FILE_TMP_NAME + stopID`: where the ETA feed of a stop is downloaded to. */
  function EtaTmpFile(stopID: string): (p: string)
    ensures |p| == |EtaTmpFilePrefix| + |stopID|
    ensures p[..|EtaTmpFilePrefix|] == EtaTmpFilePrefix && p[|EtaTmpFilePrefix|..] == stopID
  {
    EtaTmpFilePrefix + stopID
  }

  /** Distinct stops have distinct feed files, and distinct download files. */
  lemma EtaFilesInjective(a: string, b: string)
    ensures EtaFile(a) == EtaFile(b) ==> a == b
    ensures EtaTmpFile(a) == EtaTmpFile(b) ==> a == b
  {
    if EtaFile(a) == EtaFile(b) {
      assert a == EtaFile(a)[|EtaFilePrefix|..];
    }
    if EtaTmpFile(a) == EtaTmpFile(b) {
      assert a == EtaTmpFile(a)[|EtaTmpFilePrefix|..];
    }
  }

  /** A stop's download file is never its own feed file, but it is the feed file of the stop whose
      id is "Tmp_" followed by its id: the two name spaces overlap. */
  lemma EtaTmpFileIsEtaFile(a: string, b: string)
    ensures EtaTmpFile(a) == EtaFile(b) <==> b == "Tmp_" + a
    ensures EtaTmpFile(a) != EtaFile(a)
  {
    assert EtaTmpFile(a) == EtaFile("Tmp_" + a);
    EtaFilesInjective(b, "Tmp_" + a);
    assert |EtaTmpFile(a)| != |EtaFile(a)|;
  }

  /** Whether `path` lies in the folder `dir`. */
  predicate InFolder(path: string, dir: string) {
    |path| > |dir| && path[..|dir|] == dir && path[|dir|] == '/'
  }

  /** Every stop's feed and download files lie in the ETA folder. */
  lemma EtaFilesInEtaFolder(stopID: string)
    ensures InFolder(EtaFile(stopID), EtaFolder)
    ensures InFolder(EtaTmpFile(stopID), EtaFolder)
    ensures !InFolder(BusStopFile, EtaFolder) && !InFolder(BusStopTmpFile, EtaFolder)
  {
  }

  /** The store after `File.delete()`. */
  function Removed(fs: Store, path: string): (r: Store)
    ensures path !in r
    ensures forall p :: p != path ==> (p in r <==> p in fs) && (p in r ==> r[p] == fs[p])
  {
    fs - {path}
  }

  /** The store after `File.renameTo(to)`: moves an existing file to `to`, replacing what `to` held; a missing
      source moves nothing. */
  function Moved(fs: Store, from: string, to: string): (r: Store)
    ensures from !in fs ==> r == fs
    ensures from in fs ==> to in r && r[to] == fs[from] && (from != to ==> from !in r)
    ensures forall p :: p != from && p != to ==> (p in r <==> p in fs) && (p in r ==> r[p] == fs[p])
  {
    if from !in fs then fs else (fs - {from})[to := fs[from]]
  }

  /** What `removeTmpFile(tmp, canonical)` leaves, in the source's order of steps: if `tmp` exists,
      delete `canonical`, rename `tmp` to `canonical`, delete `tmp`. */
  function Promote(fs: Store, tmp: string, canonical: string): Store {
    if tmp in fs then Removed(Moved(Removed(fs, canonical), tmp, canonical), tmp) else fs
  }

  /** The effect of `Promote`: nothing without a temp file; otherwise the canonical path holds the
      temp file's content and the temp path is gone (when the two paths coincide the file is
      simply deleted); and no other path is touched. */
  lemma PromoteEffect(fs: Store, tmp: string, canonical: string)
    ensures tmp !in fs ==> Promote(fs, tmp, canonical) == fs
    ensures tmp in fs && tmp != canonical ==> canonical in Promote(fs, tmp, canonical) && Promote(fs, tmp, canonical)[canonical] == fs[tmp]
    ensures tmp in fs ==> tmp !in Promote(fs, tmp, canonical)
    ensures forall p :: p != tmp && p != canonical ==>
      (p in Promote(fs, tmp, canonical) <==> p in fs) && (p in fs ==> Promote(fs, tmp, canonical)[p] == fs[p])
  {
  }

  /** A second promotion finds no temp file and changes nothing. */
  lemma PromoteIdempotent(fs: Store, tmp: string, canonical: string)
    ensures Promote(Promote(fs, tmp, canonical), tmp, canonical) == Promote(fs, tmp, canonical)
  {
    PromoteEffect(fs, tmp, canonical);
    PromoteEffect(Promote(fs, tmp, canonical), tmp, canonical);
  }

  /** Whether `path` is a file directly in the folder `dir`, not in a sub-folder of it. */
  predicate DirectlyIn(path: string, dir: string) {
    InFolder(path, dir) && '/' !in path[|dir| + 1..]
  }

  /** The download directory as an object whose methods are the `java.io.File` calls the
      activity makes. */
  class DownloadDir {
    var files: Store

    constructor (initial: Store)
      ensures files == initial
    {
      files := initial;
    }

    /** `new File(dir, path).exists()`. */
    function Exists(path: string): bool
      reads this
    {
      path in files
    }

    /** `new File(dir, path).isDirectory()`. */
    function IsDirectory(dir: string): bool
      reads this
    {
      exists p :: p in files && InFolder(p, dir)
    }

    /** The files `new File(dir, folder).list()` names: the entries directly in the folder that
        are files. The sub-folders it also names hold files, so deleting them fails and changes
        nothing; they are left out. */
    function Children(folder: string): (c: set<string>)
      reads this
      ensures forall p :: p in c <==> p in files && DirectlyIn(p, folder)
    {
      set p | p in files && DirectlyIn(p, folder)
    }

    /** What the DownloadManager writes into the directory while a download runs. */
    method Write(writes: Store)
      modifies this
      ensures files == old(files) + writes
    {
      files := files + writes;
    }

    /** `new File(dir, folder).delete()` on a folder: it succeeds when nothing is left in it. An
        empty folder is not represented, so no file changes. */
    method DeleteFolder(folder: string) returns (deleted: bool)
      ensures deleted == !IsDirectory(folder)
    {
      deleted := forall p | p in files :: !InFolder(p, folder);
    }

    /** `new File(dir, path).delete()`: true when there was a file to delete. */
    method Delete(path: string) returns (deleted: bool)
      modifies this
      ensures deleted == (path in old(files))
      ensures files == Removed(old(files), path)
    {
      deleted := path in files;
      files := files - {path};
    }

    /** `new File(dir, from).renameTo(new File(dir, to))`. */
    method RenameTo(from: string, to: string) returns (renamed: bool)
      modifies this
      ensures renamed == (from in old(files))
      ensures files == Moved(old(files), from, to)
    {
      renamed := from in files;
      if renamed {
        files := (files - {from})[to := files[from]];
      }
    }
  }
}
