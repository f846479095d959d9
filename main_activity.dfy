/** The activity's button handlers and download poller around the data pipeline: what each
    handler downloads, reads, deletes and shows. */
module Activity {
  import opened Wrappers
  import opened Records
  import opened Files
  import opened Polling
  import opened Feeds
  import opened Geometry
  import opened BusStops
  import opened NearestStops
  import opened StopEtas
  import opened EtaReport
  import StableSort

  const BusStopJsonUrl: string := "https://data.etabus.gov.hk/v1/transport/kmb/stop"
  const BusStopEtaJsonUrl: string := "https://data.etabus.gov.hk/v1/transport/kmb/stop-eta/"

  /** A download the activity starts: `downloadJSON(url, title, description, subPath)`, then
      `checkDownloadStatusFunction` polling with the names `tmp` and `canonical`. */
  datatype Download = Download(url: string, title: string, description: string, subPath: string,
                               tmp: string, canonical: string)

  /** `startDownloadJSONButtonHandler`'s download: the catalog. */
  const CatalogDownload: Download :=
    Download(BusStopJsonUrl, "Bus Stop Data", "Bus Stop Data", BusStopFile, BusStopTmpFile, BusStopFile)

  /** The download `startDownloadEtaJSONButtonHandler` starts for the stop `stopID`. */
  function EtaDownload(stopID: string): Download {
    var title := stopID + " Stop ETA";
    Download(BusStopEtaJsonUrl + stopID, title, title, EtaTmpFile(stopID), EtaTmpFile(stopID), EtaFile(stopID))
  }

  /** The catalog is downloaded straight to the file it is read from, so the poller never finds
      its temp file; an ETA feed is downloaded to its temp file, which the poller promotes to
      the file it is read from; and distinct stops download to distinct files. */
  lemma DownloadTargets(a: string, b: string)
    ensures CatalogDownload.subPath == CatalogDownload.canonical != CatalogDownload.tmp
    ensures EtaDownload(a).subPath == EtaDownload(a).tmp != EtaDownload(a).canonical
    ensures a != b ==> EtaDownload(a).subPath != EtaDownload(b).subPath && EtaDownload(a).canonical != EtaDownload(b).canonical
  {
    EtaTmpFileIsEtaFile(a, a);
    EtaFilesInjective(a, b);
  }

  /** The download of a catalog polled until success: the promotions find no temp file, so the
      files are the DownloadManager's writes of the ticks that ran. */
  lemma CatalogPollIsWrites(fs: Store, samples: seq<Sample>)
    requires BusStopTmpFile !in fs && NeverWritten(samples, BusStopTmpFile)
    ensures var o := PollRun(fs, samples, CatalogDownload.tmp, CatalogDownload.canonical);
      o.files == Written(fs, samples, o.ticks)
  {
    PollWithoutTmpIsWrites(fs, samples, BusStopTmpFile, BusStopFile);
  }

  /** The stop ids of the stops, in order. */
  function StopIDs(stops: seq<BusStop>): (ids: seq<string>)
    reads stops
    ensures |ids| == |stops| && forall i :: 0 <= i < |ids| ==> ids[i] == stops[i].stopID
  {
    seq(|stops|, i requires 0 <= i < |stops| reads stops => stops[i].stopID)
  }

  /** What `startReadJSONButtonHandler` keeps of the catalog in `fs`: the fields of the nearest
      stops, or nothing when reading the file or a record throws. */
  function CatalogNearest(fs: Store, location: Option<LatLon>, parseFeed: seq<Byte> -> Option<Feed>,
                          parseFloat: string -> Option<real>): seq<StopFields>
  {
    match ReadFeed(fs, BusStopFile, parseFeed)
    case Err(_) => []
    case Ok(records) =>
      var c := DistanceEntries(records, location, parseFloat);
      if c.failure.Some? then [] else Nearest(c.items)
  }

  /** The fields of the arrivals `startReadEtaJSONButtonHandler` reads for the stop `stopID`:
      its feed file's records, or what reading the file or one of the records throws. */
  function StopEtaList(fs: Store, stopID: string, parseFeed: seq<Byte> -> Option<Feed>): Result<seq<EtaFields>, Thrown> {
    var records :- ReadFeed(fs, EtaFile(stopID), parseFeed);
    var c := EtaEntries(records);
    if c.failure.Some? then Err(c.failure.value) else Ok(c.items)
  }

  /** A stop's arrivals are read when its feed file exists and parses and every record in it
      has all the keys; the list then holds one entry per record, in order. */
  lemma StopEtaListSucceeds(fs: Store, stopID: string, parseFeed: seq<Byte> -> Option<Feed>)
    ensures var r := StopEtaList(fs, stopID, parseFeed);
      var path := EtaFile(stopID);
      && (r.Ok? <==> path in fs && parseFeed(fs[path]).Some? &&
                     forall i :: 0 <= i < |parseFeed(fs[path]).value.data| ==> EtaFromRecord(parseFeed(fs[path]).value.data[i]).Ok?)
      && (r.Ok? ==> |r.value| == |parseFeed(fs[path]).value.data| &&
                    forall i :: 0 <= i < |r.value| ==> Ok(r.value[i]) == EtaFromRecord(parseFeed(fs[path]).value.data[i]))
  {
    var path := EtaFile(stopID);
    if path in fs && parseFeed(fs[path]).Some? {
      var records := parseFeed(fs[path]).value.data;
      CollectSpec(records, EtaFromRecord);
    }
  }

  /** The arrivals of the stops `ids`, one list per stop in order; or what the first feed file
      or record that throws throws. */
  function EtaLists(fs: Store, ids: seq<string>, parseFeed: seq<Byte> -> Option<Feed>): (r: Result<seq<seq<EtaFields>>, Thrown>)
    ensures r.Ok? ==> |r.value| == |ids|
    decreases |ids|
  {
    if ids == [] then Ok([])
    else
      var front :- EtaLists(fs, ids[..|ids| - 1], parseFeed);
      var last :- StopEtaList(fs, ids[|ids| - 1], parseFeed);
      Ok(front + [last])
  }

  /** The ETA lists of a prefix of the stops: once the first lists are read, the next stop's
      feed either adds its list or throws. */
  lemma EtaListsNext(fs: Store, ids: seq<string>, i: nat, parseFeed: seq<Byte> -> Option<Feed>)
    requires i < |ids|
    ensures EtaLists(fs, ids[..i + 1], parseFeed) ==
      match EtaLists(fs, ids[..i], parseFeed)
      case Err(e) => Err(e)
      case Ok(front) =>
        match StopEtaList(fs, ids[i], parseFeed)
        case Err(e) => Err(e)
        case Ok(last) => Ok(front + [last])
  {
    assert ids[..i + 1][..i] == ids[..i];
  }

  /** Reading succeeds only when every stop's arrivals are read, and then the lists are theirs,
      in stop order. */
  lemma {:induction false} EtaListsSucceed(fs: Store, ids: seq<string>, parseFeed: seq<Byte> -> Option<Feed>)
    requires EtaLists(fs, ids, parseFeed).Ok?
    ensures forall i :: 0 <= i < |ids| ==> StopEtaList(fs, ids[i], parseFeed) == Ok(EtaLists(fs, ids, parseFeed).value[i])
    decreases |ids|
  {
    if ids != [] {
      var front := ids[..|ids| - 1];
      EtaListsSucceed(fs, front, parseFeed);
      forall i | 0 <= i < |front| ensures front[i] == ids[i] { }
    }
  }

  /** Once a stop's feed throws, the ETA lists of every longer prefix throw the same. */
  lemma EtaListsFailed(fs: Store, ids: seq<string>, n: nat, parseFeed: seq<Byte> -> Option<Feed>)
    requires n <= |ids| && EtaLists(fs, ids[..n], parseFeed).Err?
    ensures EtaLists(fs, ids, parseFeed) == EtaLists(fs, ids[..n], parseFeed)
    decreases |ids| - n
  {
    if n < |ids| {
      EtaListsNext(fs, ids, n, parseFeed);
      EtaListsFailed(fs, ids, n + 1, parseFeed);
    } else {
      assert ids[..n] == ids;
    }
  }

  /** One iteration of `startReadEtaJSONButtonHandler`: `convertJsonToArrayList` on the stop's
      feed file, then `createEtaArray` into a new list. */
  method ReadStopEtas(fs: Store, stopID: string, parseFeed: seq<Byte> -> Option<Feed>)
    returns (oneEtaArray: seq<StopEta>, thrown: Option<Thrown>)
    ensures var r := StopEtaList(fs, stopID, parseFeed);
      && (r.Err? ==> thrown == Some(r.error))
      && (r.Ok? ==> thrown.None? && fresh(Elements(oneEtaArray)) && EtaFieldsOf(oneEtaArray) == r.value)
  {
    oneEtaArray := [];
    var listData := ReadFeed(fs, EtaFile(stopID), parseFeed);
    if listData.Err? {
      thrown := Some(listData.error);
      return;
    }
    oneEtaArray, thrown := CreateEtaArray([], listData.value);
  }

  /** The nearest stops among the new `BusStop`s whose fields are `items`: `sortDistanceArray`,
      then `outputDistanceData` into an emptied `closestStop`. */
  method ChooseNearest(distanceArray: seq<BusStop>, ghost items: seq<StopFields>)
    returns (closest: seq<BusStop>, labels: seq<string>)
    requires StopFieldsOf(distanceArray) == items
    ensures StopFieldsOf(closest) == Nearest(items)
    ensures forall i :: 0 <= i < |closest| ==> closest[i] in distanceArray
    ensures |labels| == |closest| && forall i :: 0 <= i < |labels| ==> labels[i] == closest[i].ToString()
  {
    var sorted := SortDistanceArray(distanceArray);
    NearestOfSorted(distanceArray, items);
    var thrown;
    closest, labels, thrown := OutputDistanceData(sorted, []);
    assert closest == sorted[..|Nearest(items)|];
  }

  /** The activity: the last known location, the nearest stops, the download directory and the
      text of the delete message. */
  class MainActivity {
    var currentLocation: Option<LatLon>
    var closestStop: seq<BusStop>
    var dir: DownloadDir
    var deleteText: string

    constructor (files: Store)
      ensures currentLocation.None? && closestStop == [] && fresh(dir) && dir.files == files && deleteText == ""
    {
      currentLocation := None;
      closestStop := [];
      dir := new DownloadDir(files);
      deleteText := "";
    }

    /** `removeTmpFile(tmpFileName, realFileName)`: if the temp file exists, delete the real file,
        rename the temp file to it, and delete the temp file. */
    method RemoveTmpFile(tmpFileName: string, realFileName: string)
      modifies dir
      ensures dir.files == Promote(old(dir.files), tmpFileName, realFileName)
    {
      if dir.Exists(tmpFileName) {
        var deleted := dir.Delete(realFileName);
        var renamed := dir.RenameTo(tmpFileName, realFileName);
        deleted := dir.Delete(tmpFileName);
      }
    }

    /** One run of the timer task of `checkDownloadStatusFunction`, given the row the query
        returned (`None` when `moveToFirst()` finds none): with a row, the temp file is promoted
        whatever the status, and the timer is cancelled exactly when the status is
        `STATUS_SUCCESSFUL`. */
    method Tick(row: Option<Row>, tmpFileName: string, realFileName: string) returns (cancel: bool)
      modifies dir
      ensures dir.files == TickFiles(old(dir.files), row, tmpFileName, realFileName)
      ensures cancel == Cancels(row)
    {
      cancel := false;
      if row.Some? {
        var downloadStatus := DownloadStatus(row.value);
        RemoveTmpFile(tmpFileName, realFileName);
        if downloadStatus == StatusSuccessful {
          cancel := true;
        }
      }
    }

    /** `checkDownloadStatusFunction`: the timer runs its task once per sample until the task
        cancels it, and before each run the DownloadManager writes what the sample says. */
    method CheckDownloadStatus(samples: seq<Sample>, tmpFileName: string, realFileName: string) returns (ticks: nat)
      modifies dir
      ensures var o := PollRun(old(dir.files), samples, tmpFileName, realFileName);
        dir.files == o.files && ticks == o.ticks
    {
      ghost var outcome := PollRun(dir.files, samples, tmpFileName, realFileName);
      ticks := 0;
      var cancelled := false;
      while ticks < |samples| && !cancelled
        invariant ticks <= |samples|
        invariant cancelled ==> outcome == Outcome(dir.files, ticks)
        invariant !cancelled ==>
          var rest := PollRun(dir.files, samples[ticks..], tmpFileName, realFileName);
          outcome == Outcome(rest.files, rest.ticks + ticks)
        decreases |samples| - ticks
      {
        assert samples[ticks..][1..] == samples[ticks + 1..];
        dir.Write(samples[ticks].writes);
        cancelled := Tick(samples[ticks].row, tmpFileName, realFileName);
        ticks := ticks + 1;
      }
    }

    /** `startDownloadEtaJSONButtonHandler`: one ETA download per nearest stop, in order. */
    method EtaDownloads() returns (downloads: seq<Download>)
      ensures |downloads| == |closestStop|
      ensures forall i :: 0 <= i < |downloads| ==> downloads[i] == EtaDownload(closestStop[i].stopID)
    {
      downloads := [];
      var i := 0;
      while i < |closestStop|
        invariant 0 <= i <= |closestStop| && |downloads| == i
        invariant forall j :: 0 <= j < i ==> downloads[j] == EtaDownload(closestStop[j].stopID)
      {
        var busStop := closestStop[i];
        var stopID := busStop.stopID;
        downloads := downloads + [EtaDownload(stopID)];
        i := i + 1;
      }
    }

    /** `deleteBusStopJsonButtonHandler`: deletes the catalog if it exists, and says which. */
    method DeleteBusStopJson()
      modifies this, dir
      ensures dir == old(dir) && currentLocation == old(currentLocation) && closestStop == old(closestStop)
      ensures dir.files == Removed(old(dir.files), BusStopFile)
      ensures deleteText == if BusStopFile in old(dir.files) then "Bus Stop JSON deleted." else "Bus Stop JSON not found."
    {
      if dir.Exists(BusStopFile) {
        var deleted := dir.Delete(BusStopFile);
        deleteText := "Bus Stop JSON deleted.";
      } else {
        deleteText := "Bus Stop JSON not found.";
      }
    }

    /** `deleteStopEtaJsonButtonHandler`: if the ETA folder exists, deletes every file directly
        in it, then the folder itself, and says so when the folder is gone; a sub-folder with
        files in it survives, and then nothing is said. */
    method DeleteStopEtaJson()
      modifies this, dir
      ensures dir == old(dir) && currentLocation == old(currentLocation) && closestStop == old(closestStop)
      ensures forall p :: (p in dir.files <==> p in old(dir.files) && !DirectlyIn(p, EtaFolder))
      ensures forall p :: p in dir.files ==> dir.files[p] == old(dir.files[p])
      ensures deleteText ==
        if !old(dir.IsDirectory(EtaFolder)) then "Stop ETA JSON not found."
        else if dir.IsDirectory(EtaFolder) then old(deleteText)
        else "Stop ETA JSON deleted."
    {
      if dir.IsDirectory(EtaFolder) {
        var children := dir.Children(EtaFolder);
        ghost var all := children;
        while children != {}
          modifies dir
          invariant children <= all
          invariant forall p :: (p in dir.files <==> p in old(dir.files) && !(p in all && p !in children))
          invariant forall p :: p in dir.files ==> dir.files[p] == old(dir.files[p])
          decreases children
        {
          var child :| child in children;
          var deleted := dir.Delete(child);
          children := children - {child};
        }
        var deleted := dir.DeleteFolder(EtaFolder);
        if deleted {
          deleteText := "Stop ETA JSON deleted.";
        }
      } else {
        deleteText := "Stop ETA JSON not found.";
      }
    }

    /** `startReadJSONButtonHandler`: `closestStop` is emptied, then filled with the nearest
        stops of the catalog; any exception is caught and leaves it as it got. The nearest of
        fewer than twenty stops are all of them: `outputDistanceData` throws after appending
        them, and the handler catches that too. */
    method ReadStopCatalog(parseFeed: seq<Byte> -> Option<Feed>, parseFloat: string -> Option<real>)
      returns (labels: seq<string>)
      modifies this
      ensures dir == old(dir) && currentLocation == old(currentLocation) && deleteText == old(deleteText)
      ensures var nearest := CatalogNearest(dir.files, currentLocation, parseFeed, parseFloat);
        && StopFieldsOf(closestStop) == nearest
        && (forall i :: 0 <= i < |closestStop| ==> fresh(closestStop[i]))
        && |labels| == |nearest| && (forall i :: 0 <= i < |labels| ==> labels[i] == Label(nearest[i]))
    {
      closestStop := [];
      labels := [];
      var listData := ReadFeed(dir.files, BusStopFile, parseFeed);
      if listData.Err? {
        return;
      }
      var distanceArray, thrown := CreateDistanceArray([], listData.value, currentLocation, parseFloat);
      if thrown.Some? {
        return;
      }
      ghost var items := DistanceEntries(listData.value, currentLocation, parseFloat).items;
      assert StopFieldsOf(distanceArray) == items;
      closestStop, labels := ChooseNearest(distanceArray, items);
    }

    /** `startReadEtaJSONButtonHandler`: reads the ETA feed of each nearest stop into a list of
        new `StopEta` objects, then shows them with `outputEtaData`. Nothing catches the
        exceptions: the first feed file or record that throws ends the handler. */
    method ReadEtaFeeds(parseFeed: seq<Byte> -> Option<Feed>, p: Platform) returns (texts: seq<string>, thrown: Option<Thrown>)
      ensures var lists := old(EtaLists(dir.files, StopIDs(closestStop), parseFeed));
        && (lists.Err? ==> thrown == Some(lists.error))
        && (lists.Ok? ==> thrown.None? && texts == Cumulative(Blocks(old(Names(closestStop)), lists.value, p)))
    {
      ghost var names := Names(closestStop);
      var outputEtaArray;
      var stopIDs := StopIDs(closestStop);
      outputEtaArray, thrown := ReadEtaArrays(dir.files, stopIDs, parseFeed);
      texts := [];
      if thrown.None? {
        texts := ShowEtas(closestStop, outputEtaArray, names, FieldLists(outputEtaArray), p);
      }
    }
  }

  /** `outputEtaData` once every stop has its list: it shows each stop's text, throws nothing,
      and leaves every arrival with its minutes left stored. */
  method ShowEtas(closestStop: seq<BusStop>, outputEtaArray: seq<seq<StopEta>>, ghost names: seq<string>,
                  ghost lists: seq<seq<EtaFields>>, p: Platform) returns (texts: seq<string>)
    requires |outputEtaArray| == |closestStop| && names == Names(closestStop) && lists == FieldLists(outputEtaArray)
    modifies AllEtas(outputEtaArray)
    ensures texts == Cumulative(Blocks(names, lists, p))
    ensures forall k, j :: 0 <= k < |lists| && 0 <= j < |lists[k]| ==>
      |outputEtaArray[k]| == |lists[k]| && outputEtaArray[k][j].Fields() == AfterTimeLeft(lists[k][j], p)
  {
    assert closestStop[..|closestStop|] == closestStop && outputEtaArray[..|closestStop|] == outputEtaArray;
    var thrown;
    texts, thrown := OutputEtaData(closestStop, outputEtaArray, p);
  }

  /** The loop of `startReadEtaJSONButtonHandler`: one new list of `StopEta` objects per stop,
      in stop order, until a feed file or record throws. */
  method ReadEtaArrays(fs: Store, ids: seq<string>, parseFeed: seq<Byte> -> Option<Feed>)
    returns (outputEtaArray: seq<seq<StopEta>>, thrown: Option<Thrown>)
    ensures var lists := EtaLists(fs, ids, parseFeed);
      && (lists.Err? ==> thrown == Some(lists.error))
      && (lists.Ok? ==> thrown.None? && |outputEtaArray| == |ids| && FieldLists(outputEtaArray) == lists.value)
    ensures fresh(AllEtas(outputEtaArray))
  {
    ghost var got: seq<seq<EtaFields>> := [];
    outputEtaArray, thrown := [], None;
    var i := 0;
    while i < |ids|
      invariant 0 <= i <= |ids| && |outputEtaArray| == |got| == i
      invariant EtaLists(fs, ids[..i], parseFeed) == Ok(got)
      invariant fresh(AllEtas(outputEtaArray))
      invariant forall k :: 0 <= k < i ==> EtaFieldsOf(outputEtaArray[k]) == got[k]
    {
      var oneEtaArray, failed := ReadStopEtas(fs, ids[i], parseFeed);
      ghost var l := EtaListsAfter(fs, ids, i, parseFeed, got);
      if failed.Some? {
        thrown := failed;
        return;
      }
      AllEtasAppend(outputEtaArray, oneEtaArray);
      got := got + [l];
      outputEtaArray := outputEtaArray + [oneEtaArray];
      i := i + 1;
    }
    assert ids[..i] == ids;
    assert FieldLists(outputEtaArray) == got;
  }

  /** What reading stop `i` does to the ETA lists, once the stops before it are read: either the
      lists of all the stops throw what it throws, or the next prefix's lists add its list `l`. */
  lemma EtaListsAfter(fs: Store, ids: seq<string>, i: nat, parseFeed: seq<Byte> -> Option<Feed>, got: seq<seq<EtaFields>>)
    returns (l: seq<EtaFields>)
    requires i < |ids| && EtaLists(fs, ids[..i], parseFeed) == Ok(got)
    ensures var r := StopEtaList(fs, ids[i], parseFeed);
      && (r.Err? ==> EtaLists(fs, ids, parseFeed) == Err(r.error))
      && (r.Ok? ==> l == r.value && EtaLists(fs, ids[..i + 1], parseFeed) == Ok(got + [l]))
  {
    EtaListsNext(fs, ids, i, parseFeed);
    var r := StopEtaList(fs, ids[i], parseFeed);
    if r.Err? {
      EtaListsFailed(fs, ids, i + 1, parseFeed);
      l := [];
    } else {
      l := r.value;
    }
  }

  /** Sorting the new stops and keeping the first twenty gives the fields `Nearest` keeps. */
  lemma NearestOfSorted(list: seq<BusStop>, items: seq<StopFields>)
    requires StopFieldsOf(list) == items
    ensures var sorted := SortDistanceArray(list);
      && |sorted| == |list| && StopFieldsOf(sorted[..|Nearest(items)|]) == Nearest(items)
      && forall i :: 0 <= i < |sorted| ==> sorted[i] in list
  {
    var sorted := SortDistanceArray(list);
    SortedStops(list);
    SortedStopFields(list, items);
    assert StopFieldsOf(sorted[..|Nearest(items)|]) == StopFieldsOf(sorted)[..|Nearest(items)|];
  }
}
