/** The ETA half of the pipeline: `createEtaArray` turns one stop's feed records into `StopEta`
    objects, and `outputEtaData` renders, for each nearest stop, its name followed by one line per
    arrival, each text view showing the text of all stops up to its own. */
module EtaReport {
  import opened Wrappers
  import opened Records
  import opened StopEtas
  import opened BusStops

  /** The keys `createEtaArray` reads, in the order it reads them. */
  const EtaKeys: seq<string> := ["co", "route", "dir", "service_type", "seq", "dest_tc", "dest_sc",
    "dest_en", "eta_seq", "eta", "rmk_tc", "rmk_sc", "rmk_en", "data_timestamp"]

  /** One iteration of `createEtaArray`: the fourteen fields, read in order; the minutes left stay
      unset. */
  function EtaFromRecord(rec: Record): (r: Result<EtaFields, Thrown>)
    ensures r.Ok? ==> ("co" in rec && "route" in rec && "dir" in rec && "service_type" in rec && "seq" in rec
      && "dest_tc" in rec && "dest_sc" in rec && "dest_en" in rec && "eta_seq" in rec && "eta" in rec
      && "rmk_tc" in rec && "rmk_sc" in rec && "rmk_en" in rec && "data_timestamp" in rec)
    ensures r.Ok? ==> r.value == EtaFields(rec["co"], rec["route"], rec["dir"], rec["service_type"],
      rec["seq"], rec["dest_tc"], rec["dest_sc"], rec["dest_en"], rec["eta_seq"], rec["eta"],
      rec["rmk_tc"], rec["rmk_sc"], rec["rmk_en"], rec["data_timestamp"], None)
  {
    var co :- Get(rec, "co");
    var route :- Get(rec, "route");
    var dir :- Get(rec, "dir");
    var serviceType :- Get(rec, "service_type");
    var stopSeq :- Get(rec, "seq");
    var destTc :- Get(rec, "dest_tc");
    var destSc :- Get(rec, "dest_sc");
    var destEn :- Get(rec, "dest_en");
    var etaSeq :- Get(rec, "eta_seq");
    var eta :- Get(rec, "eta");
    var rmkTc :- Get(rec, "rmk_tc");
    var rmkSc :- Get(rec, "rmk_sc");
    var rmkEn :- Get(rec, "rmk_en");
    var dataTimestamp :- Get(rec, "data_timestamp");
    Ok(EtaFields(co, route, dir, serviceType, stopSeq, destTc, destSc, destEn, etaSeq, eta,
      rmkTc, rmkSc, rmkEn, dataTimestamp, None))
  }

  /** A record decodes exactly when it has all fourteen keys, and one that does not throws for
      the first key missing in reading order. */
  lemma EtaFromRecordKeys(rec: Record)
    ensures EtaFromRecord(rec).Ok? <==> FirstMissing(rec, EtaKeys).None?
    ensures EtaFromRecord(rec).Err? ==>
      FirstMissing(rec, EtaKeys).Some? && EtaFromRecord(rec).error == JsonKeyNotFound(FirstMissing(rec, EtaKeys).value)
  {
    assert EtaKeys[0..] == EtaKeys;
    FirstMissingFrom(rec, EtaKeys, 0);
    FirstMissingFrom(rec, EtaKeys, 1);
    FirstMissingFrom(rec, EtaKeys, 2);
    FirstMissingFrom(rec, EtaKeys, 3);
    FirstMissingFrom(rec, EtaKeys, 4);
    FirstMissingFrom(rec, EtaKeys, 5);
    FirstMissingFrom(rec, EtaKeys, 6);
    FirstMissingFrom(rec, EtaKeys, 7);
    FirstMissingFrom(rec, EtaKeys, 8);
    FirstMissingFrom(rec, EtaKeys, 9);
    FirstMissingFrom(rec, EtaKeys, 10);
    FirstMissingFrom(rec, EtaKeys, 11);
    FirstMissingFrom(rec, EtaKeys, 12);
    FirstMissingFrom(rec, EtaKeys, 13);
    FirstMissingFrom(rec, EtaKeys, 14);
  }

  /** What `createEtaArray` appends for `records`, and what it throws. */
  function EtaEntries(records: seq<Record>): Collected<EtaFields> {
    Collect(records, EtaFromRecord)
  }

  /** One iteration's `new StopEta()` and setter calls. */
  method NewStopEta(f: EtaFields) returns (stopEta: StopEta)
    ensures fresh(stopEta) && stopEta.Fields() == f.(etaTimeLeft := None)
  {
    stopEta := new StopEta();
    stopEta.SetCo(f.co);
    stopEta.SetRoute(f.route);
    stopEta.SetDir(f.dir);
    stopEta.SetServiceType(f.serviceType);
    stopEta.SetStopSeq(f.stopSeq);
    stopEta.SetDestTc(f.destTc);
    stopEta.SetDestSc(f.destSc);
    stopEta.SetDestEn(f.destEn);
    stopEta.SetEtaSeq(f.etaSeq);
    stopEta.SetEta(f.eta);
    stopEta.SetRmkTc(f.rmkTc);
    stopEta.SetRmkSc(f.rmkSc);
    stopEta.SetRmkEn(f.rmkEn);
    stopEta.SetDataTimestamp(f.dataTimestamp);
  }

  /** One iteration of `createEtaArray`: the `StopEta` for the record at `i`, or what reading
      it throws. */
  method NextStopEta(listData: seq<Record>, i: nat, ghost c: Collected<EtaFields>) returns (r: Result<StopEta, Thrown>)
    requires c == EtaEntries(listData) && i < |listData| && i <= |c.items|
    ensures r.Err? ==> |c.items| == i && c.failure == Some(r.error)
    ensures r.Ok? ==> i < |c.items| && fresh(r.value) && r.value.Fields() == c.items[i]
  {
    var entry := EtaFromRecord(listData[i]);
    CollectAt(listData, EtaFromRecord, i);
    if entry.Err? {
      return Err(entry.error);
    }
    var stopEta := NewStopEta(entry.value);
    return Ok(stopEta);
  }

  /** `createEtaArray(etaArray, listData)`: appends one new `StopEta` per record, in record order,
      until a record lacks a key; the objects appended before that stay appended. */
  method CreateEtaArray(etaArray: seq<StopEta>, listData: seq<Record>) returns (out: seq<StopEta>, thrown: Option<Thrown>)
    ensures var c := EtaEntries(listData);
      && |out| == |etaArray| + |c.items|
      && out[..|etaArray|] == etaArray
      && (forall i :: |etaArray| <= i < |out| ==> fresh(out[i]) && out[i].Fields() == c.items[i - |etaArray|])
      && (forall i, j :: |etaArray| <= i < j < |out| ==> out[i] != out[j])
      && thrown == c.failure
  {
    ghost var c := EtaEntries(listData);
    CollectLength(listData, EtaFromRecord);
    out, thrown := etaArray, None;
    var i := 0;
    while i < |listData|
      invariant 0 <= i <= |c.items|
      invariant |out| == |etaArray| + i && out[..|etaArray|] == etaArray
      invariant forall j :: |etaArray| <= j < |out| ==> fresh(out[j])
      invariant forall j :: |etaArray| <= j < |out| ==> out[j].Fields() == c.items[j - |etaArray|]
      invariant forall j, k :: |etaArray| <= j < k < |out| ==> out[j] != out[k]
    {
      var entry := NextStopEta(listData, i, c);
      if entry.Err? {
        thrown := Some(entry.error);
        return;
      }
      var stopEta := entry.value;
      assert forall j :: 0 <= j < |out| ==> out[j] != stopEta;
      out := out + [stopEta];
      i := i + 1;
    }
  }

  /** Each item rendered by `render` on a line of its own, in order. */
  function Lines<T>(items: seq<T>, render: T -> string): string
    decreases |items|
  {
    if items == [] then ""
    else Lines(items[..|items| - 1], render) + render(items[|items| - 1]) + "\n"
  }

  /** The lines of two runs of items are the lines of the first followed by those of the
      second. */
  lemma {:induction false} LinesAppend<T>(a: seq<T>, b: seq<T>, render: T -> string)
    ensures Lines(a + b, render) == Lines(a, render) + Lines(b, render)
    decreases |b|
  {
    if b == [] {
      assert a + b == a;
    } else {
      var front := b[..|b| - 1];
      assert (a + b)[..|a + b| - 1] == a + front;
      LinesAppend(a, front, render);
    }
  }

  /** How `toString` renders an arrival with the platform `p`. */
  function RenderWith(p: Platform): EtaFields -> string {
    f => Rendered(f, p)
  }

  /** The text of one stop's arrivals: each rendered line followed by a newline. */
  function EtaLines(etas: seq<EtaFields>, p: Platform): string {
    Lines(etas, RenderWith(p))
  }

  /** The stored minutes left play no part in the lines. */
  lemma {:induction false} EtaLinesIgnoreTimeLeft(a: seq<EtaFields>, b: seq<EtaFields>, p: Platform)
    requires |a| == |b| && forall i :: 0 <= i < |a| ==> b[i] == a[i].(etaTimeLeft := b[i].etaTimeLeft)
    ensures EtaLines(a, p) == EtaLines(b, p)
    decreases |a|
  {
    if a != [] {
      var n := |a| - 1;
      RenderedIgnoresTimeLeft(a[n], b[n], p);
      EtaLinesIgnoreTimeLeft(a[..n], b[..n], p);
    }
  }

  /** One stop's block: its traditional Chinese name on a line, then its arrival lines. */
  function Block(name: string, etas: seq<EtaFields>, p: Platform): string {
    name + "\n" + EtaLines(etas, p)
  }

  /** The blocks of the stops, paired with their arrival lists. */
  function Blocks(names: seq<string>, lists: seq<seq<EtaFields>>, p: Platform): (b: seq<string>)
    requires |names| <= |lists|
    ensures |b| == |names|
    ensures forall i :: 0 <= i < |b| ==> b[i] == Block(names[i], lists[i], p)
  {
    seq(|names|, i requires 0 <= i < |names| => Block(names[i], lists[i], p))
  }

  /** All the blocks, one after another. */
  function Concat(blocks: seq<string>): string
    decreases |blocks|
  {
    if blocks == [] then "" else blocks[0] + Concat(blocks[1..])
  }

  /** What the successive text views show: the accumulated `etaString` after each stop. */
  function Cumulative(blocks: seq<string>): (r: seq<string>)
    ensures |r| == |blocks|
    decreases |blocks|
  {
    if blocks == [] then []
    else
      var front := Cumulative(blocks[..|blocks| - 1]);
      var before := if front == [] then "" else front[|front| - 1];
      front + [before + blocks[|blocks| - 1]]
  }

  /** One more stop: its view shows what the previous view showed, then the stop's block. */
  lemma CumulativeStep(blocks: seq<string>, i: nat)
    requires i < |blocks|
    ensures var prev := Cumulative(blocks[..i]);
      Cumulative(blocks[..i + 1]) == prev + [(if i == 0 then "" else prev[i - 1]) + blocks[i]]
  {
    assert blocks[..i + 1][..i] == blocks[..i];
  }

  /** The loop of `outputEtaData` keeps `etaString` as the last of the texts shown so far:
      appending the next block and showing it extends the texts by the next `Cumulative`. */
  lemma CumulativeNext(blocks: seq<string>, i: nat, texts: seq<string>, etaString: string, block: string)
    requires i < |blocks| && block == blocks[i]
    requires texts == Cumulative(blocks[..i]) && etaString == (if i == 0 then "" else texts[i - 1])
    ensures texts + [etaString + block] == Cumulative(blocks[..i + 1])
  {
    CumulativeStep(blocks, i);
  }

  lemma {:induction false} ConcatAppend(a: seq<string>, b: string)
    ensures Concat(a + [b]) == Concat(a) + b
    decreases |a|
  {
    if a == [] {
      assert Concat([b]) == b + Concat([]);
    } else {
      assert (a + [b])[1..] == a[1..] + [b];
      ConcatAppend(a[1..], b);
    }
  }

  /** The view of stop `i` shows the blocks of stops `0..i`, in order. */
  lemma {:induction false} CumulativeIsConcat(blocks: seq<string>)
    ensures forall i :: 0 <= i < |blocks| ==> Cumulative(blocks)[i] == Concat(blocks[..i + 1])
    decreases |blocks|
  {
    if blocks != [] {
      var n := |blocks| - 1;
      var front := blocks[..n];
      CumulativeIsConcat(front);
      forall i | 0 <= i < |blocks|
        ensures Cumulative(blocks)[i] == Concat(blocks[..i + 1])
      {
        if i < n {
          assert blocks[..i + 1] == front[..i + 1];
        } else {
          assert blocks[..n + 1] == front + [blocks[n]];
          ConcatAppend(front, blocks[n]);
          if n > 0 {
            assert front[..n] == front;
          }
        }
      }
    }
  }

  /** Each view's text begins with the text of the view before it. */
  lemma CumulativePrefix(blocks: seq<string>, i: nat, j: nat)
    requires i <= j < |blocks|
    ensures var r := Cumulative(blocks); |r[i]| <= |r[j]| && r[j][..|r[i]|] == r[i]
  {
    CumulativeIsConcat(blocks);
    assert blocks[..j + 1] == blocks[..i + 1] + blocks[i + 1..j + 1];
    ConcatSplit(blocks[..i + 1], blocks[i + 1..j + 1]);
  }

  lemma {:induction false} ConcatSplit(a: seq<string>, b: seq<string>)
    ensures Concat(a + b) == Concat(a) + Concat(b)
    decreases |a|
  {
    if a == [] {
      assert a + b == b;
    } else {
      assert (a + b)[1..] == a[1..] + b;
      ConcatSplit(a[1..], b);
    }
  }

  /** The traditional Chinese names of the stops. */
  function Names(stops: seq<BusStop>): (r: seq<string>)
    reads stops
    ensures |r| == |stops| && forall i :: 0 <= i < |r| ==> r[i] == stops[i].nameTc
  {
    seq(|stops|, i requires 0 <= i < |stops| reads stops => stops[i].nameTc)
  }

  /** The fields of the arrivals, in order. */
  function EtaFieldsOf(etas: seq<StopEta>): (r: seq<EtaFields>)
    reads etas
    ensures |r| == |etas| && forall i :: 0 <= i < |r| ==> r[i] == etas[i].Fields()
  {
    seq(|etas|, i requires 0 <= i < |etas| reads etas => etas[i].Fields())
  }

  /** The objects a list holds. */
  function Elements(etas: seq<StopEta>): set<StopEta> {
    set s | s in etas
  }

  /** Every `StopEta` in the lists. */
  function AllEtas(lists: seq<seq<StopEta>>): set<StopEta> {
    set i, j | 0 <= i < |lists| && 0 <= j < |lists[i]| :: lists[i][j]
  }

  lemma AllEtasAppend(lists: seq<seq<StopEta>>, l: seq<StopEta>)
    ensures AllEtas(lists + [l]) == AllEtas(lists) + Elements(l)
  {
    var all := lists + [l];
    forall s | s in l ensures s in AllEtas(all) {
      var j :| 0 <= j < |l| && l[j] == s;
      assert all[|lists|][j] == s;
    }
    forall s | s in AllEtas(lists) ensures s in AllEtas(all) {
      var i, j :| 0 <= i < |lists| && 0 <= j < |lists[i]| && lists[i][j] == s;
      assert all[i][j] == s;
    }
  }

  lemma AllEtasNext(lists: seq<seq<StopEta>>, i: nat)
    requires i < |lists|
    ensures AllEtas(lists[..i + 1]) == AllEtas(lists[..i]) + Elements(lists[i])
  {
    assert lists[..i + 1] == lists[..i] + [lists[i]];
    AllEtasAppend(lists[..i], lists[i]);
  }

  /** The fields of each list. */
  function FieldLists(lists: seq<seq<StopEta>>): (r: seq<seq<EtaFields>>)
    reads AllEtas(lists)
    ensures |r| == |lists| && forall i :: 0 <= i < |r| ==> r[i] == EtaFieldsOf(lists[i])
    decreases |lists|
  {
    if lists == [] then []
    else
      var front, last := lists[..|lists| - 1], lists[|lists| - 1];
      assert lists == front + [last];
      AllEtasAppend(front, last);
      FieldLists(front) + [EtaFieldsOf(last)]
  }

  /** The snapshot `before` records `entry` as the fields of the arrivals `etas`. */
  ghost predicate Snapped(etas: seq<StopEta>, entry: seq<EtaFields>, before: map<StopEta, EtaFields>) {
    |entry| == |etas| && forall k :: 0 <= k < |etas| ==> etas[k] in before && before[etas[k]] == entry[k]
  }

  /** The arrivals of the snapshot `before` have, against their fields there, the minutes left
      stored as `toString` stores them exactly in those of `done`. */
  ghost predicate Tracked(before: map<StopEta, EtaFields>, done: set<StopEta>, p: Platform)
    reads before.Keys
  {
    forall s :: s in before ==> s.Fields() == if s in done then AfterTimeLeft(before[s], p) else before[s]
  }

  lemma ElementsNext(done: set<StopEta>, etas: seq<StopEta>, j: nat)
    requires j < |etas|
    ensures done + Elements(etas[..j + 1]) == done + Elements(etas[..j]) + {etas[j]}
  {
    assert etas[..j + 1] == etas[..j] + [etas[j]];
  }

  /** One pass of the inner loop of `outputEtaData`: `stopEta.toString()` and a newline are
      appended to `tmpString`, and `stopEta` joins the arrivals whose minutes left are stored. */
  method AppendEtaLine(etas: seq<StopEta>, j: nat, tmpString: string, ghost fields: seq<EtaFields>,
                       ghost before: map<StopEta, EtaFields>, ghost done: set<StopEta>,
                       p: Platform)
    returns (next: string)
    requires j < |etas| && j < |fields| && etas[j] in before && before[etas[j]] == fields[j]
    requires tmpString == EtaLines(fields[..j], p) && Tracked(before, done, p)
    modifies etas[j]
    ensures next == EtaLines(fields[..j + 1], p)
    ensures Tracked(before, done + {etas[j]}, p)
  {
    var stopEta := etas[j];
    AfterTimeLeftIdempotent(before[stopEta], p);
    RenderedIgnoresTimeLeft(fields[j], stopEta.Fields(), p);
    assert fields[..j + 1][..j] == fields[..j];
    var line := stopEta.ToString(p);
    next := tmpString + line + "\n";
  }

  /** The inner loop of `outputEtaData`: the text of one stop's arrivals, from the fields
      `entry` they had at the start. Each `toString` stores the minutes left in its object, so
      the arrivals of the stop join those whose minutes left are stored; an object listed twice
      renders the same line both times. */
  method StopEtaLines(etas: seq<StopEta>, ghost entry: seq<EtaFields>,
                      ghost before: map<StopEta, EtaFields>, ghost done: set<StopEta>, p: Platform)
    returns (tmpString: string)
    requires Snapped(etas, entry, before)
    requires Tracked(before, done, p)
    modifies etas
    ensures tmpString == EtaLines(entry, p)
    ensures Tracked(before, done + Elements(etas), p)
  {
    tmpString := "";
    var j := 0;
    while j < |etas|
      invariant 0 <= j <= |etas|
      invariant tmpString == EtaLines(entry[..j], p)
      invariant Tracked(before, done + Elements(etas[..j]), p)
    {
      ElementsNext(done, etas, j);
      tmpString := AppendEtaLine(etas, j, tmpString, entry, before, done + Elements(etas[..j]), p);
      j := j + 1;
    }
    assert entry[..j] == entry && etas[..j] == etas;
  }

  /** The block `blocks[k]` is that of the stop at `k`, over the fields `lists[k]` its arrivals
      had in the snapshot `before`. */
  ghost predicate Planned(closestStop: seq<BusStop>, outputEtaArray: seq<seq<StopEta>>, blocks: seq<string>,
                          lists: seq<seq<EtaFields>>, before: map<StopEta, EtaFields>, p: Platform, k: nat)
    reads closestStop
  {
    && k < |closestStop| && k < |outputEtaArray| && k < |blocks| && k < |lists|
    && blocks[k] == Block(closestStop[k].nameTc, lists[k], p)
    && Snapped(outputEtaArray[k], lists[k], before)
  }

  /** What the loop of `outputEtaData` relies on throughout: each of the first `n` stops is
      `Planned`. */
  ghost predicate Plan(closestStop: seq<BusStop>, outputEtaArray: seq<seq<StopEta>>, n: nat, blocks: seq<string>,
                       lists: seq<seq<EtaFields>>, before: map<StopEta, EtaFields>, p: Platform)
    reads closestStop
  {
    && n <= |closestStop| && n <= |outputEtaArray| && |blocks| == n && |lists| == n
    && forall k :: 0 <= k < n ==> Planned(closestStop, outputEtaArray, blocks, lists, before, p, k)
  }

  /** The arrivals of a planned stop are among those of the snapshot. */
  lemma PlanFrame(closestStop: seq<BusStop>, outputEtaArray: seq<seq<StopEta>>, n: nat, blocks: seq<string>,
                  lists: seq<seq<EtaFields>>, before: map<StopEta, EtaFields>, p: Platform, i: nat)
    requires Plan(closestStop, outputEtaArray, n, blocks, lists, before, p) && i < n
    ensures forall s :: s in outputEtaArray[i] ==> s in before
  {
    assert Planned(closestStop, outputEtaArray, blocks, lists, before, p, i);
  }

  /** After `i` stops the text views show the first `i` running texts, and `etaString` is the
      last of them. */
  ghost predicate Shown(blocks: seq<string>, i: nat, texts: seq<string>, etaString: string) {
    i <= |blocks| && texts == Cumulative(blocks[..i]) && etaString == (if i == 0 then "" else texts[i - 1])
  }

  /** One pass of the loop of `outputEtaData`, for the stop at `i`: its name, a newline and its
      arrival lines are appended to `etaString`, which its text view then shows, and its arrivals
      join those whose minutes left are stored. */
  method ShowStop(closestStop: seq<BusStop>, outputEtaArray: seq<seq<StopEta>>, ghost n: nat, ghost blocks: seq<string>,
                  ghost lists: seq<seq<EtaFields>>, ghost before: map<StopEta, EtaFields>, p: Platform,
                  i: nat, etaString: string, texts: seq<string>)
    returns (etaString': string, texts': seq<string>)
    requires Plan(closestStop, outputEtaArray, n, blocks, lists, before, p) && i < n
    requires Shown(blocks, i, texts, etaString) && Tracked(before, AllEtas(outputEtaArray[..i]), p)
    modifies outputEtaArray[i]
    ensures Shown(blocks, i + 1, texts', etaString') && Tracked(before, AllEtas(outputEtaArray[..i + 1]), p)
  {
    assert Planned(closestStop, outputEtaArray, blocks, lists, before, p, i);
    var busStop := closestStop[i];
    var name := busStop.nameTc;
    AllEtasNext(outputEtaArray, i);
    var tmpString := StopEtaLines(outputEtaArray[i], lists[i], before, AllEtas(outputEtaArray[..i]), p);
    CumulativeNext(blocks, i, texts, etaString, name + "\n" + tmpString);
    etaString' := etaString + (name + "\n" + tmpString);
    texts' := texts + [etaString'];
  }

  lemma InAllEtas(lists: seq<seq<StopEta>>, k: nat, j: nat)
    requires k < |lists| && j < |lists[k]|
    ensures lists[k][j] in AllEtas(lists)
  {
  }

  lemma InPrefix(lists: seq<seq<StopEta>>, n: nat, k: nat, j: nat)
    requires k < n <= |lists| && j < |lists[k]|
    ensures lists[k][j] in AllEtas(lists[..n])
  {
    assert lists[..n][k][j] == lists[k][j];
  }

  /** The loop of `outputEtaData`, over the blocks `blocks` of the stops and the fields `lists`
      their arrivals had at the start (`before` holds those of every arrival): the
      text views show the blocks cumulatively, and the arrivals of the stops shown have their
      minutes left stored. */
  method ShowStops(closestStop: seq<BusStop>, outputEtaArray: seq<seq<StopEta>>, n: nat,
                   ghost blocks: seq<string>, ghost lists: seq<seq<EtaFields>>,
                   ghost before: map<StopEta, EtaFields>, p: Platform)
    returns (texts: seq<string>, thrown: Option<Thrown>)
    requires n == if |outputEtaArray| < |closestStop| then |outputEtaArray| else |closestStop|
    requires Plan(closestStop, outputEtaArray, n, blocks, lists, before, p)
    requires Tracked(before, {}, p)
    modifies before.Keys
    ensures texts == Cumulative(blocks)
    ensures Tracked(before, AllEtas(outputEtaArray[..n]), p)
    ensures thrown == if |outputEtaArray| < |closestStop| then Some(IndexOutOfBounds(|outputEtaArray|, |outputEtaArray|)) else None
  {
    assert outputEtaArray[..0] == [];
    texts, thrown := [], None;
    var etaString := "";
    var i := 0;
    while i < n
      invariant 0 <= i <= n
      invariant Plan(closestStop, outputEtaArray, n, blocks, lists, before, p)
      invariant Shown(blocks, i, texts, etaString)
      invariant Tracked(before, AllEtas(outputEtaArray[..i]), p)
    {
      PlanFrame(closestStop, outputEtaArray, n, blocks, lists, before, p, i);
      etaString, texts := ShowStop(closestStop, outputEtaArray, n, blocks, lists, before, p, i, etaString, texts);
      i := i + 1;
    }
    if n < |closestStop| {
      // `outputEtaArray.get(n)` throws: the ETA lists ran out before the stops did.
      thrown := Some(IndexOutOfBounds(n, |outputEtaArray|));
    }
    assert blocks[..i] == blocks;
  }

  /** At the start of `outputEtaData`, with `before` the fields of every arrival: each of the
      first `n` stops is planned with its block and the fields of its arrivals, and no arrival
      has been shown yet. */
  lemma Snapshot(closestStop: seq<BusStop>, outputEtaArray: seq<seq<StopEta>>, n: nat,
                 lists: seq<seq<EtaFields>>, before: map<StopEta, EtaFields>, p: Platform)
    requires n <= |closestStop| && n <= |outputEtaArray| && lists == FieldLists(outputEtaArray[..n])
    requires before == map s | s in AllEtas(outputEtaArray) :: s.Fields()
    ensures Plan(closestStop, outputEtaArray, n, Blocks(Names(closestStop[..n]), lists, p), lists, before, p)
    ensures Tracked(before, {}, p)
    ensures before.Keys == AllEtas(outputEtaArray) && forall s :: s in before ==> before[s] == s.Fields()
  {
    var blocks := Blocks(Names(closestStop[..n]), lists, p);
    forall k | 0 <= k < n
      ensures Planned(closestStop, outputEtaArray, blocks, lists, before, p, k)
    {
      forall j | 0 <= j < |outputEtaArray[k]|
        ensures outputEtaArray[k][j] in before && before[outputEtaArray[k][j]] == lists[k][j]
      {
        InAllEtas(outputEtaArray, k, j);
      }
    }
  }

  /** Once the first `n` lists are processed, their arrivals have the minutes left stored and
      every arrival outside them is as it was. */
  lemma TrackedResult(lists: seq<seq<StopEta>>, n: nat, before: map<StopEta, EtaFields>, p: Platform)
    requires n <= |lists| && (forall s :: s in AllEtas(lists) ==> s in before)
    requires Tracked(before, AllEtas(lists[..n]), p)
    ensures forall k, j :: 0 <= k < n && 0 <= j < |lists[k]| ==>
      lists[k][j] in before && lists[k][j].Fields() == AfterTimeLeft(before[lists[k][j]], p)
    ensures forall s :: s in AllEtas(lists) && s !in AllEtas(lists[..n]) ==> s in before && s.Fields() == before[s]
  {
    forall k, j | 0 <= k < n && 0 <= j < |lists[k]|
      ensures lists[k][j] in before && lists[k][j].Fields() == AfterTimeLeft(before[lists[k][j]], p)
    {
      InAllEtas(lists, k, j);
      InPrefix(lists, n, k, j);
    }
  }

  /** `outputEtaData(outputEtaArray)`: for each nearest stop, its block is added to `etaString`
      and the text view of that stop shows `etaString` so far. `outputEtaArray.get(i)` throws
      when the ETA lists run out before the stops do. Every arrival of the stops shown has its
      minutes left stored, and no arrival outside the lists of those stops changes. */
  method OutputEtaData(closestStop: seq<BusStop>, outputEtaArray: seq<seq<StopEta>>, p: Platform)
    returns (texts: seq<string>, thrown: Option<Thrown>)
    modifies AllEtas(outputEtaArray)
    ensures var n := if |outputEtaArray| < |closestStop| then |outputEtaArray| else |closestStop|;
      && texts == old(Cumulative(Blocks(Names(closestStop[..n]), FieldLists(outputEtaArray[..n]), p)))
      && (forall k, j :: 0 <= k < n && 0 <= j < |outputEtaArray[k]| ==>
            outputEtaArray[k][j].Fields() == AfterTimeLeft(old(outputEtaArray[k][j].Fields()), p))
      && (forall s :: s in AllEtas(outputEtaArray) && s !in AllEtas(outputEtaArray[..n]) ==> s.Fields() == old(s.Fields()))
      && thrown == if |outputEtaArray| < |closestStop| then Some(IndexOutOfBounds(|outputEtaArray|, |outputEtaArray|)) else None
  {
    var n := if |outputEtaArray| < |closestStop| then |outputEtaArray| else |closestStop|;
    ghost var lists := FieldLists(outputEtaArray[..n]);
    ghost var all := AllEtas(outputEtaArray);
    ghost var before := map s | s in all :: s.Fields();
    ghost var blocks := Blocks(Names(closestStop[..n]), lists, p);
    Snapshot(closestStop, outputEtaArray, n, lists, before, p);
    texts, thrown := ShowStops(closestStop, outputEtaArray, n, blocks, lists, before, p);
    TrackedResult(outputEtaArray, n, before, p);
  }
}
