/** Parsed JSON records and the exceptions the data pipeline can raise.

    A record stands for one `JSONObject` element of a feed's `data` array, with each key
    mapped to the `toString()` of its value (a JSON `null` is the string "null"). */
module Records {
  import opened Wrappers

  type Record = map<string, string>

  /** The exceptions the modelled code raises, by the Java class that raises them. */
  datatype Thrown =
    | JsonKeyNotFound(key: string)            // JSONException from `JSONObject.get`
    | NumberFormat(text: string)              // NumberFormatException from `Float.parseFloat`
    | IndexOutOfBounds(index: int, size: int) // from `ArrayList.get`
    | FileNotFound(path: string)              // FileNotFoundException when opening a feed file
    | MalformedJson(path: string)             // JSONException while parsing a feed file

  /** `result2.get(key).toString()`: the value under `key`, or the exception for a missing key. */
  function Get(rec: Record, key: string): Result<string, Thrown>
  {
    if key in rec then Ok(rec[key]) else Err(JsonKeyNotFound(key))
  }

  /** `keys[i]` is the first of `keys` missing from `rec`. */
  predicate MissingFirstAt(rec: Record, keys: seq<string>, i: int) {
    0 <= i < |keys| && keys[i] !in rec && forall j :: 0 <= j < i ==> keys[j] in rec
  }

  /** The first of `keys` that `rec` lacks: the key whose `get` throws when the keys are read in
      order. */
  function FirstMissing(rec: Record, keys: seq<string>): Option<string>
    decreases |keys|
  {
    if keys == [] then None
    else if keys[0] !in rec then Some(keys[0])
    else FirstMissing(rec, keys[1..])
  }

  /** `FirstMissing` finds nothing exactly when every key is present, and otherwise finds the key
      at the first position whose key is missing. */
  lemma {:induction false} FirstMissingSpec(rec: Record, keys: seq<string>)
    ensures FirstMissing(rec, keys).None? <==> forall i :: 0 <= i < |keys| ==> keys[i] in rec
    ensures FirstMissing(rec, keys).Some? ==>
      exists i :: MissingFirstAt(rec, keys, i) && keys[i] == FirstMissing(rec, keys).value
    decreases |keys|
  {
    if keys == [] {
    } else if keys[0] !in rec {
      assert MissingFirstAt(rec, keys, 0);
    } else {
      FirstMissingSpec(rec, keys[1..]);
      var m := FirstMissing(rec, keys[1..]);
      if m.Some? {
        var i :| MissingFirstAt(rec, keys[1..], i) && keys[1..][i] == m.value;
        assert MissingFirstAt(rec, keys, i + 1) by {
          forall j | 0 <= j < i + 1 ensures keys[j] in rec {
            if j > 0 { assert keys[j] == keys[1..][j - 1]; }
          }
        }
      } else {
        forall i | 0 <= i < |keys| ensures keys[i] in rec {
          if i > 0 { assert keys[i] == keys[1..][i - 1]; }
        }
      }
    }
  }

  /** `FirstMissing` on the keys from position `n` on: nothing when there are none; else the
      key at `n` if it is missing, and otherwise the first missing key after it. */
  lemma FirstMissingFrom(rec: Record, keys: seq<string>, n: nat)
    requires n <= |keys|
    ensures n == |keys| ==> FirstMissing(rec, keys[n..]) == None
    ensures n < |keys| ==>
      (FirstMissing(rec, keys[n..]) == if keys[n] in rec then FirstMissing(rec, keys[n + 1..]) else Some(keys[n]))
  {
    if n < |keys| {
      assert keys[n..][1..] == keys[n + 1..];
    }
  }

  /** What a loop that decodes one record per iteration and appends the result leaves behind:
      the items appended so far and, if an iteration threw, what it threw. */
  datatype Collected<T> = Collected(items: seq<T>, failure: Option<Thrown>)

  /** Decodes `records` in order until the first failure. */
  function Collect<T>(records: seq<Record>, decode: Record -> Result<T, Thrown>): Collected<T>
    decreases |records|
  {
    if records == [] then Collected([], None)
    else
      var last := records[|records| - 1];
      var front := Collect(records[..|records| - 1], decode);
      if front.failure.Some? then front
      else match decode(last)
        case Ok(item) => Collected(front.items + [item], None)
        case Err(e) => Collected(front.items, Some(e))
  }

  /** The items are the decodings of the records before the first failure, in order; without a
      failure every record was decoded, and with one it is the failure of the next record. */
  lemma {:induction false} CollectSpec<T>(records: seq<Record>, decode: Record -> Result<T, Thrown>)
    ensures var c := Collect(records, decode);
      && |c.items| <= |records|
      && (forall i :: 0 <= i < |c.items| ==> decode(records[i]) == Ok(c.items[i]))
      && (c.failure.None? ==> |c.items| == |records|)
      && (c.failure.Some? ==> |c.items| < |records| && decode(records[|c.items|]) == Err(c.failure.value))
    decreases |records|
  {
    if records != [] {
      var front := records[..|records| - 1];
      CollectSpec(front, decode);
      assert forall i :: 0 <= i < |front| ==> front[i] == records[i];
    }
  }

  /** What the decoding loop finds at position `i`, once the `i` records before it decoded: the
      next item, or the failure that ends the items. */
  lemma CollectAt<T>(records: seq<Record>, decode: Record -> Result<T, Thrown>, i: nat)
    requires i < |records| && i <= |Collect(records, decode).items|
    ensures var c := Collect(records, decode);
      match decode(records[i])
      case Ok(item) => i < |c.items| && c.items[i] == item
      case Err(e) => |c.items| == i && c.failure == Some(e)
  {
    CollectSpec(records, decode);
  }

  /** The loop decodes every record exactly when nothing fails. */
  lemma CollectLength<T>(records: seq<Record>, decode: Record -> Result<T, Thrown>)
    ensures var c := Collect(records, decode);
      |c.items| <= |records| && (c.failure.None? <==> |c.items| == |records|)
  {
    CollectSpec(records, decode);
  }

  /** One step of the decoding loop: when the records decoded so far all succeeded, decoding one
      more record either appends its item or stops with its exception. */
  lemma {:induction false} CollectStep<T>(records: seq<Record>, next: Record, decode: Record -> Result<T, Thrown>)
    requires Collect(records, decode).failure.None?
    ensures var c := Collect(records + [next], decode);
      match decode(next)
      case Ok(item) => c == Collected(Collect(records, decode).items + [item], None)
      case Err(e) => c == Collected(Collect(records, decode).items, Some(e))
  {
    assert (records + [next])[..|records|] == records;
  }

  /** Once an iteration has thrown, further records change nothing. */
  lemma {:induction false} CollectAfterFailure<T>(records: seq<Record>, more: seq<Record>, decode: Record -> Result<T, Thrown>)
    requires Collect(records, decode).failure.Some?
    ensures Collect(records + more, decode) == Collect(records, decode)
    decreases |more|
  {
    if more == [] {
      assert records + more == records;
    } else {
      var init := more[..|more| - 1];
      assert (records + more)[..|records + more| - 1] == records + init;
      CollectAfterFailure(records, init, decode);
    }
  }

  /** The first missing key is the one at the first position whose key is missing. */
  lemma {:induction false} FirstMissingAt(rec: Record, keys: seq<string>, i: nat)
    requires MissingFirstAt(rec, keys, i)
    ensures FirstMissing(rec, keys) == Some(keys[i])
    decreases i
  {
    if i > 0 {
      assert MissingFirstAt(rec, keys[1..], i - 1) by {
        forall j | 0 <= j < i - 1 ensures keys[1..][j] in rec {
          assert keys[1..][j] == keys[j + 1];
        }
      }
      FirstMissingAt(rec, keys[1..], i - 1);
    }
  }
}
