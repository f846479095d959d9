/** `convertJsonToArrayList`: reading a downloaded feed file into its list of records. */
module Feeds {
  import opened Wrappers
  import opened Records
  import opened Files

  /** A feed document: the elements of its `data` array and its `generated_timestamp`. */
  datatype Feed = Feed(data: seq<Record>, generatedTimestamp: string)

  /** `convertJsonToArrayList(listData, path, …)` on a fresh `listData`: opening a missing file
      throws FileNotFoundException; `parseFeed` is the JSON decoding of the file's bytes, `None`
      where `new JSONObject`, `getJSONArray("data")` or `getString("generated_timestamp")` throws;
      otherwise the feed's records, in array order. */
  function ReadFeed(fs: Store, path: string, parseFeed: seq<Byte> -> Option<Feed>): Result<seq<Record>, Thrown>
  {
    if path !in fs then Err(FileNotFound(path))
    else match parseFeed(fs[path])
      case None => Err(MalformedJson(path))
      case Some(feed) => Ok(feed.data)
  }
}
