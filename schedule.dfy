/**
 * The schedule extractor `getArtists`: it turns the listing blocks of the
 * venue page into index-aligned sequences of show dates and artist lists.
 * Fetching and parsing the page is outside the model; each block is given
 * as the texts of its `h2.dates` elements and of its `h1` elements.
 */
module Schedule {
  import opened Wrappers

  /** One `div.list-view-item` block: the texts of its `h2.dates` and of its `h1` elements, in page order. */
  datatype Block = Block(dateTexts: seq<string>, headingTexts: seq<string>)

  /** The `(dates, artists)` pair that `getArtists` returns. */
  datatype Lineup = Lineup(dates: seq<string>, artists: seq<seq<string>>)

  /** Indexing `[0]` into the empty `h2.dates` list of the block at index `block` raises. */
  datatype ScheduleError = MissingDate(block: nat)

  /** Whether the block at index `k` lacks a `h2.dates` element. */
  predicate Undated(blocks: seq<Block>, k: int)
  {
    0 <= k < |blocks| && blocks[k].dateTexts == []
  }

  /**
   * `getArtists(sched_raw)`: one `(date, artists)` pair per block, built by a
   * loop and then unzipped. The date is the first `h2.dates` text and the
   * artists are all `h1` texts; the first block without a date aborts.
   */
  method GetArtists(blocks: seq<Block>) returns (r: Result<Lineup, ScheduleError>)
    ensures r.Failure? <==> exists k :: Undated(blocks, k)
    ensures r.Failure? ==>
      Undated(blocks, r.error.block) && forall j :: 0 <= j < r.error.block ==> !Undated(blocks, j)
    ensures r.Success? ==>
      |r.value.dates| == |blocks| && |r.value.artists| == |blocks| &&
      forall i :: 0 <= i < |blocks| ==>
        blocks[i].dateTexts != [] &&
        r.value.dates[i] == blocks[i].dateTexts[0] && r.value.artists[i] == blocks[i].headingTexts
  {
    var scheduleList: seq<(string, seq<string>)> := [];
    var i := 0;
    while i < |blocks|
      invariant 0 <= i <= |blocks|
      invariant |scheduleList| == i
      invariant forall j :: 0 <= j < i ==>
        !Undated(blocks, j) && scheduleList[j] == (blocks[j].dateTexts[0], blocks[j].headingTexts)
    {
      var event := blocks[i].headingTexts;
      if blocks[i].dateTexts == [] {
        assert Undated(blocks, i);
        return Failure(MissingDate(i));
      }
      var date := blocks[i].dateTexts[0];
      scheduleList := scheduleList + [(date, event)];
      i := i + 1;
    }
    var artists := seq(|scheduleList|, j requires 0 <= j < |scheduleList| => scheduleList[j].1);
    var dates := seq(|scheduleList|, j requires 0 <= j < |scheduleList| => scheduleList[j].0);
    return Success(Lineup(dates, artists));
  }
}
