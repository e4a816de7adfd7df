/**
 * One refresh cycle (`create_combined_image`): sweep old archive folders,
 * fetch every configured robot in order, build the 2x2 grid from the tiles,
 * write it to today's folder and publish it as the latest composite; plus
 * the per-robot 7-day error snapshot served to the statistics page.
 */
module Cycle {
  import opened Wrappers
  import opened Text
  import opened Dates
  import opened Ledger
  import opened Payload
  import opened Raster
  import opened Fetcher
  import opened Composite
  import opened Archive

  /** The configured robots, in declaration order (which is also slot order). */
  const Robots: seq<string> := ["x01", "x02", "x03", "x04"]

  // ---------------------------------------------------------------------------
  // Archive file names

  function UpperChar(c: char): char
  {
    if 'a' <= c <= 'z' then (c as int - 32) as char else c
  }

  /** `str.upper()` on ASCII text. */
  function Upper(s: string): (r: string)
    ensures |r| == |s|
  {
    seq(|s|, i requires 0 <= i < |s| => UpperChar(s[i]))
  }

  /** `strftime("%Y-%m-%d_%H-%M-%S")`. */
  function Stamp(now: DateTime): (s: string)
    requires IsValidDateTime(now)
    ensures |s| == 19
  {
    var sec := now.secondOfDay;
    FormatIso(now.date) + "_" + Padded(sec / 3600, 2) + "-" + Padded(sec / 60 % 60, 2) + "-" + Padded(sec % 60, 2)
  }

  /** Where a robot's annotated frame is written. */
  function TilePath(robot: string, now: DateTime): string
    requires IsValidDateTime(now)
  {
    FormatCompact(now.date) + "/" + Upper(robot) + "_" + Stamp(now) + ".jpg"
  }

  /** Where the composite is written. */
  function CombinedPath(now: DateTime): string
    requires IsValidDateTime(now)
  {
    FormatCompact(now.date) + "/combined_" + Stamp(now) + ".jpg"
  }

  /**
   * Both kinds of file land in the folder named for the current day, which
   * parses back to that day and which a sweep at the same moment keeps.
   */
  lemma FilesGoToTodaysFolder(robot: string, now: DateTime)
    requires IsValidDateTime(now)
    ensures TilePath(robot, now)[..9] == FormatCompact(now.date) + "/"
    ensures CombinedPath(now)[..9] == FormatCompact(now.date) + "/"
    ensures ParseCompact(FormatCompact(now.date)) == Some(now.date)
    ensures !ShouldDelete(DirEntry(FormatCompact(now.date), true), now)
  {
    ParseFormatCompact(now.date);
    FolderOfDaysAgo(now, 0);
  }

  // ---------------------------------------------------------------------------
  // Fetching every robot

  /** The outside world's part in one fetch: the reply, whether the frame could be written, the 1% draw. */
  datatype FetchInput = FetchInput(reply: Reply, saveFailure: Option<string>, prune: bool)

  function ErrorOf(outcome: Result<Image, FetchError>): Option<FetchError>
  {
    if outcome.Success? then None else Some(outcome.error)
  }

  /** The error reported for each fetch, in order. */
  function ErrorsOf(inputs: seq<FetchInput>, decode: Decoder): (r: seq<Option<FetchError>>)
    ensures |r| == |inputs|
    ensures forall j :: 0 <= j < |inputs| ==> r[j] == ErrorOf(Attempt(inputs[j].reply, decode, inputs[j].saveFailure))
    decreases |inputs|
  {
    if inputs == [] then []
    else
      var n := |inputs| - 1;
      assert forall j :: 0 <= j < n ==> inputs[..n][j] == inputs[j];
      ErrorsOf(inputs[..n], decode) + [ErrorOf(Attempt(inputs[n].reply, decode, inputs[n].saveFailure))]
  }

  /** The tile shown for one fetch: the frame, or the black 640x480 placeholder. */
  function TileOf(outcome: Result<Image, FetchError>): (tile: Image)
    ensures outcome.Success? ==> tile == outcome.value
    ensures outcome.Failure? ==> tile.width == PlaceholderWidth && tile.height == PlaceholderHeight
    ensures outcome.Failure? ==> forall x: nat, y: nat :: x < tile.width && y < tile.height ==> Pixel(tile, x, y) == Black
  {
    if outcome.Success? then outcome.value else Blank(PlaceholderWidth, PlaceholderHeight)
  }

  /** The state and the tiles after fetching `robots` in order. */
  ghost function FetchAll(m: Monitor, robots: seq<string>, inputs: seq<FetchInput>, decode: Decoder, today: Date): (r: (Monitor, seq<Image>))
    requires |inputs| == |robots| && IsValid(today) && DayNumber(today) >= WindowDays
    ensures |r.1| == |robots|
    decreases |robots|
  {
    if robots == [] then (m, [])
    else
      var n := |robots| - 1;
      var (before, tiles) := FetchAll(m, robots[..n], inputs[..n], decode, today);
      var outcome := Attempt(inputs[n].reply, decode, inputs[n].saveFailure);
      (Transition(before, robots[n], if outcome.Success? then Ok(inputs[n].prune) else Fail, today),
       tiles + [TileOf(outcome)])
  }

  /**
   * In one cycle each robot's 7-day total grows by one exactly when its
   * fetch fails after a success, whatever happens to the other robots.
   */
  lemma {:induction false} FetchAllTotals(m: Monitor, robots: seq<string>, inputs: seq<FetchInput>, decode: Decoder,
                                          today: Date, k: nat)
    requires |inputs| == |robots| && IsValid(today) && DayNumber(today) >= WindowDays
    requires k < |robots| && forall i :: 0 <= i < |robots| && i != k ==> robots[i] != robots[k]
    ensures WindowTotal(FetchAll(m, robots, inputs, decode, today).0.counts, robots[k], Cutoff(today))
         == WindowTotal(m.counts, robots[k], Cutoff(today))
            + (if Attempt(inputs[k].reply, decode, inputs[k].saveFailure).Failure? && Previous(m.states, robots[k]) == Succeeded
               then 1 else 0)
    ensures Previous(FetchAll(m, robots, inputs, decode, today).0.states, robots[k])
         == if Attempt(inputs[k].reply, decode, inputs[k].saveFailure).Success? then Succeeded else Errored
    decreases |robots|
  {
    var n := |robots| - 1;
    var before := FetchAll(m, robots[..n], inputs[..n], decode, today).0;
    var outcome := Attempt(inputs[n].reply, decode, inputs[n].saveFailure);
    var e := if outcome.Success? then Ok(inputs[n].prune) else Fail;
    TransitionEffect(before, robots[n], e, today, robots[k]);
    if k < n {
      FetchAllTotals(m, robots[..n], inputs[..n], decode, today, k);
    } else {
      FetchAllUntouched(m, robots[..n], inputs[..n], decode, today, robots[k]);
    }
  }

  /** A robot not in the list keeps its state and its 7-day total. */
  lemma {:induction false} FetchAllUntouched(m: Monitor, robots: seq<string>, inputs: seq<FetchInput>, decode: Decoder,
                                             today: Date, other: string)
    requires |inputs| == |robots| && IsValid(today) && DayNumber(today) >= WindowDays
    requires other !in robots
    ensures WindowTotal(FetchAll(m, robots, inputs, decode, today).0.counts, other, Cutoff(today))
         == WindowTotal(m.counts, other, Cutoff(today))
    ensures Previous(FetchAll(m, robots, inputs, decode, today).0.states, other) == Previous(m.states, other)
    decreases |robots|
  {
    if robots != [] {
      var n := |robots| - 1;
      var before := FetchAll(m, robots[..n], inputs[..n], decode, today).0;
      var outcome := Attempt(inputs[n].reply, decode, inputs[n].saveFailure);
      assert robots[n] in robots;
      TransitionEffect(before, robots[n], if outcome.Success? then Ok(inputs[n].prune) else Fail, today, other);
      FetchAllUntouched(m, robots[..n], inputs[..n], decode, today, other);
    }
  }

  /** Tile `i` of a cycle is robot `i`'s frame when its fetch succeeds, and the black placeholder when it fails. */
  lemma {:induction false} FetchAllTiles(m: Monitor, robots: seq<string>, inputs: seq<FetchInput>, decode: Decoder,
                                         today: Date, i: nat)
    requires |inputs| == |robots| && IsValid(today) && DayNumber(today) >= WindowDays && i < |robots|
    ensures FetchAll(m, robots, inputs, decode, today).1[i] == TileOf(Attempt(inputs[i].reply, decode, inputs[i].saveFailure))
    ensures Attempt(inputs[i].reply, decode, inputs[i].saveFailure).Success? ==>
      FetchAll(m, robots, inputs, decode, today).1[i] == Attempt(inputs[i].reply, decode, inputs[i].saveFailure).value
    ensures Attempt(inputs[i].reply, decode, inputs[i].saveFailure).Failure? ==>
      FetchAll(m, robots, inputs, decode, today).1[i] == Blank(PlaceholderWidth, PlaceholderHeight)
    decreases |robots|
  {
    var n := |robots| - 1;
    if i < n {
      FetchAllTiles(m, robots[..n], inputs[..n], decode, today, i);
      assert inputs[..n][i] == inputs[i];
    }
  }

  /** Fetching one more robot extends the run by one transition and one tile. */
  lemma FetchAllStep(m: Monitor, robots: seq<string>, inputs: seq<FetchInput>, decode: Decoder, today: Date, i: nat)
    requires |inputs| == |robots| && IsValid(today) && DayNumber(today) >= WindowDays && i < |robots|
    ensures var outcome := Attempt(inputs[i].reply, decode, inputs[i].saveFailure);
      var (before, tiles) := FetchAll(m, robots[..i], inputs[..i], decode, today);
      FetchAll(m, robots[..i + 1], inputs[..i + 1], decode, today)
      == (Transition(before, robots[i], if outcome.Success? then Ok(inputs[i].prune) else Fail, today),
          tiles + [TileOf(outcome)])
  {
    assert robots[..i + 1][..i] == robots[..i] && inputs[..i + 1][..i] == inputs[..i];
  }

  function Present(tiles: seq<Image>): (r: seq<Option<Image>>)
    ensures |r| == |tiles| && forall i :: 0 <= i < |tiles| ==> r[i] == Some(tiles[i])
  {
    seq(|tiles|, i requires 0 <= i < |tiles| => Some(tiles[i]))
  }

  // ---------------------------------------------------------------------------
  // The dashboard

  class Dashboard {
    const archivist: Archivist
    const fetcher: RobotImageFetcher
    /** `latest_combined_image`, `latest_combined_image_path`: replaced together, only once a grid is written. */
    var latestImage: array2?<Rgb>
    var latestPath: Option<string>

    constructor (archivist: Archivist, fetcher: RobotImageFetcher)
      ensures this.archivist == archivist && this.fetcher == fetcher
      ensures latestImage == null && latestPath == None
    {
      this.archivist := archivist;
      this.fetcher := fetcher;
      latestImage := null;
      latestPath := None;
    }

    /** The loop `for robot_id, url in ROBOTS.items()`: fetch every robot once, in order. */
    method FetchRobots(decode: Decoder, inputs: seq<FetchInput>, today: Date)
      returns (tiles: seq<Image>, errors: seq<Option<FetchError>>)
      requires IsValid(today) && DayNumber(today) >= WindowDays && |inputs| == |Robots|
      modifies fetcher, fetcher.ledger
      ensures old(fetcher.ledger.Valid()) ==> fetcher.ledger.Valid()
      ensures (fetcher.State(), tiles) == FetchAll(old(fetcher.State()), Robots, inputs, decode, today)
      ensures |tiles| == |Robots| && forall i :: 0 <= i < |Robots| ==>
        tiles[i] == TileOf(Attempt(inputs[i].reply, decode, inputs[i].saveFailure))
      ensures |errors| == |Robots| && forall i :: 0 <= i < |Robots| ==>
        errors[i] == ErrorOf(Attempt(inputs[i].reply, decode, inputs[i].saveFailure))
    {
      tiles, errors := [], [];
      var i := 0;
      while i < |Robots|
        invariant 0 <= i <= |Robots|
        invariant (fetcher.State(), tiles) == FetchAll(old(fetcher.State()), Robots[..i], inputs[..i], decode, today)
        invariant errors == ErrorsOf(inputs[..i], decode)
        invariant old(fetcher.ledger.Valid()) ==> fetcher.ledger.Valid()
      {
        FetchAllStep(old(fetcher.State()), Robots, inputs, decode, today, i);
        var tile, error, _ := fetcher.GetRobotImage(Robots[i], inputs[i].reply, decode, inputs[i].saveFailure,
                                                    today, inputs[i].prune);
        assert error == ErrorOf(Attempt(inputs[i].reply, decode, inputs[i].saveFailure));
        assert ErrorsOf(inputs[..i + 1], decode) == ErrorsOf(inputs[..i], decode) + [error] by {
          assert inputs[..i + 1][..i] == inputs[..i];
        }
        tiles, errors := tiles + [tile], errors + [error];
        i := i + 1;
      }
      assert Robots[..i] == Robots && inputs[..i] == inputs;
      forall j | 0 <= j < |Robots|
        ensures tiles[j] == TileOf(Attempt(inputs[j].reply, decode, inputs[j].saveFailure))
      {
        FetchAllTiles(old(fetcher.State()), Robots, inputs, decode, today, j);
      }
    }

    /**
     * `create_combined_image` at time `now`. `inputs[i]` is what fetching
     * `Robots[i]` meets; `compositeWritten` says whether writing the grid
     * succeeded (when it fails the cycle ends there and the previous grid
     * stays published).
     */
    method CreateCombinedImage(entries: seq<DirEntry>, now: DateTime, decode: Decoder,
                               inputs: seq<FetchInput>, compositeWritten: bool)
      returns (deleted: seq<string>, tiles: seq<Image>, errors: seq<Option<FetchError>>)
      requires IsValidDateTime(now) && DayNumber(now.date) >= WindowDays && |inputs| == |Robots|
      modifies this, archivist, fetcher, fetcher.ledger
      ensures old(fetcher.ledger.Valid()) ==> fetcher.ledger.Valid()
      ensures deleted == OldFolders(entries, now)
      ensures archivist.lastCleanupTime == if deleted != [] then Some(now) else old(archivist.lastCleanupTime)
      ensures (fetcher.State(), tiles) == FetchAll(old(fetcher.State()), Robots, inputs, decode, now.date)
      ensures |tiles| == |Robots| && forall i :: 0 <= i < |Robots| ==>
        tiles[i] == TileOf(Attempt(inputs[i].reply, decode, inputs[i].saveFailure))
      ensures |errors| == |Robots| && forall i :: 0 <= i < |Robots| ==>
        errors[i] == ErrorOf(Attempt(inputs[i].reply, decode, inputs[i].saveFailure))
      ensures compositeWritten ==>
        && latestImage != null && fresh(latestImage) && latestPath == Some(CombinedPath(now))
        && latestImage.Length0 == 2 * TileSize(Present(tiles)).1 && latestImage.Length1 == 2 * TileSize(Present(tiles)).0
        && forall y, x :: 0 <= y < latestImage.Length0 && 0 <= x < latestImage.Length1 ==>
             latestImage[y, x] == Layered(Present(tiles), SlotCount, TileSize(Present(tiles)).0, TileSize(Present(tiles)).1, x, y)
      ensures !compositeWritten ==> latestImage == old(latestImage) && latestPath == old(latestPath)
    {
      deleted := archivist.DeleteOldFolders(entries, now);
      tiles, errors := FetchRobots(decode, inputs, now.date);
      var canvas := BuildComposite(Present(tiles));
      if compositeWritten {
        latestImage, latestPath := canvas, Some(CombinedPath(now));
      }
    }

    /** The `error_stats` page: every configured robot's 7-day total. */
    method ErrorSnapshot(today: Date) returns (stats: map<string, int>)
      requires IsValid(today) && DayNumber(today) >= WindowDays
      ensures stats.Keys == set r | r in Robots
      ensures forall r :: r in stats ==> stats[r] == WindowTotal(fetcher.ledger.counts, r, Cutoff(today))
    {
      stats := map[];
      var i := 0;
      while i < |Robots|
        invariant 0 <= i <= |Robots|
        invariant stats.Keys == set r | r in Robots[..i]
        invariant forall r :: r in stats ==> stats[r] == WindowTotal(fetcher.ledger.counts, r, Cutoff(today))
      {
        var count := fetcher.ledger.GetErrorCount(Robots[i], today);
        assert Robots[..i + 1] == Robots[..i] + [Robots[i]];
        stats := stats[Robots[i] := count];
        i := i + 1;
      }
      assert Robots[..i] == Robots;
    }
  }
}
