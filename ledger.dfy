/**
 * The error ledger: robot id -> day key (`%Y-%m-%d`) -> number of error
 * onsets recorded that day, with a 7-day window for reading and pruning.
 * The day keys are plain strings, as in the persisted JSON record; the
 * window and the pruning both compare them with Python's string order
 * against the key written for "today minus 7 days".
 */
module Ledger {
  import opened Text
  import opened Dates

  type DayCounts = map<string, int>
  type Counts = map<string, DayCounts>

  /** How many days back the window reaches. */
  const WindowDays := 7

  /** The count a defaultdict-of-defaultdicts shows for one cell (0 when absent). */
  function Cell(l: Counts, robot: string, day: string): int
  {
    if robot in l && day in l[robot] then l[robot][day] else 0
  }

  /** Every stored count is non-negative. */
  predicate NonNegative(l: Counts)
  {
    forall r, d :: r in l && d in l[r] ==> l[r][d] >= 0
  }

  /** No robot is stored without at least one day. */
  predicate NoEmptyRobots(l: Counts)
  {
    forall r :: r in l ==> l[r] != map[]
  }

  /** The key written for "today minus 7 days", against which keys are compared. */
  function Cutoff(today: Date): (c: string)
    requires IsValid(today) && DayNumber(today) >= WindowDays
    ensures |c| == 10
  {
    FormatIso(DaysEarlier(today, WindowDays))
  }

  // ---------------------------------------------------------------------------
  // Recording an error

  /** `error_counts[robot][day] += 1`, creating the robot and the day at 0 first. */
  function Recorded(l: Counts, robot: string, day: string): (r: Counts)
    ensures r.Keys == l.Keys + {robot}
    ensures robot in r && r[robot].Keys == (if robot in l then l[robot].Keys else {}) + {day}
    ensures forall rb :: rb in l && rb != robot ==> r[rb] == l[rb]
    ensures forall rb, d :: Cell(r, rb, d) == Cell(l, rb, d) + (if rb == robot && d == day then 1 else 0)
  {
    var days := if robot in l then l[robot] else map[];
    l[robot := days[day := (if day in days then days[day] else 0) + 1]]
  }

  lemma RecordedKeepsInvariants(l: Counts, robot: string, day: string)
    ensures NonNegative(l) ==> NonNegative(Recorded(l, robot, day))
    ensures NoEmptyRobots(l) ==> NoEmptyRobots(Recorded(l, robot, day))
  {
    var r := Recorded(l, robot, day);
    if NonNegative(l) {
      forall rb, d | rb in r && d in r[rb] ensures r[rb][d] >= 0 {
        assert Cell(r, rb, d) == r[rb][d];
      }
    }
  }

  // ---------------------------------------------------------------------------
  // Reading the 7-day count

  /** The days of one robot that the window test `day >= cutoff` admits. */
  function WindowKeys(days: DayCounts, cutoff: string): (ks: set<string>)
    ensures ks <= days.Keys
  {
    set d | d in days && AtMost(cutoff, d)
  }

  /** The sum of the counts stored under the keys `ks`, in any order. */
  ghost function SumOver(days: DayCounts, ks: set<string>): int
    requires ks <= days.Keys
    decreases ks
  {
    if ks == {} then 0 else var k :| k in ks; days[k] + SumOver(days, ks - {k})
  }

  /** What `get_error_count(robot)` returns: 0 for an unknown robot, else the sum over the window. */
  ghost function WindowTotal(l: Counts, robot: string, cutoff: string): int
  {
    if robot in l then SumOver(l[robot], WindowKeys(l[robot], cutoff)) else 0
  }

  /** The sum does not depend on which key is taken out first. */
  lemma {:induction false} SumOverRemove(days: DayCounts, ks: set<string>, k: string)
    requires ks <= days.Keys && k in ks
    ensures SumOver(days, ks) == days[k] + SumOver(days, ks - {k})
    decreases ks
  {
    var j :| j in ks && SumOver(days, ks) == days[j] + SumOver(days, ks - {j});
    if j != k {
      SumOverRemove(days, ks - {j}, k);
      SumOverRemove(days, ks - {k}, j);
      assert ks - {j} - {k} == ks - {k} - {j};
    }
  }

  /** Two maps that agree on `ks` have the same sum over `ks`. */
  lemma {:induction false} SumOverAgree(a: DayCounts, b: DayCounts, ks: set<string>)
    requires ks <= a.Keys && ks <= b.Keys
    requires forall k :: k in ks ==> a[k] == b[k]
    ensures SumOver(a, ks) == SumOver(b, ks)
    decreases ks
  {
    if ks != {} {
      var k :| k in ks;
      SumOverRemove(a, ks, k);
      SumOverRemove(b, ks, k);
      SumOverAgree(a, b, ks - {k});
    }
  }

  lemma {:induction false} SumOverNonNegative(days: DayCounts, ks: set<string>)
    requires ks <= days.Keys
    requires forall k :: k in ks ==> days[k] >= 0
    ensures SumOver(days, ks) >= 0
    decreases ks
  {
    if ks != {} {
      var k :| k in ks;
      SumOverRemove(days, ks, k);
      SumOverNonNegative(days, ks - {k});
    }
  }

  /** An unknown robot has no errors; with non-negative counts no total is negative. */
  lemma WindowTotalBasics(l: Counts, robot: string, cutoff: string)
    ensures robot !in l ==> WindowTotal(l, robot, cutoff) == 0
    ensures NonNegative(l) ==> WindowTotal(l, robot, cutoff) >= 0
  {
    if robot in l && NonNegative(l) {
      SumOverNonNegative(l[robot], WindowKeys(l[robot], cutoff));
    }
  }

  /**
   * Recording an error for `robot` on `day` raises that robot's window total
   * by exactly one when `day` is inside the window, and changes no other
   * robot's total.
   */
  lemma RecordedWindowTotal(l: Counts, robot: string, day: string, rb: string, cutoff: string)
    ensures WindowTotal(Recorded(l, robot, day), rb, cutoff)
         == WindowTotal(l, rb, cutoff) + (if rb == robot && AtMost(cutoff, day) then 1 else 0)
  {
    var r := Recorded(l, robot, day);
    if rb != robot {
      if rb in l {
        assert r[rb] == l[rb];
      }
    } else {
      var before := if robot in l then l[robot] else map[];
      var after := r[robot];
      var ko, kn := WindowKeys(before, cutoff), WindowKeys(after, cutoff);
      forall k | k in ko ensures k in after && after[k] == before[k] + (if k == day then 1 else 0) {
        assert Cell(r, robot, k) == Cell(l, robot, k) + (if k == day then 1 else 0);
      }
      assert WindowTotal(l, rb, cutoff) == SumOver(before, ko);
      if AtMost(cutoff, day) {
        assert kn == ko + {day};
        SumOverRemove(after, kn, day);
        assert kn - {day} == ko - {day};
        if day in before {
          SumOverRemove(before, ko, day);
          assert Cell(r, robot, day) == Cell(l, robot, day) + 1;
        } else {
          assert ko - {day} == ko;
          assert Cell(r, robot, day) == 1;
        }
        SumOverAgree(before, after, ko - {day});
      } else {
        assert kn == ko;
        SumOverAgree(before, after, ko);
      }
    }
  }

  /**
   * With the cutoff written for today minus 7 days, a well-formed day key
   * is inside the window exactly when its day is at most 7 days old; in
   * particular today's own key always is.
   */
  lemma WindowIsSevenDays(today: Date, d: Date)
    requires IsValid(today) && DayNumber(today) >= WindowDays && IsValid(d)
    ensures AtMost(Cutoff(today), FormatIso(d)) <==> DayNumber(today) - WindowDays <= DayNumber(d)
    ensures AtMost(Cutoff(today), FormatIso(today))
  {
    IsoWindow(today, WindowDays, d);
    IsoWindow(today, WindowDays, today);
  }

  // ---------------------------------------------------------------------------
  // Pruning

  /** One robot's days with every key `< cutoff` deleted. */
  function KeepRecent(days: DayCounts, cutoff: string): (r: DayCounts)
    ensures forall d :: d in r <==> d in days && !Less(d, cutoff)
    ensures forall d :: d in r ==> r[d] == days[d]
  {
    map d | d in days && !Less(d, cutoff) :: days[d]
  }

  /**
   * `cleanup_old_error_counts`: delete every day key `< cutoff`, then every
   * robot left with no days.
   */
  function Pruned(l: Counts, cutoff: string): (r: Counts)
    ensures r.Keys <= l.Keys
  {
    map rb | rb in l && KeepRecent(l[rb], cutoff) != map[] :: KeepRecent(l[rb], cutoff)
  }

  /**
   * Pruning removes exactly the day keys `< cutoff`, keeps the counts of the
   * others, and removes a robot only when none of its days is left.
   */
  lemma PrunedExactly(l: Counts, cutoff: string, rb: string, d: string)
    ensures (rb in Pruned(l, cutoff) && d in Pruned(l, cutoff)[rb])
        <==> (rb in l && d in l[rb] && !Less(d, cutoff))
    ensures rb in Pruned(l, cutoff) && d in Pruned(l, cutoff)[rb] ==> Pruned(l, cutoff)[rb][d] == l[rb][d]
    ensures rb in l && rb !in Pruned(l, cutoff) ==> forall e :: e in l[rb] ==> Less(e, cutoff)
    ensures rb in Pruned(l, cutoff) ==> Pruned(l, cutoff)[rb] != map[]
  {
    var p := Pruned(l, cutoff);
    if rb in l && rb !in p {
      forall e | e in l[rb] ensures Less(e, cutoff) {
        assert e !in KeepRecent(l[rb], cutoff);
      }
    }
  }

  /** Pruning and the window test are exact complements, so no visible total changes. */
  lemma PrunedWindowTotal(l: Counts, rb: string, cutoff: string)
    ensures WindowTotal(Pruned(l, cutoff), rb, cutoff) == WindowTotal(l, rb, cutoff)
  {
    var p := Pruned(l, cutoff);
    if rb in l {
      var ks := WindowKeys(l[rb], cutoff);
      forall d | d in ks ensures !Less(d, cutoff) {
        Complement(cutoff, d);
      }
      if rb in p {
        var kp := WindowKeys(p[rb], cutoff);
        forall d | d in l[rb] && !Less(d, cutoff) ensures AtMost(cutoff, d) {
          Complement(cutoff, d);
        }
        assert kp == ks;
        SumOverAgree(p[rb], l[rb], ks);
      } else {
        assert ks == {};
      }
    }
  }

  /** Pruning twice with the same cutoff is pruning once. */
  lemma PrunedIdempotent(l: Counts, cutoff: string)
    ensures Pruned(Pruned(l, cutoff), cutoff) == Pruned(l, cutoff)
  {
    var p := Pruned(l, cutoff);
    forall rb | rb in p ensures KeepRecent(p[rb], cutoff) == p[rb] && p[rb] != map[] {
      assert p[rb] == KeepRecent(l[rb], cutoff);
    }
    assert Pruned(p, cutoff) == p;
  }

  /** Pruning leaves no robot without days, and keeps counts non-negative. */
  lemma PrunedKeepsInvariants(l: Counts, cutoff: string)
    ensures NoEmptyRobots(Pruned(l, cutoff))
    ensures NonNegative(l) ==> NonNegative(Pruned(l, cutoff))
  {
    forall rb | rb in Pruned(l, cutoff) ensures Pruned(l, cutoff)[rb] != map[] {
      PrunedExactly(l, cutoff, rb, "");
    }
    if NonNegative(l) {
      PrunedKeepsNonNegative(l, cutoff);
    }
  }

  /** Pruning keeps every count non-negative if it was. */
  lemma PrunedKeepsNonNegative(l: Counts, cutoff: string)
    requires NonNegative(l)
    ensures NonNegative(Pruned(l, cutoff))
  {
    var p := Pruned(l, cutoff);
    forall rb, d | rb in p && d in p[rb] ensures p[rb][d] >= 0 {
      assert p[rb] == KeepRecent(l[rb], cutoff);
    }
  }

  // ---------------------------------------------------------------------------
  // Persistence

  /**
   * `load_error_counts`: write every stored (robot, day, count) of the saved
   * record into the current ledger. A robot saved with no days creates no entry.
   */
  function Merged(current: Counts, saved: Counts): (r: Counts)
    ensures forall rb :: rb in r <==> rb in current || (rb in saved && saved[rb] != map[])
    ensures forall rb, d ::
      Cell(r, rb, d) == (if rb in saved && d in saved[rb] then saved[rb][d] else Cell(current, rb, d))
  {
    map rb | rb in current.Keys + saved.Keys && (rb in current || saved[rb] != map[]) ::
      (if rb in current then current[rb] else map[]) + (if rb in saved then saved[rb] else map[])
  }

  /** Loading never leaves a robot without days, and keeps counts non-negative when the record has none negative. */
  lemma MergedKeepsInvariants(current: Counts, saved: Counts)
    ensures NoEmptyRobots(current) ==> NoEmptyRobots(Merged(current, saved))
    ensures NonNegative(current) && NonNegative(saved) ==> NonNegative(Merged(current, saved))
  {
    var r := Merged(current, saved);
    if NoEmptyRobots(current) {
      forall rb | rb in r ensures r[rb] != map[] {
        if rb in current {
          var d :| d in current[rb];
          assert Cell(r, rb, d) == Cell(current, rb, d) || Cell(r, rb, d) == saved[rb][d];
          assert d in r[rb];
        } else {
          var d :| d in saved[rb];
          assert d in r[rb];
        }
      }
    }
    if NonNegative(current) && NonNegative(saved) {
      forall rb, d | rb in r && d in r[rb] ensures r[rb][d] >= 0 {
        assert Cell(r, rb, d) == r[rb][d];
      }
    }
  }

  /**
   * Saving the ledger and loading the record into a fresh process gives
   * back the same ledger, as long as no robot is stored without days
   * (which recording and pruning both keep true).
   */
  lemma RestartRoundTrip(l: Counts)
    requires NoEmptyRobots(l)
    ensures Merged(map[], l) == l
  {
    var m := Merged(map[], l);
    assert m.Keys == l.Keys;
    forall rb | rb in l ensures m[rb] == l[rb] {
      forall d | d in l[rb] ensures d in m[rb] && m[rb][d] == l[rb][d] {
        assert Cell(m, rb, d) == l[rb][d];
      }
      forall d | d in m[rb] ensures d in l[rb] {
        assert Cell(m, rb, d) == Cell(l, rb, d);
      }
    }
  }

  /** Whatever was saved, a fresh process shows the same 7-day totals after loading it. */
  lemma RestartWindowTotal(l: Counts, rb: string, cutoff: string)
    ensures WindowTotal(Merged(map[], l), rb, cutoff) == WindowTotal(l, rb, cutoff)
  {
    var m := Merged(map[], l);
    if rb in m {
      assert m[rb] == l[rb];
    } else if rb in l {
      assert l[rb] == map[];
      assert WindowKeys(l[rb], cutoff) == {};
    }
  }

  // ---------------------------------------------------------------------------
  // The ledger object the dashboard mutates

  class ErrorLedger {
    var counts: Counts

    /** What every operation keeps: no negative count and no robot without days. */
    ghost predicate Valid()
      reads this
    {
      NonNegative(counts) && NoEmptyRobots(counts)
    }

    constructor ()
      ensures counts == map[] && Valid()
    {
      counts := map[];
    }

    /** `record_error`: bump today's cell of `robot`. */
    method RecordError(robot: string, today: Date)
      requires IsValid(today)
      modifies this
      ensures counts == Recorded(old(counts), robot, FormatIso(today))
      ensures old(Valid()) ==> Valid()
    {
      var day := FormatIso(today);
      var days := if robot in counts then counts[robot] else map[];
      var n := if day in days then days[day] else 0;
      RecordedKeepsInvariants(counts, robot, day);
      counts := counts[robot := days[day := n + 1]];
    }

    /** `get_error_count`: the robot's total over the days `>=` the cutoff. */
    method GetErrorCount(robot: string, today: Date) returns (total: int)
      requires IsValid(today) && DayNumber(today) >= WindowDays
      ensures total == WindowTotal(counts, robot, Cutoff(today))
    {
      total := 0;
      if robot in counts {
        var cutoff := Cutoff(today);
        var days := counts[robot];
        var remaining := days.Keys;
        while remaining != {}
          invariant remaining <= days.Keys
          invariant total == SumOver(days, WindowKeys(days, cutoff) - remaining)
          decreases remaining
        {
          var d :| d in remaining;
          var seen := WindowKeys(days, cutoff) - remaining;
          if AtMost(cutoff, d) {
            total := total + days[d];
            SumOverRemove(days, seen + {d}, d);
            assert seen + {d} - {d} == seen;
            assert WindowKeys(days, cutoff) - (remaining - {d}) == seen + {d};
          } else {
            assert WindowKeys(days, cutoff) - (remaining - {d}) == seen;
          }
          remaining := remaining - {d};
        }
        assert WindowKeys(days, cutoff) - remaining == WindowKeys(days, cutoff);
      }
    }

    /** The inner loop of `cleanup_old_error_counts`: delete `robot`'s days `< cutoff`. */
    method PruneDays(robot: string, cutoff: string)
      requires robot in counts
      modifies this
      ensures counts == old(counts)[robot := KeepRecent(old(counts)[robot], cutoff)]
    {
      ghost var days := counts[robot];
      var dates := counts[robot].Keys;
      while dates != {}
        invariant dates <= days.Keys
        invariant counts.Keys == old(counts).Keys
        invariant forall rb :: rb in counts && rb != robot ==> counts[rb] == old(counts)[rb]
        invariant forall d :: d in counts[robot] <==> d in days && (d in dates || !Less(d, cutoff))
        invariant forall d :: d in counts[robot] ==> counts[robot][d] == days[d]
        decreases dates
      {
        var d :| d in dates;
        if Less(d, cutoff) {
          counts := counts[robot := counts[robot] - {d}];
        }
        dates := dates - {d};
      }
      assert counts[robot] == KeepRecent(days, cutoff);
    }

    /** `cleanup_old_error_counts`: prune every robot's days, then drop robots left empty. */
    method CleanupOldErrorCounts(today: Date)
      requires IsValid(today) && DayNumber(today) >= WindowDays
      modifies this
      ensures counts == Pruned(old(counts), Cutoff(today))
      ensures NoEmptyRobots(counts)
      ensures old(Valid()) ==> Valid()
    {
      var cutoff := Cutoff(today);
      var robots := counts.Keys;
      ghost var target := Pruned(old(counts), cutoff);
      while robots != {}
        invariant robots <= old(counts).Keys
        invariant forall rb :: rb in counts <==> rb in robots || rb in target
        invariant forall rb :: rb in robots ==> counts[rb] == old(counts)[rb]
        invariant forall rb :: rb in counts && rb !in robots ==> counts[rb] == target[rb]
        decreases robots
      {
        var rb :| rb in robots;
        PruneDays(rb, cutoff);
        assert rb in target <==> counts[rb] != map[];
        assert rb in target ==> target[rb] == counts[rb];
        if counts[rb] == map[] {
          counts := counts - {rb};
        }
        robots := robots - {rb};
      }
      assert counts.Keys == target.Keys;
      assert counts == target;
      PrunedKeepsInvariants(old(counts), cutoff);
    }

    /** `save_error_counts`: the record written out is a copy of the ledger. */
    method Save() returns (record: Counts)
      ensures record == counts
      ensures Valid() ==> Merged(map[], record) == counts
    {
      record := counts;
      if Valid() {
        RestartRoundTrip(record);
      }
    }

    /** `load_error_counts`: merge a saved record into the ledger. */
    method Load(record: Counts)
      modifies this
      ensures counts == Merged(old(counts), record)
      ensures old(Valid()) && NonNegative(record) ==> Valid()
      ensures old(NoEmptyRobots(counts)) ==> NoEmptyRobots(counts)
    {
      MergedKeepsInvariants(counts, record);
      counts := Merged(counts, record);
    }
  }
}
