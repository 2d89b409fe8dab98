/** The merge loop under interleaved feeds, which may share an id: what it makes of the buffers of a half is always a
    batch the cron step of `FeedRuns` allows. */
module MergeRounds {
  import opened Seqs
  import opened Wire
  import opened Merge
  import opened Backlog
  import FeedRuns

  lemma {:induction false} KeptFrom(ops: seq<FeedRuns.Op>, k: nat) returns (i: nat)
    requires k < |FeedRuns.Kept(ops)|
    ensures i < |ops| && ops[i].entry == FeedRuns.Kept(ops)[k]
    decreases |ops|
  {
    var n := |ops| - 1;
    if k < |FeedRuns.Kept(ops[..n])| {
      i := KeptFrom(ops[..n], k);
    } else {
      i := n;
    }
  }

  /** Leaving out records keeps the rest in order. */
  lemma {:induction false} KeptSorted(ops: seq<FeedRuns.Op>)
    requires forall i, j :: 0 <= i < j < |ops| ==> ops[i].entry.id < ops[j].entry.id
    ensures QueueSorted(FeedRuns.Kept(ops))
    decreases |ops|
  {
    if ops != [] {
      var n := |ops| - 1;
      var before := FeedRuns.Kept(ops[..n]);
      KeptSorted(ops[..n]);
      if ops[n].kept {
        forall i | 0 <= i < |before|
          ensures before[i].id <= ops[n].entry.id
        {
          var k := KeptFrom(ops[..n], i);
        }
      }
    }
  }

  /** In every reachable state each buffer of the active half is in id order. */
  lemma ActiveSorted(s: FeedRuns.State, w: nat)
    requires FeedRuns.Inv(s) && w < |s.phase|
    ensures QueueSorted(s.halves[s.pos][w])
  {
    forall i, j | 0 <= i < j < |s.ops[w]|
      ensures s.ops[w][i].entry.id < s.ops[w][j].entry.id
    {
      FeedRuns.RealTime(s, w, i, w, j);
    }
    KeptSorted(s.ops[w]);
    var merged, waiting := Project(s.out, w), s.halves[s.pos][w];
    var all := FeedRuns.Kept(s.ops[w]);
    assert merged + waiting == all;
    hide FeedRuns.Inv, FeedRuns.Kept, Project;
    forall i, j | 0 <= i < j < |waiting|
      ensures waiting[i].id <= waiting[j].id
    {
      assert all[|merged| + i] == waiting[i] && all[|merged| + j] == waiting[j];
    }
  }

  /** One round: from any reachable state, whatever ids overlapping feeds share, merging the bytes of the active half is
      a cron step, and the frames of its batch are what goes into the backlog. */
  method Round(repl: Replication, buckets: seq<bytes>, ghost s: FeedRuns.State) returns (ghost batch: seq<Fed>)
    requires FeedRuns.Inv(s) && |s.phase| == |buckets| == repl.workers
    requires forall w :: 0 <= w < |buckets| ==> buckets[w] == Encode(s.halves[s.pos][w])
    modifies repl`backLog, repl`changes, repl`dirty, repl`masterReplOffset
    ensures FeedRuns.Cron(s, FeedRuns.AfterCron(s, batch), batch) && FeedRuns.Inv(FeedRuns.AfterCron(s, batch))
    ensures repl.backLog == old(repl.backLog) + Concat(Frames(batch))
  {
    hide Encode, Project, FeedRuns.Conserved, FeedRuns.Parity, FeedRuns.Stamped, QueueSorted, Sorted, Interleaves;
    hide Concat, Frames;
    forall w | 0 <= w < |s.phase|
      ensures QueueSorted(s.halves[s.pos][w])
    {
      ActiveSorted(s, w);
    }
    batch := repl.MergeBuckets(buckets, s.halves[s.pos]);
    assert FeedRuns.Cron(s, FeedRuns.AfterCron(s, batch), batch);
    CronKeepsAll(s, batch);
  }

  lemma CronKeepsAll(s: FeedRuns.State, batch: seq<Fed>)
    requires FeedRuns.Inv(s) && FeedRuns.Cron(s, FeedRuns.AfterCron(s, batch), batch)
    ensures FeedRuns.Inv(FeedRuns.AfterCron(s, batch))
  {
    FeedRuns.CronKeeps(s, FeedRuns.AfterCron(s, batch), batch);
    FeedRuns.CronStamped(s, FeedRuns.AfterCron(s, batch), batch);
  }
}
