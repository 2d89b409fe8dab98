/** A server as a master over its restarts: what `Recovery` keeps of its files and snapshots is what `Replica` asks of a
    master, and what a lossy restart does to a slave. */
module Lineage {
  import opened Seqs
  import opened Wire
  import opened Messages
  import opened Store
  import opened Snapshot
  import opened Aof
  import opened LogFiles
  import Recovery
  import Replica

  /** What is behind a position, on disk and in memory, is the log from that place on. */
  lemma Behind(c: Codec, s: Recovery.State, p: Pos)
    requires Recovery.Inv(c, s) && Boundary(s.n.files, p) && s.h.base <= Index(s.n.files, p)
    ensures var i := Index(s.n.files, p);
            && i <= |Concat(s.n.files)| && i + s.h.gap <= |s.h.log|
            && Concat(s.n.files)[i..] + s.n.pending == s.h.log[i + s.h.gap..]
  {
    var i, f := Index(s.n.files, p), Recovery.Flushed(s);
    hide Boundary, Index, Replay, Recovery.DumpVals, StateAt, AllAccepted, Concat, Commands, Recovery.SnapshotOk, Recovery.TornOk;
    IndexSuffix(s.n.files, p);
    Recovery.SuffixShift(Concat(s.n.files), s.h.log, s.h.base, s.h.gap, i, f);
    SliceJoin(s.h.log, i + s.h.gap, f, |s.h.log|);
  }

  /** The position `p` is a frame boundary at or before what the database file contains, and the log behind it holds
      everything the file lacks. */
  ghost predicate Covers(c: Codec, s: Recovery.State, p: Pos) {
    && Boundary(s.n.files, p)
    && Index(s.n.files, p) <= |Concat(s.n.files)|
    && Index(s.n.files, p) + s.h.gap <= s.h.seen <= |s.h.log|
    && Recovery.DumpVals(c, s.n.dump) == StateAt(c, s.h.log, s.h.seen)
    && Concat(s.n.files)[Index(s.n.files, p)..] + s.n.pending == s.h.log[Index(s.n.files, p) + s.h.gap..]
  }

  lemma SavedCovers(c: Codec, s: Recovery.State)
    requires Recovery.Inv(c, s)
    ensures Covers(c, s, Recovery.StartPos(s.n.conf))
  {
    hide Boundary, Index, Concat, Replay, AllAccepted, Recovery.DumpVals, StateAt, Recovery.TornOk, Recovery.Settled;
    hide Commands, Recovery.LogOk;
    Behind(c, s, Recovery.StartPos(s.n.conf));
  }

  /** Every position a server grants, in every state it can reach, is one to start from: a partial one exists, and a full
      one is only granted with a database file and covers all that the file lacks. */
  lemma GrantCovers(c: Codec, s: Recovery.State, req: Option<Pos>)
    requires Recovery.Inv(c, s)
    ensures var g := Replica.Psync(OnDisk(s.n.files), s.n.dump.Some?, s.n.conf, req);
            && (g.Part? ==> ValidPos(OnDisk(s.n.files), g.pos))
            && (g.Full? ==> s.n.dump.Some? && Covers(c, s, g.pos))
  {
    SavedCovers(c, s);
    assert s.n.conf.Some? ==> s.n.dump.Some?;
    hide Covers, Recovery.Inv;
  }

  /** As long as no restart has lost a command the server has not also lost from its files, its snapshot and its log are
      what `Replica` asks of a master. */
  lemma ServerSnapshot(c: Codec, s: Recovery.State, sys: Replica.Sys)
    requires Recovery.Inv(c, s) && s.h.gap == 0 && s.h.base == 0
    requires sys.log == s.h.log && sys.files == s.n.files && sys.placed == s.n.conf.Some?
    requires sys.snap == if s.n.dump.None? then None
                         else Some(Replica.Snap(s.n.dump.value, Recovery.StartPos(s.n.conf), s.h.seen))
    ensures Replica.MasterOk(c, sys)
  {
    hide Boundary, Index, Replay, AllAccepted, Concat, Commands, StateAt, Recovery.TornOk;
    assert Concat(s.n.files) == s.h.log[..|Concat(s.n.files)|] by {
      WholeSlice(Concat(s.n.files), s.h.log);
    }
  }

  lemma WholeSlice(files: seq<Frame>, log: seq<Frame>)
    requires |files| <= |log| && files[0..] == log[0..|files|]
    ensures files == log[..|files|]
  {
    assert files[0..] == files;
  }

  // ---- A slave across a restart that lost commands ----

  /** What a slave holds that had the first `base` commands and resumes behind a gap. */
  function Resumed(log: seq<Hset>, base: nat, gap: nat): Vals
    requires base + gap <= |log|
  {
    Replay(Replay(map[], log[..base]), log[base + gap..])
  }

  /** After a restart the position of a slave that was up to date gives it the log from behind the gap on: the commands
      in the gap are in the master's snapshot and in no file. */
  lemma SlaveResumes(c: Codec, s: Recovery.State, p: Pos)
    requires Recovery.Inv(c, s) && Boundary(s.n.files, p) && Index(s.n.files, p) == s.h.base
    ensures s.h.base + s.h.gap <= |s.h.log|
    ensures var behind := Concat(s.n.files)[s.h.base..] + s.n.pending;
            Replay(StateAt(c, s.h.log, s.h.base), Commands(c, behind)) == Resumed(Commands(c, s.h.log), s.h.base, s.h.gap)
  {
    Behind(c, s, p);
    hide Recovery.Inv, Boundary, Index, Replay, Concat, Command;
    var log, k := s.h.log, s.h.base + s.h.gap;
    assert Commands(c, log)[..s.h.base] == Commands(c, log[..s.h.base]);
    assert Commands(c, log)[k..] == Commands(c, log[k..]);
  }

  /** It then ends with the master's store, for every log, if and only if nothing was lost. */
  lemma ResumesExactly(base: nat, gap: nat)
    ensures (forall log: seq<Hset> {:trigger Resumed(log, base, gap)} ::
               base + gap <= |log| && AllAccepted(map[], log) ==> Resumed(log, base, gap) == Replay(map[], log))
            <==> gap == 0
  {
    if gap == 0 {
      forall log: seq<Hset> {:trigger Resumed(log, base, gap)} | base + gap <= |log| && AllAccepted(map[], log)
        ensures Resumed(log, base, gap) == Replay(map[], log)
      {
        assert log == log[..base] + log[base..];
        ReplayConcat(map[], log[..base], log[base..]);
      }
    } else {
      var log := Overwritten(base, base + gap);
      LostWrites(base, gap);
      assert Resumed(log, base, gap) != Replay(map[], log);
    }
  }

  lemma LostWrites(base: nat, gap: nat)
    requires gap > 0
    ensures var log := Overwritten(base, base + gap);
            |log| == base + gap && AllAccepted(map[], log) && Resumed(log, base, gap) != Replay(map[], log)
  {
    var log := Overwritten(base, base + gap);
    var a := At(CELL);
    var types: Types := map[a := INT];
    TypedIsAccepted(types, map[], log);
    TypedIsAccepted(types, map[], log[..base]);
    ReplayIsOverlay(map[], log);
    ReplayIsOverlay(map[], log[..base]);
    LastWrite(log);
    if base > 0 {
      LastWrite(log[..base]);
    }
    assert log[base + gap..] == [];
    ReplayNothing(Replay(map[], log[..base]));
  }
}
