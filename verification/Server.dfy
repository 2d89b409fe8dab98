/** The objects of a running server and the steps of `Recovery`: what the methods do to the objects is what the runs of
    that module are made of. */
module Server {
  import opened Seqs
  import opened Wire
  import opened Messages
  import opened Store
  import opened Snapshot
  import opened Aof
  import opened FrameReader
  import opened LogFiles
  import opened Merge
  import opened Backlog
  import opened Sharded
  import opened Commands
  import Recovery

  /** The objects are in the state `s`. Torn pieces are only in files that are not written any more. */
  ghost predicate Runs(repl: Replication, buckets: Buckets, s: Recovery.State)
    reads repl, repl.aof, buckets
  {
    && repl.Valid() && buckets.Valid()
    && buckets.View() == s.n.db && Frames(repl.fed) == s.n.pending
    && (forall i :: i in s.n.torn ==> i < |s.n.files| - 1)
    && repl.aof.View() == Recovery.Disk(s.n.files, s.n.torn)
    && repl.conf.dumpPos == s.n.conf && repl.confDisk.dumpPos == s.n.confDisk
    && repl.beforeBgsave == if s.n.child.None? then None else Some(s.n.child.value.pos)
  }

  /** Writing frames to the files and their bytes to the disk. */
  lemma DiskWritten(files: Files, torn: map<nat, bytes>, rotate: nat, batch: seq<Frame>)
    requires forall i :: i in torn ==> i < |files| - 1
    ensures Recovery.Disk(WriteFrames(files, rotate, batch), torn) == Written(Recovery.Disk(files, torn), rotate, Concat(batch))
  {
    var d, last := Recovery.Disk(files, torn), |files| - 1;
    ConcatAppend(files[last], batch);
    hide Concat;
    assert d[last] == Concat(files[last]) + [] == Concat(files[last]);
    assert Concat(batch) + [] == Concat(batch);
    if |d[last]| >= rotate {
      assert Recovery.Disk(files + [batch], torn) == d + [Concat(batch)];
    } else {
      assert Concat(files[last]) + Concat(batch) + [] == Concat(files[last]) + Concat(batch);
      assert Recovery.Disk(files[last := files[last] + batch], torn) == d[last := d[last] + Concat(batch)];
    }
  }

  lemma DiskCur(files: Files, torn: map<nat, bytes>)
    requires forall i :: i in torn ==> i < |files| - 1
    ensures Cur(Recovery.Disk(files, torn)) == CurPos(files)
  {
    var last := |files| - 1;
    assert Recovery.Disk(files, torn)[last] == Concat(files[last]) + [] == OnDisk(files)[last];
  }

  lemma FramesPush(a: seq<Fed>, x: Fed)
    ensures Frames(a + [x]) == Frames(a) + [x.entry.frame]
  {
  }

  /** A client command. */
  method Exec(c: Codec, cmd: CommandHset, worker: nat, f: Frame, env: Env, ghost s: Recovery.State)
    returns (reply: Reply, ghost s': Recovery.State)
    requires Runs(cmd.repl, cmd.buckets, s) && Type(f) == CLIENT_HSET
    requires worker < cmd.repl.workers && Room(cmd.repl.commandIncr, 1)
    modifies cmd.buckets, cmd.repl
    ensures !reply.Crash? ==> Recovery.Exec(c, s, s', f, env) && Runs(cmd.repl, cmd.buckets, s')
  {
    hide ExecMsg, Frames, Flat, Placed, Recovery.Disk, Buckets.Valid, Replication.Valid;
    ghost var fed := cmd.repl.fed;
    reply := cmd.Exec(c, worker, f, env);
    s' := s.(n := s.n.(db := cmd.buckets.View()));
    if reply.Accepted? {
      s' := State(s'.n.(pending := s.n.pending + [f]), s.h.(log := s.h.log + [f]));
      FramesPush(fed, cmd.repl.fed[|fed|]);
    }
  }

  function State(n: Recovery.Node, h: Recovery.History): Recovery.State {
    Recovery.State.State(n, h)
  }

  /** The cron: one step that writes, and with a batch one that saves the configuration. */
  method Cron(repl: Replication, buckets: Buckets, ghost s: Recovery.State)
    returns (ghost written: Recovery.State, ghost saved: Recovery.State)
    requires Runs(repl, buckets, s)
    modifies repl, repl.aof
    ensures Recovery.Cron(repl.aof.rotateAofFileSize, s, written) && Runs(repl, buckets, saved)
    ensures if s.n.pending == [] then saved == written == s else Recovery.SaveConf(written, saved)
  {
    var rotate := repl.aof.rotateAofFileSize;
    DiskWritten(s.n.files, s.n.torn, rotate, s.n.pending);
    assert repl.fed == [] <==> s.n.pending == [];
    repl.MergeBacklogFeedSlaves();
    if s.n.pending == [] {
      written, saved := s, s;
    } else {
      var k := |s.n.pending|;
      assert s.n.pending[..k] == s.n.pending && s.n.pending[k..] == [];
      written := s.(n := Recovery.Wrote(s.n, rotate, k));
      saved := written.(n := written.n.(confDisk := written.n.conf));
    }
  }

  /** The fork of a snapshot child, which will write the keys in the given order; nothing happens if the store has no key,
      a child is running or the fork fails. */
  method Fork(c: Codec, repl: Replication, buckets: Buckets, forked: bool, ghost keys: seq<bytes>, ghost s: Recovery.State)
    returns (size: nat, ghost s': Recovery.State)
    requires Runs(repl, buckets, s) && c.Lossless() && Enumerates(keys, s.n.db) && AllFit(c, s.n.db, keys)
    modifies repl
    ensures Runs(repl, buckets, s')
    ensures if forked && s.n.child.None? && size > 0 then Recovery.Fork(c, s, s', keys) else s' == s
    ensures size == 0 ==> s.n.db == map[]
  {
    hide Dump, AllFit, Enumerates, KeysOf, Recovery.Disk, CurPos, Cur, Frames, Buckets.Valid, Replication.Valid;
    hide Flat, Placed, RotateFileStream.Valid, Contiguous, ToSeq;
    size := buckets.Size();
    DiskCur(s.n.files, s.n.torn);
    repl.Bgsave(size == 0, forked);
    s' := s;
    if forked && s.n.child.None? && size > 0 {
      var child := Recovery.Child(Dump(c, s.n.db, keys), CurPos(s.n.files));
      s' := State(s.n.(child := Some(child)), s.h.(childSeen := |s.h.log|));
    }
  }

  /** The child is done. */
  method Finish(repl: Replication, buckets: Buckets, renamed: bool, ghost s: Recovery.State)
    returns (ghost s': Recovery.State)
    requires Runs(repl, buckets, s)
    modifies repl
    ensures Runs(repl, buckets, s')
    ensures if s.n.child.Some? then Recovery.Finish(s, s', renamed) else s' == s
  {
    repl.OnBgsaveFinish(renamed);
    s' := s;
    if s.n.child.Some? {
      s' := if renamed then
              State(s.n.(dump := Some(s.n.child.value.dump), conf := Some(s.n.child.value.pos), child := None),
                    s.h.(seen := s.h.childSeen))
            else State(s.n.(child := None), s.h);
    }
  }

  /** The configuration timer. */
  method SaveConf(repl: Replication, buckets: Buckets, ghost s: Recovery.State) returns (ghost s': Recovery.State)
    requires Runs(repl, buckets, s)
    modifies repl
    ensures Runs(repl, buckets, s') && Recovery.SaveConf(s, s')
  {
    repl.ReplConfFlush();
    s' := s.(n := s.n.(confDisk := s.n.conf));
  }

  // ---- Start-up ----

  /** Loads the database file, if there is one, into an empty store. */
  method LoadDatabase(c: Codec, file: Option<bytes>, ghost dump: Option<seq<Frame>>) returns (buckets: Buckets, crashed: bool)
    requires file == (if dump.None? then None else Some(Concat(dump.value))) && (file.Some? ==> |file.value| < U32_RANGE)
    ensures fresh(buckets) && buckets.Valid() && crashed == Recovery.LoadDump(c, dump).None?
    ensures !crashed ==> buckets.View() == Recovery.LoadDump(c, dump).value
  {
    hide Parse, Load, Buckets.Valid;
    crashed := false;
    buckets := new Buckets();
    if file.Some? {
      var out;
      out, crashed := LoadFile(file.value, 0);
      if !crashed {
        assert out[0..] == out;
        for i := 0 to |out|
          invariant fresh(buckets) && buckets.Valid() && ParseAll(c, buckets.View(), out[i..]) == ParseAll(c, map[], out)
        {
          assert out[i..][0] == out[i] && out[i..][1..] == out[i + 1..];
          buckets.Parse(c, out[i]);
        }
      }
    }
  }

  /** Executes logged frames. */
  method ExecAll(c: Codec, buckets: Buckets, fs: seq<Frame>, env: nat -> Env) returns (crashed: bool)
    requires buckets.Valid()
    modifies buckets
    ensures buckets.Valid() && crashed == ExecFrames(c, old(buckets.View()), fs, env).None?
    ensures !crashed ==> buckets.View() == ExecFrames(c, old(buckets.View()), fs, env).value
  {
    hide ExecMsg, Buckets.Valid;
    crashed := false;
    assert fs[0..] == fs;
    for i := 0 to |fs|
      invariant buckets.Valid() && ExecFrames(c, buckets.View(), fs[i..], env) == ExecFrames(c, old(buckets.View()), fs, env)
    {
      assert fs[i..][0] == fs[i] && fs[i..][1..] == fs[i + 1..];
      if Type(fs[i]) == CLIENT_HSET {
        var reply := buckets.ExecMsg(c.hset(Body(fs[i])), env(|fs| - i));
        if reply.Crash? {
          return true;
        }
      } else if !Registered(Type(fs[i])) {
        return true;
      }
    }
  }

  /** Replays the log files from file `i` on, the first from an offset. */
  method ReplayLog(c: Codec, buckets: Buckets, d: seq<bytes>, i: nat, off: nat, env: nat -> Env) returns (crashed: bool)
    requires buckets.Valid() && forall f :: f in d ==> |f| < U32_RANGE
    modifies buckets
    ensures buckets.Valid() && crashed == Recovery.ReplayFiles(c, old(buckets.View()), d, i, off, env).None?
    ensures !crashed ==> buckets.View() == Recovery.ReplayFiles(c, old(buckets.View()), d, i, off, env).value
  {
    hide ExecFrames, Load, Buckets.Valid;
    crashed := false;
    var k, from := i, off;
    while k < |d|
      invariant buckets.Valid()
      invariant Recovery.ReplayFiles(c, buckets.View(), d, k, from, env) ==
                Recovery.ReplayFiles(c, old(buckets.View()), d, i, off, env)
    {
      assert d[k] in d;
      var out;
      out, crashed := LoadFile(d[k], from);
      if crashed {
        return;
      }
      crashed := ExecAll(c, buckets, out, env);
      if crashed {
        return;
      }
      k, from := k + 1, 0;
    }
  }

  /** What a starting server makes of its disk: the database file, then the log files from the saved position on. */
  method Init(c: Codec, file: Option<bytes>, d: seq<bytes>, conf: Conf, env: nat -> Env, ghost n: Recovery.Node)
    returns (buckets: Buckets, crashed: bool)
    requires file == (if n.dump.None? then None else Some(Concat(n.dump.value))) && (file.Some? ==> |file.value| < U32_RANGE)
    requires d == Recovery.Disk(n.files, n.torn) && conf.dumpPos == n.confDisk && forall f :: f in d ==> |f| < U32_RANGE
    ensures fresh(buckets) && buckets.Valid() && crashed == Recovery.Recover(c, n, env).None?
    ensures !crashed ==> buckets.View() == Recovery.Recover(c, n, env).value
  {
    hide Recovery.LoadDump, Recovery.ReplayFiles, Recovery.Disk, Buckets.Valid;
    buckets, crashed := LoadDatabase(c, file, n.dump);
    if !crashed {
      var from := if conf.dumpPos.None? then Pos(0, 0) else conf.dumpPos.value;
      crashed := ReplayLog(c, buckets, d, from.file, from.off, env);
    }
  }

  /** The objects of a restarted server. The store is what recovery rebuilds; a new log file is opened. */
  method Restart(workers: nat, buckets: Buckets, files: map<nat, bytes>, rotate: nat, conf: Conf,
                 ghost s: Recovery.State, ghost s': Recovery.State, c: Codec, ghost env: nat -> Env)
    returns (repl: Replication)
    requires Recovery.Restart(c, s, s', env) && Recovery.TornOk(s.n.torn, |s.n.files|)
    requires Contiguous(files, |s.n.files|) && ToSeq(files, |s.n.files|) == Recovery.Disk(s.n.files, s.n.torn)
    requires conf.dumpPos == s.n.confDisk && buckets.Valid() && buckets.View() == s'.n.db
    ensures fresh(repl) && fresh(repl.aof) && Runs(repl, buckets, s')
  {
    var aof := new RotateFileStream(files, rotate);
    repl := new Replication(workers, aof, conf);
    DiskReopened(s.n.files, s.n.torn);
  }

  lemma DiskReopened(files: Files, torn: map<nat, bytes>)
    requires Recovery.TornOk(torn, |files|)
    ensures Recovery.Disk(files + [[]], torn) == Recovery.Disk(files, torn) + [[]]
  {
    assert Recovery.Disk(files + [[]], torn)[|files|] == Concat<byte>([]) + [] == [];
  }
}
