/** The commands: HSET from a client, a batch from the master, PSYNC from a slave. */
module Commands {
  import opened Wire
  import opened Messages
  import opened Store
  import opened Merge
  import opened Aof
  import opened Backlog
  import opened Sharded
  import opened Sender
  import opened Replica

  /** Room left in the 64-bit command counter. */
  predicate Room(incr: nat, n: nat) {
    incr + n < 0x1_0000_0000_0000_0000
  }

  class CommandHset {
    const buckets: Buckets
    const repl: Replication

    constructor (buckets: Buckets, repl: Replication)
      ensures this.buckets == buckets && this.repl == repl
    {
      this.buckets, this.repl := buckets, repl;
    }

    /** Executes a client's frame, and logs it as received exactly if it was accepted. */
    method Exec(c: Codec, worker: nat, rbuf: Frame, env: Env) returns (reply: Reply)
      requires buckets.Valid() && repl.Valid() && worker < repl.workers && Room(repl.commandIncr, 1)
      modifies buckets, repl`repl, repl`commandIncr, repl`fed
      ensures buckets.Valid() && repl.Valid()
      ensures (buckets.View(), reply) == ExecMsg(old(buckets.View()), c.hset(Body(rbuf)), env)
      ensures repl.fed == if reply.Accepted? then old(repl.fed) + [Fed(worker, Entry(old(repl.commandIncr), rbuf))]
                          else old(repl.fed)
    {
      reply := buckets.ExecMsg(c.hset(Body(rbuf)), env);
      if reply.Accepted? {
        repl.BacklogFeedPack(worker, rbuf);
      }
    }
  }

  /** What a slave feeds into its own log for a batch: every command, numbered from `id`. */
  function FedBatch(worker: nat, id: nat, fs: seq<Frame>): seq<Fed>
    requires id + |fs| <= 0x1_0000_0000_0000_0000
    decreases |fs|
  {
    if fs == [] then [] else [Fed(worker, Entry(id, fs[0]))] + FedBatch(worker, id + 1, fs[1..])
  }

  lemma {:induction false} FedBatchAt(worker: nat, id: nat, fs: seq<Frame>)
    requires id + |fs| <= 0x1_0000_0000_0000_0000
    ensures |FedBatch(worker, id, fs)| == |fs| && Frames(FedBatch(worker, id, fs)) == fs
    ensures forall i :: 0 <= i < |fs| ==> FedBatch(worker, id, fs)[i] == Fed(worker, Entry(id + i, fs[i]))
    decreases |fs|
  {
    if fs != [] {
      FedBatchAt(worker, id + 1, fs[1..]);
    }
  }

  class CommandAof {
    const buckets: Buckets
    const repl: Replication

    constructor (buckets: Buckets, repl: Replication)
      ensures this.buckets == buckets && this.repl == repl
    {
      this.buckets, this.repl := buckets, repl;
    }

    /** Applies a batch to the store, logs every command of it again, and then moves the position of the link. */
    method Exec(c: Codec, worker: nat, multi: Multi, env: nat -> Env) returns (crashed: bool)
      requires buckets.Valid() && repl.Valid() && worker < repl.workers && Room(repl.commandIncr, |multi.cmds|)
      modifies buckets, repl`repl, repl`commandIncr, repl`fed, repl`master
      ensures buckets.Valid() && repl.Valid()
      ensures var r := ExecFrames(c, old(buckets.View()), Received(multi.cmds), env);
              && crashed == r.None?
              && (!crashed ==> buckets.View() == r.value)
      ensures !crashed ==> repl.fed == old(repl.fed) + FedBatch(worker, old(repl.commandIncr), Received(multi.cmds))
      ensures repl.master == if crashed then old(repl.master) else Some(multi.stamp)
    {
      hide ExecMsg, Flat, Placed, FedBatch, ExecFrames, Encode, Project, Frames, Increasing, AfterOne;
      hide Buckets.Valid, Replication.Valid;
      ghost var fs := Received(multi.cmds);
      assert fs[0..] == fs;
      for i := 0 to |multi.cmds|
        invariant buckets.Valid() && repl.Valid() && repl.master == old(repl.master)
        invariant repl.commandIncr == old(repl.commandIncr) + i
        invariant ExecFrames(c, buckets.View(), fs[i..], env) == ExecFrames(c, old(buckets.View()), fs, env)
        invariant repl.fed + FedBatch(worker, repl.commandIncr, fs[i..]) ==
                  old(repl.fed) + FedBatch(worker, old(repl.commandIncr), fs)
      {
        var cmd := multi.cmds[i];
        assert fs[i] == Pack(0, cmd.typ, cmd.body);
        BatchStep(c, buckets.View(), fs, i, env, worker, repl.commandIncr, repl.fed);
        crashed := ExecOne(c, worker, cmd, env(|multi.cmds| - i));
        if crashed {
          return;
        }
      }
      BatchEnd(c, buckets.View(), env, worker, repl.commandIncr);
      repl.MoveMaster(multi.stamp);
      crashed := false;
    }

    /** One command of a batch. */
    method ExecOne(c: Codec, worker: nat, cmd: Cmd, env: Env) returns (crashed: bool)
      requires buckets.Valid() && repl.Valid() && worker < repl.workers && Room(repl.commandIncr, 1)
      modifies buckets, repl`repl, repl`commandIncr, repl`fed
      ensures buckets.Valid() && repl.Valid()
      ensures (buckets.View(), crashed) == AfterOne(c, old(buckets.View()), cmd.typ, cmd.body, env)
      ensures !crashed ==>
                && repl.commandIncr == old(repl.commandIncr) + 1
                && repl.fed == old(repl.fed) + [Fed(worker, Entry(old(repl.commandIncr), Pack(0, cmd.typ, cmd.body)))]
    {
      hide ExecMsg, Flat, Placed;
      crashed := false;
      if cmd.typ == CLIENT_HSET {
        var reply := buckets.ExecMsg(c.hset(cmd.body), env);
        if reply.Crash? {
          return true;
        }
      } else if !Registered(cmd.typ) {
        return true;
      }
      repl.BacklogFeed(worker, cmd.body, cmd.typ);
    }
  }

  /** A batch and the next round of the cron: once the commands are in the slave's own log files, the position saved with
      them is the one that came with the batch. */
  method BatchAndFlush(c: Codec, cmd: CommandAof, worker: nat, multi: Multi, env: nat -> Env) returns (crashed: bool)
    requires cmd.buckets.Valid() && cmd.repl.Valid() && worker < cmd.repl.workers
    requires Room(cmd.repl.commandIncr, |multi.cmds|) && cmd.repl.fed == []
    modifies cmd.buckets, cmd.repl, cmd.repl.aof
    ensures cmd.repl.Valid()
    ensures !crashed && multi.cmds != [] ==>
              && cmd.repl.confDisk.masterPos == Some(multi.stamp) && cmd.repl.confDisk.dumpPos == old(cmd.repl.conf.dumpPos)
              && Frames(cmd.repl.merged) == Frames(old(cmd.repl.merged)) + Received(multi.cmds)
  {
    assert cmd.repl.commandIncr + |multi.cmds| < 0x1_0000_0000_0000_0000;
    hide *;
    crashed := cmd.Exec(c, worker, multi, env);
    if !crashed {
      ghost var batch := FedBatch(worker, old(cmd.repl.commandIncr), Received(multi.cmds));
      FedBatchAt(worker, old(cmd.repl.commandIncr), Received(multi.cmds));
      assert [] + batch == batch;
      FramesAdd(cmd.repl.merged, batch);
      cmd.repl.MergeBacklogFeedSlaves();
    }
  }

  lemma FramesAdd(a: seq<Fed>, b: seq<Fed>)
    ensures Frames(a + b) == Frames(a) + Frames(b)
  {
  }

  /** PSYNC on the master: decides how the slave is synchronised, sets the cursor of its link, and starts a snapshot when
      there is a database file but no position to go with it. `req` is what the slave asks for; `storeEmpty` and `forked`
      are what the snapshot meets. */
  method CommandPsync(repl: Replication, link: ReplicaLink, dbExists: bool, req: Option<Pos>, storeEmpty: bool, forked: bool)
    returns (g: Grant)
    requires repl.Valid()
    modifies link, repl`beforeBgsave, repl`dirtyBeforeBgsave
    ensures repl.Valid() && g == Psync(repl.aof.View(), dbExists, repl.conf.dumpPos, req)
    ensures link.replAof == if g.Try? then old(link.replAof) else Some(g.pos)
    ensures repl.beforeBgsave == if g.Try? && !storeEmpty && forked && old(repl.beforeBgsave.None?) then Some(Cur(repl.aof.View()))
                                 else old(repl.beforeBgsave)
  {
    PsyncUnfold(repl.aof, dbExists, repl.conf.dumpPos, req);
    hide *;
    var sync: int;
    if req.None? {
      sync := if dbExists then 2 else 1;
    } else if req.value.file !in repl.aof.files || |repl.aof.files[req.value.file]| < req.value.off {
      sync := 2;
    } else {
      sync := 3;
    }
    if sync == 1 {
      link.replAof := Some(Pos(0, 0));
      g := Part(Pos(0, 0));
    } else if sync == 2 {
      if repl.conf.dumpPos.None? {
        g := Try;
        repl.Bgsave(storeEmpty, forked);
      } else {
        link.replAof := repl.conf.dumpPos;
        g := Full(repl.conf.dumpPos.value);
      }
    } else {
      link.replAof := req;
      g := Part(req.value);
    }
  }

  /** The decision in terms of the files of the directory. */
  lemma PsyncUnfold(aof: RotateFileStream, dbExists: bool, dumpPos: Option<Pos>, req: Option<Pos>)
    requires aof.Valid()
    ensures Psync(aof.View(), dbExists, dumpPos, req) ==
            if req.None? && !dbExists then Part(Pos(0, 0))
            else if req.None? || req.value.file !in aof.files || |aof.files[req.value.file]| < req.value.off then
              if dumpPos.None? then Try else Full(dumpPos.value)
            else Part(req.value)
  {
  }

  /** The store after one command, and whether it crashed. A command of another type of the protocol does nothing. */
  function AfterOne(c: Codec, db: Db, typ: u16, body: bytes, env: Env): (Db, bool) {
    if typ == CLIENT_HSET then
      var (db', reply) := ExecMsg(db, c.hset(body), env); (db', reply.Crash?)
    else (db, !Registered(typ))
  }

  lemma BatchStep(c: Codec, db: Db, fs: seq<Frame>, i: nat, env: nat -> Env, worker: nat, id: nat, fed: seq<Fed>)
    requires i < |fs| && id + |fs| - i <= 0x1_0000_0000_0000_0000
    ensures var (db', crashed) := AfterOne(c, db, Type(fs[i]), Body(fs[i]), env(|fs| - i));
            ExecFrames(c, db, fs[i..], env) == if crashed then None else ExecFrames(c, db', fs[i + 1..], env)
    ensures fed + FedBatch(worker, id, fs[i..]) ==
            (fed + [Fed(worker, Entry(id, fs[i]))]) + FedBatch(worker, id + 1, fs[i + 1..])
    ensures forall typ: u16, body: Payload :: fs[i] == Pack(0, typ, body) ==> Type(fs[i]) == typ && Body(fs[i]) == body
  {
    hide ExecMsg;
    PackUnpack(fs[i]);
    assert fs[i..][0] == fs[i] && fs[i..][1..] == fs[i + 1..];
    forall typ: u16, body: Payload | fs[i] == Pack(0, typ, body)
      ensures Type(fs[i]) == typ && Body(fs[i]) == body
    {
      UnpackPack(0, typ, body);
    }
  }

  lemma BatchEnd(c: Codec, db: Db, env: nat -> Env, worker: nat, id: nat)
    requires id <= 0x1_0000_0000_0000_0000
    ensures ExecFrames(c, db, [], env) == Some(db) && FedBatch(worker, id, []) == []
  {
  }
}
