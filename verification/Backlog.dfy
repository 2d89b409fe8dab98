/** The command log of a server: per-worker buffers in a double buffer, the merge that drains them, the flush to
    the append-only files and the bookkeeping of snapshots. */
module Backlog {
  import opened Seqs
  import opened Wire
  import opened Messages
  import opened Merge
  import opened Aof

  // ---- The state of a merge in progress ----

  /** `done[t]` records of worker `t` are merged, `p[t]` is the read cursor in its buffer and `heads` holds, for each
      worker with records left, the id already read in front of its next frame. */
  ghost predicate Merging(
    buckets: seq<bytes>, queues: seq<seq<Entry>>, p: seq<nat>, done: seq<nat>, heads: map<nat, u64>, out: seq<Fed>)
  {
    && |buckets| == |queues| == |p| == |done|
    && (forall t :: 0 <= t < |queues| ==> Cursor(buckets[t], queues[t], p[t], done[t], t, heads))
    && (forall t :: t in heads ==> t < |queues|)
    && (forall x :: x in out ==> x.tid < |queues|)
    && (forall t :: 0 <= t < |queues| ==> Project(out, t) == queues[t][..done[t]])
  }

  ghost predicate Cursor(bucket: bytes, queue: seq<Entry>, p: nat, done: nat, t: nat, heads: map<nat, u64>) {
    && p <= |bucket| && done <= |queue|
    && (t in heads <==> done < |queue|)
    && (t in heads ==> heads[t] == queue[done].id && 8 <= p && bucket[p - 8..] == Encode(queue[done..]))
    && (t !in heads ==> p == |bucket|)
  }

  /** What is out so far is sorted and no larger than anything still waiting. */
  ghost predicate Ordered(queues: seq<seq<Entry>>, heads: map<nat, u64>, out: seq<Fed>) {
    && Sorted(out)
    && (forall x, t :: x in out && t in heads ==> x.entry.id <= heads[t])
    && (forall t :: 0 <= t < |queues| ==> QueueSorted(queues[t]))
  }

  lemma {:induction false} LeastHead(heads: map<nat, u64>) returns (t: nat)
    requires heads != map[]
    ensures t in heads && forall u :: u in heads ==> heads[t] <= heads[u]
    decreases |heads|
  {
    t :| t in heads;
    var rest := heads - {t};
    if rest != map[] {
      var u := LeastHead(rest);
      forall v | v in heads
        ensures heads[if heads[u] < heads[t] then u else t] <= heads[v]
      {
        assert v == t || v in rest;
      }
      if heads[u] < heads[t] {
        t := u;
      }
    } else {
      forall v | v in heads
        ensures v == t
      {
        assert v == t || v in rest;
      }
    }
  }

  lemma EncodeHead(queue: seq<Entry>, done: nat)
    requires done < |queue|
    ensures Encode(queue[done..]) == Le(queue[done].id, 8) + (queue[done].frame + Encode(queue[done + 1..]))
  {
    assert queue[done..][0] == queue[done] && queue[done..][1..] == queue[done + 1..];
    Assoc(Le(queue[done].id, 8), queue[done].frame, Encode(queue[done + 1..]));
  }

  /** Reading one record: its length field delimits the frame, and what follows is the rest of the queue. */
  lemma RecordAt(bucket: bytes, queue: seq<Entry>, p: nat, done: nat)
    requires 8 <= p <= |bucket| && done < |queue|
    requires bucket[p - 8..] == Encode(queue[done..])
    ensures var e := queue[done];
            && p + |e.frame| <= |bucket| && |e.frame| >= 4
            && Un(bucket[p..p + 4]) == |e.frame| && bucket[p..p + |e.frame|] == e.frame
            && bucket[p + |e.frame|..] == Encode(queue[done + 1..])
  {
    var e, rest := queue[done], Encode(queue[done + 1..]);
    EncodeHead(queue, done);
    assert |e.frame| >= 4 && Un(e.frame[..4]) == |e.frame|;
    hide Encode, Un, Le;
    var n, size := |e.frame|, |bucket|;
    SliceOff(bucket, p - 8, size, Le(e.id, 8), e.frame + rest);
    SliceOff(bucket, p, size, e.frame, rest);
    SliceSlice(bucket, p, p + n, 0, 4);
  }

  /** The id in front of the next record. */
  lemma HeadAt(bucket: bytes, queue: seq<Entry>, p: nat, done: nat)
    requires p <= |bucket| && done <= |queue| && bucket[p..] == Encode(queue[done..])
    ensures p < |bucket| <==> done < |queue|
    ensures done < |queue| ==> p + 8 <= |bucket| && Un(bucket[p..p + 8]) == queue[done].id
  {
    if done < |queue| {
      Ranges();
      UnLe(queue[done].id, 8);
      assert queue[done..][0] == queue[done];
      assert bucket[p..p + 8] == bucket[p..][..8] == Le(queue[done].id, 8);
    }
  }

  /** One round of the merge keeps its invariant: the least head goes out and its worker moves on. */
  lemma MergeStep(buckets: seq<bytes>, queues: seq<seq<Entry>>, p: seq<nat>, done: seq<nat>, heads: map<nat, u64>,
                  out: seq<Fed>, t: nat, p': nat, heads': map<nat, u64>)
    requires Merging(buckets, queues, p, done, heads, out) && t in heads
    requires heads' - {t} == heads - {t}
    requires Cursor(buckets[t], queues[t], p', done[t] + 1, t, heads')
    ensures Merging(buckets, queues, p[t := p'], done[t := done[t] + 1], heads', out + [Fed(t, queues[t][done[t]])])
  {
    var x := Fed(t, queues[t][done[t]]);
    OtherHeads(heads, heads', t);
    assert forall u :: 0 <= u < |queues| ==> done[u] <= |queues[u]| by {
      assert forall u :: 0 <= u < |queues| ==> Cursor(buckets[u], queues[u], p[u], done[u], u, heads);
    }
    assert done[t] < |queues[t]|;
    hide Encode, Project, Cursor;
    forall u | 0 <= u < |queues|
      ensures Project(out + [x], u) == queues[u][..if u == t then done[t] + 1 else done[u]]
      ensures u != t ==> Cursor(buckets[u], queues[u], p[u], done[u], u, heads')
    {
      ProjectStep(out, x, u, queues[u], done[u]);
      if u != t {
        OtherCursor(buckets[u], queues[u], p[u], done[u], u, heads, heads');
      }
    }
  }

  lemma ProjectStep(out: seq<Fed>, x: Fed, u: nat, q: seq<Entry>, done: nat)
    requires done <= |q| && Project(out, u) == q[..done]
    requires x.tid == u ==> done < |q| && x.entry == q[done]
    ensures Project(out + [x], u) == q[..if x.tid == u then done + 1 else done]
  {
    ProjectConcat(out, [x], u);
    ProjectOne(x, u);
    hide Project;
  }

  lemma OtherHeads(heads: map<nat, u64>, heads': map<nat, u64>, t: nat)
    requires heads' - {t} == heads - {t}
    ensures forall u :: u != t ==> (u in heads' <==> u in heads)
    ensures forall u :: u != t && u in heads ==> heads'[u] == heads[u]
  {
    forall u | u != t
      ensures u in heads' <==> u in heads
      ensures u in heads ==> heads'[u] == heads[u]
    {
      assert u in heads' <==> u in heads' - {t};
      assert u in heads <==> u in heads - {t};
      if u in heads {
        assert heads'[u] == (heads' - {t})[u] == (heads - {t})[u] == heads[u];
      }
    }
  }

  lemma OtherCursor(b: bytes, q: seq<Entry>, p: nat, done: nat, u: nat, heads: map<nat, u64>, heads': map<nat, u64>)
    requires Cursor(b, q, p, done, u, heads)
    requires (u in heads' <==> u in heads) && (u in heads ==> heads'[u] == heads[u])
    ensures Cursor(b, q, p, done, u, heads')
  {
  }

  /** What the merge reads at the head of worker `t`, and what it finds behind it. */
  lemma MergeNext(buckets: seq<bytes>, queues: seq<seq<Entry>>, p: seq<nat>, done: seq<nat>, heads: map<nat, u64>,
                  out: seq<Fed>, t: nat) returns (x: Fed)
    requires Merging(buckets, queues, p, done, heads, out) && t in heads
    ensures t < |queues| && done[t] < |queues[t]| && x == Fed(t, queues[t][done[t]]) && queues[t][done[t]].id == heads[t]
    ensures var n, b := |x.entry.frame|, buckets[t];
            && p[t] + 4 <= p[t] + n <= |b| && Un(b[p[t]..p[t] + 4]) == n && b[p[t]..p[t] + n] == x.entry.frame
            && b[p[t] + n..] == Encode(queues[t][done[t] + 1..])
            && (p[t] + n < |b| ==>
                  && p[t] + n + 8 <= |b| && done[t] + 1 < |queues[t]|
                  && Un(b[p[t] + n..p[t] + n + 8]) == queues[t][done[t] + 1].id)
    ensures forall d: seq<nat> :: d == done[t := done[t] + 1] ==> Left(queues, d) < Left(queues, done)
    ensures Left(queues, done) >= 0
  {
    hide Encode, Un, Project;
    x := Fed(t, queues[t][done[t]]);
    assert Cursor(buckets[t], queues[t], p[t], done[t], t, heads);
    RecordAt(buckets[t], queues[t], p[t], done[t]);
    HeadAt(buckets[t], queues[t], p[t] + |x.entry.frame|, done[t] + 1);
    forall u | 0 <= u < |queues|
      ensures done[u] <= |queues[u]|
    {
      assert Cursor(buckets[u], queues[u], p[u], done[u], u, heads);
    }
    LeftStep(queues, done, t);
  }

  lemma NextCursor(bucket: bytes, queue: seq<Entry>, p: nat, done: nat, t: nat, heads: map<nat, u64>)
    requires p <= |bucket| && done <= |queue| && bucket[p..] == Encode(queue[done..])
    requires if p < |bucket| then t in heads && done < |queue| && heads[t] == queue[done].id else t !in heads
    ensures Cursor(bucket, queue, if p < |bucket| then p + 8 else p, done, t, heads)
  {
    HeadAt(bucket, queue, p, done);
  }

  lemma MergeStart(buckets: seq<bytes>, queues: seq<seq<Entry>>, p: seq<nat>, heads: map<nat, u64>)
    requires |buckets| == |queues| == |p|
    requires forall t :: 0 <= t < |queues| ==> QueueSorted(queues[t])
    requires forall t :: t in heads ==> t < |queues|
    requires forall t :: 0 <= t < |queues| ==> Cursor(buckets[t], queues[t], p[t], 0, t, heads)
    ensures Merging(buckets, queues, p, seq(|queues|, _ => 0), heads, []) && Ordered(queues, heads, [])
    ensures Concat(Frames([])) == []
  {
    hide Encode, Cursor, QueueSorted;
    assert Frames([]) == [];
  }

  /** Once no head is left everything is out, in order. */
  lemma MergeEnd(buckets: seq<bytes>, queues: seq<seq<Entry>>, p: seq<nat>, done: seq<nat>, out: seq<Fed>)
    requires Merging(buckets, queues, p, done, map[], out) && Ordered(queues, map[], out)
    ensures Interleaves(queues, out) && Sorted(out)
  {
    hide Encode, Project, Sorted, QueueSorted;
    forall t | 0 <= t < |queues|
      ensures Project(out, t) == queues[t]
    {
      assert Cursor(buckets[t], queues[t], p[t], done[t], t, map[]);
      assert queues[t][..|queues[t]|] == queues[t];
    }
  }

  lemma OrderStep(queues: seq<seq<Entry>>, done: nat, heads: map<nat, u64>, out: seq<Fed>, t: nat, heads': map<nat, u64>)
    requires Ordered(queues, heads, out) && t in heads && t < |queues|
    requires forall u :: u in heads ==> heads[t] <= heads[u]
    requires done < |queues[t]| && queues[t][done].id == heads[t]
    requires heads' - {t} == heads - {t}
    requires t in heads' ==> done + 1 < |queues[t]| && heads'[t] == queues[t][done + 1].id
    ensures Ordered(queues, heads', out + [Fed(t, queues[t][done])])
  {
    var x := Fed(t, queues[t][done]);
    var out' := out + [x];
    forall i, j | 0 <= i < j < |out'|
      ensures out'[i].entry.id <= out'[j].entry.id
    {
      if j == |out| {
        assert out'[i] in out;
      }
    }
    forall y, u | y in out' && u in heads'
      ensures y.entry.id <= heads'[u]
    {
      if u == t {
        assert QueueSorted(queues[t]);
        assert y == x || y in out;
      } else {
        assert u in heads' - {t};
        assert u in heads - {t} && heads'[u] == (heads' - {t})[u] == (heads - {t})[u] == heads[u];
        assert y == x || y in out;
      }
    }
  }

  // ---- The server's log ----

  /** The positions in the persisted configuration: of the database file, which recovery starts from, and in the log
      of the master, which a slave resumes from. */
  datatype Conf = Conf(dumpPos: Option<Pos>, masterPos: Option<Pos>)

  /** A slave copies the position of its link before saving. */
  function Saved(conf: Conf, master: Option<Pos>): (r: Conf)
    ensures r.dumpPos == conf.dumpPos
    ensures r.masterPos == if master.Some? then master else conf.masterPos
  {
    if master.Some? then conf.(masterPos := master) else conf
  }

  class Replication {
    const workers: nat
    const aof: RotateFileStream
    /** The double buffer: two halves, each with one buffer per worker. */
    var repl: seq<seq<bytes>>
    var replPos: nat
    var commandIncr: nat
    var backLog: bytes
    var masterReplOffset: nat
    var masterFlushReplOffset: nat
    var changes: nat
    var dirty: int
    var dirtyBeforeBgsave: int
    /** Position recorded when the running snapshot child was forked; `None` when there is no child. */
    var beforeBgsave: Option<Pos>
    var conf: Conf
    /** The configuration as last written to disk. */
    var confDisk: Conf
    /** Position on the link to the master; `None` without such a link. */
    var master: Option<Pos>

    /** Records fed and not yet merged, in feed order. */
    ghost var fed: seq<Fed>
    /** Records merged since the server started, in order, and how many of them before the last round. */
    ghost var merged: seq<Fed>
    ghost var rounds: nat
    /** The log files when this server started. */
    ghost const startLog: bytes

    /** Between two events the backlog is empty, everything counted is flushed, and the log files have grown by exactly
        the merged records. */
    ghost predicate Valid()
      reads this, aof
    {
      && aof.Valid()
      && Buffers()
      && backLog == [] && dirty == 0 && masterReplOffset == masterFlushReplOffset
      && (beforeBgsave.Some? ==> dirtyBeforeBgsave == 0)
      && masterFlushReplOffset == |Concat(Frames(merged))|
      && Concat(aof.View()) == startLog + Concat(Frames(merged))
    }

    /** The active half holds exactly the pending records, each worker's in order; the other half, which the next round
        clears, holds nothing but the records of the last round, which are merged. */
    ghost predicate Buffers()
      reads `repl, `replPos, `fed, `merged, `rounds, `commandIncr
    {
      && |repl| == 2 && replPos < 2 && |repl[0]| == workers && |repl[1]| == workers
      && (forall t :: 0 <= t < workers ==> repl[replPos][t] == Encode(Project(fed, t)))
      && rounds <= |merged|
      && (forall t :: 0 <= t < workers ==> repl[1 - replPos][t] == Encode(Project(merged[rounds..], t)))
      && Increasing(fed)
      && (forall x :: x in fed ==> x.tid < workers && x.entry.id < commandIncr)
    }

    constructor (workers: nat, aof: RotateFileStream, conf: Conf)
      requires aof.Valid()
      ensures Valid() && fed == [] && merged == [] && this.workers == workers && this.aof == aof
      ensures this.conf == conf && confDisk == conf && beforeBgsave == None && commandIncr == 0 && master == None
    {
      this.workers := workers;
      this.aof := aof;
      var empty: seq<bytes> := seq(workers, _ => []);
      repl := [empty, empty];
      replPos, commandIncr := 0, 0;
      backLog, masterReplOffset, masterFlushReplOffset := [], 0, 0;
      changes, dirty, dirtyBeforeBgsave, beforeBgsave := 0, 0, 0, None;
      this.conf, confDisk, master := conf, conf, None;
      fed, merged, rounds := [], [], 0;
      startLog := Concat(aof.View());
      new;
      FramesEmpty([]);
    }

    /** Logs a body as a frame of flag 0: how a slave logs what it received. */
    method BacklogFeed(tid: nat, s: bytes, typ: u16)
      requires Valid() && tid < workers && PACK_HEAD_LEN + |s| < U32_RANGE
      requires commandIncr + 1 < 0x1_0000_0000_0000_0000
      modifies this`repl, this`commandIncr, this`fed
      ensures Valid() && commandIncr == old(commandIncr) + 1 && repl[1 - replPos] == old(repl[1 - replPos])
      ensures fed == old(fed) + [Fed(tid, Entry(old(commandIncr), Pack(0, typ, s)))]
    {
      BacklogFeedPack(tid, Pack(0, typ, s));
    }

    /** Logs a frame as it was received: how a client command is logged. */
    method BacklogFeedPack(tid: nat, pack: Frame)
      requires Valid() && tid < workers
      requires commandIncr + 1 < 0x1_0000_0000_0000_0000
      modifies this`repl, this`commandIncr, this`fed
      ensures Valid() && commandIncr == old(commandIncr) + 1 && repl[1 - replPos] == old(repl[1 - replPos])
      ensures fed == old(fed) + [Fed(tid, Entry(old(commandIncr), pack))]
    {
      hide Encode, Record, Project;
      var commandId := commandIncr;
      commandIncr := commandIncr + 1;
      var half := repl[replPos];
      repl := repl[replPos := half[tid := half[tid] + Le(commandId, 8) + pack]];
      ghost var x := Fed(tid, Entry(commandId, pack));
      fed := fed + [x];
      assert half[tid] + Le(commandId, 8) + pack == half[tid] + Record(x.entry) by {
        RecordBytes(x.entry);
        Assoc(half[tid], Le(commandId, 8), pack);
      }
      forall t | 0 <= t < workers
        ensures repl[replPos][t] == Encode(Project(fed, t))
      {
        ProjectConcat(old(fed), [x], t);
        ProjectOne(x, t);
        EncodeAppend(Project(old(fed), t), x.entry);
        assert Project(fed, t) == if t == tid then Project(old(fed), t) + [x.entry] else Project(old(fed), t);
      }
    }

    /** Adds the bytes of one merged frame to the backlog, one by one. */
    method BacklogFeedBytes(data: bytes)
      modifies this`backLog, this`changes, this`dirty, this`masterReplOffset
      ensures backLog == old(backLog) + data && masterReplOffset == old(masterReplOffset) + |data|
      ensures changes == old(changes) + 1 && dirty == old(dirty) + 1
    {
      changes := changes + 1;
      dirty := dirty + 1;
      masterReplOffset := masterReplOffset + |data|;
      for i := 0 to |data|
        invariant backLog == old(backLog) + data[..i]
        invariant masterReplOffset == old(masterReplOffset) + |data|
        invariant changes == old(changes) + 1 && dirty == old(dirty) + 1
      {
        backLog := backLog + [data[i]];
      }
      assert data[..|data|] == data;
    }

    method BacklogFlush()
      requires aof.Valid()
      modifies this`backLog, this`dirty, this`masterFlushReplOffset, this`conf, this`confDisk, aof
      ensures aof.Valid() && backLog == [] && Concat(aof.View()) == old(Concat(aof.View())) + old(backLog)
      ensures masterFlushReplOffset == old(masterFlushReplOffset) + |old(backLog)|
      ensures old(backLog) == [] ==>
                aof.View() == old(aof.View()) && conf == old(conf) && confDisk == old(confDisk) && dirty == old(dirty)
      ensures old(backLog) != [] ==>
                && aof.View() == Written(old(aof.View()), aof.rotateAofFileSize, old(backLog))
                && confDisk == conf == Saved(old(conf), master) && dirty == 0
    {
      if backLog == [] {
        assert Concat(aof.View()) + backLog == Concat(aof.View());
        return;
      }
      WrittenConcat(aof.View(), aof.rotateAofFileSize, backLog);
      var _ := aof.Write(backLog);
      masterFlushReplOffset := masterFlushReplOffset + |backLog|;
      backLog := [];
      dirty := 0;
      ReplConfFlush();
    }

    /** The link to the master has moved to another position. */
    method MoveMaster(p: Pos)
      requires Valid()
      modifies this`master
      ensures Valid() && master == Some(p)
    {
      master := Some(p);
    }

    /** Saves the configuration, with the position of the link to the master if there is one. */
    method ReplConfFlush()
      modifies this`conf, this`confDisk
      ensures confDisk == conf == Saved(old(conf), master)
      ensures master.Some? ==> conf.masterPos == master
      ensures master.None? ==> conf.masterPos == old(conf.masterPos)
      ensures conf.dumpPos == old(conf.dumpPos)
    {
      if master.Some? {
        conf := conf.(masterPos := master);
      }
      confDisk := conf;
    }

    /** The cron step: the halves are swapped, the drained half is merged by id and the batch is flushed to the log
        files. One call writes every pending command, exactly once and in feed order, without the ids. */
    method MergeBacklogFeedSlaves()
      requires Valid()
      modifies this`repl, this`replPos, this`backLog, this`changes, this`dirty, this`masterReplOffset
      modifies this`masterFlushReplOffset, this`conf, this`confDisk, this`fed, this`merged, this`rounds, aof
      ensures Valid() && fed == [] && merged == old(merged) + old(fed) && rounds == |old(merged)|
      ensures replPos == 1 - old(replPos) && repl[1 - replPos] == old(repl[replPos])
      ensures old(fed) == [] ==>
                aof.View() == old(aof.View()) && conf == old(conf) && confDisk == old(confDisk)
      ensures old(fed) != [] ==>
                && aof.View() == Written(old(aof.View()), aof.rotateAofFileSize, Concat(Frames(old(fed))))
                && confDisk == conf == Saved(old(conf), master)
      ensures masterReplOffset == old(masterReplOffset) + |Concat(Frames(old(fed)))|
    {
      hide Encode, Project, Concat, Frames, Written, Increasing, Saved, Buffers;
      ghost var log, pending := Concat(Frames(merged)), fed;
      SwapAndMerge();
      FramesEmpty(pending);
      Assoc(startLog, log, Concat(Frames(pending)));
      BacklogFlush();
    }

    /** Swaps the halves and merges the drained one into the backlog. */
    method SwapAndMerge()
      requires Buffers() && backLog == []
      modifies this`repl, this`replPos, this`backLog, this`changes, this`dirty, this`masterReplOffset
      modifies this`fed, this`merged, this`rounds
      ensures Buffers() && fed == [] && merged == old(merged) + old(fed) && rounds == |old(merged)|
      ensures replPos == 1 - old(replPos) && repl[1 - replPos] == old(repl[replPos])
      ensures backLog == Concat(Frames(old(fed)))
      ensures Concat(Frames(merged)) == Concat(Frames(old(merged))) + backLog
      ensures masterReplOffset == old(masterReplOffset) + |backLog|
      ensures dirty == old(dirty) + |old(fed)|
    {
      hide Encode, Project, Concat, Frames, Increasing;
      var curPos := replPos;
      var nextPos := 1 - curPos;
      var buckets := repl[curPos];
      repl := repl[nextPos := seq(workers, _ => [])];
      replPos := nextPos;
      ghost var pending := fed;
      ghost var out := MergeBuckets(buckets, QueuesOf(pending, workers));
      MergedInOrder(pending, out, workers);
      assert [] + Concat(Frames(pending)) == Concat(Frames(pending));
      FramesConcat(merged, pending);
      EmptyQueues(workers);
      fed, rounds, merged := [], |merged|, merged + pending;
      assert merged[rounds..] == pending;
    }

    /** The k-way merge loop. Whatever the ids in the queues, as long as each queue is in order, it emits every record
        exactly once, each worker's in its order, and all in non-decreasing id order. */
    method MergeBuckets(buckets: seq<bytes>, ghost queues: seq<seq<Entry>>) returns (ghost out: seq<Fed>)
      requires |buckets| == |queues| == workers
      requires forall t :: 0 <= t < workers ==> buckets[t] == Encode(queues[t]) && QueueSorted(queues[t])
      modifies this`backLog, this`changes, this`dirty, this`masterReplOffset
      ensures Interleaves(queues, out) && Sorted(out) && backLog == old(backLog) + Concat(Frames(out))
      ensures masterReplOffset == old(masterReplOffset) + |Concat(Frames(out))|
      ensures changes == old(changes) + |out| && dirty == old(dirty) + |out|
    {
      hide Encode, Project, Concat, Un, Merging, Ordered, Cursor, Left, Frames, QueueSorted, Sorted, Interleaves;
      var p: seq<nat>, heads := Heads(buckets, queues);
      ghost var done: seq<nat> := seq(workers, _ => 0);
      out := [];
      MergeStart(buckets, queues, p, heads);
      while heads != map[]
        invariant Merging(buckets, queues, p, done, heads, out) && Ordered(queues, heads, out)
        invariant |buckets| == |queues| == |p| == |done|
        invariant backLog == old(backLog) + Concat(Frames(out))
        invariant masterReplOffset == old(masterReplOffset) + |Concat(Frames(out))|
        invariant changes == old(changes) + |out| && dirty == old(dirty) + |out|
        decreases Left(queues, done)
      {
        ghost var least := LeastHead(heads);
        // Sorting the heads and taking the first yields some head of least id.
        var minI :| minI in heads && forall u :: u in heads ==> heads[minI] <= heads[u];
        ghost var x := MergeNext(buckets, queues, p, done, heads, out, minI);
        var pos := p[minI];
        var packSize := Un(buckets[minI][pos..pos + 4]);
        BacklogFeedBytes(buckets[minI][pos..pos + packSize]);
        pos := pos + packSize;
        ghost var unread := pos;
        var rest := heads - {minI};
        if pos < |buckets[minI]| {
          rest := rest[minI := Un(buckets[minI][pos..pos + 8])];
          pos := pos + 8;
        }
        NextCursor(buckets[minI], queues[minI], unread, done[minI] + 1, minI, rest);
        MergeStep(buckets, queues, p, done, heads, out, minI, pos, rest);
        OrderStep(queues, done[minI], heads, out, minI, rest);
        FramesAppend(out, x);
        p, heads := p[minI := pos], rest;
        out, done := out + [x], done[minI := done[minI] + 1];
      }
      MergeEnd(buckets, queues, p, done, out);
    }

    /** The first id of every non-empty buffer. */
    method Heads(buckets: seq<bytes>, ghost queues: seq<seq<Entry>>) returns (p: seq<nat>, heads: map<nat, u64>)
      requires |buckets| == |queues| && forall t :: 0 <= t < |queues| ==> buckets[t] == Encode(queues[t])
      ensures |p| == |buckets| && forall t :: t in heads ==> t < |queues|
      ensures forall t :: 0 <= t < |queues| ==> Cursor(buckets[t], queues[t], p[t], 0, t, heads)
    {
      hide Encode, Un;
      p, heads := seq(|buckets|, _ => 0), map[];
      for j := 0 to |buckets|
        invariant |p| == |buckets| && forall t :: t in heads ==> t < j
        invariant forall t :: j <= t < |buckets| ==> p[t] == 0
        invariant forall t :: 0 <= t < j ==> Cursor(buckets[t], queues[t], p[t], 0, t, heads)
      {
        assert buckets[j][0..] == buckets[j] && queues[j][0..] == queues[j];
        HeadAt(buckets[j], queues[j], 0, 0);
        if |buckets[j]| > 0 && p[j] < |buckets[j]| {
          IdBound(buckets[j][p[j]..p[j] + 8]);
          heads := heads[j := Un(buckets[j][p[j]..p[j] + 8])];
          p := p[j := p[j] + 8];
        }
      }
    }

    /** Forks the snapshot child unless the store is empty or a child is already running, and records the position
        the log files had reached. */
    method Bgsave(storeEmpty: bool, forked: bool)
      requires Valid()
      modifies this`beforeBgsave, this`dirtyBeforeBgsave
      ensures Valid()
      ensures beforeBgsave == if storeEmpty || old(beforeBgsave.Some?) || !forked then old(beforeBgsave)
                              else Some(Cur(aof.View()))
    {
      hide Encode, Project, Concat, Frames, Increasing, Buffers;
      if storeEmpty || beforeBgsave.Some? || !forked {
        return;
      }
      dirtyBeforeBgsave := dirty;
      var curFile := aof.CurRollFile();
      beforeBgsave := Some(curFile);
    }

    /** The child has exited; its dump replaces the database file if the rename succeeds. */
    method OnBgsaveFinish(renamed: bool)
      requires Valid()
      modifies this`beforeBgsave, this`conf, this`dirty
      ensures Valid() && beforeBgsave == None
      ensures conf == if old(beforeBgsave.Some?) && renamed then old(conf).(dumpPos := old(beforeBgsave)) else old(conf)
    {
      hide Encode, Project, Concat, Frames, Increasing, Buffers;
      if beforeBgsave == None {
        return;
      }
      if renamed {
        dirty := dirty - dirtyBeforeBgsave;
        conf := conf.(dumpPos := beforeBgsave);
      }
      beforeBgsave := None;
    }
  }

  // ---- Small facts the merge uses ----

  /** What each worker has pending. */
  function QueuesOf(pending: seq<Fed>, workers: nat): (queues: seq<seq<Entry>>)
    requires Increasing(pending)
    ensures |queues| == workers
    ensures forall t :: 0 <= t < workers ==> queues[t] == Project(pending, t) && QueueSorted(queues[t])
  {
    QueuesSorted(pending, workers);
    seq(workers, t requires 0 <= t < workers => Project(pending, t))
  }

  /** When ids were given in feed order, the merge is the feed order. */
  lemma MergedInOrder(pending: seq<Fed>, out: seq<Fed>, workers: nat)
    requires Increasing(pending) && forall x :: x in pending ==> x.tid < workers
    requires Interleaves(QueuesOf(pending, workers), out) && Sorted(out)
    ensures out == pending
  {
    hide Project, Increasing, Sorted;
    MergeIsFeedOrder(pending, out, workers);
  }

  lemma FramesConcat(a: seq<Fed>, b: seq<Fed>)
    ensures Concat(Frames(a + b)) == Concat(Frames(a)) + Concat(Frames(b))
  {
    assert Frames(a + b) == Frames(a) + Frames(b);
    ConcatAppend(Frames(a), Frames(b));
  }

  lemma RecordBytes(e: Entry)
    ensures Record(e) == Le(e.id, 8) + e.frame
  {
  }

  lemma EmptyQueues(n: nat)
    ensures Increasing([]) && forall t :: 0 <= t < n ==> Encode(Project([], t)) == []
  {
  }

  lemma IdBound(s: bytes)
    requires |s| == 8
    ensures Un(s) < 0x1_0000_0000_0000_0000
  {
    Ranges();
    LeUn(s);
  }

  lemma FramesAppend(s: seq<Fed>, x: Fed)
    ensures Concat(Frames(s + [x])) == Concat(Frames(s)) + x.entry.frame
  {
    assert Frames(s + [x]) == Frames(s) + [x.entry.frame];
    ConcatAppend(Frames(s), [x.entry.frame]);
    ConcatOne(x.entry.frame);
  }

  lemma FramesEmpty(s: seq<Fed>)
    ensures Concat(Frames(s)) == [] <==> s == []
  {
    if s != [] {
      assert Frames(s)[0] == s[0].entry.frame;
    }
  }

  lemma WrittenConcat(d: Dir, rotate: nat, s: bytes)
    ensures Concat(Written(d, rotate, s)) == Concat(d) + s
  {
    SuffixGrows(d, rotate, s, Pos(0, 0));
    assert d == [d[0]] + d[1..] && d[0][0..] == d[0];
    var d' := Written(d, rotate, s);
    assert d' == [d'[0]] + d'[1..] && d'[0][0..] == d'[0];
  }

  lemma {:induction false} QueuesSorted(s: seq<Fed>, n: nat)
    requires Increasing(s)
    ensures forall t :: 0 <= t < n ==> QueueSorted(Project(s, t))
    decreases |s|
  {
    if s != [] {
      QueuesSorted(s[1..], n);
      forall t, i, j | 0 <= t < n && 0 <= i < j < |Project(s, t)|
        ensures Project(s, t)[i].id <= Project(s, t)[j].id
      {
        TailProjects(s, t);
        if s[0].tid == t && i == 0 {
          var k := ProjectFrom(s[1..], t, j - 1);
          assert s[k + 1] == s[1..][k];
        } else {
          assert QueueSorted(Project(s[1..], t));
        }
      }
    }
  }

  /** Records not merged yet. */
  function Left(queues: seq<seq<Entry>>, done: seq<nat>): int
    requires |queues| == |done|
  {
    if queues == [] then 0 else |queues[0]| - done[0] + Left(queues[1..], done[1..])
  }

  lemma {:induction false} LeftStep(queues: seq<seq<Entry>>, done: seq<nat>, t: nat)
    requires |queues| == |done| && t < |queues|
    requires forall u :: 0 <= u < |queues| ==> done[u] <= |queues[u]|
    ensures Left(queues, done[t := done[t] + 1]) == Left(queues, done) - 1
    ensures Left(queues, done) >= 0
  {
    if t > 0 {
      LeftStep(queues[1..], done[1..], t - 1);
      assert done[t := done[t] + 1][1..] == done[1..][t - 1 := done[t] + 1];
    } else {
      assert done[t := done[t] + 1][1..] == done[1..];
      LeftNat(queues[1..], done[1..]);
    }
  }

  lemma {:induction false} LeftNat(queues: seq<seq<Entry>>, done: seq<nat>)
    requires |queues| == |done|
    requires forall u :: 0 <= u < |queues| ==> done[u] <= |queues[u]|
    ensures Left(queues, done) >= 0
  {
    if queues != [] {
      LeftNat(queues[1..], done[1..]);
    }
  }
}
