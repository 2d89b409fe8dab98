/** The master's incremental sender: a `(file, offset)` cursor over the log files, advanced once per timer tick by
    reading a window of at most four chunks and sending the frames found in it as one message. */
module Sender {
  import opened Seqs
  import opened Wire
  import opened Messages
  import opened Buffer
  import opened FrameReader
  import opened Aof
  import opened LogFiles

  const WINDOW: nat := 4 * CHUNK

  type Payload = b: bytes | PACK_HEAD_LEN + |b| < U32_RANGE witness []

  /** A command as it is sent: its type and its body. */
  datatype Cmd = Cmd(typ: u16, body: Payload)

  /** A batch of commands and the position the slave has reached once it has applied them. */
  datatype Multi = Multi(cmds: seq<Cmd>, stamp: Pos)

  /** The body is added to the message as a C string: it ends at its first zero byte. */
  function CString(s: bytes): (r: bytes)
    ensures |r| <= |s|
  {
    if s == [] || s[0] == 0 then [] else [s[0]] + CString(s[1..])
  }

  lemma {:induction false} CStringExact(s: bytes)
    ensures CString(s) == s <==> 0 !in s
  {
    if s != [] {
      CStringExact(s[1..]);
      if s[0] != 0 {
        assert s == [s[0]] + s[1..];
        assert CString(s)[1..] == CString(s[1..]);
      }
    }
  }

  function Sent(fs: seq<Frame>): (cmds: seq<Cmd>)
    ensures |cmds| == |fs|
  {
    seq(|fs|, i requires 0 <= i < |fs| => SentOne(fs[i]))
  }

  function SentOne(f: Frame): Cmd {
    PackUnpack(f);
    Cmd(Type(f), CString(Body(f)))
  }

  /** The chunks one tick reads from what is left of a file: four full ones, or all up to the end of file. */
  function ReadWindow(data: bytes): seq<bytes> {
    if |data| >= WINDOW then
      [data[..CHUNK], data[CHUNK..2 * CHUNK], data[2 * CHUNK..3 * CHUNK], data[3 * CHUNK..WINDOW]]
    else Chunks(data)
  }

  /** `Crashed` is the fault of the frame reader. */
  datatype Tick = Crashed | Ticked(at: Pos, msg: Option<Multi>)

  /** One tick from position `p`. The cursor advances by what was read, not by what was parsed; it moves to the next
      file only if the end of the current one was reached and the next one exists. */
  function SendIncr(d: Dir, p: Pos): Tick {
    if p.file >= |d| then Ticked(p, None)
    else if d[p.file] == [] then Ticked(if p.file + 1 < |d| then Pos(p.file + 1, 0) else p, None)
    else
      var data := From(d[p.file], p.off);
      var r, n := Run(START, ReadWindow(data)), if |data| < WINDOW then |data| else WINDOW;
      var next := if |data| < WINDOW && p.file + 1 < |d| then Pos(p.file + 1, 0) else Pos(p.file, p.off + n);
      if r.fault then Crashed
      else Ticked(next, if n == 0 then None else Some(Multi(Sent(r.out), next)))
  }

  lemma ReadWindowConcat(data: bytes)
    ensures Concat(ReadWindow(data)) == data[..if |data| < WINDOW then |data| else WINDOW]
  {
    if |data| >= WINDOW {
      var a, b, c, d := data[..CHUNK], data[CHUNK..2 * CHUNK], data[2 * CHUNK..3 * CHUNK], data[3 * CHUNK..WINDOW];
      assert ReadWindow(data) == [a] + ([b] + ([c] + [d]));
      ConcatOne(d);
      assert Concat([c] + [d]) == c + d;
      assert Concat([b] + ([c] + [d])) == b + (c + d);
      SliceJoin(data, 2 * CHUNK, 3 * CHUNK, WINDOW);
      SliceJoin(data, CHUNK, 2 * CHUNK, WINDOW);
      SliceJoin(data, 0, CHUNK, WINDOW);
    } else {
      ChunksConcat(data);
    }
  }

  class ReplicaLink {
    /** Log position of this slave; `None` while no file name is set. */
    var replAof: Option<Pos>

    constructor (p: Option<Pos>)
      ensures replAof == p
    {
      replAof := p;
    }

    method OnSendIncrToSlave(d: Dir) returns (msg: Option<Multi>, crashed: bool)
      modifies this
      ensures old(replAof.None?) ==> replAof == None && msg == None && !crashed
      ensures old(replAof.Some?) ==>
                var t := SendIncr(d, old(replAof.value));
                && crashed == t.Crashed?
                && (t.Ticked? ==> replAof == Some(t.at) && msg == t.msg)
    {
      hide Run, Drain, ReadWindow, ChunksToEof, Sent;
      msg, crashed := None, false;
      if replAof.None? || replAof.value.file >= |d| {
        return;
      }
      var p := replAof.value;
      var file := d[p.file];
      if file == [] {
        if p.file + 1 < |d| {
          replAof := Some(Pos(p.file + 1, 0));
        }
        return;
      }
      var out, readed, eof;
      out, readed, eof, crashed := ReadFile(From(file, p.off));
      if crashed {
        return;
      }
      var next := if eof && p.file + 1 < |d| then Pos(p.file + 1, 0) else Pos(p.file, p.off + readed);
      replAof := Some(next);
      if readed > 0 {
        msg := Some(Multi(Sent(out), next));
      }
    }

    /** The loop of a tick: chunks are read until the end of the file or until the window is full. */
    static method ReadFile(data: bytes) returns (out: seq<Frame>, readed: nat, eof: bool, crashed: bool)
      ensures out == Run(START, ReadWindow(data)).out && crashed == Run(START, ReadWindow(data)).fault
      ensures !crashed ==> eof == (|data| < WINDOW) && readed == if |data| < WINDOW then |data| else WINDOW
    {
      hide Run, Drain, ReadWindow, ChunksToEof, Sent, WindowTail, Laid, Overlay;
      var b := new Bytes();
      out, readed, eof, crashed := [], 0, data == [], false;
      WindowTailStart(data);
      while !eof && !crashed && readed < WINDOW
        invariant fresh(b) && b.wpos == |b.buf| == readed <= |data| && b.rpos <= |b.buf|
        invariant readed <= WINDOW && (eof ==> readed == |data| < WINDOW) && (!eof ==> readed % CHUNK == 0)
        invariant Run(START, ReadWindow(data)) ==
                  Run(Reader(b.buf[b.rpos..], out, crashed), WindowTail(data, readed, eof))
        decreases !eof, WINDOW - readed
      {
        var n := if |data| - readed < CHUNK then |data| - readed else CHUNK;
        var chunk := data[readed..readed + n];
        WindowTailStep(data, readed);
        ghost var before, chunks := Reader(b.buf[b.rpos..], out, crashed), WindowTail(data, readed, eof);
        eof := n < CHUNK;
        readed := readed + n;
        ghost var unread := b.buf[b.rpos..];
        b.PutBytes(chunk);
        assert b.buf[b.rpos..] == unread + chunk;
        out, crashed := ReadFrames(b, out);
        RunOne(before, chunks);
      }
      if !crashed {
        WindowTailEnd(data, readed, eof);
      }
      RunDone(Reader(b.buf[b.rpos..], out, crashed), WindowTail(data, readed, eof));
    }
  }

  /** Chunks of a window still to be read once `readed` bytes are. */
  function WindowTail(data: bytes, readed: nat, eof: bool): seq<bytes>
    requires readed <= |data| && (!eof ==> readed % CHUNK == 0)
  {
    if eof || readed >= WINDOW then []
    else if |data| < WINDOW then ChunksToEof(data[readed..])
    else ReadWindow(data)[readed / CHUNK..]
  }

  lemma WindowTailEnd(data: bytes, readed: nat, eof: bool)
    requires readed <= |data| && (eof || (readed >= WINDOW && readed % CHUNK == 0))
    ensures WindowTail(data, readed, eof) == []
  {
  }

  lemma WindowTailStart(data: bytes)
    ensures WindowTail(data, 0, data == []) == ReadWindow(data)
  {
    assert data[0..] == data;
  }

  lemma WindowTailStep(data: bytes, readed: nat)
    requires readed <= |data| && readed % CHUNK == 0 && readed < WINDOW
    ensures var n := if |data| - readed < CHUNK then |data| - readed else CHUNK;
            && WindowTail(data, readed, false) != []
            && WindowTail(data, readed, false)[0] == data[readed..readed + n]
            && WindowTail(data, readed, false)[1..] == WindowTail(data, readed + n, n < CHUNK)
            && (n < CHUNK ==> |data| < WINDOW)
  {
    if |data| < WINDOW {
      var n := if |data| - readed < CHUNK then |data| - readed else CHUNK;
      assert data[readed..][..n] == data[readed..readed + n];
      assert data[readed..][n..] == data[readed + n..];
    } else {
      assert readed == 0 || readed == CHUNK || readed == 2 * CHUNK || readed == 3 * CHUNK;
    }
  }

  lemma RunOne(r: Reader, chunks: seq<bytes>)
    requires chunks != []
    ensures Run(r, chunks) == Run(Drain(r.(rest := r.rest + chunks[0])), chunks[1..])
  {
  }

  lemma RunDone(r: Reader, chunks: seq<bytes>)
    requires r.fault || chunks == []
    ensures Run(r, chunks).out == r.out && Run(r, chunks).fault == r.fault
  {
    if r.fault {
      FaultIsFinal(r, chunks);
    }
  }

  // ---- What a tick covers ----

  /** The frames of the current file from position `p` on. */
  function Rest(files: Files, p: Pos): seq<Frame>
    requires Boundary(files, p)
  {
    files[p.file][Whole(files[p.file], p.off)..]
  }

  /** Number of bytes a tick reads. */
  function Span(rest: seq<Frame>): nat {
    |Concat(ReadWindow(Concat(rest)))|
  }

  /** The window hypothesis: its chunks are aligned and it ends on a frame boundary. */
  ghost predicate WindowOk(files: Files, p: Pos)
    requires Boundary(files, p)
  {
    Aligned(Rest(files, p), 0, ReadWindow(Concat(Rest(files, p)))) && Into(Rest(files, p), Span(Rest(files, p))) == 0
  }

  lemma RestOnDisk(files: Files, p: Pos)
    requires Boundary(files, p)
    ensures From(OnDisk(files)[p.file], p.off) == Concat(Rest(files, p))
    ensures OnDisk(files)[p.file] == [] <==> files[p.file] == []
    ensures Whole(files[p.file], p.off) + |Rest(files, p)| == |files[p.file]|
  {
    WholeSize(files[p.file], p.off);
    if files[p.file] != [] {
      assert |files[p.file][0]| > 0;
    }
  }

  /** Where the cursor stands after a tick that read `n` bytes of this file. */
  lemma CursorIndex(files: Files, p: Pos, n: nat)
    requires Boundary(files, p) && n <= |Concat(Rest(files, p))| && Into(Rest(files, p), n) == 0
    ensures Boundary(files, Pos(p.file, p.off + n))
    ensures Index(files, Pos(p.file, p.off + n)) == Index(files, p) + Whole(Rest(files, p), n)
  {
    RestOnDisk(files, p);
    IntoShift(files[p.file], p.off, n);
  }

  lemma NextFileIndex(files: Files, p: Pos)
    requires Boundary(files, p) && p.file + 1 < |files|
    ensures Boundary(files, Pos(p.file + 1, 0))
    ensures Index(files, Pos(p.file + 1, 0)) == Index(files, p) + |Rest(files, p)|
  {
    RestOnDisk(files, p);
    ConcatTake(files, p.file);
    hide Into, Concat;
    assert Whole(files[p.file + 1], 0) == 0 && Into(files[p.file + 1], 0) == 0;
  }

  /** The bytes a tick reads, and the frames it finds in them. */
  function ReadBy(d: Dir, p: Pos): bytes
    requires ValidPos(d, p)
  {
    Concat(ReadWindow(From(d[p.file], p.off)))
  }

  function Parsed(d: Dir, p: Pos): seq<Frame>
    requires ValidPos(d, p)
  {
    Run(START, ReadWindow(From(d[p.file], p.off))).out
  }

  /** Whatever is in the files, a tick reads exactly what lies between the old and the new cursor, and leaves a file only
      after reading it to its end. */
  lemma TickCovers(d: Dir, p: Pos)
    requires ValidPos(d, p) && SendIncr(d, p).Ticked?
    ensures var q := SendIncr(d, p).at;
            && ValidPos(d, q) && Suffix(d, p) == ReadBy(d, p) + Suffix(d, q)
            && (q.file != p.file ==> q == Pos(p.file + 1, 0) && ReadBy(d, p) == d[p.file][p.off..])
    ensures var t, left := SendIncr(d, p), |d[p.file]| - p.off;
            && |ReadBy(d, p)| == (if left < 16384 then left else 16384)
            && (t.at.file != p.file <==> left < 16384 && p.file + 1 < |d|)
            && (t.at == p <==> left == 0 && p.file == |d| - 1)
            && (t.msg.None? <==> left == 0) && (t.msg.Some? ==> t.msg.value.stamp == t.at)
  {
    var data, q := From(d[p.file], p.off), SendIncr(d, p).at;
    ReadWindowConcat(data);
    hide Run, ReadWindow;
    if q.file != p.file {
      assert d[p.file + 1..] == [d[p.file + 1]] + d[p.file + 2..];
      assert d[p.file + 1][0..] == d[p.file + 1];
    } else {
      assert data == ReadBy(d, p) + d[p.file][q.off..];
    }
  }

  /** What may happen between two ticks. */
  datatype Act = Tick | Grow(e: Event)

  /** Files and cursor after a while, and what was read and written on the way. */
  datatype Walk = Fault | Stands(d: Dir, p: Pos, read: bytes, grown: bytes)

  function Walked(d: Dir, rotate: nat, p: Pos, acts: seq<Act>): Walk
    requires ValidPos(d, p)
    decreases |acts|
  {
    if acts == [] then Stands(d, p, [], [])
    else
      match acts[0]
      case Grow(e) =>
        SuffixStep(d, rotate, e, p);
        var w := Walked(Step(d, rotate, e), rotate, p, acts[1..]);
        if w.Fault? then Fault else w.(grown := Adds(e) + w.grown)
      case Tick =>
        var t := SendIncr(d, p);
        if t.Crashed? then Fault
        else
          TickCovers(d, p);
          var w := Walked(d, rotate, t.at, acts[1..]);
          if w.Fault? then Fault else w.(read := ReadBy(d, p) + w.read)
  }

  /** Main result on the cursor, without any hypothesis on frames: over every sequence of ticks, batches, rotations and
      restarts of the log, what the ticks read concatenates to the log from the granted position, with nothing left out
      and nothing read twice; what is not read yet lies behind the cursor. */
  lemma {:induction false} WalkCovers(d: Dir, rotate: nat, p: Pos, acts: seq<Act>)
    requires ValidPos(d, p) && Walked(d, rotate, p, acts).Stands?
    ensures var w := Walked(d, rotate, p, acts);
            ValidPos(w.d, w.p) && Suffix(d, p) + w.grown == w.read + Suffix(w.d, w.p)
    decreases |acts|
  {
    hide SendIncr, Suffix, ValidPos, ReadBy, Step, Adds;
    var w := Walked(d, rotate, p, acts);
    if acts == [] {
      assert Suffix(d, p) + [] == [] + Suffix(d, p);
    } else {
      match acts[0] {
        case Grow(e) =>
          SuffixStep(d, rotate, e, p);
          WalkCovers(Step(d, rotate, e), rotate, p, acts[1..]);
          Assoc(Suffix(d, p), Adds(e), Walked(Step(d, rotate, e), rotate, p, acts[1..]).grown);
        case Tick =>
          TickCovers(d, p);
          var q := SendIncr(d, p).at;
          WalkCovers(d, rotate, q, acts[1..]);
          var later := Walked(d, rotate, q, acts[1..]);
          Assoc(ReadBy(d, p), Suffix(d, q), later.grown);
          Assoc(ReadBy(d, p), later.read, Suffix(w.d, w.p));
      }
    }
  }

  function Ticks(n: nat): (acts: seq<Act>)
    ensures |acts| == n && (n > 0 ==> acts[0] == Act.Tick && acts[1..] == Ticks(n - 1))
  {
    if n == 0 then [] else [Act.Tick] + Ticks(n - 1)
  }

  lemma {:induction false} StaysAtEnd(d: Dir, n: nat)
    ensures var w := Walked(d, 0, Cur(d), Ticks(n)); w.Stands? ==> w.p == Cur(d) && w.read == []
    decreases n
  {
    if n > 0 && SendIncr(d, Cur(d)).Ticked? {
      TickCovers(d, Cur(d));
      StaysAtEnd(d, n - 1);
    }
  }

  /** What is left to read and to pass over. */
  function Ahead(d: Dir, p: Pos): nat
    requires ValidPos(d, p)
  {
    |Suffix(d, p)| + |d| - p.file
  }

  lemma TickAdvances(d: Dir, p: Pos)
    requires ValidPos(d, p) && SendIncr(d, p).Ticked?
    ensures var q := SendIncr(d, p).at;
            && ValidPos(d, q) && Suffix(d, p) == ReadBy(d, p) + Suffix(d, q)
            && (if q == p then p == Cur(d) && Suffix(d, p) == [] else Ahead(d, q) < Ahead(d, p))
  {
    TickCovers(d, p);
    NothingAfter(d);
    hide SendIncr, ReadBy, Suffix;
  }

  /** Left alone, the cursor gets to the end of the log: every tick passes over bytes or leaves a file. */
  lemma {:induction false} CatchesUp(d: Dir, p: Pos, n: nat)
    requires ValidPos(d, p) && n >= Ahead(d, p)
    ensures var w := Walked(d, 0, p, Ticks(n)); w.Stands? ==> w.p == Cur(d) && w.read == Suffix(d, p)
    decreases n
  {
    hide SendIncr, ReadBy, Suffix;
    if SendIncr(d, p).Ticked? {
      TickAdvances(d, p);
      if SendIncr(d, p).at == p {
        StaysAtEnd(d, n);
      } else {
        hide Ahead, ValidPos, Cur;
        CatchesUp(d, SendIncr(d, p).at, n - 1);
      }
    }
  }

  /** Exactly when a tick is lossless: under the window hypothesis it sends precisely the commands between the old
      and the new cursor, stamps the message with the new one, and the new one is again a frame boundary. Otherwise it
      crashes, or sends fewer bytes of frames than the cursor passes over, and what it did not send lies before the
      cursor and is never read again. */
  lemma TickExact(files: Files, p: Pos)
    requires Boundary(files, p)
    ensures var t, w := SendIncr(OnDisk(files), p), Whole(Rest(files, p), Span(Rest(files, p)));
            WindowOk(files, p) ==>
              && t.Ticked? && Boundary(files, t.at) && Index(files, t.at) == Index(files, p) + w <= |Concat(files)|
              && (t.msg.None? ==> w == 0)
              && (t.msg.Some? ==>
                    t.msg.value == Multi(Sent(Concat(files)[Index(files, p)..Index(files, p) + w]), t.at))
    ensures var d := OnDisk(files);
            WindowOk(files, p) <==> SendIncr(d, p).Ticked? && |Concat(Parsed(d, p))| == |ReadBy(d, p)|
    ensures var d := OnDisk(files);
            var t := SendIncr(d, p);
            !WindowOk(files, p) && t.Ticked? ==>
              && t.msg == Some(Multi(Sent(Parsed(d, p)), t.at)) && |Concat(Parsed(d, p))| < |ReadBy(d, p)|
              && ValidPos(d, t.at) && Suffix(d, p) == ReadBy(d, p) + Suffix(d, t.at)
  {
    var rest, d := Rest(files, p), OnDisk(files);
    RestOnDisk(files, p);
    assert WindowOk(files, p) <==> |Concat(Parsed(d, p))| == Span(rest) by {
      ReadWindowConcat(Concat(rest));
      ChunkedReadExact(rest, ReadWindow(Concat(rest)));
    }
    WindowWeight(rest);
    if WindowOk(files, p) {
      hide SendIncr, Boundary, Index, WindowOk, Rest, Sent, Run;
      TickMoves(files, p);
      TickUnfold(files, p);
    } else if SendIncr(d, p).Ticked? {
      TickCovers(d, p);
      TickSends(d, p);
    }
  }

  lemma TickSends(d: Dir, p: Pos)
    requires ValidPos(d, p) && SendIncr(d, p).Ticked? && ReadBy(d, p) != []
    ensures SendIncr(d, p).msg == Some(Multi(Sent(Parsed(d, p)), SendIncr(d, p).at))
  {
    ReadWindowConcat(From(d[p.file], p.off));
    hide Run, ReadWindow;
  }

  /** Where a lossless tick goes, and what lies between. */
  lemma TickMoves(files: Files, p: Pos)
    requires Boundary(files, p) && WindowOk(files, p)
    ensures var rest := Rest(files, p);
            var n := Span(rest);
            var w := Whole(rest, n);
            var next := if |Concat(rest)| < WINDOW && p.file + 1 < |files| then Pos(p.file + 1, 0) else Pos(p.file, p.off + n);
            && Boundary(files, next) && Index(files, next) == Index(files, p) + w <= |Concat(files)|
            && (n == 0 ==> w == 0)
            && Concat(files)[Index(files, p)..Index(files, p) + w] == rest[..w]
  {
    var rest := Rest(files, p);
    var n := Span(rest);
    ReadWindowConcat(Concat(rest));
    assert n == if |Concat(rest)| < WINDOW then |Concat(rest)| else WINDOW;
    hide Boundary, Index, Into, Run, ReadWindow, Whole, Concat, Span, Aligned, Rest;
    TickRange(files, p, Whole(rest, n));
    CursorIndex(files, p, n);
    if p.file + 1 < |files| {
      NextFileIndex(files, p);
    }
    WholeEnd(rest);
  }

  /** The next `w` frames of the current file are the next `w` frames of the log. */
  lemma TickRange(files: Files, p: Pos, w: nat)
    requires Boundary(files, p) && w <= |Rest(files, p)|
    ensures Index(files, p) + w <= |Concat(files)|
    ensures Concat(files)[Index(files, p)..Index(files, p) + w] == Rest(files, p)[..w]
  {
    var i, later := Index(files, p), Concat(files[p.file + 1..]);
    hide Boundary, Index, Into, Whole, Concat;
    IndexSuffix(files, p);
    assert (Rest(files, p) + later)[..w] == Rest(files, p)[..w];
    SliceSlice(Concat(files), i, |Concat(files)|, 0, w);
  }

  lemma WholeEnd(rest: seq<Frame>)
    ensures Whole(rest, |Concat(rest)|) == |rest| && Whole(rest, 0) == 0
  {
    IntoEnd(rest);
  }

  lemma WindowWeight(rest: seq<Frame>)
    ensures |Concat(Run(START, ReadWindow(Concat(rest))).out)| <= Span(rest)
  {
    RunWeight(START, ReadWindow(Concat(rest)));
  }

  lemma TickUnfold(files: Files, p: Pos)
    requires Boundary(files, p) && WindowOk(files, p)
    ensures var rest, last := Rest(files, p), p.file + 1 >= |files|;
            var n := Span(rest);
            var next := if |Concat(rest)| < WINDOW && !last then Pos(p.file + 1, 0) else Pos(p.file, p.off + n);
            SendIncr(OnDisk(files), p) ==
            Ticked(next, if n == 0 then None else Some(Multi(Sent(rest[..Whole(rest, n)]), next)))
  {
    var rest := Rest(files, p);
    ReadWindowConcat(Concat(rest));
    RestOnDisk(files, p);
    ChunkedReadExact(rest, ReadWindow(Concat(rest)));
    hide Drain, Into, ReadWindow;
  }
}
