/** `File::loadFile`: frames are parsed out of a file read in chunks of 4096 bytes.

    On an incomplete frame the reader has already consumed the four length bytes and does not give
    them back, so it is correct only for some chunk schedules. This module says exactly which. */
module FrameReader {
  import opened Seqs
  import opened Wire
  import opened Buffer

  const CHUNK: nat := 4096

  /** Bytes buffered and not yet consumed, frames delivered so far, and whether a length field of 4 to 7 made
      the body size wrap around (the program then reserves a 4 GiB stack array). */
  datatype Reader = Reader(rest: bytes, out: seq<Frame>, fault: bool)

  const START := Reader([], [], false)

  function FrameAt(s: bytes): (f: Frame)
    requires 4 <= |s| && PACK_HEAD_LEN <= Un(s[..4]) <= |s|
    ensures f == s[..Un(s[..4])]
  {
    assert s[..Un(s[..4])][..4] == s[..4];
    s[..Un(s[..4])]
  }

  /** The inner loop: deliver frames while more than four bytes remain. */
  function Drain(r: Reader): Reader
    decreases |r.rest|
  {
    if r.fault || |r.rest| <= PACK_SIZE_LEN then r
    else
      var size := Un(r.rest[..4]);
      if size < 4 || |r.rest| < size then r.(rest := r.rest[4..])
      else if size < PACK_HEAD_LEN then r.(rest := r.rest[4..], fault := true)
      else Drain(Reader(r.rest[size..], r.out + [FrameAt(r.rest)], false))
  }

  /** The outer loop over the chunks read from the file. */
  function Run(r: Reader, chunks: seq<bytes>): Reader
    decreases |chunks|
  {
    if chunks == [] then r else Run(Drain(r.(rest := r.rest + chunks[0])), chunks[1..])
  }

  /** Chunks an input stream yields until it reports end of file, which it does only on a short read:
      data that fills its last chunk is followed by an empty one. */
  function ChunksToEof(data: bytes): seq<bytes> {
    if |data| < CHUNK then [data] else [data[..CHUNK]] + ChunksToEof(data[CHUNK..])
  }

  /** The loop peeks first, so no data means no chunk at all. */
  function Chunks(data: bytes): seq<bytes> {
    if data == [] then [] else ChunksToEof(data)
  }

  /** The unread part of a file after seeking to `offset`. */
  function From(file: bytes, offset: nat): bytes {
    if offset <= |file| then file[offset..] else []
  }

  /** What loading a file from an offset delivers. */
  function Load(file: bytes, offset: nat): Reader {
    Run(START, Chunks(From(file, offset)))
  }

  /** The reader itself, over the growable buffer. */
  method LoadFile(file: bytes, offset: nat) returns (out: seq<Frame>, fault: bool)
    requires |file| < U32_RANGE
    ensures out == Load(file, offset).out && fault == Load(file, offset).fault
  {
    hide Drain;
    var data := From(file, offset);
    out, fault := [], false;
    var b := new Bytes();
    var next, eof := 0, data == [];
    assert data[0..] == data;
    while !eof && !fault
      invariant fresh(b) && b.wpos == |b.buf| == next <= |data| && b.rpos <= |b.buf|
      invariant eof ==> next == |data|
      invariant Load(file, offset) ==
                Run(Reader(b.buf[b.rpos..], out, fault), if eof then [] else ChunksToEof(data[next..]))
      decreases !eof, |data| - next
    {
      var n := if |data| - next < CHUNK then |data| - next else CHUNK;
      var chunk := data[next..next + n];
      assert data[next..][..n] == chunk && data[next..][n..] == data[next + n..];
      ghost var before := Reader(b.buf[b.rpos..], out, fault);
      ghost var chunks := ChunksToEof(data[next..]);
      assert chunks[0] == chunk;
      ghost var later := chunks[1..];
      assert later == if n < CHUNK then [] else ChunksToEof(data[next + n..]);
      eof := n < CHUNK;
      next := next + n;
      ghost var unread := b.buf[b.rpos..];
      b.PutBytes(chunk);
      assert b.buf[b.rpos..] == unread + chunk;
      out, fault := ReadFrames(b, out);
      assert Run(before, chunks) == Run(Reader(b.buf[b.rpos..], out, fault), later);
    }
    if !eof {
      FaultIsFinal(Reader(b.buf[b.rpos..], out, fault), ChunksToEof(data[next..]));
    }
  }

  /** Reading a frame field by field from position `at` of a buffer. */
  lemma FieldsAt(buf: bytes, at: nat)
    requires at + 4 <= |buf| && PACK_HEAD_LEN <= Un(buf[at..][..4]) <= |buf| - at
    ensures var f, end := FrameAt(buf[at..]), at + Un(buf[at..][..4]);
            && Flag(f) == Un(buf[at + 4..at + 6]) && Type(f) == Un(buf[at + 6..at + 8])
            && Body(f) == buf[at + 8..end] && buf[at..][end - at..] == buf[end..]
  {
    var f, end := FrameAt(buf[at..]), at + Un(buf[at..][..4]);
    assert f[4..6] == buf[at + 4..at + 6] && f[6..8] == buf[at + 6..at + 8] && f[8..] == buf[at + 8..end];
  }

  lemma DrainStep(s: bytes, out: seq<Frame>)
    ensures |s| <= PACK_SIZE_LEN ==> Drain(Reader(s, out, false)) == Reader(s, out, false)
    ensures |s| > PACK_SIZE_LEN ==>
              var size, r := Un(s[..4]), Drain(Reader(s, out, false));
              && (size < 4 || |s| < size ==> r == Reader(s[4..], out, false))
              && (4 <= size < PACK_HEAD_LEN && size <= |s| ==> r == Reader(s[4..], out, true))
              && (PACK_HEAD_LEN <= size <= |s| ==> r == Drain(Reader(s[size..], out + [FrameAt(s)], false)))
  {
  }

  /** The inner loop of the reader: its read cursor stays inside the buffer and it terminates. */
  method ReadFrames(b: Bytes, before: seq<Frame>) returns (out: seq<Frame>, fault: bool)
    requires b.rpos <= |b.buf| < U32_RANGE
    modifies b`rpos
    ensures b.rpos <= |b.buf|
    ensures Reader(b.buf[b.rpos..], out, fault) == Drain(Reader(old(b.buf[b.rpos..]), before, false))
  {
    hide Drain, Un, FrameAt, Pack, Flag, Type, Body;
    out, fault := before, false;
    ghost var goal := Drain(Reader(b.buf[b.rpos..], before, false));
    while true
      invariant b.rpos <= |b.buf| && !fault
      invariant goal == Drain(Reader(b.buf[b.rpos..], out, false))
      decreases |b.buf| - b.rpos
    {
      DrainStep(b.buf[b.rpos..], out);
      var remaining := b.BytesRemaining();
      if remaining <= PACK_SIZE_LEN {
        break;
      }
      ghost var at := b.rpos;
      assert b.buf[at..at + 4] == b.buf[at..][..4] && b.buf[at + 4..] == b.buf[at..][4..];
      var size := b.Read(4);
      remaining := b.BytesRemaining();
      if size < 4 || remaining < size - 4 {
        break;
      }
      if size < PACK_HEAD_LEN {
        fault := true;
        break;
      }
      FieldsAt(b.buf, at);
      var flag := b.Read(2);
      var typ := b.Read(2);
      var body := b.GetBytes(size - PACK_HEAD_LEN);
      PackUnpack(FrameAt(b.buf[at..]));
      out := out + [Pack(flag, typ, body)];
    }
  }

  lemma {:induction false} FaultIsFinal(r: Reader, chunks: seq<bytes>)
    requires r.fault
    ensures Run(r, chunks).out == r.out && Run(r, chunks).fault
    decreases |chunks|
  {
    if chunks != [] {
      FaultIsFinal(r.(rest := r.rest + chunks[0]), chunks[1..]);
    }
  }

  // ---- Where a byte position falls in a log ----

  /** Number of frames lying wholly in the first `m` bytes of the log. */
  function Whole(fs: seq<Frame>, m: nat): (n: nat)
    ensures n <= |fs|
  {
    if fs == [] || m < |fs[0]| then 0 else 1 + Whole(fs[1..], m - |fs[0]|)
  }

  /** Distance from byte `m` back to the frame boundary at or before it. */
  function Into(fs: seq<Frame>, m: nat): (d: nat)
    ensures d <= m
  {
    if fs == [] || m < |fs[0]| then m else Into(fs[1..], m - |fs[0]|)
  }

  lemma {:induction false} WholeSize(fs: seq<Frame>, m: nat)
    requires m <= |Concat(fs)|
    ensures |Concat(fs[..Whole(fs, m)])| == m - Into(fs, m)
    ensures Concat(fs[Whole(fs, m)..]) == Concat(fs)[m - Into(fs, m)..]
  {
    if fs == [] || m < |fs[0]| {
      assert fs[..0] == [] && fs[0..] == fs;
    } else {
      var k := Whole(fs[1..], m - |fs[0]|);
      WholeSize(fs[1..], m - |fs[0]|);
      assert fs[..1 + k][1..] == fs[1..][..k] && fs[1 + k..] == fs[1..][k..];
      assert Concat(fs)[|fs[0]|..] == Concat(fs[1..]);
    }
  }

  lemma {:induction false} IntoShift(fs: seq<Frame>, m: nat, x: nat)
    ensures Into(fs, m + x) == Into(fs[Whole(fs, m)..], Into(fs, m) + x)
    ensures Whole(fs, m + x) == Whole(fs, m) + Whole(fs[Whole(fs, m)..], Into(fs, m) + x)
  {
    if fs == [] || m < |fs[0]| {
      assert fs[0..] == fs;
    } else {
      IntoShift(fs[1..], m - |fs[0]|, x);
      assert fs[Whole(fs, m)..] == fs[1..][Whole(fs[1..], m - |fs[0]|)..];
    }
  }

  /** The boundary hypothesis, for chunks read from position `p` of the log on: every chunk but the last ends
      at most four bytes into a frame. */
  ghost predicate Aligned(fs: seq<Frame>, p: nat, chunks: seq<bytes>)
    decreases |chunks|
  {
    |chunks| > 1 ==> Into(fs, p + |chunks[0]|) <= PACK_SIZE_LEN && Aligned(fs, p + |chunks[0]|, chunks[1..])
  }

  // ---- One pass of the inner loop ----

  lemma DrainOne(f: Frame, s: bytes, out: seq<Frame>)
    requires f <= s
    ensures Drain(Reader(s, out, false)) == Drain(Reader(s[|f|..], out + [f], false))
  {
    assert s[..4] == f[..4] && FrameAt(s) == f;
  }

  /** What becomes of an incomplete frame: up to four bytes of it are kept whole, of more the first four are lost. */
  function Settle(r: Reader): Reader {
    if |r.rest| <= PACK_SIZE_LEN then r else r.(rest := r.rest[4..])
  }

  lemma {:induction false} DrainPrefix(fs: seq<Frame>, m: nat, out: seq<Frame>)
    requires m <= |Concat(fs)|
    ensures Drain(Reader(Concat(fs)[..m], out, false)) ==
            Settle(Reader(Concat(fs)[m - Into(fs, m)..m], out + fs[..Whole(fs, m)], false))
    decreases |fs|
  {
    hide Drain;
    if fs == [] || m < |fs[0]| {
      DrainTorn(fs, m, out);
    } else {
      var n, later := |fs[0]|, Concat(fs[1..]);
      var d, k := Into(fs[1..], m - n), Whole(fs[1..], m - n);
      assert Into(fs, m) == d && Whole(fs, m) == 1 + k && Concat(fs) == fs[0] + later;
      hide Into, Whole, Concat, Settle;
      DrainPrefix(fs[1..], m - n, out + [fs[0]]);
      DrainFirst(fs[0], later, m, d, out);
      TakeFirst(fs, k, out);
    }
  }

  lemma TakeFirst(fs: seq<Frame>, k: nat, out: seq<Frame>)
    requires fs != [] && k <= |fs| - 1
    ensures out + fs[..1 + k] == out + [fs[0]] + fs[1..][..k]
  {
    assert fs[..1 + k] == [fs[0]] + fs[1..][..k];
  }

  lemma DrainFirst(f: Frame, later: bytes, m: nat, d: nat, out: seq<Frame>)
    requires |f| + d <= m <= |f + later|
    ensures Drain(Reader((f + later)[..m], out, false)) == Drain(Reader(later[..m - |f|], out + [f], false))
    ensures (f + later)[m - d..m] == later[m - |f| - d..m - |f|]
  {
    hide Drain;
    var s := f + later[..m - |f|];
    assert (f + later)[..m] == s && s[|f|..] == later[..m - |f|];
    DrainOne(f, s, out);
  }

  lemma DrainTorn(fs: seq<Frame>, m: nat, out: seq<Frame>)
    requires m <= |Concat(fs)| && Whole(fs, m) == 0
    ensures Drain(Reader(Concat(fs)[..m], out, false)) ==
            Settle(Reader(Concat(fs)[m - Into(fs, m)..m], out + fs[..0], false))
  {
    var s := Concat(fs)[..m];
    assert out + fs[..0] == out && Concat(fs)[0..m] == s;
    if m > 4 {
      assert s[..4] == Concat(fs)[..4] == fs[0][..4];
    }
  }

  /** The reader as it should stand after `p` bytes of the log. */
  function Position(fs: seq<Frame>, p: nat): Reader
    requires p <= |Concat(fs)|
  {
    Reader(Concat(fs)[p - Into(fs, p)..p], fs[..Whole(fs, p)], false)
  }

  lemma DrainChunk(fs: seq<Frame>, p: nat, n: nat)
    requires p + n <= |Concat(fs)|
    ensures var r := Position(fs, p);
            Drain(r.(rest := r.rest + Concat(fs)[p..p + n])) == Settle(Position(fs, p + n))
  {
    hide Drain, Whole, Into, Concat, Settle;
    var d, w := Into(fs, p), Whole(fs, p);
    WholeSize(fs, p);
    IntoShift(fs, p, n);
    ChunkBytes(Concat(fs), p, d, n, Into(fs, p + n));
    DrainPrefix(fs[w..], d + n, fs[..w]);
    TakeMore(fs, w, Whole(fs[w..], d + n));
  }

  lemma ChunkBytes(all: bytes, p: nat, d: nat, n: nat, d': nat)
    requires d <= p && p + n <= |all| && d' <= d + n
    ensures all[p - d..][..d + n] == all[p - d..p] + all[p..p + n]
    ensures all[p - d..][d + n - d'..d + n] == all[p + n - d'..p + n]
  {
    SliceJoin(all, p - d, p, p + n);
    SliceSlice(all, p - d, |all|, 0, d + n);
    SliceSlice(all, p - d, |all|, d + n - d', d + n);
  }

  lemma TakeMore(fs: seq<Frame>, w: nat, k: nat)
    requires w + k <= |fs|
    ensures fs[..w] + fs[w..][..k] == fs[..w + k]
  {
  }

  /** Bytes delivered or still buffered: the reader never invents any. */
  function Weight(r: Reader): nat {
    |r.rest| + |Concat(r.out)|
  }

  lemma {:induction false} DrainWeight(r: Reader)
    ensures Weight(Drain(r)) <= Weight(r)
    decreases |r.rest|
  {
    if !r.fault && |r.rest| > PACK_SIZE_LEN {
      var size := Un(r.rest[..4]);
      if PACK_HEAD_LEN <= size <= |r.rest| {
        var f := FrameAt(r.rest);
        ConcatAppend(r.out, [f]);
        ConcatOne(f);
        DrainWeight(Reader(r.rest[size..], r.out + [f], false));
      }
    }
  }

  lemma {:induction false} RunWeight(r: Reader, chunks: seq<bytes>)
    ensures Weight(Run(r, chunks)) <= Weight(r) + |Concat(chunks)|
    decreases |chunks|
  {
    if chunks != [] {
      DrainWeight(r.(rest := r.rest + chunks[0]));
      RunWeight(Drain(r.(rest := r.rest + chunks[0])), chunks[1..]);
    }
  }

  // ---- Whole runs ----

  /** On an aligned schedule the reader delivers exactly the frames wholly contained in the data; on any other
      four bytes are lost for good. */
  lemma {:induction false} RunFrom(fs: seq<Frame>, p: nat, m: nat, chunks: seq<bytes>)
    requires p <= m <= |Concat(fs)| && Concat(chunks) == Concat(fs)[p..m]
    ensures var r := Run(Position(fs, p), chunks);
            if Aligned(fs, p, chunks) then r.out == fs[..Whole(fs, m)] && !r.fault
            else |Concat(r.out)| + 4 <= m
    decreases |chunks|
  {
    hide Drain, Whole, Into;
    if chunks != [] {
      var n, q := |chunks[0]|, p + |chunks[0]|;
      SliceOff(Concat(fs), p, m, chunks[0], Concat(chunks[1..]));
      DrainChunk(fs, p, n);
      if |chunks| == 1 {
        assert chunks[1..] == [];
      } else if Into(fs, q) <= PACK_SIZE_LEN {
        RunFrom(fs, q, m, chunks[1..]);
      } else {
        WholeSize(fs, q);
        RunWeight(Settle(Position(fs, q)), chunks[1..]);
      }
    }
  }

  /** Main result on chunked reading. For data that is any prefix of a log and any chunk schedule, the reader
      delivers every byte of it as frames if and only if the schedule is aligned and the data ends on a frame
      boundary; what it then delivers is exactly the logged frames. An aligned schedule over torn data delivers
      the complete frames and drops only the torn one. */
  lemma ChunkedReadExact(fs: seq<Frame>, chunks: seq<bytes>)
    requires Concat(chunks) <= Concat(fs)
    ensures var m, r := |Concat(chunks)|, Run(START, chunks);
            && (|Concat(r.out)| == m <==> Aligned(fs, 0, chunks) && Into(fs, m) == 0)
            && (Aligned(fs, 0, chunks) ==> r.out == fs[..Whole(fs, m)] && !r.fault)
  {
    var m := |Concat(chunks)|;
    assert Concat(chunks) == Concat(fs)[0..m];
    assert Position(fs, 0) == START;
    RunFrom(fs, 0, m, chunks);
    WholeSize(fs, m);
  }

  lemma {:induction false} ChunksConcat(data: bytes)
    ensures Concat(ChunksToEof(data)) == data && Concat(Chunks(data)) == data
  {
    if |data| < CHUNK {
      assert [data][1..] == [];
    } else {
      ChunksConcat(data[CHUNK..]);
      assert data[..CHUNK] + data[CHUNK..] == data;
    }
  }

  /** Where the `i`-th chunk of a file starts. */
  function ChunkStart(i: nat): nat {
    CHUNK * i
  }

  /** The boundary hypothesis for a log file read 4096 bytes at a time. */
  ghost predicate ChunkSafe(fs: seq<Frame>) {
    forall i: nat :: ChunkStart(i) <= |Concat(fs)| ==> Into(fs, ChunkStart(i)) <= PACK_SIZE_LEN
  }

  lemma {:induction false} AlignedFrom(fs: seq<Frame>, k: nat, data: bytes)
    ensures Aligned(fs, ChunkStart(k), ChunksToEof(data)) <==>
            forall i: nat :: k < i && ChunkStart(i) <= ChunkStart(k) + |data| ==> Into(fs, ChunkStart(i)) <= PACK_SIZE_LEN
    decreases |data|
  {
    hide Into;
    if |data| >= CHUNK {
      assert ChunkStart(k + 1) == ChunkStart(k) + CHUNK;
      AlignedFrom(fs, k + 1, data[CHUNK..]);
      assert ChunksToEof(data)[1..] == ChunksToEof(data[CHUNK..]);
    }
  }

  lemma ChunkSafeAligned(fs: seq<Frame>)
    ensures ChunkSafe(fs) <==> Aligned(fs, 0, Chunks(Concat(fs)))
  {
    AlignedFrom(fs, 0, Concat(fs));
    assert Into(fs, ChunkStart(0)) == 0;
  }

  /** Loading a complete log file gives back the log if and only if each multiple of 4096 in it falls at most
      four bytes into a frame. */
  lemma LoadExact(fs: seq<Frame>)
    ensures (Load(Concat(fs), 0).out == fs && !Load(Concat(fs), 0).fault) <==> ChunkSafe(fs)
  {
    var data := Concat(fs);
    assert From(data, 0) == data;
    ChunksConcat(data);
    ChunkedReadExact(fs, Chunks(data));
    ChunkSafeAligned(fs);
    WholeSize(fs, |data|);
    IntoEnd(fs);
    assert fs[..|fs|] == fs;
  }

  lemma {:induction false} IntoEnd(fs: seq<Frame>)
    ensures Into(fs, |Concat(fs)|) == 0 && Whole(fs, |Concat(fs)|) == |fs|
  {
    if fs != [] {
      IntoEnd(fs[1..]);
    }
  }

  // ---- A file whose last frame was not written completely ----

  /** A piece cut off the front of some frame. */
  ghost predicate IsTorn(t: bytes) {
    exists f: Frame :: |t| < |f| && t <= f
  }

  /** The boundary hypothesis for a log file that ends in a torn frame. */
  ghost predicate TailSafe(fs: seq<Frame>, t: bytes) {
    var n := |Concat(fs)|;
    forall i: nat :: ChunkStart(i) <= n + |t| ==>
                       (if ChunkStart(i) <= n then Into(fs, ChunkStart(i)) else ChunkStart(i) - n) <= PACK_SIZE_LEN
  }

  lemma {:induction false} IntoTorn(fs: seq<Frame>, f: Frame, m: nat)
    requires m < |Concat(fs)| + |f|
    ensures Into(fs + [f], m) == if m <= |Concat(fs)| then Into(fs, m) else m - |Concat(fs)|
    ensures m >= |Concat(fs)| ==> Whole(fs + [f], m) == |fs|
    decreases |fs|
  {
    if fs == [] {
      assert fs + [f] == [f];
    } else if m >= |fs[0]| {
      assert (fs + [f])[1..] == fs[1..] + [f];
      IntoTorn(fs[1..], f, m - |fs[0]|);
    }
  }

  /** The complete frames are read back and the torn one is dropped. */
  lemma TornLoad(fs: seq<Frame>, t: bytes)
    requires IsTorn(t) && TailSafe(fs, t)
    ensures Load(Concat(fs) + t, 0).out == fs && !Load(Concat(fs) + t, 0).fault
  {
    var f: Frame :| |t| < |f| && t <= f;
    var data, gs := Concat(fs) + t, fs + [f];
    assert From(data, 0) == data;
    ChunksConcat(data);
    ConcatAppend(fs, [f]);
    ConcatOne(f);
    AlignedFrom(gs, 0, data);
    forall i: nat | 0 < i && ChunkStart(i) <= |data|
      ensures Into(gs, ChunkStart(i)) <= PACK_SIZE_LEN
    {
      IntoTorn(fs, f, ChunkStart(i));
    }
    assert Aligned(gs, 0, Chunks(data));
    IntoTorn(fs, f, |data|);
    ChunkedReadExact(gs, Chunks(data));
    assert gs[..|fs|] == fs;
  }

  lemma {:induction false} IntoAt(fs: seq<Frame>, k: nat)
    requires k <= |fs|
    ensures Into(fs, |Concat(fs[..k])|) == 0 && Whole(fs, |Concat(fs[..k])|) == k
    decreases k
  {
    if k > 0 {
      IntoAt(fs[1..], k - 1);
      assert fs[..k][1..] == fs[1..][..k - 1];
      assert |Concat(fs[..k])| == |fs[0]| + |Concat(fs[1..][..k - 1])|;
    }
  }

  /** The longest command the log can carry: a frame occurs in some log file that can be read back if and only if it
      is at most 4100 bytes long. */
  lemma ReadableFrame(f: Frame)
    ensures (exists fs: seq<Frame> :: f in fs && ChunkSafe(fs)) <==> |f| <= 4100
  {
    if |f| <= CHUNK + PACK_SIZE_LEN {
      PaddedIsSafe(f);
    } else {
      forall fs: seq<Frame> | f in fs
        ensures !ChunkSafe(fs)
      {
        var k :| 0 <= k < |fs| && fs[k] == f;
        LongFrameIsLost(fs, k);
      }
    }
  }

  /** A log file with a longer frame anywhere in it is not read back, wherever its chunks fall. */
  lemma LongFrameIsLost(fs: seq<Frame>, k: nat)
    requires k < |fs| && |fs[k]| > CHUNK + PACK_SIZE_LEN
    ensures !ChunkSafe(fs)
  {
    var start := |Concat(fs[..k])|;
    var i := (start + PACK_SIZE_LEN) / CHUNK + 1;
    var x := ChunkStart(i) - start;
    assert PACK_SIZE_LEN < x < |fs[k]|;
    IntoAt(fs, k);
    IntoShift(fs, start, x);
    assert Into(fs, ChunkStart(i)) == x;
    assert fs == fs[..k] + fs[k..];
    ConcatAppend(fs[..k], fs[k..]);
  }

  /** A frame of that length is read back behind one that ends four bytes before a chunk does. */
  lemma PaddedIsSafe(f: Frame)
    requires |f| <= CHUNK + PACK_SIZE_LEN
    ensures exists fs: seq<Frame> :: f in fs && ChunkSafe(fs)
  {
    var pad: Frame := Pack(0, 0, seq(CHUNK - PACK_SIZE_LEN - PACK_HEAD_LEN, _ => 0));
    var fs: seq<Frame> := [pad, f];
    assert |pad| == CHUNK - PACK_SIZE_LEN;
    assert fs[1..] == [f] && fs[1..][1..] == [] && f in fs;
    assert |Concat(fs)| == |pad| + |f| by {
      ConcatOne(f);
      assert Concat(fs) == pad + Concat(fs[1..]);
    }
    forall i: nat | ChunkStart(i) <= |Concat(fs)|
      ensures Into(fs, ChunkStart(i)) <= PACK_SIZE_LEN
    {
      assert i == 0 || i == 1 || i == 2;
      assert Into(fs, ChunkStart(i)) == if i == 0 then 0 else Into(fs[1..], ChunkStart(i) - |pad|);
    }
  }
}
