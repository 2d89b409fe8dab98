/** Framing on a socket: `Connect::send` and `Connect::read_` over an operating system that may take or give any
    number of bytes at a time. */
module Connection {
  import opened Seqs
  import opened Wire
  import opened Buffer

  const CONNECT_READ_BUF_SIZE: nat := 16384

  /** What one call to `recv` or `send` does: move up to `n` bytes (at least one), fail in a way that is retried, or
      fail for good. */
  datatype Event = Data(n: nat) | Again | HungUp | TimedOut | Broken

  /** `Pending` means that the events given are used up and the call is still under way. */
  datatype Status = Done | Closed | Timeout | Failed | Pending

  /** Bytes gathered, bytes left in the stream, and how the call ended. */
  datatype Recv = Recv(pack: bytes, rest: bytes, status: Status)

  /** Whether the gathered bytes are taken for a whole frame. */
  predicate Complete(pack: bytes) {
    PACK_HEAD_LEN <= |pack| && |pack| == Un(pack[..4])
  }

  /** How much is asked for next. Once the header is in, the rest of the frame in unsigned 32-bit arithmetic, at
      most a buffer full; before that, the header size less the bytes of the *last* read only. */
  function NextLen(pack: bytes, readn: nat): int {
    if |pack| >= PACK_HEAD_LEN then
      var left := (Un(pack[..4]) - |pack|) % U32_RANGE;
      if left > CONNECT_READ_BUF_SIZE then CONNECT_READ_BUF_SIZE else left
    else PACK_HEAD_LEN - readn
  }

  /** Bytes a `recv` of at most `want` gives when `n` are on offer. */
  function Got(n: nat, want: nat, rest: bytes): (k: nat)
    requires want >= 1 && rest != []
    ensures 1 <= k <= want && k <= |rest|
    ensures 1 <= n <= want && n <= |rest| ==> k == n
  {
    var most := if want < |rest| then want else |rest|;
    if n < 1 then 1 else if n > most then most else n
  }

  function ReadLoop(pack: bytes, want: nat, rest: bytes, events: seq<Event>): Recv
    requires want >= 1
    decreases |events|
  {
    if events == [] then Recv(pack, rest, Pending)
    else
      match events[0]
      case Again => ReadLoop(pack, want, rest, events[1..])
      case HungUp => Recv(pack, rest, Closed)
      case TimedOut => Recv(pack, rest, Timeout)
      case Broken => Recv(pack, rest, Failed)
      case Data(n) =>
        if rest == [] then Recv(pack, rest, Pending)
        else
          var k := Got(n, want, rest);
          var pack' := pack + rest[..k];
          if Complete(pack') then Recv(pack', rest[k..], Done)
          else if NextLen(pack', k) < 1 then Recv(pack', rest[k..], Closed)
          else ReadLoop(pack', NextLen(pack', k), rest[k..], events[1..])
  }

  /** One call of `read_` on a stream. */
  function Read(stream: bytes, events: seq<Event>): Recv {
    ReadLoop([], PACK_HEAD_LEN, stream, events)
  }

  function Moves(events: seq<Event>): nat {
    if events == [] then 0 else (if events[0].Data? then 1 else 0) + Moves(events[1..])
  }

  predicate Working(events: seq<Event>) {
    forall e :: e in events ==> e.Data? || e.Again?
  }

  /** How a call ends that does not get what it wants: by the first event that fails, or not yet. */
  function Ending(events: seq<Event>): (r: Status)
    ensures !r.Done?
  {
    if events == [] then Pending
    else
      match events[0]
      case Data(_) => Ending(events[1..])
      case Again => Ending(events[1..])
      case HungUp => Closed
      case TimedOut => Timeout
      case Broken => Failed
  }

  /** The call takes nothing but bytes of the frame at the head of the stream, is done exactly when it has all of
      them, and gets there if the connection keeps working. */
  ghost predicate Exact(f: Frame, more: bytes, events: seq<Event>) {
    var r := Read(f + more, events);
    && r.pack <= f && r.rest == (f + more)[|r.pack|..]
    && r.status == (if r.pack == f then Done else Ending(events))
    && (Working(events) && Moves(events) >= |f| ==> r.status.Done?)
  }

  /** The same of the loop when `n` bytes of the frame are in. */
  ghost predicate LoopIsExact(f: Frame, more: bytes, n: nat, want: nat, events: seq<Event>)
    requires n <= |f| && want >= 1
  {
    var r := ReadLoop(f[..n], want, (f + more)[n..], events);
    && r.pack <= f && r.rest == (f + more)[|r.pack|..]
    && r.status == (if r.pack == f then Done else Ending(events))
    && (Working(events) && n + Moves(events) >= |f| ==> r.status.Done?)
  }

  lemma {:induction false} LoopExact(f: Frame, more: bytes, n: nat, want: nat, events: seq<Event>)
    requires |f| >= PACK_HEAD_LEN + 6 && n < |f| && 1 <= want <= |f| - n
    ensures LoopIsExact(f, more, n, want, events)
    decreases |events|
  {
    if events != [] {
      assert events[0] in events;
      var rest := (f + more)[n..];
      match events[0] {
        case Again =>
          WorkingTail(events);
          LoopExact(f, more, n, want, events[1..]);
        case Data(m) =>
          var k := Got(m, want, rest);
          LoopData(f, more, n, k);
          if n + k < |f| {
            NextLenFits(f, n + k, k);
            WorkingTail(events);
            LoopExact(f, more, n + k, NextLen(f[..n + k], k), events[1..]);
          }
        case HungUp =>
        case TimedOut =>
        case Broken =>
      }
    }
  }

  lemma WorkingTail(events: seq<Event>)
    requires events != []
    ensures Working(events) ==> Working(events[1..])
  {
  }

  lemma LoopData(f: Frame, more: bytes, n: nat, k: nat)
    requires n + k <= |f|
    ensures var rest := (f + more)[n..];
            f[..n] + rest[..k] == f[..n + k] && rest[k..] == (f + more)[n + k..]
    ensures Complete(f[..n + k]) <==> n + k == |f|
  {
    var rest := (f + more)[n..];
    assert rest[..k] == f[n..n + k];
    if n + k >= PACK_HEAD_LEN {
      assert f[..n + k][..4] == f[..4];
    }
  }

  /** With at least 14 bytes in the frame, no request reaches past its end. */
  lemma NextLenFits(f: Frame, n: nat, readn: nat)
    requires |f| >= PACK_HEAD_LEN + 6 && 1 <= readn <= n < |f|
    ensures 1 <= NextLen(f[..n], readn) <= |f| - n
  {
    if n >= PACK_HEAD_LEN {
      assert f[..n][..4] == f[..4];
      PackUnpack(f);
    }
  }

  /** Main result on framing: reading is exact for every schedule of short reads and whatever follows on the stream
      if and only if the frame has a body of at least 6 bytes. A shorter one can be over-read when its header comes
      in three pieces. */
  lemma ReadExact(f: Frame)
    ensures (forall more, events :: Exact(f, more, events)) <==> |f| >= PACK_HEAD_LEN + 6
  {
    if |f| >= PACK_HEAD_LEN + 6 {
      forall more, events
        ensures Exact(f, more, events)
      {
        LoopExact(f, more, 0, PACK_HEAD_LEN, events);
        assert f[..0] == [] && (f + more)[0..] == f + more;
      }
    } else {
      var b := |f| - PACK_HEAD_LEN;
      OverRead(f, b);
      assert !Exact(f, [0], [Data(b + 1), Data(1), Data(7)]);
    }
  }

  /** The header comes in at most two reads: `have` bytes of it came in one read so far, or none. What is not read at
      all, or fails first, does not matter. */
  predicate HeaderInTwo(have: nat, events: seq<Event>)
    decreases |events|
  {
    events == [] ||
    match events[0]
    case Again => HeaderInTwo(have, events[1..])
    case Data(n) =>
      var k := if n < 1 then 1 else n;
      have + k >= PACK_HEAD_LEN || (have == 0 && HeaderInTwo(k, events[1..]))
    case _ => true
  }

  /** Whichever frame it is, once the header is in, every request ends within the frame. */
  lemma {:induction false} BodyExact(f: Frame, more: bytes, n: nat, want: nat, events: seq<Event>)
    requires PACK_HEAD_LEN <= n < |f| && 1 <= want <= |f| - n
    ensures LoopIsExact(f, more, n, want, events)
    decreases |events|
  {
    if events != [] {
      assert events[0] in events;
      WorkingTail(events);
      match events[0] {
        case Again =>
          BodyExact(f, more, n, want, events[1..]);
        case Data(m) =>
          var k := Got(m, want, (f + more)[n..]);
          LoopData(f, more, n, k);
          if n + k < |f| {
            BodyNextLen(f, n + k, k);
            BodyExact(f, more, n + k, NextLen(f[..n + k], k), events[1..]);
          }
        case HungUp =>
        case TimedOut =>
        case Broken =>
      }
    }
  }

  lemma BodyNextLen(f: Frame, n: nat, readn: nat)
    requires PACK_HEAD_LEN <= n < |f|
    ensures 1 <= NextLen(f[..n], readn) <= |f| - n
  {
    assert f[..n][..4] == f[..4];
    PackUnpack(f);
  }

  /** Reading the header in at most two pieces. */
  lemma {:induction false} HeaderExact(f: Frame, more: bytes, n: nat, events: seq<Event>)
    requires n < PACK_HEAD_LEN && HeaderInTwo(n, events)
    ensures LoopIsExact(f, more, n, PACK_HEAD_LEN - n, events)
    decreases |events|
  {
    if events != [] {
      assert events[0] in events;
      WorkingTail(events);
      match events[0] {
        case Again =>
          HeaderExact(f, more, n, events[1..]);
        case Data(m) =>
          var k := Got(m, PACK_HEAD_LEN - n, (f + more)[n..]);
          LoopData(f, more, n, k);
          if n + k < PACK_HEAD_LEN {
            HeaderExact(f, more, k, events[1..]);
          } else if n + k < |f| {
            BodyNextLen(f, n + k, k);
            BodyExact(f, more, n + k, NextLen(f[..n + k], k), events[1..]);
          }
        case HungUp =>
        case TimedOut =>
        case Broken =>
      }
    }
  }

  /** Framing for every frame: reading is exact, whatever the sizes of the reads and whatever follows on the stream,
      if the body has at least six bytes or the header comes in at most two reads. */
  lemma ReadExactInTwo(f: Frame, more: bytes, events: seq<Event>)
    requires |f| >= PACK_HEAD_LEN + 6 || HeaderInTwo(0, events)
    ensures Exact(f, more, events)
  {
    if |f| >= PACK_HEAD_LEN + 6 {
      ReadExact(f);
    } else {
      HeaderExact(f, more, 0, events);
      assert f[..0] == [] && (f + more)[0..] == f + more;
    }
  }

  lemma OverRead(f: Frame, b: nat)
    requires |f| == PACK_HEAD_LEN + b && b < 6
    ensures Read(f + [0], [Data(b + 1), Data(1), Data(7)]).pack == f + [0]
  {
    var s := f + [0];
    var e := [Data(b + 1), Data(1), Data(7)];
    assert e[1..] == [Data(1), Data(7)] && e[1..][1..] == [Data(7)] && [Data(7)][1..] == [];
    assert s[..4] == f[..4] && Un(s[..4]) == |f|;
    assert s[..|s|] == s && s[|s|..] == [];
    OverReadLens(s, b);
    assert ReadLoop(s, NextLen(s, 7), [], []).pack == s;
    hide Read, ReadLoop, NextLen, Un;
    OverReadAt(s, 0, b + 1, PACK_HEAD_LEN, e);
    OverReadAt(s, b + 1, 1, 7 - b, e[1..]);
    OverReadAt(s, b + 2, 7, 7, [Data(7)]);
    ReadUnfold(s, e);
  }

  /** What is asked for after each of the three reads. */
  lemma OverReadLens(s: bytes, b: nat)
    requires |s| == PACK_HEAD_LEN + b + 1 && b < 6 && Un(s[..4]) == |s| - 1
    ensures NextLen(s[..b + 1], b + 1) == 7 - b && NextLen(s[..b + 2], 1) == 7 && NextLen(s, 7) >= 1
  {
  }

  lemma ReadUnfold(stream: bytes, events: seq<Event>)
    ensures Read(stream, events) == ReadLoop(stream[..0], PACK_HEAD_LEN, stream[0..], events)
  {
    assert stream[..0] == [] && stream[0..] == stream;
  }

  /** One round of the loop on a frame whose body is shorter than six bytes, with a byte of the next one behind. */
  lemma OverReadAt(s: bytes, n: nat, k: nat, want: nat, events: seq<Event>)
    requires 1 <= k <= want && n + k <= |s| && events != [] && events[0] == Data(k)
    requires |s| > PACK_HEAD_LEN && Un(s[..4]) == |s| - 1
    requires n + k != |s| - 1 && NextLen(s[..n + k], k) >= 1
    ensures ReadLoop(s[..n], want, s[n..], events) ==
            ReadLoop(s[..n + k], NextLen(s[..n + k], k), s[n + k..], events[1..])
  {
    hide Un;
    assert s[..n] + s[n..][..k] == s[..n + k] && s[n..][k..] == s[n + k..];
    assert Got(k, want, s[n..]) == k;
    if n + k >= 4 {
      assert s[..n + k][..4] == s[..4];
    }
  }

  // ---- A sequence of frames ----

  function ReadMany(stream: bytes, calls: seq<seq<Event>>): (seq<bytes>, bytes)
    decreases |calls|
  {
    if calls == [] then ([], stream)
    else
      var r := Read(stream, calls[0]);
      if !r.status.Done? then ([], r.rest)
      else
        var (packs, rest) := ReadMany(r.rest, calls[1..]);
        ([r.pack] + packs, rest)
  }

  /** Frames sent back to back are received as those frames, in order, and the stream behind them is untouched: for
      every frame that has a body of at least six bytes or whose header comes in at most two reads. */
  lemma {:induction false} ReadManyExact(fs: seq<Frame>, more: bytes, calls: seq<seq<Event>>)
    requires |calls| == |fs|
    requires forall i :: 0 <= i < |fs| ==> |fs[i]| >= PACK_HEAD_LEN + 6 || HeaderInTwo(0, calls[i])
    requires forall i :: 0 <= i < |fs| ==> Working(calls[i]) && Moves(calls[i]) >= |fs[i]|
    ensures ReadMany(Concat(fs) + more, calls) == (fs, more)
    decreases |fs|
  {
    if fs != [] {
      var first: bytes, later: bytes := fs[0], Concat(fs[1..]) + more;
      assert Concat(fs) + more == first + later;
      ReadExactInTwo(fs[0], later, calls[0]);
      assert (first + later)[|first|..] == later;
      ReadManyExact(fs[1..], more, calls[1..]);
      assert fs == [fs[0]] + fs[1..];
    } else {
      assert Concat(fs) + more == more;
    }
  }

  // ---- The loops ----

  class Connect {
    /** Bytes that have arrived and are not yet read, and bytes accepted for sending, in order. */
    var incoming: bytes
    var outgoing: bytes
    /** Sticky error. */
    var err: Status

    /** A connection with an error reads and sends nothing any more. */
    method Read_(pack: Bytes, events: seq<Event>) returns (status: Status)
      modifies this, pack
      ensures !old(err.Done?) ==> pack.buf == [] && incoming == old(incoming) && status == Failed && err == old(err)
      ensures old(err.Done?) ==>
                var r := Read(old(incoming), events);
                && pack.buf == r.pack && incoming == r.rest && status == r.status
                && err == if status.Closed? || status.Timeout? || status.Failed? then status else Done
      ensures outgoing == old(outgoing)
    {
      hide Un, Complete;
      pack.Clear();
      if !err.Done? {
        return Failed;
      }
      var nextLen := PACK_HEAD_LEN;
      var i := 0;
      assert events[0..] == events;
      while i < |events|
        invariant i <= |events| && err.Done? && pack.wpos == |pack.buf| && nextLen >= 1 && outgoing == old(outgoing)
        invariant Read(old(incoming), events) == ReadLoop(pack.buf, nextLen, incoming, events[i..])
      {
        var e := events[i];
        i := i + 1;
        assert events[i - 1..][0] == e && events[i - 1..][1..] == events[i..];
        match e {
          case Again =>
          case HungUp =>
            err := Closed;
            return Closed;
          case TimedOut =>
            err := Timeout;
            return Timeout;
          case Broken =>
            err := Failed;
            return Failed;
          case Data(n) =>
            if incoming == [] {
              return Pending;
            }
            var readn := Got(n, nextLen, incoming);
            pack.PutBytes(incoming[..readn]);
            incoming := incoming[readn..];
            if Complete(pack.buf) {
              return Done;
            }
            if NextLen(pack.buf, readn) < 1 {
              err := Closed;
              return Closed;
            }
            nextLen := NextLen(pack.buf, readn);
        }
      }
      return Pending;
    }

    /** Whatever the socket takes at a time, what goes out is a prefix of the data, and all of it when the call
        succeeds. Sending nothing looks like a closed connection. */
    method Send(data: bytes, events: seq<Event>) returns (status: Status, sent: nat)
      modifies this
      ensures sent <= |data| && outgoing == old(outgoing) + data[..sent]
      ensures status.Done? <==> old(err.Done?) && sent == |data| > 0
      ensures old(err.Done?) && data != [] && !status.Done? ==>
                status == if Ending(events).Timeout? then Failed else Ending(events)
      ensures old(err.Done?) && data != [] && Working(events) && Moves(events) >= |data| ==> status.Done?
      ensures incoming == old(incoming)
      ensures err == if old(err.Done?) && (status.Closed? || status.Failed?) then status else old(err)
    {
      sent := 0;
      if !err.Done? {
        return Failed, 0;
      }
      var i := 0;
      assert events[0..] == events;
      while i < |events|
        invariant i <= |events| && sent <= |data| && (data != [] ==> sent < |data|) && err.Done?
        invariant incoming == old(incoming)
        invariant outgoing == old(outgoing) + data[..sent]
        invariant Moves(events) <= sent + Moves(events[i..]) && Ending(events) == Ending(events[i..])
      {
        var e := events[i];
        assert e in events;
        assert events[i..][0] == e && events[i..][1..] == events[i + 1..];
        i := i + 1;
        match e {
          case Again =>
          case HungUp =>
            err := Closed;
            return Closed, sent;
          case TimedOut =>
            err := Failed;
            return Failed, sent;
          case Broken =>
            err := Failed;
            return Failed, sent;
          case Data(n) =>
            if data == [] {
              err := Closed;
              return Closed, 0;
            }
            var writed := Got(n, |data| - sent, data[sent..]);
            outgoing := outgoing + data[sent..sent + writed];
            SliceJoin(data, 0, sent, sent + writed);
            sent := sent + writed;
            if sent == |data| {
              return Done, sent;
            }
        }
      }
      return Pending, sent;
    }
  }
}
