/** The slave's connection state machine: which handler runs in which state, and what a failure leaves behind. */
module SlaveState {
  datatype ReplState = NONE | CONNECT | CONNECTING | RECEIVE_PONG | WAIT_BGSAVE | TRANSFOR | CONNECTED

  /** What the read watcher calls, if it is active. */
  datatype Reader = Off | Sync | Bulk

  /** `host`: a master is configured; `link`: the master link object exists; `writer`: the write watcher of the
      handshake is active; `rio`: the watcher of the incremental stream was started and not closed. `pong` records
      that the current link answered PING, and `failed` that an assertion of the program, or the use of a missing
      link, has brought the process down. */
  datatype Slave = Slave(state: ReplState, host: bool, link: bool, reader: Reader, writer: bool, rio: bool,
                         pong: bool, failed: bool)

  const FRESH := Slave(NONE, false, false, Off, false, false, false, false)

  datatype Reply = Refused | FullSync | PartSync

  datatype Outcome = Progress | IoError | RenameFailed | Complete

  /** Events: a SLAVEOF command; the cron, with what has timed out; a handshake event, with the socket error, whether
      a PONG was read and the reply to PSYNC; a bulk event; the incremental stream being closed by a read error. */
  datatype Event =
    | Slaveof
    | Cron(transferTimeout: bool, masterTimeout: bool)
    | OnSync(sockerr: bool, gotPong: bool, reply: Reply)
    | OnBulk(outcome: Outcome)
    | StreamLost

  function Fail(s: Slave): Slave {
    s.(failed := true)
  }

  function Undo(s: Slave): Slave {
    if s.state != CONNECTING && s.state != RECEIVE_PONG then Fail(s)
    else s.(reader := Off, writer := false, state := CONNECT)
  }

  function Abort(s: Slave): Slave {
    if s.state != TRANSFOR then Fail(s) else s.(reader := Off, state := CONNECT)
  }

  function ConnectMaster(s: Slave): Slave {
    s.(link := true, reader := Sync, writer := true, rio := false, pong := false, state := CONNECTING)
  }

  function CronStep(s: Slave, transferTimeout: bool, masterTimeout: bool): Slave {
    var s1 := if s.host && (s.state == CONNECTING || s.state == RECEIVE_PONG) && transferTimeout then Undo(s) else s;
    var s2 := if s1.host && s1.state == TRANSFOR && transferTimeout then Abort(s1) else s1;
    var s3 :=
      if s2.host && s2.state == CONNECTED then
        if !s2.link then Fail(s2)
        else if masterTimeout then s2.(rio := false, state := CONNECT)
        else s2
      else s2;
    if s3.host && s3.state == CONNECT then ConnectMaster(s3) else s3
  }

  /** The error exit of the handshake. */
  function Close(s: Slave): Slave {
    if !s.link then Fail(s) else s.(rio := false, state := CONNECT)
  }

  function SyncStep(s: Slave, sockerr: bool, gotPong: bool, reply: Reply): Slave {
    if s.state == NONE then (if s.link then s.(rio := false) else Fail(s))
    else if sockerr then Close(s.(reader := Off, writer := false))
    else if s.state == CONNECTING then (if s.link then s.(state := RECEIVE_PONG, writer := false) else Fail(s))
    else
      var s1 := if s.state == RECEIVE_PONG then s.(reader := Off, pong := gotPong) else s;
      if s.state == RECEIVE_PONG && !gotPong then Close(s1)
      else Resync(s1, reply)
  }

  /** PSYNC and what its reply leads to. */
  function Resync(s: Slave, reply: Reply): Slave {
    if !s.link then Fail(s)
    else
      match reply
      case Refused => Close(s)
      case FullSync => s.(state := TRANSFOR, reader := Bulk)
      case PartSync => s.(state := CONNECTED, rio := true)
  }

  function BulkStep(s: Slave, outcome: Outcome): Slave {
    match outcome
    case Progress => s
    case IoError => Abort(s)
    case RenameFailed => Abort(s)
    case Complete => if s.link then s.(reader := Off, state := CONNECTED, rio := true) else Fail(s)
  }

  /** Whether an event can occur: a handler runs only while its watcher is active. */
  predicate Enabled(s: Slave, e: Event) {
    !s.failed &&
    match e
    case OnSync(_, _, _) => s.reader == Sync || s.writer
    case OnBulk(_) => s.reader == Bulk
    case StreamLost => s.rio
    case _ => true
  }

  function Step(s: Slave, e: Event): Slave {
    match e
    case Slaveof => s.(state := CONNECT, host := true)
    case Cron(t, m) => CronStep(s, t, m)
    case OnSync(err, pong, reply) => SyncStep(s, err, pong, reply)
    case OnBulk(outcome) => BulkStep(s, outcome)
    case StreamLost => s.(rio := false)
  }

  /** What an event leads to, if its handler runs. */
  function After(s: Slave, e: Event): Slave {
    if Enabled(s, e) then Step(s, e) else s
  }

  function Run(s: Slave, events: seq<Event>): Slave
    decreases |events|
  {
    if events == [] then s else Run(After(s, events[0]), events[1..])
  }

  // ---- What holds in which state, and which moves there are ----

  /** Handler, watchers and link go with the state, and no assertion has failed. */
  predicate Inv(s: Slave) {
    && !s.failed
    && (s.state == NONE || s.state == CONNECT ==> s.reader == Off && !s.writer)
    && (s.state == CONNECTING ==> s.link && s.reader == Sync && s.writer && !s.pong)
    && (s.state == RECEIVE_PONG ==> s.link && s.reader == Sync && !s.writer && !s.pong)
    && (s.state == TRANSFOR ==> s.link && s.reader == Bulk && !s.writer && s.pong)
    && (s.state == CONNECTED ==> s.link && s.reader == Off && !s.writer && s.pong)
    && s.state != WAIT_BGSAVE
    && (s.state != NONE ==> s.host)
  }

  /** SLAVEOF arrives while no handshake or transfer is under way. */
  predicate Calm(s: Slave, e: Event) {
    e.Slaveof? ==> s.reader == Off && !s.writer
  }

  predicate Handshake(s: Slave) {
    s.state == CONNECTING || s.state == RECEIVE_PONG
  }

  /** A connection attempt from the start: PING is still to be sent. */
  predicate StartsOver(s: Slave) {
    s.state == CONNECTING && s.link && s.reader == Sync && s.writer && !s.rio && !s.pong
  }

  /** Back to connecting, with no watcher left. */
  predicate BackToConnect(s: Slave) {
    s.state == CONNECT && s.reader == Off && !s.writer && !s.failed
  }

  /** The moves of the protocol and what it takes to make them: a slave goes online from a handshake that got its PONG
      and a partial reply, or from a complete transfer; a transfer begins after a PONG and a full reply; every handled
      failure goes back to connecting and every timeout starts over. */
  predicate Moves(s: Slave, e: Event, s': Slave) {
    match e
    case Slaveof => s' == s.(state := CONNECT, host := true)
    case Cron(transferTimeout, masterTimeout) =>
      if s.state == CONNECT || (transferTimeout && (Handshake(s) || s.state == TRANSFOR)) ||
         (masterTimeout && s.state == CONNECTED)
      then StartsOver(s') else s' == s
    case OnSync(sockerr, gotPong, reply) =>
      Handshake(s) &&
      (if sockerr then BackToConnect(s')
       else if s.state == CONNECTING then s' == s.(state := RECEIVE_PONG, writer := false)
       else if !gotPong || reply == Refused then BackToConnect(s')
       else if reply == FullSync then s'.state == TRANSFOR && s'.reader == Bulk
       else s'.state == CONNECTED && s'.rio)
    case OnBulk(outcome) =>
      s.state == TRANSFOR &&
      (if outcome == Progress then s' == s
       else if outcome == Complete then s'.state == CONNECTED && s'.rio else BackToConnect(s'))
    case StreamLost => s' == s.(rio := false)
  }

  // ---- The handlers ----

  /** What every handler guarantees: it takes a sound state to a sound one, by a move of the protocol. */
  predicate Keeps(s: Slave, e: Event, s': Slave) {
    Inv(s) && Enabled(s, e) && Calm(s, e) ==> Inv(s') && Moves(s, e, s')
  }

  lemma SyncOutcome(s: Slave, sockerr: bool, gotPong: bool, reply: Reply)
    ensures var e := OnSync(sockerr, gotPong, reply);
            var s' := Step(s, e);
            && Keeps(s, e, s')
            && (Inv(s) && Handshake(s) ==>
                  && (BackToConnect(s') <==> sockerr || (s.state == RECEIVE_PONG && (!gotPong || reply == Refused)))
                  && (s'.state == RECEIVE_PONG <==> !sockerr && s.state == CONNECTING)
                  && (s'.state == TRANSFOR <==> !sockerr && s.state == RECEIVE_PONG && gotPong && reply == FullSync)
                  && (s'.state == CONNECTED <==> !sockerr && s.state == RECEIVE_PONG && gotPong && reply == PartSync))
  {
  }

  lemma CronOutcome(s: Slave, transferTimeout: bool, masterTimeout: bool)
    ensures var e := Cron(transferTimeout, masterTimeout);
            var s' := Step(s, e);
            && Keeps(s, e, s')
            && (Inv(s) && transferTimeout && s.state in {CONNECTING, RECEIVE_PONG, TRANSFOR} ==> StartsOver(s'))
            && (Inv(s) && masterTimeout && s.state == CONNECTED ==> StartsOver(s'))
            && (Inv(s) && s.state == CONNECT ==> StartsOver(s'))
            && (Inv(s) && !transferTimeout && !masterTimeout && s.state != CONNECT ==> s' == s)
  {
  }

  class Handlers {
    var s: Slave

    constructor ()
      ensures s == FRESH && Inv(s)
    {
      s := FRESH;
    }

    /** The event loop: every event whose watcher is active is handled. On every run that is calm no assertion fails. */
    method Loop(events: seq<Event>)
      modifies this
      ensures s == Run(old(s), events)
      ensures old(Inv(s)) && AllCalm(old(s), events) ==> Inv(s)
    {
      assert events[0..] == events;
      for i := 0 to |events|
        invariant Run(s, events[i..]) == Run(old(s), events)
        invariant old(Inv(s)) && AllCalm(old(s), events) ==> Inv(s) && AllCalm(s, events[i..])
      {
        assert events[i..][0] == events[i] && events[i..][1..] == events[i + 1..];
        Dispatch(events[i]);
      }
    }

    method Dispatch(e: Event)
      modifies this
      ensures s == After(old(s), e) && Keeps(old(s), e, s)
      ensures !old(Enabled(s, e)) ==> s == old(s)
    {
      if Enabled(s, e) {
        match e {
          case Slaveof => CommandSlaveof();
          case Cron(t, m) => OnReplCron(t, m);
          case OnSync(err, pong, reply) => OnSyncWithMaster(err, pong, reply);
          case OnBulk(outcome) => OnReadSyncBulkPayload(outcome);
          case StreamLost => s := s.(rio := false);
        }
      }
    }

    /** The SLAVEOF command, whatever the state was. It leaves a sound state exactly if no watcher of a handshake or
        transfer is active, because it stops none. */
    method CommandSlaveof()
      modifies this
      ensures s == Step(old(s), Slaveof) && s.state == CONNECT && s.host
      ensures old(Inv(s)) ==> (Inv(s) <==> old(s.reader) == Off)
    {
      s := s.(state := CONNECT);
      s := s.(host := true);
    }

    /** The cron: a handshake, transfer or connection that has timed out starts over, and so does a CONNECT; otherwise
        nothing changes. */
    method OnReplCron(transferTimeout: bool, masterTimeout: bool)
      requires !s.failed
      modifies this
      ensures s == Step(old(s), Cron(transferTimeout, masterTimeout))
      ensures Keeps(old(s), Cron(transferTimeout, masterTimeout), s)
      ensures old(Inv(s)) && transferTimeout && old(s.state in {CONNECTING, RECEIVE_PONG, TRANSFOR}) ==> StartsOver(s)
      ensures old(Inv(s)) && masterTimeout && old(s.state) == CONNECTED ==> StartsOver(s)
      ensures old(Inv(s)) && old(s.state) == CONNECT ==> StartsOver(s)
      ensures old(Inv(s)) && !transferTimeout && !masterTimeout && old(s.state) != CONNECT ==> s == old(s)
    {
      CronOutcome(s, transferTimeout, masterTimeout);
      hide Inv, Keeps, Moves, BackToConnect, Handshake, Enabled, StartsOver;
      if s.host && (s.state == CONNECTING || s.state == RECEIVE_PONG) && transferTimeout {
        UndoConnectMaster();
      }
      if s.host && s.state == TRANSFOR && transferTimeout {
        AbortSyncTransfer();
      }
      if s.host && s.state == CONNECTED {
        if !s.link {
          s := Fail(s);
        } else if masterTimeout {
          s := s.(rio := false, state := CONNECT);
        }
      }
      if s.host && s.state == CONNECT {
        s := s.(link := true, rio := false, pong := false);
        s := s.(reader := Sync, writer := true);
        s := s.(state := CONNECTING);
      }
    }

    /** Gives up a handshake. Its assertion fails exactly outside one; in a sound state it leads back to connecting. */
    method UndoConnectMaster()
      modifies this
      ensures s == Undo(old(s))
      ensures s.failed <==> old(s.failed) || !old(Handshake(s))
      ensures old(Inv(s)) && old(Handshake(s)) ==> Inv(s) && BackToConnect(s)
    {
      if s.state != CONNECTING && s.state != RECEIVE_PONG {
        s := Fail(s);
        return;
      }
      s := s.(reader := Off);
      s := s.(writer := false);
      s := s.(state := CONNECT);
    }

    /** Gives up a transfer. Its assertion fails exactly outside one; in a sound state it leads back to connecting. */
    method AbortSyncTransfer()
      modifies this
      ensures s == Abort(old(s))
      ensures s.failed <==> old(s.failed) || old(s.state) != TRANSFOR
      ensures old(Inv(s)) && old(s.state) == TRANSFOR ==> Inv(s) && BackToConnect(s)
    {
      if s.state != TRANSFOR {
        s := Fail(s);
        return;
      }
      s := s.(reader := Off);
      s := s.(state := CONNECT);
    }

    /** One event of the handshake. From a sound state: a socket error, a missing PONG and a refusal lead back to
        connecting; PING is sent once, and only a PONG with an accepted PSYNC leads further. */
    method OnSyncWithMaster(sockerr: bool, gotPong: bool, reply: Reply)
      modifies this
      ensures s == Step(old(s), OnSync(sockerr, gotPong, reply)) && Keeps(old(s), OnSync(sockerr, gotPong, reply), s)
      ensures old(Inv(s)) && old(Handshake(s)) ==>
                && (BackToConnect(s) <==>
                      sockerr || (old(s.state) == RECEIVE_PONG && (!gotPong || reply == Refused)))
                && (s.state == RECEIVE_PONG <==> !sockerr && old(s.state) == CONNECTING)
                && (s.state == TRANSFOR <==> !sockerr && old(s.state) == RECEIVE_PONG && gotPong && reply == FullSync)
                && (s.state == CONNECTED <==> !sockerr && old(s.state) == RECEIVE_PONG && gotPong && reply == PartSync)
    {
      SyncOutcome(s, sockerr, gotPong, reply);
      hide Inv, Keeps, Moves, BackToConnect, Handshake, Enabled;
      if s.state == NONE {
        s := if s.link then s.(rio := false) else Fail(s);
        return;
      }
      if sockerr {
        s := s.(reader := Off, writer := false);
        CloseMaster();
        return;
      }
      if s.state == CONNECTING {
        s := if s.link then s.(state := RECEIVE_PONG, writer := false) else Fail(s);
        return;
      }
      if s.state == RECEIVE_PONG {
        s := s.(reader := Off, pong := gotPong);
        if !gotPong {
          CloseMaster();
          return;
        }
      }
      TryPartialResynchronization(reply);
    }

    /** PSYNC. On a link that has answered PING every reply leaves a sound state: a full one a transfer with its watcher,
        a partial one an open stream, anything else no watcher. */
    method TryPartialResynchronization(reply: Reply)
      modifies this
      ensures s == Resync(old(s), reply)
      ensures old(s.link && s.pong && s.host && s.reader == Off && !s.writer && !s.failed) ==>
                && Inv(s)
                && (s.state == TRANSFOR <==> reply == FullSync)
                && (s.state == CONNECTED <==> reply == PartSync)
                && (reply == PartSync ==> s.rio)
                && (BackToConnect(s) <==> reply == Refused)
    {
      if !s.link {
        s := Fail(s);
      } else if reply == FullSync {
        s := s.(state := TRANSFOR, reader := Bulk);
      } else if reply == PartSync {
        s := s.(state := CONNECTED, rio := true);
      } else {
        CloseMaster();
      }
    }

    /** The error exit: it needs a link, closes its stream and returns to CONNECT, which is sound once the watchers of
        the handshake are stopped. */
    method CloseMaster()
      modifies this
      ensures s == Close(old(s))
      ensures s.failed <==> old(s.failed) || !old(s.link)
      ensures old(s.link && !s.failed && s.host && s.reader == Off && !s.writer) ==> Inv(s) && BackToConnect(s) && !s.rio
    {
      if !s.link {
        s := Fail(s);
        return;
      }
      s := s.(rio := false);
      s := s.(state := CONNECT);
    }

    /** One readable event of a transfer: a complete file takes the slave online with the stream open, an error or a
        failed rename back to connecting. */
    method OnReadSyncBulkPayload(outcome: Outcome)
      modifies this
      ensures s == Step(old(s), OnBulk(outcome)) && Keeps(old(s), OnBulk(outcome), s)
      ensures old(Inv(s)) && old(s.state) == TRANSFOR ==>
                && Inv(s)
                && (s.state == CONNECTED <==> outcome == Complete) && (outcome == Complete ==> s.rio)
                && (BackToConnect(s) <==> outcome == IoError || outcome == RenameFailed)
                && (outcome == Progress ==> s == old(s))
    {
      if outcome == IoError || outcome == RenameFailed {
        AbortSyncTransfer();
      } else if outcome == Complete {
        if s.link {
          s := s.(reader := Off);
          s := s.(state := CONNECTED, rio := true);
        } else {
          s := Fail(s);
        }
      }
    }
  }

  // ---- Runs ----

  predicate AllCalm(s: Slave, events: seq<Event>)
    decreases |events|
  {
    events == [] || (Calm(s, events[0]) && AllCalm(After(s, events[0]), events[1..]))
  }

  /** The states of a run. */
  function Trace(s: Slave, events: seq<Event>): (r: seq<Slave>)
    ensures |r| == |events| + 1 && r[0] == s
    decreases |events|
  {
    [s] + if events == [] then [] else Trace(After(s, events[0]), events[1..])
  }

  lemma StepKeeps(s: Slave, e: Event)
    requires Inv(s) && Enabled(s, e) && Calm(s, e)
    ensures Inv(Step(s, e)) && Moves(s, e, Step(s, e))
  {
  }

  /** Main result on the state machine: on every run without a SLAVEOF in the middle of a handshake or transfer no
      assertion fails, every state has the link and the watcher it needs, and every step is a move of the protocol. */
  lemma {:induction false} RunKeeps(s: Slave, events: seq<Event>)
    requires Inv(s) && AllCalm(s, events)
    ensures Inv(Run(s, events)) && Trace(s, events)[|events|] == Run(s, events)
    ensures var r := Trace(s, events);
            forall i :: 0 <= i < |events| ==>
                          && Inv(r[i])
                          && (if Enabled(r[i], events[i]) then Moves(r[i], events[i], r[i + 1]) else r[i + 1] == r[i])
    decreases |events|
  {
    hide Inv, Moves, Step, Enabled, Calm;
    if events != [] {
      var e := events[0];
      if Enabled(s, e) {
        StepKeeps(s, e);
      }
      RunKeeps(After(s, e), events[1..]);
      var r, later := Trace(s, events), Trace(After(s, e), events[1..]);
      forall i | 0 <= i < |events|
        ensures Inv(r[i])
        ensures if Enabled(r[i], events[i]) then Moves(r[i], events[i], r[i + 1]) else r[i + 1] == r[i]
      {
        assert r[i + 1] == later[i];
        if i > 0 {
          assert r[i] == later[i - 1] && events[i] == events[1..][i - 1];
        }
      }
    }
  }

  /** What the protocol promises: no assertion fails, and a slave transfers or is online only on a link that has
      answered PING. */
  predicate Safe(s: Slave) {
    !s.failed && (s.state == TRANSFOR || s.state == CONNECTED ==> s.pong)
  }

  lemma OneEvent(s: Slave, e: Event)
    requires Enabled(s, e)
    ensures Run(s, [e]) == Step(s, e) && (AllCalm(s, [e]) <==> Calm(s, e))
  {
    assert [e][1..] == [];
  }

  /** The hypothesis is exact: in a reachable state a SLAVEOF is harmless, whatever follows it, if and only if no
      handshake or transfer is under way. In a transfer it makes the next I/O error fail an assertion; in a handshake
      it lets the slave go online on a link that never answered PING. */
  lemma SlaveofHarmless(s: Slave)
    requires Inv(s)
    ensures (forall events :: AllCalm(Step(s, Slaveof), events) ==> Safe(Run(Step(s, Slaveof), events))) <==>
            s.reader == Off
  {
    var t := Step(s, Slaveof);
    if s.reader == Off {
      forall events | AllCalm(t, events)
        ensures Safe(Run(t, events))
      {
        RunKeeps(t, events);
      }
    } else {
      var e := if s.reader == Bulk then OnBulk(IoError) else OnSync(false, false, PartSync);
      var events := [e];
      assert Enabled(t, e) && events[1..] == [];
      OneEvent(t, e);
      assert AllCalm(t, events) && !Safe(Run(t, events));
    }
  }
}
