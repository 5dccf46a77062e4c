/** Client and server seal under the same session keys, and both count from zero: when one pair of
    key and counter is used by both. */
module SharedCounters {
  import opened Wrappers
  import opened Logs
  import opened Crypto
  import opened Datagram
  import opened Session
  import SR = SessionRun
  import Client
  import opened Ratchet

  function PairOf(d: Datagram): (Key, nat) {
    if d.sealed.Sealed? then (d.sealed.key, d.sealed.counter) else (Raw(0), 0)
  }

  function Pairs(ds: seq<Datagram>): seq<(Key, nat)> {
    seq(|ds|, i requires 0 <= i < |ds| => PairOf(ds[i]))
  }

  /** What the client puts on the network in a step. */
  function Up(y: System, e: Event): seq<Datagram> {
    match e
    case ClientSend(viaUpload, content, size, eph, offset, tw) =>
      var pair := (if viaUpload then y.client.SendUpload() else y.client.SendControl()).1;
      if pair.None? then [] else
      var shared := viaUpload || (y.client.attached && y.client.upload.Some?);
      var keys := if shared then y.client.upload.value.keys else y.client.session.value;
      [SealedWith(keys, pair.value.1, content, size, eph, offset, tw)]
    case _ => []
  }

  /** What the server puts on the network in a step. */
  function Down(y: System, e: Event): seq<Datagram> {
    match e
    case ServerSend(content, size, tw) =>
      [SealedWith(y.server.keys, y.server.sendCounter, content, size, LowOrder, TAG_SIZE + MDH_LEN, tw)]
    case _ => []
  }

  ghost function UpLog(states: seq<System>, events: seq<Event>, n: nat): seq<Datagram>
    requires n <= |events| <= |states|
  {
    if n == 0 then [] else UpLog(states, events, n - 1) + Up(states[n - 1], events[n - 1])
  }

  ghost function DownLog(states: seq<System>, events: seq<Event>, n: nat): seq<Datagram>
    requires n <= |events| <= |states|
  {
    if n == 0 then [] else DownLog(states, events, n - 1) + Down(states[n - 1], events[n - 1])
  }

  // ---- What each sender's log looks like ------------------------------------------------------

  ghost predicate ClientLog(c: Client.ClientState, log: seq<(Key, nat)>) {
    Client.SentOnce(c, log) && Client.UsedUp(c, log)
  }

  ghost predicate ServerLog(s: SessionState, log: seq<(Key, nat)>) {
    && WindowExact(s) && SR.SentBelow(SR.Run(s, [], log)) && Client.FromZero(log)
    && (s.sendCounter > 0 ==> (s.keys.sessionKey, s.sendCounter - 1) in log)
  }

  /** The client's part of a step is one of its own steps, with what it sealed. */
  lemma ClientMoves(y: System, e: Event, log: seq<(Key, nat)>)
    requires ClientLog(y.client, log)
    ensures ClientLog(Step(y, e).client, log + Pairs(Up(y, e)))
  {
    hide Client.ClientState.Receive, Client.SentOnce, Client.UsedUp;
    var r := Client.Run(y.client, [], log);
    match e
    case ClientSend(viaUpload, content, size, eph, offset, tw) =>
      var own := if viaUpload then Client.UploadPacket else Client.ControlPacket;
      Client.StepKeepsSent(r, own);
      Client.StepKeepsUsed(r, own);
      SendIsOwn(y, e, log);
    case BeginUpload(seqNum) =>
      Client.StepKeepsSent(r, Client.BeginUpload(seqNum));
      Client.StepKeepsUsed(r, Client.BeginUpload(seqNum));
      assert log + Pairs([]) == log;
    case ToClient(d, mdhLen, now, tw) =>
      Client.ReceiveKeepsSent(y.client, log, d, mdhLen, now, tw);
      Client.ReceiveKeepsUsed(y.client, log, d, mdhLen, now, tw);
      assert log + Pairs([]) == log;
    case _ => assert log + Pairs([]) == log;
  }

  lemma SendIsOwn(y: System, e: Event, log: seq<(Key, nat)>)
    requires e.ClientSend?
    ensures var r := Client.Run(y.client, [], log).Step(if e.viaUpload then Client.UploadPacket
                                                        else Client.ControlPacket);
            Step(y, e).client == r.c && log + Pairs(Up(y, e)) == r.sent
  {
    var pair := (if e.viaUpload then y.client.SendUpload() else y.client.SendControl()).1;
    if pair.Some? {
      assert Pairs(Up(y, e)) == [pair.value];
    } else {
      assert log + Pairs([]) == log;
    }
  }

  lemma ServerMoves(y: System, e: Event, log: seq<(Key, nat)>)
    requires ServerLog(y.server, log)
    ensures ServerLog(Step(y, e).server, log + Pairs(Down(y, e)))
  {
    hide SR.SentBelow, WindowExact, SessionState.Accept, SessionState.ValidateTag;
    assert log + Pairs([]) == log;
    match e
    case ServerSend(_, _, _) => ServerSends(y, e, log);
    case ToServer(d, isNew, from, tw) => ServerHears(y.server, SR.Receive(d, isNew, from, tw), log);
    case Recover(d, from, tw) => ServerHears(y.server, SR.Recovered(d, from, tw), log);
    case Refresh(tw) => ServerHears(y.server, SR.Refresh(tw), log);
    case _ =>
  }

  lemma ServerSends(y: System, e: Event, log: seq<(Key, nat)>)
    requires ServerLog(y.server, log) && e.ServerSend?
    ensures ServerLog(Step(y, e).server, log + Pairs(Down(y, e)))
  {
    hide SR.SentBelow, WindowExact;
    var p := (y.server.keys.sessionKey, y.server.sendCounter);
    SR.StepKeepsNonces(SR.Run(y.server, [], log), SR.Send);
    SR.StepKeepsWindow(SR.Run(y.server, [], log), SR.Send);
    Client.UseNext(log, p);
    assert Pairs(Down(y, e)) == [p];
  }

  /** Hearing something seals nothing; a ratchet starts a new key at zero. */
  lemma ServerHears(s: SessionState, e: SR.Event, log: seq<(Key, nat)>)
    requires ServerLog(s, log) && !e.Send?
    ensures ServerLog(SR.Run(s, [], []).Step(e).s, log)
  {
    hide SR.SentBelow, WindowExact, SessionState.Accept, SessionState.ValidateTag;
    var r := SR.Run(s, [], log);
    SR.StepKeepsNonces(r, e);
    SR.StepKeepsWindow(r, e);
    HearingKeepsCounter(s, e, log);
    OnlySent(r.Step(e));
  }

  lemma OnlySent(r: SR.Run)
    requires SR.SentBelow(r)
    ensures SR.SentBelow(SR.Run(r.s, [], r.sent))
  {}

  lemma HearingKeepsCounter(s: SessionState, e: SR.Event, log: seq<(Key, nat)>)
    requires WindowExact(s) && !e.Send?
    ensures var s' := SR.Run(s, [], log).Step(e).s;
            && s' == SR.Run(s, [], []).Step(e).s && SR.Run(s, [], log).Step(e).sent == log
            && (s'.sendCounter == 0 || (s'.keys == s.keys && s'.sendCounter == s.sendCounter))
  {
    hide SessionState.Accept, SessionState.ValidateTag, WindowExact, TagsFor;
    match e
    case Refresh(tw) =>
    case Receive(d, isNew, from, tw) =>
      var v := s.ValidateTag(d.tag, tw);
      if v.Some? {
        AcceptAndKeys(s, d, v.value.0, v.value.1, isNew, from, tw);
      }
    case Recovered(d, from, tw) =>
      RecoverKeepsWindow(s, d.tag.counter, tw);
      AcceptAndKeys(s.Recover(d.tag.counter, tw), d, d.tag.counter, false, false, from, tw);
  }

  // ---- Every run ----------------------------------------------------------------------------------

  ghost predicate Logged(y: System, up: seq<Datagram>, down: seq<Datagram>) {
    && ClientLog(y.client, Pairs(up)) && ServerLog(y.server, Pairs(down))
    && (forall d :: d in y.net <==> d in up || d in down)
  }

  lemma PairsAppend(a: seq<Datagram>, b: seq<Datagram>)
    ensures Pairs(a + b) == Pairs(a) + Pairs(b)
  {}

  lemma StepLogs(y: System, e: Event, up: seq<Datagram>, down: seq<Datagram>)
    requires Logged(y, up, down)
    ensures Logged(Step(y, e), up + Up(y, e), down + Down(y, e))
  {
    PairsAppend(up, Up(y, e));
    PairsAppend(down, Down(y, e));
    ClientMoves(y, e, Pairs(up));
    ServerMoves(y, e, Pairs(down));
    NetGrows(y, e);
    hide Pairs, ClientLog, ServerLog, Up, Down, Step;
    forall d
      ensures d in Step(y, e).net <==> d in up + Up(y, e) || d in down + Down(y, e)
    {}
  }

  lemma NetGrows(y: System, e: Event)
    ensures forall d :: d in Step(y, e).net <==> d in y.net || d in Up(y, e) || d in Down(y, e)
  {
    hide SealedWith, Client.ClientState.Receive, Client.ClientState.SendUpload, Client.ClientState.SendControl,
         SR.Run.Step;
  }

  lemma {:induction false} RunLogs(p: Parties, states: seq<System>, events: seq<Event>, n: nat)
    requires IsRun(p, states, events) && n <= |events|
    ensures Logged(states[n], UpLog(states, events, n), DownLog(states, events, n))
    decreases n
  {
    hide Step, Start, Enabled, Logged;
    if n == 0 {
      StartLogs(p, states[0]);
    } else {
      RunLogs(p, states, events, n - 1);
      assert states[n - 1 + 1] == Step(states[n - 1], events[n - 1]);
      StepLogs(states[n - 1], events[n - 1], UpLog(states, events, n - 1), DownLog(states, events, n - 1));
    }
  }

  lemma StartLogs(p: Parties, y: System)
    requires Start(p, y)
    ensures Logged(y, [], [])
  {
    StartsIn(p, y);
    StartServer(p, y);
    hide Start, WindowExact;
    assert Pairs([]) == [];
  }

  /** Some datagram of each log is sealed under the key. */
  ghost predicate Uses(log: seq<Datagram>, key: Key) {
    exists d :: d in log && PairOf(d).0 == key
  }

  lemma PairIn(log: seq<Datagram>, p: (Key, nat)) returns (d: Datagram)
    requires p in Pairs(log)
    ensures d in log && PairOf(d) == p
  {
    var i :| 0 <= i < |Pairs(log)| && Pairs(log)[i] == p;
    d := log[i];
  }

  lemma InPairs(log: seq<Datagram>, d: Datagram)
    requires d in log
    ensures PairOf(d) in Pairs(log)
  {
    var i :| 0 <= i < |log| && log[i] == d;
    assert Pairs(log)[i] == PairOf(d);
  }

  lemma {:induction false} DownToZero(log: seq<(Key, nat)>, key: Key, c: nat)
    requires Client.FromZero(log) && (key, c) in log
    ensures (key, 0) in log
    decreases c
  {
    if c > 0 {
      DownToZero(log, key, c - 1);
    }
  }

  lemma OneDatagramPerPair(log: seq<Datagram>, d: Datagram, d': Datagram)
    requires NoRepeats(Pairs(log)) && d in log && d' in log && PairOf(d) == PairOf(d')
    ensures d == d'
  {
    var i :| 0 <= i < |log| && log[i] == d;
    var j :| 0 <= j < |log| && log[j] == d';
    assert Pairs(log)[i] == Pairs(log)[j];
  }

  /** Over every run the two senders use one pair of key and counter both, if and only if both
      have sealed under one key at all; and then it is the key with counter 0.  Different
      datagrams with the same pair always come one from each. */
  lemma SharedExactly(p: Parties, states: seq<System>, events: seq<Event>, key: Key)
    requires IsRun(p, states, events)
    ensures var n := |events|;
            var (up, down) := (UpLog(states, events, n), DownLog(states, events, n));
            && ((exists d, d' :: d in up && d' in down && PairOf(d) == PairOf(d') && PairOf(d).0 == key)
                <==> Uses(up, key) && Uses(down, key))
            && (Uses(up, key) && Uses(down, key) ==> (key, 0) in Pairs(up) && (key, 0) in Pairs(down))
            && (forall d, d' :: d in states[n].net && d' in states[n].net && d != d' && PairOf(d) == PairOf(d') ==>
                  (d in up && d' in down) || (d in down && d' in up))
  {
    hide Step, Start, Enabled, Pairs, UpLog, DownLog, PairOf, Client.Sealing;
    var n := |events|;
    RunLogs(p, states, events, n);
    var (up, down) := (UpLog(states, events, n), DownLog(states, events, n));
    forall d, d' | d in states[n].net && d' in states[n].net && d != d' && PairOf(d) == PairOf(d')
      ensures (d in up && d' in down) || (d in down && d' in up)
    {
      if d in up && d' in up {
        OneDatagramPerPair(up, d, d');
      }
      if d in down && d' in down {
        OneDatagramPerPair(down, d, d');
      }
    }
    if Uses(up, key) && Uses(down, key) {
      BothAtZero(up, key);
      BothAtZero(down, key);
      var a := PairIn(up, (key, 0));
      var b := PairIn(down, (key, 0));
      assert PairOf(a) == PairOf(b) && PairOf(a).0 == key;
    }
  }

  lemma BothAtZero(log: seq<Datagram>, key: Key)
    requires Client.FromZero(Pairs(log)) && Uses(log, key)
    ensures (key, 0) in Pairs(log)
  {
    var d :| d in log && PairOf(d).0 == key;
    InPairs(log, d);
    DownToZero(Pairs(log), key, PairOf(d).1);
  }
}
