/**
 * The client side of geerpc/client.go: the table of pending calls keyed by
 * sequence number, the shutdown flags, the decision the receive loop takes
 * for each response header, the `protocol@addr` address format and the
 * defaulting of dial options. A call's completion (the send on its Done
 * channel) is recorded by appending it to `completed`; what the codec reads
 * from the connection arrives as a sequence of incoming frames.
 */
module RpcClient {
  import opened Wrappers
  import opened GoStrings
  import opened GoFmt
  import RpcServer

  const ErrShutdown: string := "connection is shut down"

  /** A call in flight: its sequence number and the `Service.Method` it invokes (arguments and reply are opaque). */
  datatype Call = Call(seqNo: nat, serviceMethod: string)

  /** A completed call and the error it was completed with, if any. */
  datatype Completion = Completion(call: Call, error: Option<string>)

  /** What one iteration of receive reads: a header that fails to decode, or a header and the outcome of reading its body. */
  datatype Incoming = ReadFailed(err: string) | Incoming(header: RpcServer.Header, bodyErr: Option<string>)

  /** The pending table, the completions so far and the loop's error, after some frames. */
  datatype Step = Step(pending: map<nat, Call>, done: seq<Completion>, err: Option<string>)

  /** The sequence numbers of the calls in `done`. */
  ghost function Seqs(done: seq<Completion>): set<nat> {
    set j | 0 <= j < |done| :: done[j].call.seqNo
  }

  lemma SeqsAppend(a: seq<Completion>, b: seq<Completion>)
    ensures Seqs(a + b) == Seqs(a) + Seqs(b)
  {
    var ab := a + b;
    forall s | s in Seqs(a) ensures s in Seqs(ab) {
      var j :| 0 <= j < |a| && a[j].call.seqNo == s;
      assert ab[j] == a[j];
    }
    forall s | s in Seqs(b) ensures s in Seqs(ab) {
      var j :| 0 <= j < |b| && b[j].call.seqNo == s;
      assert ab[|a| + j] == b[j];
    }
  }

  /** No call completes twice: the completions in `done` are of distinct sequence numbers. */
  ghost predicate CompletedOnce(done: seq<Completion>) {
    forall i, j :: 0 <= i < j < |done| ==> done[i].call.seqNo != done[j].call.seqNo
  }

  /** Every call is filed under its own sequence number. */
  ghost predicate Filed(pending: map<nat, Call>) {
    forall k :: k in pending ==> pending[k].seqNo == k
  }

  /** Every call of `done` was pending under its own sequence number. */
  ghost predicate FromPending(pending: map<nat, Call>, done: seq<Completion>) {
    forall j :: 0 <= j < |done| ==> done[j].call.seqNo in pending && pending[done[j].call.seqNo] == done[j].call
  }

  /** The calls of `pending` each completed exactly once with `err` by terminateCalls, in any order. */
  ghost predicate Terminated(pending: map<nat, Call>, err: string, done: seq<Completion>) {
    && |done| == |pending|
    && Seqs(done) == pending.Keys
    && CompletedOnce(done)
    && FromPending(pending, done)
    && (forall j :: 0 <= j < |done| ==> done[j].error == Some(err))
  }

  /**
   * One iteration of receive: a header that cannot be read ends the loop
   * with that error; otherwise the call is taken out of the table. An
   * unknown sequence number has its body discarded; a header carrying an
   * error completes the call with it, read as a format by fmt.Errorf, and
   * ends the loop; otherwise the body is read into the reply and the call
   * completes, with "read body error: " when that read failed
   * (client.go:75-94).
   */
  function ReceiveOne(pending: map<nat, Call>, f: Incoming): (s: Step)
    requires Filed(pending)
    ensures s.pending.Keys + Seqs(s.done) == pending.Keys
    ensures s.pending.Keys !! Seqs(s.done)
    ensures FromPending(pending, s.done) && |s.done| <= 1 && CompletedOnce(s.done)
    ensures forall k :: k in s.pending ==> s.pending[k] == pending[k]
    ensures s.err.None? ==> f.Incoming? && f.bodyErr.None? && (f.header.seqNo !in pending || f.header.error == "")
    ensures f.ReadFailed? ==> s == Step(pending, [], Some(f.err))
    ensures f.Incoming? && f.header.seqNo !in pending ==> s == Step(pending, [], f.bodyErr)
    ensures f.Incoming? && f.header.seqNo in pending ==> s.pending == pending - {f.header.seqNo}
    ensures f.Incoming? && f.header.seqNo in pending && f.header.error != "" ==>
              var e := Sprintf(f.header.error, []);
              s.done == [Completion(pending[f.header.seqNo], Some(e))] && s.err == Some(e)
    ensures f.Incoming? && f.header.seqNo in pending && f.header.error == "" ==>
              && s.err == f.bodyErr
              && s.done == [Completion(pending[f.header.seqNo],
                                       if f.bodyErr.Some? then Some("read body error: " + f.bodyErr.value) else None)]
  {
    match f
    case ReadFailed(e) => Step(pending, [], Some(e))
    case Incoming(h, bodyErr) =>
      var rest := pending - {h.seqNo};
      if h.seqNo !in pending then Step(rest, [], bodyErr)
      else
        var call := pending[h.seqNo];
        var err := if h.error != "" then Some(Sprintf(h.error, []))
                   else if bodyErr.Some? then Some("read body error: " + bodyErr.value) else None;
        SeqsSingle(Completion(call, err));
        assert rest.Keys + {h.seqNo} == pending.Keys;
        Step(rest, [Completion(call, err)], if h.error != "" then err else bodyErr)
  }

  /** A header error free of '%' reaches the call and the loop unchanged by fmt.Errorf. */
  lemma HeaderErrorVerbatim(pending: map<nat, Call>, h: RpcServer.Header, bodyErr: Option<string>)
    requires Filed(pending) && h.seqNo in pending && h.error != "" && '%' !in h.error
    ensures ReceiveOne(pending, Incoming(h, bodyErr)).done == [Completion(pending[h.seqNo], Some(h.error))]
    ensures ReceiveOne(pending, Incoming(h, bodyErr)).err == Some(h.error)
  {
    SprintfPlain(h.error);
  }

  /** A header error ending in a lone '%' is not a valid format: fmt.Errorf appends "%!(NOVERB)" to it. */
  lemma HeaderErrorTrailingPercent(pending: map<nat, Call>, h: RpcServer.Header, bodyErr: Option<string>, before: string)
    requires Filed(pending) && h.seqNo in pending && h.error == before + "%" && '%' !in before
    ensures ReceiveOne(pending, Incoming(h, bodyErr)).err == Some(before + "%!(NOVERB)")
  {
    SprintfTrailingPercent(before);
  }

  /**
   * The whole receive loop over the frames the connection yields; when they
   * run out the header read fails with "EOF". Every call that was pending is
   * either still pending or completed exactly once, and the loop always
   * leaves with an error.
   */
  function ReceiveAll(pending: map<nat, Call>, frames: seq<Incoming>): (s: Step)
    requires Filed(pending)
    ensures s.err.Some?
    ensures s.pending.Keys + Seqs(s.done) == pending.Keys
    ensures s.pending.Keys !! Seqs(s.done)
    ensures FromPending(pending, s.done) && CompletedOnce(s.done)
    ensures forall k :: k in s.pending ==> s.pending[k] == pending[k]
    decreases |frames|
  {
    if frames == [] then Step(pending, [], Some("EOF"))
    else
      var s1 := ReceiveOne(pending, frames[0]);
      if s1.err.Some? then s1
      else
        var s2 := ReceiveAll(s1.pending, frames[1..]);
        ComposeSteps(pending, s1, s2);
        Step(s2.pending, s1.done + s2.done, s2.err)
  }

  lemma SeqsSingle(c: Completion)
    ensures Seqs([c]) == {c.call.seqNo}
  {
    assert [c][0] == c;
  }

  /** Two stretches of the loop, each accounting for the calls it started with, account together for the first table. */
  lemma ComposeSteps(pending: map<nat, Call>, s1: Step, s2: Step)
    requires s1.pending.Keys + Seqs(s1.done) == pending.Keys && s1.pending.Keys !! Seqs(s1.done)
    requires FromPending(pending, s1.done) && forall k :: k in s1.pending ==> s1.pending[k] == pending[k]
    requires s2.pending.Keys + Seqs(s2.done) == s1.pending.Keys && s2.pending.Keys !! Seqs(s2.done)
    requires FromPending(s1.pending, s2.done) && forall k :: k in s2.pending ==> s2.pending[k] == s1.pending[k]
    requires CompletedOnce(s1.done) && CompletedOnce(s2.done)
    ensures s2.pending.Keys + Seqs(s1.done + s2.done) == pending.Keys
    ensures s2.pending.Keys !! Seqs(s1.done + s2.done)
    ensures FromPending(pending, s1.done + s2.done)
    ensures CompletedOnce(s1.done + s2.done)
  {
    SeqsAppend(s1.done, s2.done);
    var d := s1.done + s2.done;
    forall j | 0 <= j < |d|
      ensures d[j].call.seqNo in pending && pending[d[j].call.seqNo] == d[j].call
    {
      if j >= |s1.done| {
        assert d[j] == s2.done[j - |s1.done|];
      }
    }
    forall i, j | 0 <= i < j < |d|
      ensures d[i].call.seqNo != d[j].call.seqNo
    {
      if j >= |s1.done| {
        assert d[j] == s2.done[j - |s1.done|];
        assert d[j].call.seqNo in s1.pending.Keys;
        if i < |s1.done| {
          assert d[i] == s1.done[i];
          assert d[i].call.seqNo in Seqs(s1.done);
        } else {
          assert d[i] == s2.done[i - |s1.done|];
        }
      }
    }
  }

  class Client {
    var pending: map<nat, Call>
    var seqNo: nat
    var closed: bool
    var shutdown: bool
    var completed: seq<Completion>

    /**
     * Every pending call is filed under its own number, below the next one
     * to hand out; `closed` is never set by any operation.
     */
    ghost predicate Valid()
      reads this
    {
      && (forall k :: k in pending ==> k < seqNo)
      && Filed(pending)
      && !closed
    }

    /** newClient: numbering starts at 1, nothing pending, open (client.go:167-171). */
    constructor ()
      ensures Valid()
      ensures pending == map[] && seqNo == 1 && !closed && !shutdown && completed == []
    {
      pending := map[];
      seqNo := 1;
      closed := false;
      shutdown := false;
      completed := [];
    }

    /**
     * Client.IsAvailable: neither shut down nor closed (client.go:42-46).
     * Since no operation sets `closed`, on a valid client it is just `!shutdown`.
     */
    predicate IsAvailable()
      reads this
      ensures Valid() ==> (IsAvailable() <==> !shutdown)
    {
      !shutdown && !closed
    }

    /**
     * Client.Close: `closed` is never set, so its guard cannot fire on a
     * client that satisfies Valid; closing marks the client shut down and
     * returns what closing the codec returned (client.go:32-40).
     */
    method Close(ccClose: Option<string>) returns (err: Option<string>)
      modifies this`shutdown
      ensures closed == old(closed)
      ensures old(closed) ==> err == Some(ErrShutdown) && shutdown == old(shutdown)
      ensures !old(closed) ==> err == ccClose && shutdown && !IsAvailable()
    {
      if closed {
        return Some(ErrShutdown);
      }
      shutdown := true;
      err := ccClose;
    }

    /**
     * registerCall: a closed or shut-down client refuses with ErrShutdown and
     * changes nothing; otherwise the call takes the current number, is filed
     * under it, and the counter moves on (client.go:99-109).
     */
    method RegisterCall(serviceMethod: string) returns (n: nat, err: Option<string>)
      requires Valid()
      modifies this`pending, this`seqNo
      ensures Valid()
      ensures !old(IsAvailable()) ==>
                n == 0 && err == Some(ErrShutdown) && pending == old(pending) && seqNo == old(seqNo)
      ensures old(IsAvailable()) ==>
                && err == None && n == old(seqNo) && seqNo == old(seqNo) + 1
                && n !in old(pending)
                && pending == old(pending)[n := Call(n, serviceMethod)]
    {
      if closed || shutdown {
        return 0, Some(ErrShutdown);
      }
      n := seqNo;
      seqNo := seqNo + 1;
      pending := pending[n := Call(n, serviceMethod)];
      err := None;
    }

    /** removeCall: the call filed under `n`, if any, taken out of the table; nothing else changes (client.go:111-117). */
    method RemoveCall(n: nat) returns (call: Option<Call>)
      requires Valid()
      modifies this`pending
      ensures Valid()
      ensures n in old(pending) ==> call == Some(old(pending)[n])
      ensures n !in old(pending) ==> call == None
      ensures pending == old(pending) - {n} && n !in pending
    {
      call := if n in pending then Some(pending[n]) else None;
      pending := pending - {n};
    }

    /**
     * terminateCalls: every call still pending completes with `err`, each
     * once, in map order; the table itself is left as it is and the client is
     * not marked shut down (client.go:119-128).
     */
    method TerminateCalls(err: string) returns (ghost done: seq<Completion>)
      requires Valid()
      modifies this`completed
      ensures completed == old(completed) + done
      ensures Terminated(pending, err, done)
    {
      var table := pending;
      var todo := table.Keys;
      var batch: seq<Completion> := [];
      ghost var finished: set<nat> := {};
      while todo != {}
        invariant todo <= table.Keys && finished == table.Keys - todo
        invariant Terminating(table, err, batch, finished)
        invariant completed == old(completed)
        decreases todo
      {
        var k :| k in todo;
        TerminateStep(table, err, batch, finished, k);
        batch := batch + [Completion(table[k], Some(err))];
        finished := finished + {k};
        todo := todo - {k};
      }
      assert finished == table.Keys;
      completed := completed + batch;
      done := batch;
    }

    /** One iteration of receive, as ReceiveOne describes it. */
    method ReceiveFrame(f: Incoming) returns (err: Option<string>)
      requires Valid()
      modifies this`pending, this`completed
      ensures Valid()
      ensures var s1 := ReceiveOne(old(pending), f);
              pending == s1.pending && completed == old(completed) + s1.done && err == s1.err
    {
      match f {
        case ReadFailed(e) =>
          err := Some(e);
        case Incoming(h, bodyErr) =>
          var call := RemoveCall(h.seqNo);
          if call.None? {
            err := bodyErr;
          } else if h.error != "" {
            err := Some(Sprintf(h.error, []));
            completed := completed + [Completion(call.value, err)];
          } else {
            var callErr := if bodyErr.Some? then Some("read body error: " + bodyErr.value) else None;
            completed := completed + [Completion(call.value, callErr)];
            err := bodyErr;
          }
      }
    }

    /** One iteration of receive's loop over `frames`, the stream read as EOF once they run out. */
    method ReceiveNext(frames: seq<Incoming>, i: nat, ghost total: Step, ghost c0: seq<Completion>, ghost acc: seq<Completion>)
      returns (err: Option<string>, next: nat, ghost done: seq<Completion>)
      requires Valid() && i <= |frames| && ReceivedSoFar(total, pending, frames[i..], acc)
      requires completed == c0 + acc
      modifies this`pending, this`completed
      ensures Valid() && i <= next <= |frames| && completed == c0 + (acc + done)
      ensures err.None? ==> next == i + 1 && ReceivedSoFar(total, pending, frames[next..], acc + done)
      ensures err.Some? ==> total == Step(pending, acc + done, err)
    {
      var f := if i < |frames| then frames[i] else ReadFailed("EOF");
      ghost var s1 := ReceiveOne(pending, f);
      if s1.err.None? {
        ReceiveContinues(total, pending, frames, i, acc);
      } else {
        ReceiveEnds(total, pending, frames, i, acc, f);
      }
      err := ReceiveFrame(f);
      done := s1.done;
      assert c0 + acc + done == c0 + (acc + done);
      next := if f.Incoming? then i + 1 else i;
    }

    /** receive's loop: iterations until one ends it, with the stream read as EOF once it runs out (client.go:74-95). */
    method ReceiveLoop(frames: seq<Incoming>) returns (err: string)
      requires Valid()
      modifies this`pending, this`completed
      ensures Valid()
      ensures var total := ReceiveAll(old(pending), frames);
              pending == total.pending && completed == old(completed) + total.done && Some(err) == total.err
    {
      ghost var total := ReceiveAll(pending, frames);
      ghost var acc: seq<Completion> := [];
      ghost var c0 := completed;
      var loopErr: Option<string> := None;
      var i := 0;
      assert frames[0..] == frames && c0 + acc == c0;
      while loopErr.None?
        invariant Valid()
        invariant 0 <= i <= |frames|
        invariant completed == c0 + acc
        invariant loopErr.None? ==> ReceivedSoFar(total, pending, frames[i..], acc)
        invariant loopErr.Some? ==> total == Step(pending, acc, loopErr)
        decreases |frames| - i + (if loopErr.None? then 1 else 0)
      {
        ghost var done;
        loopErr, i, done := ReceiveNext(frames, i, total, c0, acc);
        acc := acc + done;
      }
      assert total.done == acc && total.err == loopErr;
      err := loopErr.value;
    }

    /**
     * Client.receive: the loop of ReceiveAll, run on the table, followed by
     * terminateCalls with the error that ended it. Every call that was
     * pending has completed by the end (client.go:71-97).
     */
    method Receive(frames: seq<Incoming>) returns (ghost s: Step, ghost terminated: seq<Completion>)
      requires Valid()
      modifies this`pending, this`completed
      ensures Valid()
      ensures s == ReceiveAll(old(pending), frames) && pending == s.pending
      ensures completed == old(completed) + s.done + terminated
      ensures Terminated(s.pending, s.err.value, terminated)
      ensures old(pending).Keys == Seqs(s.done + terminated)
      ensures CompletedOnce(s.done + terminated)
    {
      s := ReceiveAll(pending, frames);
      var err := ReceiveLoop(frames);
      terminated := TerminateCalls(err);
      ReceivedThenTerminated(old(pending), frames, s, terminated);
    }
  }

  /** The receive loop's invariant: what is left to read, run from `pending`, completes the whole loop after `acc`. */
  ghost predicate ReceivedSoFar(total: Step, pending: map<nat, Call>, rest: seq<Incoming>, acc: seq<Completion>) {
    Filed(pending) &&
    var r := ReceiveAll(pending, rest);
    total == Step(r.pending, acc + r.done, r.err)
  }

  /** An iteration that does not end the loop keeps its invariant. */
  lemma ReceiveContinues(total: Step, pending: map<nat, Call>, frames: seq<Incoming>, i: nat, acc: seq<Completion>)
    requires i < |frames| && ReceivedSoFar(total, pending, frames[i..], acc)
    requires ReceiveOne(pending, frames[i]).err.None?
    ensures ReceivedSoFar(total, ReceiveOne(pending, frames[i]).pending, frames[i + 1..], acc + ReceiveOne(pending, frames[i]).done)
  {
    assert frames[i..][0] == frames[i] && frames[i..][1..] == frames[i + 1..];
    var s1 := ReceiveOne(pending, frames[i]);
    var r := ReceiveAll(s1.pending, frames[i + 1..]);
    assert acc + (s1.done + r.done) == acc + s1.done + r.done;
  }

  /** An iteration that ends the loop leaves the state ReceiveAll describes. */
  lemma ReceiveEnds(total: Step, pending: map<nat, Call>, frames: seq<Incoming>, i: nat, acc: seq<Completion>, f: Incoming)
    requires i <= |frames| && ReceivedSoFar(total, pending, frames[i..], acc)
    requires f == (if i < |frames| then frames[i] else ReadFailed("EOF"))
    requires ReceiveOne(pending, f).err.Some?
    ensures total == Step(ReceiveOne(pending, f).pending, acc + ReceiveOne(pending, f).done, ReceiveOne(pending, f).err)
  {
    if i < |frames| {
      assert frames[i..][0] == frames[i];
    }
  }

  /** Completions of calls outside `rest`, followed by completions of calls in it, each part once, are together once. */
  lemma OnceAcross(a: seq<Completion>, b: seq<Completion>, rest: set<nat>)
    requires CompletedOnce(a) && CompletedOnce(b)
    requires Seqs(a) !! rest && Seqs(b) == rest
    ensures CompletedOnce(a + b)
  {
    var d := a + b;
    forall i, j | 0 <= i < j < |d|
      ensures d[i].call.seqNo != d[j].call.seqNo
    {
      if i < |a| <= j {
        assert d[i] == a[i] && d[j] == b[j - |a|];
        assert d[i].call.seqNo in Seqs(a) && d[j].call.seqNo in Seqs(b);
      } else if |a| <= i {
        assert d[i] == b[i - |a|] && d[j] == b[j - |a|];
      }
    }
  }

  /** The loop's completions followed by terminateCalls' cover the starting table, each call once. */
  lemma ReceivedThenTerminated(pending: map<nat, Call>, frames: seq<Incoming>, s: Step, terminated: seq<Completion>)
    requires Filed(pending) && s == ReceiveAll(pending, frames)
    requires Terminated(s.pending, s.err.value, terminated)
    ensures pending.Keys == Seqs(s.done + terminated)
    ensures CompletedOnce(s.done + terminated)
  {
    SeqsAppend(s.done, terminated);
    OnceAcross(s.done, terminated, s.pending.Keys);
  }

  /** terminateCalls part way: the calls under `finished` completed once each with `err`. */
  ghost predicate Terminating(pending: map<nat, Call>, err: string, done: seq<Completion>, finished: set<nat>) {
    && |done| == |finished| && Seqs(done) == finished && FromPending(pending, done) && CompletedOnce(done)
    && (forall j :: 0 <= j < |done| ==> done[j].error == Some(err))
  }

  /** Completing one more pending call keeps terminateCalls' accounting. */
  lemma TerminateStep(pending: map<nat, Call>, err: string, done: seq<Completion>, finished: set<nat>, k: nat)
    requires Filed(pending) && k in pending && k !in finished
    requires Terminating(pending, err, done, finished)
    ensures Terminating(pending, err, done + [Completion(pending[k], Some(err))], finished + {k})
  {
    SeqsAppend(done, [Completion(pending[k], Some(err))]);
    SeqsSingle(Completion(pending[k], Some(err)));
    OnceAcross(done, [Completion(pending[k], Some(err))], {k});
  }

  /** How XDial reaches an address: `protocol` names the network, except "http", which tunnels over "tcp". */
  datatype DialPlan = DialPlan(protocol: string, addr: string) {
    predicate Tunnel() { protocol == "http" }
    function Network(): string { if protocol == "http" then "tcp" else protocol }
  }

  /**
   * XDial's address check: the address must split on '@' into exactly two
   * parts, the protocol and the address (client.go:236-248).
   */
  function XDialPlan(rpcAddr: string): (r: Result<DialPlan>)
    ensures r.Ok? ==> '@' !in r.value.protocol && '@' !in r.value.addr
                      && rpcAddr == r.value.protocol + "@" + r.value.addr
    ensures r.Err? ==> r.msg == "rpc client err: wrong format '" + rpcAddr + "', expect protocol@addr"
  {
    var parts := Split(rpcAddr, '@');
    if |parts| != 2 then Err("rpc client err: wrong format '" + rpcAddr + "', expect protocol@addr")
    else
      JoinSplit(rpcAddr, '@');
      assert Join(parts, '@') == parts[0] + "@" + parts[1];
      Ok(DialPlan(parts[0], parts[1]))
  }

  /** Any protocol and address free of '@' are accepted and recovered from `protocol@addr`. */
  lemma XDialPlanRoundTrip(protocol: string, addr: string)
    requires '@' !in protocol && '@' !in addr
    ensures XDialPlan(protocol + "@" + addr) == Ok(DialPlan(protocol, addr))
  {
    var parts := [protocol, addr];
    assert Join(parts, '@') == protocol + "@" + addr;
    SplitJoin(parts, '@');
  }

  /**
   * parseOption over the caller's option list (nil entries as None): none,
   * or a nil first entry, gives DefaultOption; more than one entry is an
   * error; otherwise the option with the magic number forced and an empty
   * codec replaced by gob (client.go:250-262).
   */
  function ParseOption(opts: seq<Option<RpcServer.RpcOption>>): (r: Result<RpcServer.RpcOption>)
    ensures (opts == [] || opts[0].None?) ==> r == Ok(RpcServer.DefaultOption)
    ensures opts != [] && opts[0].Some? && |opts| != 1 ==> r == Err("number of options is more than 1")
    ensures r.Ok? ==> r.value.magicNumber == RpcServer.MagicNumber && r.value.codecType != ""
    ensures opts != [] && opts[0].Some? && |opts| == 1 ==>
              && r.Ok?
              && r.value.connectTimeout == opts[0].value.connectTimeout
              && r.value.handleTimeout == opts[0].value.handleTimeout
              && (opts[0].value.codecType != "" ==> r.value.codecType == opts[0].value.codecType)
              && (opts[0].value.codecType == "" ==> r.value.codecType == RpcServer.GobType)
  {
    if opts == [] || opts[0].None? then Ok(RpcServer.DefaultOption)
    else if |opts| != 1 then Err("number of options is more than 1")
    else
      var opt := opts[0].value.(magicNumber := RpcServer.DefaultOption.magicNumber);
      Ok(if opt.codecType == "" then opt.(codecType := RpcServer.DefaultOption.codecType) else opt)
  }

  /** Whatever option a single caller passes, the server's handshake check accepts the result when gob is registered. */
  lemma ParsedOptionPassesHandshake(o: RpcServer.RpcOption)
    requires o.codecType == "" || o.codecType == RpcServer.GobType
    ensures var r := ParseOption([Some(o)]);
            r.Ok? && RpcServer.AcceptOption(RpcServer.Decoded(r.value), {RpcServer.GobType}).Some?
  {
  }
}
