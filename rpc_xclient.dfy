/**
 * The load-balancing client of geerpc/xclient/xclient.go: a pool of
 * clients by `protocol@addr` address, the single call routed through
 * discovery, and the merge of a broadcast's results. What discovery picks,
 * what dialing an address yields and what each call returns arrive as
 * parameters; the broadcast's goroutines are replaced by the order in which
 * their results reach the shared error and reply.
 */
module RpcXClient {
  import opened Wrappers
  import opened RpcClient
  import RpcServer

  /** The number of leading results that succeeded before the first failure. */
  function FirstFailure<R>(outcomes: seq<Result<R>>): (k: nat)
    ensures k <= |outcomes|
    ensures forall j :: 0 <= j < k ==> outcomes[j].Ok?
    ensures k < |outcomes| ==> outcomes[k].Err?
    decreases |outcomes|
  {
    if outcomes == [] || outcomes[0].Err? then 0 else 1 + FirstFailure(outcomes[1..])
  }

  /** The number of leading results that failed before the first success. */
  function FirstSuccess<R>(outcomes: seq<Result<R>>): (k: nat)
    ensures k <= |outcomes|
    ensures forall j :: 0 <= j < k ==> outcomes[j].Err?
    ensures k < |outcomes| ==> outcomes[k].Ok?
    decreases |outcomes|
  {
    if outcomes == [] || outcomes[0].Ok? then 0 else 1 + FirstSuccess(outcomes[1..])
  }

  /** The first failing position is the only one that is a failure with all successes before it. */
  lemma FirstFailureUnique<R>(outcomes: seq<Result<R>>, i: nat)
    requires i < |outcomes| && outcomes[i].Err?
    requires forall j :: 0 <= j < i ==> outcomes[j].Ok?
    ensures FirstFailure(outcomes) == i
  {
  }

  /** The first succeeding position is the only one that is a success with all failures before it. */
  lemma FirstSuccessUnique<R>(outcomes: seq<Result<R>>, i: nat)
    requires i < |outcomes| && outcomes[i].Ok?
    requires forall j :: 0 <= j < i ==> outcomes[j].Err?
    ensures FirstSuccess(outcomes) == i
  {
  }

  /** What a broadcast leaves behind: its error, where it cancelled the others, and what it wrote into the caller's reply. */
  datatype Merged<R> = Merged(err: Option<string>, cancelledAt: Option<nat>, reply: Option<R>, replyWrites: nat)

  /**
   * BroadCast's merge, one result at a time in completion order: the first
   * error is kept and cancels the remaining calls; the first success is
   * copied into the caller's reply unless the caller passed no reply
   * (xclient.go:81-103).
   */
  method MergeResults<R>(outcomes: seq<Result<R>>, replyNil: bool) returns (m: Merged<R>)
    ensures FirstFailure(outcomes) < |outcomes| ==>
              m.err == Some(outcomes[FirstFailure(outcomes)].msg) && m.cancelledAt == Some(FirstFailure(outcomes))
    ensures FirstFailure(outcomes) == |outcomes| ==> m.err == None && m.cancelledAt == None
    ensures replyNil ==> m.reply == None && m.replyWrites == 0
    ensures !replyNil && FirstSuccess(outcomes) < |outcomes| ==>
              m.reply == Some(outcomes[FirstSuccess(outcomes)].value) && m.replyWrites == 1
    ensures !replyNil && FirstSuccess(outcomes) == |outcomes| ==> m.reply == None && m.replyWrites == 0
  {
    var e: Option<string> := None;
    var cancelledAt: Option<nat> := None;
    var reply: Option<R> := None;
    var writes := 0;
    var replyDone := replyNil;
    var i := 0;
    while i < |outcomes|
      invariant 0 <= i <= |outcomes|
      invariant e.None? <==> FirstFailure(outcomes) >= i
      invariant e.None? <==> cancelledAt.None?
      invariant e.Some? ==> e == Some(outcomes[FirstFailure(outcomes)].msg) && cancelledAt == Some(FirstFailure(outcomes))
      invariant replyNil ==> replyDone && reply == None && writes == 0
      invariant !replyNil ==> (replyDone <==> FirstSuccess(outcomes) < i)
      invariant !replyNil && replyDone ==> reply == Some(outcomes[FirstSuccess(outcomes)].value) && writes == 1
      invariant !replyNil && !replyDone ==> reply == None && writes == 0
    {
      var r := outcomes[i];
      if r.Err? && e.None? {
        FirstFailureUnique(outcomes, i);
        e := Some(r.msg);
        cancelledAt := Some(i);
      }
      if r.Ok? && !replyDone {
        FirstSuccessUnique(outcomes, i);
        reply := Some(r.value);
        writes := writes + 1;
        replyDone := true;
      }
      i := i + 1;
    }
    m := Merged(e, cancelledAt, reply, writes);
  }

  /** When every call succeeds, or there are none, the broadcast returns no error. */
  lemma {:induction false} AllSucceedNoError<R>(outcomes: seq<Result<R>>)
    requires forall j :: 0 <= j < |outcomes| ==> outcomes[j].Ok?
    ensures FirstFailure(outcomes) == |outcomes|
    decreases |outcomes|
  {
    if outcomes != [] {
      AllSucceedNoError(outcomes[1..]);
    }
  }

  class XClient {
    const mode: int
    const option: Option<RpcServer.RpcOption>
    var clients: map<string, Client>

    /** Every pooled client keeps the client's own invariant. */
    ghost predicate Valid()
      reads this, clients.Values
    {
      forall a :: a in clients ==> clients[a].Valid()
    }

    /** NewXClient: an empty pool (xclient.go:19-26). */
    constructor (mode: int, option: Option<RpcServer.RpcOption>)
      ensures Valid()
      ensures this.mode == mode && this.option == option && clients == map[]
    {
      this.mode := mode;
      this.option := option;
      clients := map[];
    }

    /** XClient.Close: every pooled client is closed and dropped; the result is always nil (xclient.go:28-36). */
    method Close() returns (err: Option<string>)
      requires Valid()
      modifies this, clients.Values
      ensures err == None && clients == map[]
      ensures forall a :: a in old(clients) ==> !old(clients)[a].IsAvailable()
    {
      ghost var pool := clients;
      while clients != map[]
        invariant clients.Keys <= pool.Keys
        invariant forall a :: a in clients ==> clients[a] == pool[a]
        invariant forall a :: a in pool ==> !pool[a].closed
        invariant forall a :: a in pool && a !in clients ==> pool[a].shutdown
        decreases |clients|
      {
        var k :| k in clients;
        CloseOne(k, pool);
      }
      err := None;
    }

    /** One iteration of Close: the client under `k` is closed and leaves the pool. */
    method CloseOne(k: string, ghost pool: map<string, Client>)
      requires k in clients && clients.Keys <= pool.Keys
      requires forall a :: a in clients ==> clients[a] == pool[a]
      requires forall a :: a in pool ==> !pool[a].closed
      requires forall a :: a in pool && a !in clients ==> pool[a].shutdown
      modifies this`clients, clients[k]
      ensures clients == old(clients) - {k}
      ensures forall a :: a in pool ==> !pool[a].closed
      ensures forall a :: a in pool && a !in clients ==> pool[a].shutdown
    {
      var ignored := clients[k].Close(None);
      clients := clients - {k};
    }

    /**
     * XClient.dial: an available pooled client is reused untouched; an
     * unavailable one is closed and dropped first. Otherwise the address is
     * dialled with XDial, whose result `dialed` stands for the connection
     * attempt: a failure is returned and leaves no entry for the address; a
     * success is pooled under it (xclient.go:38-56).
     */
    method Dial(rpcAddr: string, dialed: Result<Client>) returns (r: Result<Client>)
      requires Valid()
      requires dialed.Ok? ==> dialed.value.Valid()
      modifies this, clients.Values
      ensures Valid()
      ensures rpcAddr in old(clients) && old(clients[rpcAddr].IsAvailable()) ==>
                r == Ok(old(clients)[rpcAddr]) && clients == old(clients)
      ensures rpcAddr in old(clients) && !old(clients[rpcAddr].IsAvailable()) ==> old(clients)[rpcAddr].shutdown
      ensures !(rpcAddr in old(clients) && old(clients[rpcAddr].IsAvailable())) ==>
                && (XDialPlan(rpcAddr).Err? ==> r == Err(XDialPlan(rpcAddr).msg))
                && (XDialPlan(rpcAddr).Ok? ==> r == dialed)
                && (r.Err? ==> clients == old(clients) - {rpcAddr})
                && (r.Ok? ==> clients == old(clients)[rpcAddr := r.value])
    {
      if rpcAddr in clients {
        var client := clients[rpcAddr];
        if client.IsAvailable() {
          return Ok(client);
        }
        var ignored := client.Close(None);
        clients := clients - {rpcAddr};
      }
      var plan := XDialPlan(rpcAddr);
      if plan.Err? {
        return Err(plan.msg);
      }
      if dialed.Err? {
        return dialed;
      }
      clients := clients[rpcAddr := dialed.value];
      r := dialed;
    }

    /**
     * XClient.Call: a discovery failure is returned without dialling;
     * otherwise the picked address is dialled, a dial failure returned, and
     * on a connection the client's answer `answer` returned (xclient.go:58-72).
     */
    method Call(picked: Result<string>, dialed: Result<Client>, answer: Option<string>) returns (err: Option<string>)
      requires Valid()
      requires dialed.Ok? ==> dialed.value.Valid()
      modifies this, clients.Values
      ensures Valid()
      ensures picked.Err? ==> err == Some(picked.msg) && clients == old(clients)
      ensures picked.Ok? && err.None? ==> err == answer && picked.value in clients
      ensures picked.Ok? ==>
                var a := picked.value;
                var pooled := a in old(clients) && old(clients[a].IsAvailable());
                && (pooled ==> err == answer && clients == old(clients))
                && (!pooled && XDialPlan(a).Err? ==> err == Some(XDialPlan(a).msg) && clients == old(clients) - {a})
                && (!pooled && XDialPlan(a).Ok? && dialed.Err? ==> err == Some(dialed.msg) && clients == old(clients) - {a})
                && (!pooled && XDialPlan(a).Ok? && dialed.Ok? ==>
                      err == answer && clients == old(clients)[a := dialed.value])
    {
      if picked.Err? {
        return Some(picked.msg);
      }
      var client := Dial(picked.value, dialed);
      if client.Err? {
        return Some(client.msg);
      }
      err := answer;
    }

    /**
     * XClient.BroadCast: a discovery failure is returned at once; otherwise
     * one call per address, whose results `outcomes` are merged in the order
     * they complete (xclient.go:74-108).
     */
    method BroadCast<R>(all: Result<seq<string>>, outcomes: seq<Result<R>>, replyNil: bool) returns (m: Merged<R>)
      requires all.Ok? ==> |outcomes| == |all.value|
      ensures all.Err? ==> m == Merged(Some(all.msg), None, None, 0)
      ensures all.Ok? && FirstFailure(outcomes) < |outcomes| ==> m.err == Some(outcomes[FirstFailure(outcomes)].msg)
      ensures all.Ok? && FirstFailure(outcomes) == |outcomes| ==> m.err == None
      ensures all.Ok? && (replyNil || FirstSuccess(outcomes) == |outcomes|) ==> m.reply == None
      ensures all.Ok? && !replyNil && FirstSuccess(outcomes) < |outcomes| ==>
                m.reply == Some(outcomes[FirstSuccess(outcomes)].value) && m.replyWrites == 1
      ensures m.replyWrites <= 1
    {
      if all.Err? {
        return Merged(Some(all.msg), None, None, 0);
      }
      m := MergeResults(outcomes, replyNil);
    }
  }
}
