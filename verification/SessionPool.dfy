/** The pool of standby connections: one state machine per slot, driven by completions. */
module SessionPool {
  import opened Blocks

  const MAX_CONNECTIONS: nat := 128
  const SECOND_REPLY_SIZE: nat := 22

  /** The operations that can be pending on a slot. */
  datatype Op = Connect | FirstReply | SecondReply | SendFd

  /** A slot: which connection it holds, and what is pending on it. */
  datatype Slot = Slot(conn: nat, pending: multiset<Op>)

  /** What a slot's buffer holds: a reply as it was read, or the message to go out with the
      descriptor. */
  datatype Micro = Raw(bytes: seq<byte>) | NewConnection(addr: seq<byte>, port: seq<byte>)

  /** A descriptor that was sent, with its message. */
  datatype HandOver = HandOver(conn: nat, message: Micro)

  datatype Pool = Pool(
    slots: seq<Slot>,
    buffers: seq<Micro>,
    size: nat,             // how many slots the pool should grow to
    errors: nat,
    stop: bool,
    made: nat,                  // history: how many connections were made
    confirmed: map<nat, Micro>, // history: the messages packed from second replies with REP 0
    handed: seq<HandOver>,      // history: the descriptors that were sent
    crashed: bool)              // history: a vector was indexed out of bounds

  datatype Event =
    | Connected(i: nat, failed: bool, writeFailed: bool)
    | FirstReplied(i: nat, failed: bool, buf: seq<byte>)
    | SecondReplied(i: nat, failed: bool, n: nat, buf: seq<byte>)
    | Sendable(i: nat, failed: bool, sent: int)
    | ClientError

  function OpOf(e: Event): (op: Op)
    requires !e.ClientError?
  {
    match e
    case Connected(_, _, _) => Connect
    case FirstReplied(_, _, _) => FirstReply
    case SecondReplied(_, _, _, _) => SecondReply
    case Sendable(_, _, _) => SendFd
  }

  /** How many bytes the read for a second reply may bring if it does not fail. On the
      connection of the listen call it ends with whatever has come; on all others it goes on
      until the buffer is full. */
  predicate Brings(conn: nat, n: nat) {
    if conn == 0 then 1 <= n <= SECOND_REPLY_SIZE else n == SECOND_REPLY_SIZE
  }

  /** A completion needs a pending operation; `buf` is the buffer after a read. */
  predicate Enabled(p: Pool, e: Event) {
    e.ClientError? ||
    (&& e.i < |p.slots| && OpOf(e) in p.slots[e.i].pending
     && (e.FirstReplied? ==> |e.buf| == 12)
     && (e.SecondReplied? ==>
           && |e.buf| == SECOND_REPLY_SIZE && e.n <= SECOND_REPLY_SIZE
           && (!e.failed ==> Brings(p.slots[e.i].conn, e.n))))
  }

  /** The pool after the listen call: the first connection has its first reply already. */
  function Start(backlog: nat): (p: Pool) {
    var size := if backlog > MAX_CONNECTIONS then MAX_CONNECTIONS else backlog;
    Pool([Slot(0, multiset{SecondReply}), Slot(1, multiset{Connect})], seq(size, _ => Raw([])), size, 0, false, 2,
         map[], [], size == 0)
  }

  function Done(p: Pool, i: nat, op: Op): (p': Pool)
    requires i < |p.slots|
    ensures |p'.slots| == |p.slots|
  {
    p.(slots := p.slots[i := p.slots[i].(pending := p.slots[i].pending - multiset{op})])
  }

  function Await(p: Pool, i: nat, op: Op): (p': Pool)
    requires i < |p.slots|
    ensures |p'.slots| == |p.slots|
  {
    p.(slots := p.slots[i := p.slots[i].(pending := p.slots[i].pending + multiset{op})])
  }

  /** Replaces the connection of a slot by a new one. */
  function Initiate(p: Pool, i: nat): (p': Pool)
    requires i < |p.slots|
  {
    Await(p.(slots := p.slots[i := p.slots[i].(conn := p.made)], made := p.made + 1), i, Connect)
  }

  function Retry(p: Pool, i: nat): (p': Pool)
    requires i < |p.slots|
  {
    Initiate(p.(errors := p.errors + 1), i)
  }

  /** Uses the buffer of a slot. */
  function Touch(p: Pool, i: nat): (p': Pool) {
    p.(crashed := p.crashed || i >= |p.buffers|)
  }

  /** Fills the buffer of a slot. */
  function Fill(p: Pool, i: nat, m: Micro): (p': Pool)
    ensures |p'.slots| == |p.slots|
  {
    if i < |p.buffers| then p.(buffers := p.buffers[i := m]) else Touch(p, i)
  }

  function Held(p: Pool, i: nat): (m: Micro) {
    if i < |p.buffers| then p.buffers[i] else Raw([])
  }

  /** The second reply is good: packs its message and waits until the descriptor can be sent. */
  function Confirm(p: Pool, i: nat, m: Micro): (p': Pool)
    requires i < |p.slots|
  {
    Await(Fill(p.(confirmed := p.confirmed[p.slots[i].conn := m]), i, m), i, SendFd)
  }

  /** The address and the port where the second reply has them. */
  function Packed(buf: seq<byte>): (m: Micro)
    requires |buf| == SECOND_REPLY_SIZE
  {
    NewConnection(buf[4..20], buf[20..22])
  }

  function OnConnect(p: Pool, i: nat, failed: bool, writeFailed: bool): (p': Pool)
    requires i < |p.slots|
  {
    if p.stop then p
    else if failed || writeFailed then Retry(p, i)
    else Await(Touch(p, i), i, FirstReply)
  }

  function OnFirstReply(p: Pool, i: nat, failed: bool, buf: seq<byte>): (p': Pool)
    requires i < |p.slots| && |buf| == 12
  {
    if p.stop then p
    else if failed || buf[3] != 0 then Retry(p, i)
    else
      var q := Await(p, i, SecondReply);
      if i == |q.slots| - 1 && |q.slots| < q.size
      then q.(slots := q.slots + [Slot(q.made, multiset{Connect})], made := q.made + 1)
      else q
  }

  function OnSecondReply(p: Pool, i: nat, failed: bool, n: nat, buf: seq<byte>): (p': Pool)
    requires i < |p.slots| && |buf| == SECOND_REPLY_SIZE
  {
    if p.stop then p
    else if failed || n < SECOND_REPLY_SIZE || buf[1] != 0 then Retry(p, i)
    else Confirm(p, i, Packed(buf))
  }

  /** The descriptor was sent with what the buffer holds; the slot gets a new connection. */
  function HandOff(p: Pool, i: nat): (p': Pool)
    requires i < |p.slots|
  {
    Initiate(p.(handed := p.handed + [HandOver(p.slots[i].conn, Held(p, i))]), i)
  }

  function OnSendable(p: Pool, i: nat, failed: bool, sent: int): (p': Pool)
    requires i < |p.slots|
  {
    if p.stop then p
    else if failed then Retry(p, i)
    else if sent <= 0 then p.(stop := true)
    else HandOff(p, i)
  }

  function Next(p: Pool, e: Event): (p': Pool)
    requires Enabled(p, e)
  {
    if e.ClientError? then p.(stop := true)
    else
      var q := Done(p, e.i, OpOf(e));
      match e
      case Connected(i, failed, writeFailed) => OnConnect(q, i, failed, writeFailed)
      case FirstReplied(i, failed, buf) => OnFirstReply(Fill(q, i, Raw(buf)), i, failed, buf)
      case SecondReplied(i, failed, n, buf) => OnSecondReply(Fill(q, i, Raw(buf)), i, failed, n, buf)
      case Sendable(i, failed, sent) => OnSendable(Touch(q, i), i, failed, sent)
  }

  /** A run as the list of the states it passes and the completions between them. */
  ghost predicate IsRun(states: seq<Pool>, events: seq<Event>) {
    && |states| == |events| + 1
    && forall k :: 0 <= k < |events| ==> Enabled(states[k], events[k]) && states[k + 1] == Next(states[k], events[k])
  }

  // ---------------------------------------------------------------- properties

  ghost predicate SentOnce(s: seq<HandOver>) {
    forall i, j :: 0 <= i < j < |s| ==> s[i].conn != s[j].conn
  }

  /** The connections of the slots are all different, were made, and were not sent. */
  ghost predicate OwnConnections(p: Pool) {
    && (forall i :: 0 <= i < |p.slots| ==> p.slots[i].conn < p.made)
    && (forall i, j :: 0 <= i < j < |p.slots| ==> p.slots[i].conn != p.slots[j].conn)
    && (forall i, k :: 0 <= i < |p.slots| && 0 <= k < |p.handed| ==> p.handed[k].conn != p.slots[i].conn)
  }

  /** What was sent was confirmed before, was sent once, and with its own message. */
  ghost predicate SentConfirmed(p: Pool) {
    && (forall k :: 0 <= k < |p.handed| ==>
          && p.handed[k].conn < p.made && p.handed[k].conn in p.confirmed
          && p.confirmed[p.handed[k].conn] == p.handed[k].message)
    && SentOnce(p.handed)
  }

  /** A slot that waits to send holds the message of its own connection. */
  ghost predicate ReadyToSend(p: Pool) {
    forall i :: 0 <= i < |p.slots| && SendFd in p.slots[i].pending ==>
      i < |p.buffers| && p.slots[i].conn in p.confirmed && p.confirmed[p.slots[i].conn] == p.buffers[i]
  }

  ghost predicate Accounted(p: Pool) {
    OwnConnections(p) && SentConfirmed(p) && ReadyToSend(p)
  }

  /** What holds in every reachable state of a pool with a backlog of at least two. */
  ghost predicate Inv(p: Pool) {
    && !p.crashed && 2 <= |p.slots| <= p.size == |p.buffers| <= MAX_CONNECTIONS
    && (forall i :: 0 <= i < |p.slots| ==> |p.slots[i].pending| <= 1)
    && (!p.stop ==> forall i :: 0 <= i < |p.slots| ==> |p.slots[i].pending| == 1)
    && Accounted(p)
  }

  lemma OnePending(m: multiset<Op>, op: Op)
    requires |m| <= 1 && op in m
    ensures m == multiset{op} && m - multiset{op} == multiset{}
  {
    assert m == multiset{op} + (m - multiset{op});
  }

  /** Between the completion of the operation on slot i and the start of the next one. */
  ghost predicate Between(p: Pool, i: nat) {
    && !p.crashed && i < |p.slots| && 2 <= |p.slots| <= p.size == |p.buffers| <= MAX_CONNECTIONS
    && (forall j :: 0 <= j < |p.slots| ==> |p.slots[j].pending| <= 1)
    && (!p.stop ==> forall j :: 0 <= j < |p.slots| && j != i ==> |p.slots[j].pending| == 1)
    && p.slots[i].pending == multiset{}
    && Accounted(p)
  }

  lemma DoneInv(p: Pool, i: nat, op: Op)
    requires Inv(p) && i < |p.slots| && op in p.slots[i].pending
    ensures var q := Done(p, i, op);
            && Between(q, i) && Touch(q, i) == q
            && q.stop == p.stop && q.confirmed == p.confirmed && q.slots[i].conn == p.slots[i].conn
            && (op == SendFd ==> q.slots[i].conn in q.confirmed && q.confirmed[q.slots[i].conn] == q.buffers[i])
  {
    OnePending(p.slots[i].pending, op);
  }

  lemma FillInv(p: Pool, i: nat, m: Micro)
    requires Between(p, i)
    ensures Between(Fill(p, i, m), i) && Fill(p, i, m).slots == p.slots && Fill(p, i, m).stop == p.stop
    ensures Fill(p, i, m).confirmed == p.confirmed
  {
  }

  lemma AwaitInv(p: Pool, i: nat, op: Op)
    requires Between(p, i)
    requires op == SendFd ==> p.slots[i].conn in p.confirmed && p.confirmed[p.slots[i].conn] == p.buffers[i]
    ensures Inv(Await(p, i, op))
  {
    hide OwnConnections, SentConfirmed;
    var q := Await(p, i, op);
    assert q.slots[i].pending == multiset{op};
    assert OwnConnections(q) && SentConfirmed(q) by {
      AwaitKeeps(p, i, op);
    }
  }

  lemma AwaitKeeps(p: Pool, i: nat, op: Op)
    requires i < |p.slots|
    ensures OwnConnections(Await(p, i, op)) <==> OwnConnections(p)
    ensures SentConfirmed(Await(p, i, op)) <==> SentConfirmed(p)
  {
    hide SentOnce;
    var q := Await(p, i, op);
    assert forall j :: 0 <= j < |p.slots| ==> q.slots[j].conn == p.slots[j].conn;
  }

  /** Giving a slot a new connection. */
  lemma RenewInv(p: Pool, i: nat)
    requires Between(p, i)
    ensures Between(p.(slots := p.slots[i := p.slots[i].(conn := p.made)], made := p.made + 1), i)
  {
    hide SentOnce;
  }

  lemma InitiateInv(p: Pool, i: nat)
    requires Between(p, i)
    ensures Inv(Initiate(p, i))
  {
    hide Accounted, Inv;
    RenewInv(p, i);
    AwaitInv(p.(slots := p.slots[i := p.slots[i].(conn := p.made)], made := p.made + 1), i, Connect);
  }

  /** A second reply with REP 0: nothing that was sent or waits to be sent changes. */
  lemma ConfirmInv(p: Pool, i: nat, m: Micro)
    requires Between(p, i)
    ensures Inv(Confirm(p, i, m))
  {
    hide OwnConnections;
    var c := p.slots[i].conn;
    var q := p.(confirmed := p.confirmed[c := m]);
    assert SentConfirmed(q) && ReadyToSend(q) && OwnConnections(q) by {
      NoteConfirmed(p, i, m);
    }
    FillInv(q, i, m);
    AwaitInv(Fill(q, i, m), i, SendFd);
  }

  lemma NoteConfirmed(p: Pool, i: nat, m: Micro)
    requires Between(p, i)
    ensures Accounted(p.(confirmed := p.confirmed[p.slots[i].conn := m]))
  {
    hide SentOnce;
  }

  /** Sending the descriptor of a confirmed connection and replacing the connection. */
  lemma HandOverInv(p: Pool, i: nat)
    requires Between(p, i) && p.slots[i].conn in p.confirmed && p.confirmed[p.slots[i].conn] == p.buffers[i]
    ensures Inv(HandOff(p, i))
  {
    hide Inv;
    var c := p.slots[i].conn;
    var q := p.(handed := p.handed + [HandOver(c, Held(p, i))],
                slots := p.slots[i := p.slots[i].(conn := p.made)], made := p.made + 1);
    RenewInv(p, i);
    SendConfirmed(p, i);
    AwaitInv(q, i, Connect);
    assert Await(q, i, Connect) == HandOff(p, i);
  }

  lemma SendConfirmed(p: Pool, i: nat)
    requires Between(p, i) && p.slots[i].conn in p.confirmed && p.confirmed[p.slots[i].conn] == p.buffers[i]
    ensures var q := p.(handed := p.handed + [HandOver(p.slots[i].conn, Held(p, i))],
                        slots := p.slots[i := p.slots[i].(conn := p.made)], made := p.made + 1);
            OwnConnections(q) && SentConfirmed(q)
  {
  }

  lemma GrowInv(p: Pool)
    requires Inv(p) && |p.slots| < p.size
    ensures Inv(p.(slots := p.slots + [Slot(p.made, multiset{Connect})], made := p.made + 1))
  {
    hide SentOnce;
  }

  /** Every completion keeps the invariant. */
  lemma {:induction false} NextInv(p: Pool, e: Event)
    requires Inv(p) && Enabled(p, e)
    ensures Inv(Next(p, e))
  {
    hide Accounted, Done, Await, Initiate, Fill, Confirm, HandOff, Packed;
    if e.ClientError? {
      StopInv(p);
      return;
    }
    var i, q := e.i, Done(p, e.i, OpOf(e));
    DoneInv(p, i, OpOf(e));
    match e
    case Connected(_, failed, writeFailed) =>
      ErrorInv(q, i);
      AwaitInv(q, i, FirstReply);
    case FirstReplied(_, failed, buf) =>
      FillInv(q, i, Raw(buf));
      FirstReplyInv(Fill(q, i, Raw(buf)), i, failed, buf);
    case SecondReplied(_, failed, n, buf) =>
      FillInv(q, i, Raw(buf));
      ErrorInv(Fill(q, i, Raw(buf)), i);
      ConfirmInv(Fill(q, i, Raw(buf)), i, Packed(buf));
    case Sendable(_, failed, sent) =>
      ErrorInv(q, i);
      HandOverInv(q, i);
  }

  lemma FirstReplyInv(q: Pool, i: nat, failed: bool, buf: seq<byte>)
    requires Between(q, i) && |buf| == 12
    ensures Inv(OnFirstReply(q, i, failed, buf))
  {
    hide Accounted, Await, Initiate, Between;
    ErrorInv(q, i);
    AwaitInv(q, i, SecondReply);
    var r := Await(q, i, SecondReply);
    if |r.slots| < r.size {
      GrowInv(r);
    }
  }

  lemma DoneKeeps(p: Pool, i: nat, op: Op)
    requires i < |p.slots|
    ensures Done(p, i, op).stop == p.stop && Done(p, i, op).confirmed == p.confirmed
    ensures Done(p, i, op).slots[i].conn == p.slots[i].conn
  {
  }

  lemma StopInv(p: Pool)
    requires Inv(p)
    ensures Inv(p.(stop := true))
  {
  }

  /** What may happen to a slot whatever completed: another try, or the end. */
  lemma ErrorInv(p: Pool, i: nat)
    requires Between(p, i)
    ensures i < |p.slots| && Inv(Retry(p, i)) && Inv(p.(stop := true)) && (p.stop ==> Inv(p))
  {
    hide OwnConnections, SentConfirmed, ReadyToSend;
    assert Between(p.(errors := p.errors + 1), i) by {
      CountError(p);
    }
    InitiateInv(p.(errors := p.errors + 1), i);
    StopKeeps(p);
  }

  lemma CountError(p: Pool)
    ensures Accounted(p.(errors := p.errors + 1)) == Accounted(p)
  {
  }

  lemma StopKeeps(p: Pool)
    ensures Accounted(p.(stop := true)) == Accounted(p)
  {
  }

  lemma StartInv(backlog: nat)
    requires backlog >= 2
    ensures Inv(Start(backlog))
  {
  }

  lemma {:induction false} Reachable(backlog: nat, states: seq<Pool>, events: seq<Event>, k: nat)
    requires backlog >= 2 && IsRun(states, events) && states[0] == Start(backlog) && k < |states|
    ensures Inv(states[k])
  {
    hide Inv, Next;
    if k == 0 {
      StartInv(backlog);
    } else {
      Reachable(backlog, states, events, k - 1);
      NextInv(states[k - 1], events[k - 1]);
    }
  }

  /** In every state of every run of a pool with a backlog of at least two: until it stops
      each slot has exactly one pending operation; there are at most min(backlog, 128)
      slots; no index was outside of a vector, and the buffers suffice for the slots; and
      every descriptor that was sent was sent once. */
  lemma {:induction false} PoolSafety(backlog: nat, states: seq<Pool>, events: seq<Event>, k: nat)
    requires backlog >= 2 && IsRun(states, events) && states[0] == Start(backlog) && k < |states|
    ensures var p := states[k];
            && (!p.stop ==> forall i :: 0 <= i < |p.slots| ==> |p.slots[i].pending| == 1)
            && |p.slots| <= backlog && |p.slots| <= 128
            && !p.crashed && |p.slots| <= |p.buffers|
            && forall i, j :: 0 <= i < j < |p.handed| ==> p.handed[i].conn != p.handed[j].conn
  {
    hide Next, OwnConnections, ReadyToSend;
    Reachable(backlog, states, events, k);
    SizeStays(backlog, states, events, k);
  }

  lemma NextSize(p: Pool, e: Event)
    requires Enabled(p, e)
    ensures Next(p, e).size == p.size
  {
    hide Packed;
  }

  lemma {:induction false} SizeStays(backlog: nat, states: seq<Pool>, events: seq<Event>, k: nat)
    requires IsRun(states, events) && states[0] == Start(backlog) && k < |states|
    ensures states[k].size == Start(backlog).size
  {
    if k > 0 {
      SizeStays(backlog, states, events, k - 1);
      NextSize(states[k - 1], events[k - 1]);
    }
  }

  /** At step k the first reply on connection c arrived and carried REP 0. */
  ghost predicate FirstOk(states: seq<Pool>, events: seq<Event>, k: nat, c: nat) {
    && k < |events| && k < |states| && events[k].FirstReplied? && !events[k].failed
    && |events[k].buf| == 12 && events[k].buf[3] == 0
    && events[k].i < |states[k].slots| && states[k].slots[events[k].i].conn == c
  }

  /** At step k the second reply on connection c arrived in full and carried REP 0. */
  ghost predicate SecondOk(states: seq<Pool>, events: seq<Event>, k: nat, c: nat) {
    && k < |events| && k < |states| && events[k].SecondReplied? && !events[k].failed
    && events[k].n >= SECOND_REPLY_SIZE == |events[k].buf| && events[k].buf[1] == 0
    && events[k].i < |states[k].slots| && states[k].slots[events[k].i].conn == c
    && SecondReply in states[k].slots[events[k].i].pending
  }

  /** A connection that waits for its second reply is the one made at the start, or has
      had its first reply before step n. */
  ghost predicate Waited(states: seq<Pool>, events: seq<Event>, n: nat, c: nat) {
    c == 0 || exists k: nat :: k < n && FirstOk(states, events, k, c)
  }

  /** Before step n the second reply on connection c carried REP 0, and `m` is its message. */
  ghost predicate Confirmed(states: seq<Pool>, events: seq<Event>, n: nat, c: nat, m: Micro) {
    exists k: nat :: k < n && SecondOk(states, events, k, c) && m == Packed(events[k].buf)
  }

  /** Every slot that waits for its second reply did so before, on the same connection, or
      is slot i and has not changed its connection. */
  ghost predicate Waiting(p: Pool, p': Pool, i: int) {
    forall j :: 0 <= j < |p'.slots| && SecondReply in p'.slots[j].pending ==>
      && j < |p.slots| && p'.slots[j].conn == p.slots[j].conn
      && (SecondReply in p.slots[j].pending || j == i)
  }

  lemma DoneWaiting(p: Pool, i: nat, op: Op)
    requires i < |p.slots|
    ensures Waiting(p, Done(p, i, op), -1)
  {
  }

  lemma AwaitWaiting(p: Pool, i: nat, op: Op)
    requires i < |p.slots|
    ensures Waiting(p, Await(p, i, op), if op == SecondReply then i else -1)
  {
  }

  lemma InitiateWaiting(p: Pool, i: nat)
    requires i < |p.slots| && p.slots[i].pending == multiset{}
    ensures Waiting(p, Initiate(p, i), -1)
  {
  }

  lemma GrowWaiting(p: Pool, q: Pool, i: int)
    requires Waiting(p, q, i)
    ensures Waiting(p, q.(slots := q.slots + [Slot(q.made, multiset{Connect})], made := q.made + 1), i)
  {
    var r := q.(slots := q.slots + [Slot(q.made, multiset{Connect})], made := q.made + 1);
    forall j | 0 <= j < |r.slots| && SecondReply in r.slots[j].pending
      ensures j < |q.slots| && r.slots[j] == q.slots[j]
    {
      assert r.slots[|q.slots|].pending == multiset{Connect};
    }
  }

  lemma FirstReplyWaiting(q: Pool, i: nat, failed: bool, buf: seq<byte>)
    requires i < |q.slots| && q.slots[i].pending == multiset{} && |buf| == 12
    ensures Waiting(q, OnFirstReply(q, i, failed, buf), if !failed && buf[3] == 0 then i else -1)
  {
    hide Await, Initiate;
    InitiateWaiting(q.(errors := q.errors + 1), i);
    AwaitWaiting(q, i, SecondReply);
    GrowWaiting(q, Await(q, i, SecondReply), i);
  }

  lemma FillKeeps(p: Pool, i: nat, m: Micro)
    ensures var q := Fill(p, i, m);
            && q.slots == p.slots && q.stop == p.stop && q.made == p.made
            && q.confirmed == p.confirmed && q.handed == p.handed
  {
  }

  lemma ConfirmWaiting(p: Pool, i: nat, m: Micro)
    requires i < |p.slots|
    ensures Waiting(p, Confirm(p, i, m), -1)
  {
    hide Await, Fill;
    var q := p.(confirmed := p.confirmed[p.slots[i].conn := m]);
    FillKeeps(q, i, m);
    AwaitWaiting(Fill(q, i, m), i, SendFd);
  }

  lemma SecondReplyWaiting(q: Pool, i: nat, failed: bool, n: nat, buf: seq<byte>)
    requires i < |q.slots| && q.slots[i].pending == multiset{} && |buf| == SECOND_REPLY_SIZE
    ensures Waiting(q, OnSecondReply(q, i, failed, n, buf), -1)
  {
    hide Initiate, Confirm, Packed;
    InitiateWaiting(q.(errors := q.errors + 1), i);
    ConfirmWaiting(q, i, Packed(buf));
  }

  lemma SendableWaiting(q: Pool, i: nat, failed: bool, sent: int)
    requires i < |q.slots| && q.slots[i].pending == multiset{}
    ensures Waiting(q, OnSendable(q, i, failed, sent), -1)
  {
    hide Initiate;
    InitiateWaiting(q.(errors := q.errors + 1), i);
    InitiateWaiting(q.(handed := q.handed + [HandOver(q.slots[i].conn, Held(q, i))]), i);
  }

  lemma ConnectWaiting(q: Pool, i: nat, failed: bool, writeFailed: bool)
    requires i < |q.slots| && q.slots[i].pending == multiset{}
    ensures Waiting(q, OnConnect(q, i, failed, writeFailed), -1)
  {
    hide Initiate, Await;
    InitiateWaiting(q.(errors := q.errors + 1), i);
    AwaitWaiting(Touch(q, i), i, FirstReply);
  }

  /** What a completion adds to the slots that wait for their second reply. */
  lemma NextWaiting(p: Pool, e: Event)
    requires Inv(p) && Enabled(p, e)
    ensures Waiting(p, Next(p, e), if e.FirstReplied? && !e.failed && e.buf[3] == 0 then e.i else -1)
  {
    hide Inv, Done, Accounted, Fill, OnConnect, OnFirstReply, OnSecondReply, OnSendable;
    if !e.ClientError? {
      var i, q := e.i, Done(p, e.i, OpOf(e));
      DoneInv(p, i, OpOf(e));
      DoneWaiting(p, i, OpOf(e));
      match e
      case Connected(_, failed, writeFailed) =>
        ConnectWaiting(q, i, failed, writeFailed);
      case FirstReplied(_, failed, buf) =>
        FillKeeps(q, i, Raw(buf));
        FirstReplyWaiting(Fill(q, i, Raw(buf)), i, failed, buf);
      case SecondReplied(_, failed, n, buf) =>
        FillKeeps(q, i, Raw(buf));
        SecondReplyWaiting(Fill(q, i, Raw(buf)), i, failed, n, buf);
      case Sendable(_, failed, sent) =>
        SendableWaiting(q, i, failed, sent);
    }
  }

  /** What a completion adds to the confirmed connections. */
  lemma NextConfirmed(p: Pool, e: Event)
    requires Enabled(p, e)
    ensures Next(p, e).confirmed ==
            if !p.stop && e.SecondReplied? && !e.failed && e.n >= SECOND_REPLY_SIZE && e.buf[1] == 0
            then p.confirmed[p.slots[e.i].conn := Packed(e.buf)] else p.confirmed
  {
    hide Packed, Done, Fill, Await, Initiate, OnFirstReply, OnSecondReply;
    if !e.ClientError? {
      var i, q := e.i, Done(p, e.i, OpOf(e));
      DoneKeeps(p, i, OpOf(e));
      match e
      case Connected(_, _, _) =>
        AwaitConfirms(Touch(q, i), i, FirstReply);
        AwaitConfirms(q.(errors := q.errors + 1), i, Connect);
      case FirstReplied(_, failed, buf) =>
        FillKeeps(q, i, Raw(buf));
        FirstReplyConfirms(Fill(q, i, Raw(buf)), i, failed, buf);
      case SecondReplied(_, failed, n, buf) =>
        FillKeeps(q, i, Raw(buf));
        SecondReplyConfirms(Fill(q, i, Raw(buf)), i, failed, n, buf);
      case Sendable(_, _, _) =>
        var r := Touch(q, i);
        AwaitConfirms(r.(errors := r.errors + 1), i, Connect);
        AwaitConfirms(r.(handed := r.handed + [HandOver(r.slots[i].conn, Held(r, i))]), i, Connect);
    }
  }

  lemma AwaitConfirms(p: Pool, i: nat, op: Op)
    requires i < |p.slots|
    ensures Await(p, i, op).confirmed == p.confirmed && Initiate(p, i).confirmed == p.confirmed
  {
  }

  lemma FirstReplyConfirms(q: Pool, i: nat, failed: bool, buf: seq<byte>)
    requires i < |q.slots| && |buf| == 12
    ensures OnFirstReply(q, i, failed, buf).confirmed == q.confirmed
  {
    hide Await, Initiate;
    AwaitConfirms(q.(errors := q.errors + 1), i, Connect);
    AwaitConfirms(q, i, SecondReply);
  }

  lemma SecondReplyConfirms(q: Pool, i: nat, failed: bool, n: nat, buf: seq<byte>)
    requires i < |q.slots| && |buf| == SECOND_REPLY_SIZE
    ensures OnSecondReply(q, i, failed, n, buf).confirmed ==
            if !q.stop && !failed && n >= SECOND_REPLY_SIZE && buf[1] == 0
            then q.confirmed[q.slots[i].conn := Packed(buf)] else q.confirmed
  {
    hide Await, Initiate, Packed, Fill;
    AwaitConfirms(q.(errors := q.errors + 1), i, Connect);
    var m := Packed(buf);
    var r := q.(confirmed := q.confirmed[q.slots[i].conn := m]);
    FillKeeps(r, i, m);
    AwaitConfirms(Fill(r, i, m), i, SendFd);
  }

  lemma {:induction false} Vouched(backlog: nat, states: seq<Pool>, events: seq<Event>, n: nat)
    requires backlog >= 2 && IsRun(states, events) && states[0] == Start(backlog) && n < |states|
    ensures forall j :: 0 <= j < |states[n].slots| && SecondReply in states[n].slots[j].pending ==>
              Waited(states, events, n, states[n].slots[j].conn)
    ensures forall c :: c in states[n].confirmed ==> Confirmed(states, events, n, c, states[n].confirmed[c])
  {
    hide Inv, Next, Packed;
    if n == 0 {
      WaitsAtStart(backlog, states, events);
    } else {
      var p, e := states[n - 1], events[n - 1];
      Vouched(backlog, states, events, n - 1);
      Reachable(backlog, states, events, n - 1);
      NextWaiting(p, e);
      NextConfirmed(p, e);
      forall j | 0 <= j < |states[n].slots| && SecondReply in states[n].slots[j].pending
        ensures Waited(states, events, n, states[n].slots[j].conn)
      {
        assert Waited(states, events, n - 1, p.slots[j].conn) || FirstOk(states, events, n - 1, p.slots[j].conn);
      }
      forall c | c in states[n].confirmed
        ensures Confirmed(states, events, n, c, states[n].confirmed[c])
      {
        var m := states[n].confirmed[c];
        assert Confirmed(states, events, n - 1, c, m) || (SecondOk(states, events, n - 1, c) && m == Packed(e.buf));
      }
    }
  }

  lemma WaitsAtStart(backlog: nat, states: seq<Pool>, events: seq<Event>)
    requires states != [] && states[0] == Start(backlog)
    ensures forall j :: 0 <= j < |states[0].slots| && SecondReply in states[0].slots[j].pending ==>
              Waited(states, events, 0, states[0].slots[j].conn)
  {
    assert states[0].slots[1].pending == multiset{Connect};
  }

  /** A descriptor is handed over only after the second reply on its connection carried
      REP 0, with the address and the port from that reply; and that reply was waited for
      only after the first one had come (on the connection of the listen call, which has its
      first reply before the pool starts: from the start). */
  lemma {:induction false} HandedOver(backlog: nat, states: seq<Pool>, events: seq<Event>, n: nat, h: nat)
    requires backlog >= 2 && IsRun(states, events) && states[0] == Start(backlog)
    requires n < |states| && h < |states[n].handed|
    ensures var sent := states[n].handed[h];
            exists k: nat ::
              && k < n && SecondOk(states, events, k, sent.conn) && Waited(states, events, k, sent.conn)
              && sent.message == NewConnection(events[k].buf[4..20], events[k].buf[20..22])
  {
    hide Next, OwnConnections, ReadyToSend, SentOnce;
    var sent := states[n].handed[h];
    Reachable(backlog, states, events, n);
    Vouched(backlog, states, events, n);
    assert Confirmed(states, events, n, sent.conn, sent.message);
    var k: nat :| k < n && SecondOk(states, events, k, sent.conn) && sent.message == Packed(events[k].buf);
    Vouched(backlog, states, events, k);
  }

  lemma StopStays(p: Pool, e: Event)
    requires Enabled(p, e) && p.stop
    ensures var q := Next(p, e); q.stop && q.made == p.made && q.handed == p.handed && q.errors == p.errors
  {
  }

  /** Once stopped, a pool makes no connection and hands none over. */
  lemma {:induction false} StopsForGood(states: seq<Pool>, events: seq<Event>, k: nat, n: nat)
    requires IsRun(states, events) && k <= n < |states| && states[k].stop
    ensures states[n].stop && states[n].made == states[k].made && states[n].handed == states[k].handed
  {
    if k < n {
      StopsForGood(states, events, k, n - 1);
      StopStays(states[n - 1], events[n - 1]);
    }
  }

  ghost predicate NeverCrashes(backlog: nat) {
    forall states: seq<Pool>, events: seq<Event> ::
      IsRun(states, events) && states[0] == Start(backlog) ==> !states[|events|].crashed
  }

  /** The vectors are indexed within bounds in every run exactly when the backlog is at
      least two: with none the start itself is out of bounds, with one the first connect is. */
  lemma InBoundsExactly(backlog: nat)
    ensures NeverCrashes(backlog) <==> backlog >= 2
  {
    if backlog >= 2 {
      forall states: seq<Pool>, events: seq<Event> | IsRun(states, events) && states[0] == Start(backlog)
        ensures !states[|events|].crashed
      {
        PoolSafety(backlog, states, events, |events|);
      }
    } else {
      var start := Start(backlog);
      var e := Connected(1, false, false);
      assert Enabled(start, e);
      var states, events := [start, Next(start, e)], [e];
      assert IsRun(states, events);
      assert states[|events|].crashed;
    }
  }

  /** The read on the connection of the listen call can come back short, and then that
      connection is given up, whatever the reply would have been. */
  lemma ShortRead(backlog: nat, n: nat, buf: seq<byte>)
    requires backlog >= 2 && 1 <= n < SECOND_REPLY_SIZE == |buf|
    ensures var e := SecondReplied(0, false, n, buf);
            && Enabled(Start(backlog), e)
            && Next(Start(backlog), e).confirmed == map[] && Next(Start(backlog), e).errors == 1
            && Next(Start(backlog), e).slots[0] == Slot(2, multiset{Connect})
  {
    assert multiset{SecondReply} - multiset{SecondReply} + multiset{Connect} == multiset{Connect};
  }

  // ---------------------------------------------------------------- states and events

  /** A completion brought what was hoped for. */
  predicate Good(e: Event) {
    match e
    case Connected(_, failed, writeFailed) => !failed && !writeFailed
    case FirstReplied(_, failed, buf) => !failed && |buf| == 12 && buf[3] == 0
    case SecondReplied(_, failed, n, buf) => !failed && n >= 22 && |buf| == 22 && buf[1] == 0
    case Sendable(_, failed, _) => !failed
    case ClientError => false
  }

  /** What is waited for on a connection after a good completion. */
  function Following(op: Op): (next: multiset<Op>) {
    match op
    case Connect => multiset{FirstReply}
    case FirstReply => multiset{SecondReply}
    case SecondReply => multiset{SendFd}
    case SendFd => multiset{}
  }

  /** The first reply on the last slot was good, and the pool is not full. */
  predicate Growing(p: Pool, e: Event, limit: nat) {
    !p.stop && e.FirstReplied? && Good(e) && e.i == |p.slots| - 1 && |p.slots| < limit
  }

  /** The descriptor went out. */
  predicate Sends(p: Pool, e: Event) {
    !p.stop && e.Sendable? && e.i < |p.slots| && !e.failed && e.sent > 0
  }

  /** The slot gets a new connection: after an error, and after its descriptor went out. */
  predicate Renews(p: Pool, e: Event) {
    !p.stop && !e.ClientError? && (!Good(e) || Sends(p, e))
  }

  /** What is in the slot of a completion afterwards. */
  function Afterwards(p: Pool, e: Event): (s: Slot)
    requires !e.ClientError? && e.i < |p.slots|
  {
    if p.stop then Slot(p.slots[e.i].conn, multiset{})
    else if Renews(p, e) then Slot(p.made, multiset{Connect})
    else Slot(p.slots[e.i].conn, Following(OpOf(e)))
  }

  /** The slots after a completion: one changes, the others stay, and one may be added. */
  ghost predicate SlotsAfter(p: Pool, e: Event, q: Pool, limit: nat) {
    if e.ClientError? then q.slots == p.slots
    else
      && e.i < |p.slots|
      && q.slots == p.slots[e.i := Afterwards(p, e)] +
                    (if Growing(p, e, limit) then [Slot(p.made, multiset{Connect})] else [])
  }

  /** The counters and the hand-overs after a completion. */
  ghost predicate CountsAfter(p: Pool, e: Event, q: Pool, limit: nat) {
    && q.made == p.made + (if Renews(p, e) || Growing(p, e, limit) then 1 else 0)
    && q.errors == p.errors + (if !p.stop && !e.ClientError? && !Good(e) then 1 else 0)
    && q.stop == (p.stop || e.ClientError? || (e.Sendable? && !e.failed && e.sent <= 0))
    && q.handed == p.handed + (if Sends(p, e) then [HandOver(p.slots[e.i].conn, Held(p, e.i))] else [])
  }

  lemma DoneSlot(p: Pool, i: nat, op: Op)
    requires i < |p.slots| && |p.slots[i].pending| <= 1 && op in p.slots[i].pending
    ensures Done(p, i, op) == p.(slots := p.slots[i := Slot(p.slots[i].conn, multiset{})])
  {
    OnePending(p.slots[i].pending, op);
  }

  lemma AwaitSlot(p: Pool, i: nat, op: Op)
    requires i < |p.slots| && p.slots[i].pending == multiset{}
    ensures Await(p, i, op) == p.(slots := p.slots[i := Slot(p.slots[i].conn, multiset{op})])
  {
    assert multiset{} + multiset{op} == multiset{op};
  }

  lemma InitiateSlot(p: Pool, i: nat)
    requires i < |p.slots| && p.slots[i].pending == multiset{}
    ensures Initiate(p, i) == p.(slots := p.slots[i := Slot(p.made, multiset{Connect})], made := p.made + 1)
  {
    AwaitSlot(p.(slots := p.slots[i := p.slots[i].(conn := p.made)], made := p.made + 1), i, Connect);
  }

  lemma ConnectedExactly(p: Pool, e: Event)
    requires Inv(p) && Enabled(p, e) && e.Connected?
    ensures SlotsAfter(p, e, Next(p, e), p.size) && CountsAfter(p, e, Next(p, e), p.size)
  {
    hide Accounted, Done, Await, Initiate;
    var q := p.(slots := p.slots[e.i := Slot(p.slots[e.i].conn, multiset{})]);
    DoneSlot(p, e.i, Connect);
    AwaitSlot(q, e.i, FirstReply);
    InitiateSlot(q.(errors := q.errors + 1), e.i);
  }

  lemma FirstExactly(p: Pool, e: Event)
    requires Inv(p) && Enabled(p, e) && e.FirstReplied?
    ensures SlotsAfter(p, e, Next(p, e), p.size) && CountsAfter(p, e, Next(p, e), p.size)
  {
    hide Accounted, Done, Await, Initiate;
    var q := p.(slots := p.slots[e.i := Slot(p.slots[e.i].conn, multiset{})], buffers := p.buffers[e.i := Raw(e.buf)]);
    DoneSlot(p, e.i, FirstReply);
    AwaitSlot(q, e.i, SecondReply);
    InitiateSlot(q.(errors := q.errors + 1), e.i);
  }

  lemma SecondExactly(p: Pool, e: Event)
    requires Inv(p) && Enabled(p, e) && e.SecondReplied?
    ensures SlotsAfter(p, e, Next(p, e), p.size) && CountsAfter(p, e, Next(p, e), p.size)
  {
    hide Accounted, Done, Await, Initiate, Confirm, Packed;
    var q := p.(slots := p.slots[e.i := Slot(p.slots[e.i].conn, multiset{})], buffers := p.buffers[e.i := Raw(e.buf)]);
    DoneSlot(p, e.i, SecondReply);
    ConfirmSlot(q, e.i, Packed(e.buf));
    InitiateSlot(q.(errors := q.errors + 1), e.i);
  }

  lemma SendableExactly(p: Pool, e: Event)
    requires Inv(p) && Enabled(p, e) && e.Sendable?
    ensures SlotsAfter(p, e, Next(p, e), p.size) && CountsAfter(p, e, Next(p, e), p.size)
  {
    hide Accounted, Done, Await, Initiate;
    var q := p.(slots := p.slots[e.i := Slot(p.slots[e.i].conn, multiset{})]);
    DoneSlot(p, e.i, SendFd);
    InitiateSlot(q.(errors := q.errors + 1), e.i);
    InitiateSlot(q.(handed := q.handed + [HandOver(q.slots[e.i].conn, Held(q, e.i))]), e.i);
  }

  /** Every completion does to the pool exactly what the event says. */
  lemma NextExactly(p: Pool, e: Event)
    requires Inv(p) && Enabled(p, e)
    ensures SlotsAfter(p, e, Next(p, e), p.size) && CountsAfter(p, e, Next(p, e), p.size)
  {
    hide SlotsAfter, CountsAfter, Inv, Next;
    match e
    case Connected(_, _, _) => ConnectedExactly(p, e);
    case FirstReplied(_, _, _) => FirstExactly(p, e);
    case SecondReplied(_, _, _, _) => SecondExactly(p, e);
    case Sendable(_, _, _) => SendableExactly(p, e);
    case ClientError => StoppedExactly(p);
  }

  lemma StoppedExactly(p: Pool)
    ensures SlotsAfter(p, ClientError, Next(p, ClientError), p.size)
    ensures CountsAfter(p, ClientError, Next(p, ClientError), p.size)
  {
  }

  lemma ConfirmSlot(p: Pool, i: nat, m: Micro)
    requires i < |p.slots| && p.slots[i].pending == multiset{} && i < |p.buffers|
    ensures Confirm(p, i, m) == p.(confirmed := p.confirmed[p.slots[i].conn := m], buffers := p.buffers[i := m],
                                   slots := p.slots[i := Slot(p.slots[i].conn, multiset{SendFd})])
  {
    AwaitSlot(p.(confirmed := p.confirmed[p.slots[i].conn := m], buffers := p.buffers[i := m]), i, SendFd);
  }

  /** In every run, each completion on a slot leads to exactly one next operation there, on
      the same connection or on a new one, and leaves the other slots alone; the pool grows
      by a slot with a new connection exactly when the first reply on its last slot is good
      and it has fewer than min(backlog, 128) slots; and errors, stop and hand-overs are what
      the events say. */
  lemma {:induction false} StepExactly(backlog: nat, states: seq<Pool>, events: seq<Event>, k: nat)
    requires backlog >= 2 && IsRun(states, events) && states[0] == Start(backlog) && k < |events|
    ensures var limit := if backlog < 128 then backlog else 128;
            && SlotsAfter(states[k], events[k], states[k + 1], limit)
            && CountsAfter(states[k], events[k], states[k + 1], limit)
    ensures forall j :: 0 <= j < |states[k].slots| ==> states[k].slots[j].conn < states[k].made
  {
    hide Next, SlotsAfter, CountsAfter, SentConfirmed, ReadyToSend;
    Reachable(backlog, states, events, k);
    SizeStays(backlog, states, events, k);
    NextExactly(states[k], events[k]);
  }

  /** The pool can be filled: the slots one after the other connect and get a good reply. */
  lemma {:induction false} Fills(backlog: nat, m: nat, buf: seq<byte>) returns (states: seq<Pool>, events: seq<Event>)
    requires backlog >= 2 && 2 <= m <= backlog && m <= 128 && |buf| == 12 && buf[3] == 0
    ensures IsRun(states, events) && states[0] == Start(backlog)
    ensures var p := states[|events|]; !p.stop && |p.slots| == m && p.slots[m - 1].pending == multiset{Connect}
  {
    hide Next, Inv;
    if m == 2 {
      states, events := [Start(backlog)], [];
    } else {
      states, events := Fills(backlog, m - 1, buf);
      var p, i := states[|events|], m - 2;
      var e := Connected(i, false, false);
      assert Connect in p.slots[i].pending;
      RunMore(states, events, e);
      StepExactly(backlog, states + [Next(p, e)], events + [e], |events|);
      states, events := states + [Next(p, e)], events + [e];
      var q := states[|events|];
      var f := FirstReplied(i, false, buf);
      assert q.slots[i] == Slot(p.slots[i].conn, multiset{FirstReply});
      assert FirstReply in q.slots[i].pending;
      RunMore(states, events, f);
      StepExactly(backlog, states + [Next(q, f)], events + [f], |events|);
      states, events := states + [Next(q, f)], events + [f];
    }
  }

  /** A peer can be handed over: the second reply on the connection of the listen call is
      good, and the descriptor can be sent. */
  lemma HandsOver(backlog: nat, buf: seq<byte>) returns (states: seq<Pool>, events: seq<Event>)
    requires backlog >= 2 && |buf| == 22 && buf[1] == 0
    ensures IsRun(states, events) && states[0] == Start(backlog)
    ensures states[|events|].handed == [HandOver(0, NewConnection(buf[4..20], buf[20..22]))]
  {
    hide Await, Confirm, Initiate;
    var e, f := SecondReplied(0, false, 22, buf), Sendable(0, false, 1);
    var p := Start(backlog);
    var q := Next(p, e);
    DoneSlot(p, 0, SecondReply);
    ConfirmSlot(Fill(Done(p, 0, SecondReply), 0, Raw(buf)), 0, Packed(buf));
    assert q.slots[0] == Slot(0, multiset{SendFd}) && Held(q, 0) == Packed(buf) && q.handed == [] && !q.stop;
    assert IsRun([p, q], [e]);
    states, events := [p, q] + [Next(q, f)], [e] + [f];
    RunMore([p, q], [e], f);
    StepExactly(backlog, states, events, 1);
  }

  // ---------------------------------------------------------------- the pool as an object

  class ClientSessionPool {
    var slots: seq<Slot>
    var buffers: seq<Micro>
    var size: nat
    var errors: nat
    var stop: bool
    var made: nat
    ghost var confirmed: map<nat, Micro>
    ghost var handed: seq<HandOver>
    ghost const crashed: bool

    ghost function View(): (p: Pool)
      reads this
    {
      Pool(slots, buffers, size, errors, stop, made, confirmed, handed, crashed)
    }

    /** The pool after the listen call. It keeps the invariant from there on if the backlog
        is at least two; without one it uses a buffer that does not exist. */
    constructor (backlog: nat)
      ensures View() == Start(backlog)
      ensures backlog >= 2 ==> Inv(View())
    {
      var n := if backlog > MAX_CONNECTIONS then MAX_CONNECTIONS else backlog;
      size, errors, stop, made := n, 0, false, 2;
      buffers := seq(n, _ => Raw([]));
      slots := [Slot(0, multiset{SecondReply}), Slot(1, multiset{Connect})];
      confirmed, handed, crashed := map[], [], n == 0;
      new;
      if backlog >= 2 {
        StartInv(backlog);
      }
    }

    /** The operation on slot i has completed. */
    method Complete(i: nat, op: Op)
      requires i < |slots|
      modifies this`slots
      ensures View() == Done(old(View()), i, op)
    {
      slots := slots[i := slots[i].(pending := slots[i].pending - multiset{op})];
    }

    method Begin(i: nat, op: Op)
      requires i < |slots|
      modifies this`slots
      ensures View() == Await(old(View()), i, op)
    {
      slots := slots[i := slots[i].(pending := slots[i].pending + multiset{op})];
    }

    method InitiateSocket(i: nat)
      requires i < |slots|
      modifies this`slots, this`made
      ensures View() == Initiate(old(View()), i)
    {
      slots := slots[i := slots[i].(conn := made)];
      made := made + 1;
      Begin(i, Connect);
    }

    /** Counts an error and tries again with a new connection. */
    method TryAgain(i: nat)
      requires i < |slots|
      modifies this`slots, this`made, this`errors
      ensures View() == Retry(old(View()), i)
    {
      errors := errors + 1;
      InitiateSocket(i);
    }

    method HandleConnect(i: nat, failed: bool, writeFailed: bool)
      requires Inv(View()) && Enabled(View(), Connected(i, failed, writeFailed))
      modifies this
      ensures View() == Next(old(View()), Connected(i, failed, writeFailed)) && Inv(View())
    {
      hide Accounted, Done, Await, Initiate;
      NextInv(View(), Connected(i, failed, writeFailed));
      DoneInv(View(), i, Connect);
      Complete(i, Connect);
      if stop {
        return;
      }
      if failed || writeFailed {
        TryAgain(i);
        return;
      }
      Begin(i, FirstReply);
    }

    method Handle1stResp(i: nat, failed: bool, buf: seq<byte>)
      requires Inv(View()) && Enabled(View(), FirstReplied(i, failed, buf))
      modifies this
      ensures View() == Next(old(View()), FirstReplied(i, failed, buf)) && Inv(View())
    {
      hide Accounted, Done, Await, Initiate;
      NextInv(View(), FirstReplied(i, failed, buf));
      DoneInv(View(), i, FirstReply);
      Complete(i, FirstReply);
      buffers := buffers[i := Raw(buf)];
      if stop {
        return;
      }
      if failed || buf[3] != 0 {
        TryAgain(i);
        return;
      }
      Begin(i, SecondReply);
      if i == |slots| - 1 && |slots| < size {
        slots := slots + [Slot(made, multiset{Connect})];
        made := made + 1;
      }
    }

    method Handle2ndResp(i: nat, failed: bool, n: nat, buf: seq<byte>)
      requires Inv(View()) && Enabled(View(), SecondReplied(i, failed, n, buf))
      modifies this
      ensures View() == Next(old(View()), SecondReplied(i, failed, n, buf)) && Inv(View())
    {
      hide Accounted, Done, Await, Initiate;
      NextInv(View(), SecondReplied(i, failed, n, buf));
      DoneInv(View(), i, SecondReply);
      Complete(i, SecondReply);
      buffers := buffers[i := Raw(buf)];
      if stop {
        return;
      }
      if failed || n < SECOND_REPLY_SIZE || buf[1] != 0 {
        TryAgain(i);
        return;
      }
      confirmed := confirmed[slots[i].conn := Packed(buf)];
      buffers := buffers[i := NewConnection(buf[4..20], buf[20..22])];
      Begin(i, SendFd);
    }

    /** The message goes out with the descriptor: what the buffer of the slot holds. */
    method HandleSendFd(i: nat, failed: bool, sent: int)
      requires Inv(View()) && Enabled(View(), Sendable(i, failed, sent))
      modifies this
      ensures View() == Next(old(View()), Sendable(i, failed, sent)) && Inv(View())
    {
      hide Accounted, Done, Await, Initiate;
      NextInv(View(), Sendable(i, failed, sent));
      DoneInv(View(), i, SendFd);
      Complete(i, SendFd);
      if stop {
        return;
      }
      if failed {
        TryAgain(i);
        return;
      }
      var message := buffers[i];
      if sent <= 0 {
        stop := true;
        return;
      }
      handed := handed + [HandOver(slots[i].conn, message)];
      InitiateSocket(i);
    }

    method HandleClientError()
      requires Inv(View())
      modifies this`stop
      ensures View() == Next(old(View()), ClientError) && Inv(View())
    {
      NextInv(View(), ClientError);
      stop := true;
    }

    /** Calls the handler of a completion. */
    method Handle(e: Event)
      requires Inv(View()) && Enabled(View(), e)
      modifies this
      ensures View() == Next(old(View()), e) && Inv(View())
    {
      hide Inv, Next;
      match e
      case Connected(i, failed, writeFailed) => HandleConnect(i, failed, writeFailed);
      case FirstReplied(i, failed, buf) => Handle1stResp(i, failed, buf);
      case SecondReplied(i, failed, n, buf) => Handle2ndResp(i, failed, n, buf);
      case Sendable(i, failed, sent) => HandleSendFd(i, failed, sent);
      case ClientError => HandleClientError();
    }
  }

  /** Only what is pending completes. */
  ghost predicate Playable(backlog: nat, events: seq<Event>) {
    forall k, states: seq<Pool> ::
      0 <= k < |events| && IsRun(states, events[..k]) && states[0] == Start(backlog) ==> Enabled(states[k], events[k])
  }

  lemma RunMore(states: seq<Pool>, events: seq<Event>, e: Event)
    requires IsRun(states, events) && Enabled(states[|events|], e)
    ensures IsRun(states + [Next(states[|events|], e)], events + [e])
  {
    hide Next, Enabled;
    var more, next := states + [Next(states[|events|], e)], events + [e];
    forall k | 0 <= k < |next|
      ensures Enabled(more[k], next[k]) && more[k + 1] == Next(more[k], next[k])
    {
      if k < |events| {
        assert next[k] == events[k] && more[k] == states[k] && more[k + 1] == states[k + 1];
      }
    }
  }

  /** The life of a pool: the handlers are called as the completions come. The states of the
      object are a run of the transition system, so what holds in every run holds of them. */
  method Serve(backlog: nat, events: seq<Event>) returns (pool: ClientSessionPool, ghost states: seq<Pool>)
    requires backlog >= 2 && Playable(backlog, events)
    ensures IsRun(states, events) && states[0] == Start(backlog)
    ensures pool.View() == states[|events|] && Inv(pool.View())
  {
    hide Inv, Next, Enabled, ClientSessionPool.View, Start;
    pool := new ClientSessionPool(backlog);
    states := [pool.View()];
    for k := 0 to |events|
      invariant IsRun(states, events[..k]) && states[0] == Start(backlog)
      invariant pool.View() == states[k] && Inv(pool.View())
    {
      RunMore(states, events[..k], events[k]);
      assert events[..k + 1] == events[..k] + [events[k]];
      pool.Handle(events[k]);
      states := states + [pool.View()];
    }
    assert events[..|events|] == events;
  }
}
