/** Constant-throughput pacing of one connection: when requests are sent, and the latencies
    that responses are recorded with. */
module Pacing {
  import opened Wrappers

  const UINT64: nat := 0x1_0000_0000_0000_0000

  /** The pacing fields of a connection, and the clock in microseconds. Throughputs are
      requests per microsecond. */
  datatype Conn = Conn(throughput: real, pipeline: nat, threadStart: nat, clock: nat,
                       complete: nat, pending: nat, hasPending: bool, written: nat,
                       completeAtLastBatchStart: nat, actualLatencyStart: nat,
                       caughtUp: bool, catchUpStart: nat, completeAtCatchUpStart: nat)

  /** catch_up_throughput */
  function CatchUp(c: Conn): real {
    c.throughput * 2.0
  }

  /** The time at which n requests are due at a rate, as an integer. */
  function Due(start: nat, n: int, rate: real): int
    requires rate > 0.0
  {
    start + (n as real / rate).Floor
  }

  /** usec_to_next_send: the new state, and how long to wait. */
  function UsecToNextSend(c: Conn, now: nat): (Conn, int)
    requires c.throughput > 0.0
  {
    var next := Due(c.threadStart, c.complete, c.throughput);
    if next > now then (c.(caughtUp := true), next - now)
    else
      var c' := if c.caughtUp then c.(caughtUp := false, catchUpStart := now, completeAtCatchUpStart := c.complete) else c;
      var next := Due(c'.catchUpStart, c'.complete - c'.completeAtCatchUpStart, CatchUp(c'));
      (c', if next > now then next - now else 0)
  }

  /** What the socket does with a write. */
  datatype Sent = All | Part(n: nat) | Retry | Error

  /** socket_writeable, looking at the clock at now and again at start. */
  function Writeable(c: Conn, now: nat, start: nat, sent: Sent): Conn
    requires c.throughput > 0.0
  {
    if c.written == 0 && UsecToNextSend(c, now).1 > 0 then UsecToNextSend(c, now).0.(clock := start)
    else
      var c1 := if c.written == 0 then UsecToNextSend(c, now).0 else c;
      var c2 := if c.written == 0 && !c1.hasPending
                then c1.(actualLatencyStart := start, completeAtLastBatchStart := c1.complete, hasPending := true) else c1;
      var c3 := if c.written == 0 then c2.(pending := c2.pipeline) else c2;
      match sent
      case All => c3.(written := 0, clock := start)
      case Part(n) => c3.(written := c3.written + n, clock := start)
      case Retry => c3.(clock := start)
      case Error => c3.(clock := start)
  }

  /** response_complete; a stopped thread counts nothing more. */
  function Response(c: Conn, now: nat, stopped: bool): Conn {
    if stopped then c.(clock := now)
    else
      var left := (c.pending + UINT64 - 1) % UINT64;
      c.(complete := c.complete + 1, pending := left, hasPending := c.hasPending && left != 0, clock := now)
  }

  /** The corrected and the uncorrected latency of a response. */
  datatype Latency = Latency(corrected: int, uncorrected: int)

  function LatencyOf(c: Conn, now: nat): Latency
    requires c.throughput > 0.0
  {
    Latency(now - Due(c.threadStart, c.completeAtLastBatchStart, c.throughput), now - c.actualLatencyStart)
  }

  // ---- Runs ----

  datatype Event =
    | Delay(now: nat)                              // delay_request
    | Write(now: nat, start: nat, sent: Sent)      // socket_writeable
    | Respond(now: nat, stopped: bool)             // response_complete
    | Connected(now: nat)                          // socket_connected

  /** Events happen in the order of a monotone clock. */
  predicate InTime(c: Conn, e: Event) {
    c.clock <= e.now && (e.Write? ==> e.now <= e.start)
  }

  function Apply(c: Conn, e: Event): Conn
    requires c.throughput > 0.0
  {
    match e
    case Delay(now) => UsecToNextSend(c, now).0.(clock := now)
    case Write(now, start, sent) => Writeable(c, now, start, sent)
    case Respond(now, stopped) => Response(c, now, stopped)
    case Connected(now) => c.(written := 0, clock := now)
  }

  /** A zeroed connection, after delayed_initial_connect at now. */
  function Fresh(throughput: real, pipeline: nat, now: nat): Conn {
    Conn(throughput, pipeline, now, now, 0, 0, false, 0, 0, 0, true, 0, 0)
  }

  /** The state after the first i events of a run; parameters do not change. */
  function After(c: Conn, run: seq<Event>, i: nat): (d: Conn)
    requires c.throughput > 0.0 && i <= |run|
    ensures d.throughput == c.throughput && d.pipeline == c.pipeline && d.threadStart == c.threadStart
  {
    if i == 0 then c else Apply(After(c, run, i - 1), run[i - 1])
  }

  ghost predicate Timely(c: Conn, run: seq<Event>)
    requires c.throughput > 0.0
  {
    forall i :: 0 <= i < |run| ==> InTime(After(c, run, i), run[i])
  }

  /** An event gives the time itself. */
  lemma ClockUnread(c: Conn, e: Event)
    requires c.throughput > 0.0
    ensures Apply(c, e) == Apply(c.(clock := e.now), e)
    ensures Apply(c, e).clock == if e.Write? then e.start else e.now
  {
  }

  lemma Unrolled(c: Conn, run: seq<Event>, i: nat)
    requires c.throughput > 0.0 && i <= |run|
    ensures After(c, run, 0) == c
    ensures i < |run| ==> After(c, run, i + 1) == Apply(After(c, run, i), run[i])
  {
    hide Apply;
  }

  lemma TimelyAt(c: Conn, run: seq<Event>, i: nat)
    requires c.throughput > 0.0 && Timely(c, run) && i < |run|
    ensures InTime(After(c, run, i), run[i])
  {
    hide After, InTime;
  }

  // ---- When to send ----

  /** time is the whole microsecond of when n requests are due at a rate. */
  predicate DueAt(time: int, start: int, n: int, rate: real)
    requires rate > 0.0
  {
    time as real <= start as real + n as real / rate < time as real + 1.0
  }

  /** The answer of usec_to_next_send is to wait until the completed responses are due at
      the throughput; when they are, until those completed since catching up began are due
      at twice the throughput; and when they are too, not to wait. Catching up begins with
      the first answer after a wait for the throughput. */
  lemma WaitIs(c: Conn, now: nat)
    requires c.throughput > 0.0
    ensures var (d, wait) := UsecToNextSend(c, now);
            var next := wait + now;
            var behind := c.complete as real / c.throughput < (now + 1 - c.threadStart) as real;
            && d == c.(caughtUp := d.caughtUp, catchUpStart := d.catchUpStart, completeAtCatchUpStart := d.completeAtCatchUpStart)
            && d.caughtUp == !behind
            && (if behind && c.caughtUp then d.catchUpStart == now && d.completeAtCatchUpStart == c.complete
                else d.catchUpStart == c.catchUpStart && d.completeAtCatchUpStart == c.completeAtCatchUpStart)
            && (!behind ==> wait > 0 && DueAt(next, c.threadStart, c.complete, c.throughput))
            && (behind && wait > 0 ==> DueAt(next, d.catchUpStart, c.complete - d.completeAtCatchUpStart, c.throughput * 2.0))
            && (behind && wait <= 0 ==>
                  wait == 0 && (c.complete - d.completeAtCatchUpStart) as real / (c.throughput * 2.0) < (now + 1 - d.catchUpStart) as real)
  {
  }

  // ---- What a run did ----

  /** The responses that the first i events count. */
  function Counted(run: seq<Event>, i: nat): nat
    requires i <= |run|
  {
    if i == 0 then 0 else Counted(run, i - 1) + if run[i - 1].Respond? && !run[i - 1].stopped then 1 else 0
  }

  lemma {:induction false} CountedMono(run: seq<Event>, i: nat, k: nat)
    requires i <= k <= |run|
    ensures Counted(run, i) <= Counted(run, k)
  {
    if i < k { CountedMono(run, i, k - 1); }
  }

  lemma {:induction false} CompleteIs(c: Conn, run: seq<Event>, i: nat)
    requires c.throughput > 0.0 && i <= |run|
    ensures After(c, run, i).complete == c.complete + Counted(run, i)
  {
    hide After, UsecToNextSend;
    Unrolled(c, run, if i > 0 then i - 1 else 0);
    if i > 0 {
      CompleteIs(c, run, i - 1);
      if !run[i - 1].Respond? { CheckKeeps(After(c, run, i - 1), run[i - 1].now); }
    }
  }

  /** Event i writes: it goes on with a request that is half sent, or need not wait. */
  predicate LetThrough(c: Conn, run: seq<Event>, i: nat)
    requires c.throughput > 0.0 && i < |run|
  {
    run[i].Write? && (After(c, run, i).written > 0 || UsecToNextSend(After(c, run, i), run[i].now).1 <= 0)
  }

  /** Event i is a write that starts the requests from their first byte. */
  predicate Starts(c: Conn, run: seq<Event>, i: nat)
    requires c.throughput > 0.0 && i < |run|
  {
    After(c, run, i).written == 0 && LetThrough(c, run, i)
  }

  /** Event i sends a part of the requests. */
  predicate Cuts(c: Conn, run: seq<Event>, i: nat)
    requires c.throughput > 0.0 && i < |run|
  {
    LetThrough(c, run, i) && run[i].sent.Part? && run[i].sent.n > 0
  }

  /** Event i sends the rest of them, or connects anew. */
  predicate Ends(c: Conn, run: seq<Event>, i: nat)
    requires c.throughput > 0.0 && i < |run|
  {
    run[i].Connected? || (LetThrough(c, run, i) && run[i].sent.All?)
  }

  /** Event i sends a part, and no event between it and event k ends that. */
  ghost predicate CutShort(c: Conn, run: seq<Event>, i: nat, k: nat)
    requires c.throughput > 0.0 && i < k <= |run|
  {
    Cuts(c, run, i) && forall j :: i < j < k ==> !Ends(c, run, j)
  }

  ghost predicate AnyCutShort(c: Conn, run: seq<Event>, k: nat)
    requires c.throughput > 0.0 && k <= |run|
  {
    exists i :: 0 <= i < k && CutShort(c, run, i, k)
  }

  /** Requests are half sent exactly when a part was sent, and then neither the rest nor a
      new connection came. */
  lemma {:induction false} HalfSent(c: Conn, run: seq<Event>, k: nat)
    requires c.throughput > 0.0 && c.written == 0 && k <= |run|
    ensures After(c, run, k).written > 0 <==> AnyCutShort(c, run, k)
  {
    if k > 0 {
      HalfSent(c, run, k - 1);
      WrittenStep(c, run, k);
      CutStep(c, run, k);
    }
  }

  lemma CutStep(c: Conn, run: seq<Event>, k: nat)
    requires c.throughput > 0.0 && 0 < k <= |run|
    ensures AnyCutShort(c, run, k) <==>
            Cuts(c, run, k - 1) || (!Ends(c, run, k - 1) && AnyCutShort(c, run, k - 1))
  {
    hide Cuts, Ends;
    if AnyCutShort(c, run, k) {
      var i :| 0 <= i < k && CutShort(c, run, i, k);
      if i < k - 1 { assert CutShort(c, run, i, k - 1); }
    }
    if AnyCutShort(c, run, k - 1) {
      var i :| 0 <= i < k - 1 && CutShort(c, run, i, k - 1);
      if !Ends(c, run, k - 1) { assert CutShort(c, run, i, k); }
    }
    if Cuts(c, run, k - 1) { assert CutShort(c, run, k - 1, k); }
  }

  lemma WrittenStep(c: Conn, run: seq<Event>, k: nat)
    requires c.throughput > 0.0 && 0 < k <= |run|
    ensures var e := run[k - 1];
            After(c, run, k).written ==
            if Ends(c, run, k - 1) then 0
            else After(c, run, k - 1).written + if Cuts(c, run, k - 1) then e.sent.n else 0
  {
    var b := After(c, run, k - 1);
    assert After(c, run, k) == Apply(b, run[k - 1]);
    if run[k - 1].Write? { CheckKeeps(b, run[k - 1].now); }
    hide UsecToNextSend, After;
  }

  lemma CheckKeeps(c: Conn, now: nat)
    requires c.throughput > 0.0
    ensures var d := UsecToNextSend(c, now).0;
            && d.throughput == c.throughput && d.pipeline == c.pipeline && d.threadStart == c.threadStart && d.clock == c.clock
            && d.complete == c.complete && d.pending == c.pending && d.hasPending == c.hasPending && d.written == c.written
            && d.completeAtLastBatchStart == c.completeAtLastBatchStart && d.actualLatencyStart == c.actualLatencyStart
  {
  }

  /** Event i starts requests, and no event between it and event k does. */
  ghost predicate LastStart(c: Conn, run: seq<Event>, i: nat, k: nat)
    requires c.throughput > 0.0 && i < k <= |run|
  {
    Starts(c, run, i) && forall j :: i < j < k ==> !Starts(c, run, j)
  }

  /** A response is outstanding exactly when requests were started and fewer responses than
      a batch were counted since. (An empty batch counts down through 0.) */
  lemma {:induction false} OutstandingIs(c: Conn, run: seq<Event>, k: nat)
    requires c.throughput > 0.0 && !c.hasPending && c.pipeline < 0x1_0000_0000_0000_0000 && k <= |run|
    ensures After(c, run, k).hasPending <==> AnyOutstanding(c, run, k)
    ensures forall i :: 0 <= i < k && LastStart(c, run, i, k) && Outstanding(c, run, i, k) ==>
              After(c, run, k).pending == (Batch(c) - (Counted(run, k) - Counted(run, i))) % 0x1_0000_0000_0000_0000
  {
    hide UsecToNextSend, After, Apply, Starts, Outstanding, AnyOutstanding, LastStart;
    Unrolled(c, run, 0);
    if k == 0 {
      NoneOutstanding(c, run);
    } else {
      OutstandingIs(c, run, k - 1);
      PendingStep(c, run, k);
      if Starts(c, run, k - 1) {
        JustStarted(c, run, k);
      } else if AnyOutstanding(c, run, k - 1) {
        var i := TheStart(c, run, k - 1);
        StillOutstanding(c, run, i, k);
        CountedMono(run, i, k - 1);
        if run[k - 1].Respond? && !run[k - 1].stopped { CountDown(Batch(c), Counted(run, k - 1) - Counted(run, i)); }
      } else {
        NoneMore(c, run, k);
      }
    }
  }

  lemma NoneOutstanding(c: Conn, run: seq<Event>)
    requires c.throughput > 0.0
    ensures !AnyOutstanding(c, run, 0)
  {
  }

  lemma TheStart(c: Conn, run: seq<Event>, k: nat) returns (i: nat)
    requires c.throughput > 0.0 && k <= |run| && AnyOutstanding(c, run, k)
    ensures i < k && LastStart(c, run, i, k) && Outstanding(c, run, i, k)
  {
    i :| 0 <= i < k && Outstanding(c, run, i, k);
  }

  lemma JustStarted(c: Conn, run: seq<Event>, k: nat)
    requires c.throughput > 0.0 && 0 < k <= |run| && c.pipeline < UINT64 && Starts(c, run, k - 1)
    ensures AnyOutstanding(c, run, k)
    ensures forall i :: 0 <= i < k && LastStart(c, run, i, k) ==> i == k - 1
  {
    hide UsecToNextSend, After;
    assert Outstanding(c, run, k - 1, k);
  }

  lemma NoneMore(c: Conn, run: seq<Event>, k: nat)
    requires c.throughput > 0.0 && 0 < k <= |run| && !Starts(c, run, k - 1) && !AnyOutstanding(c, run, k - 1)
    ensures !AnyOutstanding(c, run, k)
    ensures forall i :: 0 <= i < k ==> !Outstanding(c, run, i, k)
  {
    hide Starts;
    forall i | 0 <= i < k ensures !Outstanding(c, run, i, k) {
      assert Outstanding(c, run, i, k) ==> Outstanding(c, run, i, k - 1);
    }
  }

  lemma CountDown(batch: nat, since: nat)
    requires since < batch <= UINT64
    ensures ((batch - since) % UINT64 + UINT64 - 1) % UINT64 == (batch - since - 1) % UINT64
    ensures (batch - since - 1) % UINT64 != 0 <==> since + 1 < batch
  {
    if batch - since < UINT64 { assert (batch - since) % UINT64 == batch - since; }
  }

  /** The responses that a batch waits for. */
  function Batch(c: Conn): nat {
    if c.pipeline == 0 then 0x1_0000_0000_0000_0000 else c.pipeline
  }

  ghost predicate Outstanding(c: Conn, run: seq<Event>, i: nat, k: nat)
    requires c.throughput > 0.0 && i < k <= |run|
  {
    LastStart(c, run, i, k) && Counted(run, k) - Counted(run, i) < Batch(c)
  }

  /** The one start that counts goes on counting. */
  lemma StillOutstanding(c: Conn, run: seq<Event>, i: nat, k: nat)
    requires c.throughput > 0.0 && i < k - 1 && k <= |run| && Outstanding(c, run, i, k - 1) && !Starts(c, run, k - 1)
    ensures Counted(run, k - 1) - Counted(run, i) < Batch(c)
    ensures Counted(run, k) - Counted(run, i) < Batch(c) <==> AnyOutstanding(c, run, k)
    ensures forall j :: 0 <= j < k && LastStart(c, run, j, k) ==> j == i
  {
    hide Starts, Counted;
    forall j | 0 <= j < k && LastStart(c, run, j, k) ensures j == i { }
    assert LastStart(c, run, i, k);
    assert Outstanding(c, run, i, k) <==> Counted(run, k) - Counted(run, i) < Batch(c);
  }

  ghost predicate AnyOutstanding(c: Conn, run: seq<Event>, k: nat)
    requires c.throughput > 0.0 && k <= |run|
  {
    exists i :: 0 <= i < k && Outstanding(c, run, i, k)
  }

  lemma PendingStep(c: Conn, run: seq<Event>, k: nat)
    requires c.throughput > 0.0 && 0 < k <= |run|
    ensures var b, d := After(c, run, k - 1), After(c, run, k);
            if Starts(c, run, k - 1) then d.hasPending && d.pending == c.pipeline && Counted(run, k) == Counted(run, k - 1)
            else if run[k - 1].Respond? && !run[k - 1].stopped
            then d.pending == (b.pending + UINT64 - 1) % UINT64 && d.hasPending == (b.hasPending && d.pending != 0)
            else d.pending == b.pending && d.hasPending == b.hasPending
  {
    var b := After(c, run, k - 1);
    assert After(c, run, k) == Apply(b, run[k - 1]);
    if !run[k - 1].Respond? { CheckKeeps(b, run[k - 1].now); }
    hide UsecToNextSend, After;
  }

  /** Event i begins a batch: it starts requests, and no response is outstanding. */
  predicate Begins(c: Conn, run: seq<Event>, i: nat)
    requires c.throughput > 0.0 && i < |run|
  {
    Starts(c, run, i) && !After(c, run, i).hasPending
  }

  /** Event i begins the last batch before event k. */
  ghost predicate LastBatch(c: Conn, run: seq<Event>, i: nat, k: nat)
    requires c.throughput > 0.0 && i < k <= |run|
  {
    Begins(c, run, i) && forall j :: i < j < k ==> !Begins(c, run, j)
  }

  ghost predicate NoBatch(c: Conn, run: seq<Event>, k: nat)
    requires c.throughput > 0.0 && k <= |run|
  {
    forall j :: 0 <= j < k ==> !Begins(c, run, j)
  }

  /** The batch-start fields are the time of the write that began the last batch, and the
      responses that were counted before it. */
  lemma {:induction false} BatchStartIs(c: Conn, run: seq<Event>, i: nat, k: nat)
    requires c.throughput > 0.0 && i < k <= |run| && LastBatch(c, run, i, k)
    ensures After(c, run, k).actualLatencyStart == run[i].start
    ensures After(c, run, k).completeAtLastBatchStart == c.complete + Counted(run, i)
  {
    BatchFields(c, run, k);
    if k == i + 1 {
      CompleteIs(c, run, i);
    } else {
      BatchStartIs(c, run, i, k - 1);
    }
  }

  lemma {:induction false} NoBatchStart(c: Conn, run: seq<Event>, k: nat)
    requires c.throughput > 0.0 && k <= |run| && NoBatch(c, run, k)
    ensures After(c, run, k).actualLatencyStart == c.actualLatencyStart
    ensures After(c, run, k).completeAtLastBatchStart == c.completeAtLastBatchStart
  {
    if k > 0 {
      BatchFields(c, run, k);
      NoBatchStart(c, run, k - 1);
    }
  }

  lemma BatchFields(c: Conn, run: seq<Event>, k: nat)
    requires c.throughput > 0.0 && 0 < k <= |run|
    ensures var b, d := After(c, run, k - 1), After(c, run, k);
            if Begins(c, run, k - 1) then d.actualLatencyStart == run[k - 1].start && d.completeAtLastBatchStart == b.complete
            else d.actualLatencyStart == b.actualLatencyStart && d.completeAtLastBatchStart == b.completeAtLastBatchStart
  {
    var b := After(c, run, k - 1);
    assert After(c, run, k) == Apply(b, run[k - 1]);
    if !run[k - 1].Respond? { CheckKeeps(b, run[k - 1].now); }
    hide UsecToNextSend, After;
  }

  lemma {:induction false} ClockMono(c: Conn, run: seq<Event>, i: nat, k: nat)
    requires c.throughput > 0.0 && Timely(c, run) && i <= k <= |run|
    ensures After(c, run, i).clock <= After(c, run, k).clock
  {
    hide After, Apply, Timely, InTime;
    if i < k {
      ClockMono(c, run, i, k - 1);
      TimelyAt(c, run, k - 1);
      Unrolled(c, run, k - 1);
      ClockStep(After(c, run, k - 1), run[k - 1]);
    }
  }

  lemma ClockStep(c: Conn, e: Event)
    requires c.throughput > 0.0 && InTime(c, e)
    ensures c.clock <= Apply(c, e).clock && (e.Write? ==> Apply(c, e).clock == e.start)
  {
  }

  // ---- Latencies ----

  /** The corrected latency counts from when the n responses before the batch were due, the
      uncorrected one from the write that began the batch. */
  ghost predicate Measured(l: Latency, now: nat, start: nat, n: nat, throughput: real, began: nat)
    requires throughput > 0.0
  {
    var late := (now - start) as real - n as real / throughput;
    late <= l.corrected as real < late + 1.0 && l.uncorrected == now - began
  }

  /** In every state of every run, after a batch began, the latencies of a response are
      those of the schedule and of the write; and the corrected one is not the smaller. */
  lemma LatenciesOk(throughput: real, pipeline: nat, start: nat, run: seq<Event>, i: nat, k: nat, now: nat)
    requires throughput > 0.0 && Timely(Fresh(throughput, pipeline, start), run) && i < k <= |run|
    requires var c := Fresh(throughput, pipeline, start); LastBatch(c, run, i, k) && After(c, run, k).clock <= now
    ensures var l := LatencyOf(After(Fresh(throughput, pipeline, start), run, k), now);
            && Measured(l, now, start, Counted(run, i), throughput, run[i].start)
            && 0 <= l.uncorrected <= l.corrected
  {
    var c := Fresh(throughput, pipeline, start);
    hide UsecToNextSend, After, Apply, Timely, Writeable, Response;
    TimelyAt(c, run, i);
    Unrolled(c, run, i);
    BatchStartIs(c, run, i, k);
    CompleteIs(c, run, i);
    ClockMono(c, run, i + 1, k);
    ClockStep(After(c, run, i), run[i]);
    BeginsDue(After(c, run, i), run[i].now);
  }

  lemma BeginsDue(c: Conn, now: nat)
    requires c.throughput > 0.0 && UsecToNextSend(c, now).1 <= 0
    ensures Due(c.threadStart, c.complete, c.throughput) <= now
  {
  }

  /** Before the first batch, a response has the latency since the connection began, and an
      uncorrected one that counts from 0: it is the greater, unless the clock began with the
      connection. */
  lemma Unasked(throughput: real, pipeline: nat, start: nat, run: seq<Event>, k: nat, now: nat)
    requires throughput > 0.0 && k <= |run| && NoBatch(Fresh(throughput, pipeline, start), run, k)
    ensures LatencyOf(After(Fresh(throughput, pipeline, start), run, k), now) == Latency(now - start, now)
  {
    NoBatchStart(Fresh(throughput, pipeline, start), run, k);
    ZeroDue(start, throughput);
  }

  lemma ZeroDue(start: nat, rate: real)
    requires rate > 0.0
    ensures Due(start, 0, rate) == start
  {
    assert 0 as real / rate == 0.0;
  }

  // ---- The schedule ----

  /** Completed and expected responses stay within the rate, by one microsecond and one
      batch; and since catching up began, within twice the rate. */
  ghost predicate OnSchedule(c: Conn) {
    && c.throughput > 0.0 && c.threadStart <= c.clock && c.pending <= c.pipeline < UINT64
    && Within(c.complete, c.pending, c.throughput, c.clock, c.threadStart, c.pipeline)
    && (!c.caughtUp ==>
          && c.catchUpStart <= c.clock && c.completeAtCatchUpStart <= c.complete
          && Within(c.complete - c.completeAtCatchUpStart, c.pending, CatchUp(c), c.clock, c.catchUpStart, c.pipeline))
  }

  ghost predicate Within(n: int, pending: nat, rate: real, now: nat, start: nat, pipeline: nat) {
    (n + pending) as real <= rate * (now + 1 - start) as real + pipeline as real
  }

  /** A response that is counted was asked for. */
  predicate Asked(c: Conn, e: Event) {
    e.Respond? && !e.stopped ==> c.pending > 0
  }

  /** What is due by now was not completed too early. */
  lemma DueWithin(start: nat, n: nat, rate: real, now: nat)
    requires rate > 0.0 && start <= now && Due(start, n, rate) <= now
    ensures n as real <= rate * (now + 1 - start) as real
  {
    var x := n as real / rate;
    assert x < (now + 1 - start) as real;
    assert x * rate == n as real;
    MulLe(x, (now + 1 - start) as real, rate);
  }

  lemma MulLe(x: real, y: real, r: real)
    requires x <= y && r > 0.0
    ensures x * r <= r * y
  {
  }

  lemma WithinLater(n: int, pending: nat, rate: real, now: nat, start: nat, pipeline: nat, later: nat)
    requires rate > 0.0 && Within(n, pending, rate, now, start, pipeline) && now <= later
    ensures Within(n, pending, rate, later, start, pipeline)
  {
    MulLe((now + 1 - start) as real, (later + 1 - start) as real, rate);
  }

  lemma WithinStart(pending: nat, rate: real, now: nat, pipeline: nat)
    requires rate > 0.0 && pending <= pipeline
    ensures Within(0, pending, rate, now, now, pipeline)
  {
  }

  /** A check of the schedule keeps it. */
  lemma CheckOk(c: Conn, now: nat)
    requires OnSchedule(c) && c.clock <= now
    ensures OnSchedule(UsecToNextSend(c, now).0.(clock := now))
  {
    hide Within, Due;
    WithinLater(c.complete, c.pending, c.throughput, c.clock, c.threadStart, c.pipeline, now);
    if !c.caughtUp {
      WithinLater(c.complete - c.completeAtCatchUpStart, c.pending, CatchUp(c), c.clock, c.catchUpStart, c.pipeline, now);
    }
    WithinStart(c.pending, CatchUp(c), now, c.pipeline);
  }

  /** When the check says to send, a whole batch may be outstanding. */
  lemma SendOk(c: Conn, now: nat)
    requires OnSchedule(c) && c.clock <= now && UsecToNextSend(c, now).1 == 0
    ensures OnSchedule(UsecToNextSend(c, now).0.(clock := now, pending := c.pipeline))
  {
    hide Due;
    CheckOk(c, now);
    var c' := UsecToNextSend(c, now).0;
    DueWithin(c.threadStart, c.complete, c.throughput, now);
    DueWithin(c'.catchUpStart, c'.complete - c'.completeAtCatchUpStart, CatchUp(c'), now);
  }

  lemma LaterOk(c: Conn, d: Conn, later: nat)
    requires OnSchedule(c) && c.clock <= later
    requires d.throughput == c.throughput && d.pipeline == c.pipeline && d.threadStart == c.threadStart && d.clock == later
    requires d.complete == c.complete && d.pending == c.pending && d.caughtUp == c.caughtUp
    requires d.catchUpStart == c.catchUpStart && d.completeAtCatchUpStart == c.completeAtCatchUpStart
    ensures OnSchedule(d)
  {
    hide Within;
    WithinLater(c.complete, c.pending, c.throughput, c.clock, c.threadStart, c.pipeline, later);
    if !c.caughtUp {
      WithinLater(c.complete - c.completeAtCatchUpStart, c.pending, CatchUp(c), c.clock, c.catchUpStart, c.pipeline, later);
    }
  }

  lemma ScheduleStep(c: Conn, e: Event)
    requires OnSchedule(c) && InTime(c, e) && Asked(c, e)
    ensures OnSchedule(Apply(c, e))
  {
    assert c.throughput > 0.0;
    hide OnSchedule, UsecToNextSend;
    match e
    case Delay(now) => CheckOk(c, now);
    case Connected(now) => LaterOk(c, Apply(c, e), now);
    case Respond(now, stopped) => ResponseOk(c, now, stopped);
    case Write(now, start, sent) =>
      var c1 := UsecToNextSend(c, now).0;
      CheckFrame(c, now);
      if c.written > 0 {
        LaterOk(c, Apply(c, e), start);
      } else if UsecToNextSend(c, now).1 > 0 {
        CheckOk(c, now);
        LaterOk(c1.(clock := now), Apply(c, e), start);
      } else {
        SendOk(c, now);
        LaterOk(c1.(clock := now, pending := c.pipeline), Apply(c, e), start);
      }
  }

  lemma CheckFrame(c: Conn, now: nat)
    requires OnSchedule(c)
    ensures var d := UsecToNextSend(c, now).0;
            && d.throughput == c.throughput && d.pipeline == c.pipeline && d.threadStart == c.threadStart
            && d.complete == c.complete && d.pending == c.pending && UsecToNextSend(c, now).1 >= 0
    ensures c.throughput > 0.0
  {
  }

  lemma ResponseOk(c: Conn, now: nat, stopped: bool)
    requires OnSchedule(c) && c.clock <= now && (!stopped ==> c.pending > 0)
    ensures OnSchedule(Response(c, now, stopped))
  {
    LaterOk(c, c.(clock := now), now);
    if !stopped {
      LeftOf(c.pending);
      assert OnSchedule(c.(clock := now));
    }
  }

  lemma LeftOf(pending: nat)
    requires 0 < pending < UINT64
    ensures (pending + UINT64 - 1) % UINT64 == pending - 1
  {
  }

  /** Only responses that were asked for come. */
  ghost predicate AllAsked(c: Conn, run: seq<Event>)
    requires c.throughput > 0.0
  {
    forall i :: 0 <= i < |run| ==> Asked(After(c, run, i), run[i])
  }

  lemma {:induction false} ScheduleRun(c: Conn, run: seq<Event>, i: nat)
    requires OnSchedule(c) && Timely(c, run) && AllAsked(c, run) && i <= |run|
    ensures OnSchedule(After(c, run, i))
  {
    assert c.throughput > 0.0;
    hide After, Apply, Timely, InTime, OnSchedule, Asked;
    Unrolled(c, run, if i > 0 then i - 1 else 0);
    if i > 0 {
      ScheduleRun(c, run, i - 1);
      TimelyAt(c, run, i - 1);
      ScheduleStep(After(c, run, i - 1), run[i - 1]);
    }
  }

  /** n requests in less than the given time, at a rate, with one batch ahead. */
  ghost predicate AtRate(n: int, rate: real, time: int, batch: nat) {
    n as real <= rate * time as real + batch as real
  }

  /** n completions never exceed what the rate allows by the next microsecond, plus one
      batch; and while behind, the completions since catching up began stay within twice the
      rate in the same way. */
  ghost predicate Paced(c: Conn, n: nat, throughput: real, pipeline: nat, start: nat) {
    && start <= c.clock && AtRate(n, throughput, c.clock + 1 - start, pipeline)
    && (!c.caughtUp ==>
          && c.catchUpStart <= c.clock
          && AtRate(n - c.completeAtCatchUpStart, throughput * 2.0, c.clock + 1 - c.catchUpStart, pipeline))
  }

  /** Schedule safety over every run in which only responses that were asked for come. */
  lemma ScheduleSafety(throughput: real, pipeline: nat, start: nat, run: seq<Event>, i: nat)
    requires throughput > 0.0 && pipeline < UINT64 && i <= |run|
    requires Timely(Fresh(throughput, pipeline, start), run) && AllAsked(Fresh(throughput, pipeline, start), run)
    ensures Paced(After(Fresh(throughput, pipeline, start), run, i), Counted(run, i), throughput, pipeline, start)
  {
    hide OnSchedule, Timely, AllAsked, After, Apply, Paced;
    var c := Fresh(throughput, pipeline, start);
    FreshOk(throughput, pipeline, start);
    ScheduleRun(c, run, i);
    CompleteIs(c, run, i);
    ScheduleMeans(After(c, run, i));
  }

  lemma FreshOk(throughput: real, pipeline: nat, start: nat)
    requires throughput > 0.0 && pipeline < UINT64
    ensures OnSchedule(Fresh(throughput, pipeline, start))
  {
    WithinStart(0, throughput, start, pipeline);
  }

  lemma ScheduleMeans(c: Conn)
    requires OnSchedule(c)
    ensures Paced(c, c.complete, c.throughput, c.pipeline, c.threadStart)
  {
  }

  // ---- The connection ----

  class Connection {
    const throughput: real
    const catchUpThroughput: real
    const pipeline: nat
    var threadStart: nat
    var complete: nat
    var pending: nat
    var hasPending: bool
    var written: nat
    var start: nat
    var completeAtLastBatchStart: nat
    var actualLatencyStart: nat
    var caughtUp: bool
    var catchUpStart: nat
    var completeAtCatchUpStart: nat

    ghost predicate Valid()
      reads this
    {
      throughput > 0.0 && catchUpThroughput == throughput * 2.0
    }

    ghost function At(clock: nat): Conn
      reads this
    {
      Conn(throughput, pipeline, threadStart, clock, complete, pending, hasPending, written,
           completeAtLastBatchStart, actualLatencyStart, caughtUp, catchUpStart, completeAtCatchUpStart)
    }

    /** thread_main's set-up and delayed_initial_connect */
    constructor (throughput: real, pipeline: nat, now: nat)
      requires throughput > 0.0
      ensures Valid() && At(now) == Fresh(throughput, pipeline, now)
    {
      this.throughput, this.pipeline, this.catchUpThroughput := throughput, pipeline, throughput * 2.0;
      threadStart, start := now, 0;
      complete, pending, hasPending, written := 0, 0, false, 0;
      completeAtLastBatchStart, actualLatencyStart := 0, 0;
      caughtUp, catchUpStart, completeAtCatchUpStart := true, 0, 0;
    }

    /** usec_to_next_send */
    method NextSend(now: nat) returns (wait: int)
      requires Valid()
      modifies this
      ensures Valid() && (At(now), wait) == (UsecToNextSend(old(At(now)), now).0, UsecToNextSend(old(At(now)), now).1)
      ensures start == old(start)
    {
      var next := threadStart + (complete as real / throughput).Floor;
      var sendNow := true;
      if next > now {
        caughtUp := true;
        sendNow := false;
      } else {
        if caughtUp {
          caughtUp := false;
          catchUpStart := now;
          completeAtCatchUpStart := complete;
        }
        var since := complete - completeAtCatchUpStart;
        next := catchUpStart + (since as real / catchUpThroughput).Floor;
        if next > now { sendNow := false; }
      }
      wait := if sendNow then 0 else next - now;
    }

    /** delay_request: whether to look for the socket to become writeable. */
    method DelayRequest(now: nat) returns (ready: bool)
      requires Valid()
      modifies this
      ensures Valid() && At(now) == Apply(old(At(now)), Delay(now))
      ensures ready == (UsecToNextSend(old(At(now)), now).1 == 0)
    {
      var wait := NextSend(now);
      ready := wait == 0;
    }

    /** socket_writeable */
    method SocketWriteable(now: nat, later: nat, sent: Sent)
      requires Valid()
      modifies this
      ensures Valid() && At(later) == Apply(old(At(now)), Write(now, later, sent))
    {
      if written == 0 {
        var wait := NextSend(now);
        if wait > 0 { return; }
      }
      if written == 0 {
        start := later;
        if !hasPending {
          actualLatencyStart := start;
          completeAtLastBatchStart := complete;
          hasPending := true;
        }
        pending := pipeline;
      }
      match sent
      case All => written := 0;
      case Part(n) => written := written + n;
      case Retry =>
      case Error =>
    }

    /** socket_connected */
    method SocketConnected(now: nat)
      requires Valid()
      modifies this
      ensures Valid() && At(now) == Apply(old(At(now)), Connected(now))
    {
      written := 0;
    }

    /** response_complete: the recorded latencies, if any. */
    method ResponseComplete(now: nat, stopped: bool, recordAll: bool) returns (recorded: Option<Latency>)
      requires Valid()
      modifies this
      ensures Valid() && At(now) == Apply(old(At(now)), Respond(now, stopped))
      ensures recorded.Some? ==>
                && recorded.value == LatencyOf(old(At(now)), now)
                && Measured(recorded.value, now, threadStart, old(completeAtLastBatchStart), throughput, old(actualLatencyStart))
      ensures recorded.Some? <==> !stopped && (recordAll || !hasPending)
    {
      if stopped { return None; }
      complete := complete + 1;
      var expectedStart := threadStart + (completeAtLastBatchStart as real / throughput).Floor;
      var corrected := now - expectedStart;
      pending := (pending + UINT64 - 1) % UINT64;
      if pending == 0 { hasPending := false; }
      recorded := None;
      if recordAll || !hasPending {
        recorded := Some(Latency(corrected, now - actualLatencyStart));
      }
    }

    /** The callback for an event, and what it records. */
    method Handle(e: Event, recordAll: bool, ghost clock: nat) returns (recorded: Option<Latency>)
      requires Valid()
      modifies this
      ensures Valid() && At(Apply(old(At(clock)), e).clock) == Apply(old(At(clock)), e)
      ensures recorded.Some? ==> recorded.value == LatencyOf(old(At(clock)), e.now)
      ensures recorded.Some? <==> e.Respond? && !e.stopped && (recordAll || !hasPending)
    {
      ClockUnread(At(clock), e);
      hide Writeable, UsecToNextSend, Response;
      recorded := None;
      match e
      case Delay(now) => var _ := DelayRequest(now);
      case Write(now, later, sent) => SocketWriteable(now, later, sent);
      case Respond(now, stopped) => recorded := ResponseComplete(now, stopped, recordAll);
      case Connected(now) => SocketConnected(now);
    }
  }

  /** What is recorded with event k: a counted response is recorded when none is outstanding
      any more, or if all are; with the latencies of the schedule, and of the write that
      began the last batch. Before the first batch, they count from the connection's start
      and from 0. */
  ghost predicate Recorded(c: Conn, run: seq<Event>, recordAll: bool, k: nat, r: Option<Latency>)
    requires c.throughput > 0.0 && k < |run|
  {
    && (r.Some? <==> run[k].Respond? && !run[k].stopped && (recordAll || !AnyOutstanding(c, run, k + 1)))
    && (forall i :: 0 <= i < k && LastBatch(c, run, i, k) && r.Some? ==>
          && Measured(r.value, run[k].now, c.threadStart, Counted(run, i), c.throughput, run[i].start)
          && 0 <= r.value.uncorrected <= r.value.corrected)
    && (NoBatch(c, run, k) && r.Some? ==> r.value == Latency(run[k].now - c.threadStart, run[k].now))
  }

  lemma RecordedOk(throughput: real, pipeline: nat, start: nat, run: seq<Event>, recordAll: bool, k: nat, r: Option<Latency>)
    requires throughput > 0.0 && pipeline < UINT64 && Timely(Fresh(throughput, pipeline, start), run) && k < |run|
    requires var c := Fresh(throughput, pipeline, start);
             && (r.Some? <==> run[k].Respond? && !run[k].stopped && (recordAll || !After(c, run, k + 1).hasPending))
             && (r.Some? ==> r.value == LatencyOf(After(c, run, k), run[k].now))
    ensures Recorded(Fresh(throughput, pipeline, start), run, recordAll, k, r)
  {
    var c := Fresh(throughput, pipeline, start);
    OutstandingIs(c, run, k + 1);
    assert InTime(After(c, run, k), run[k]);
    hide After, Timely, LatencyOf, LastBatch, AnyOutstanding, Measured, Outstanding;
    forall i | 0 <= i < k && LastBatch(c, run, i, k) && r.Some?
      ensures Measured(r.value, run[k].now, start, Counted(run, i), throughput, run[i].start)
      ensures 0 <= r.value.uncorrected <= r.value.corrected
    {
      LatenciesOk(throughput, pipeline, start, run, i, k, run[k].now);
    }
    if NoBatch(c, run, k) && r.Some? { Unasked(throughput, pipeline, start, run, k, run[k].now); }
  }

  /** The callbacks of one connection for the events of a run, and what each records. */
  method Drive(throughput: real, pipeline: nat, start: nat, run: seq<Event>, recordAll: bool) returns (recorded: seq<Option<Latency>>)
    requires throughput > 0.0 && pipeline < UINT64 && Timely(Fresh(throughput, pipeline, start), run)
    ensures |recorded| == |run|
    ensures forall k :: 0 <= k < |run| ==> Recorded(Fresh(throughput, pipeline, start), run, recordAll, k, recorded[k])
  {
    hide After, Timely, Recorded, Writeable, UsecToNextSend, Response, LatencyOf;
    ghost var c := Fresh(throughput, pipeline, start);
    var connection := new Connection(throughput, pipeline, start);
    recorded := [];
    ghost var clock := start;
    Unrolled(c, run, 0);
    for i := 0 to |run|
      invariant fresh(connection) && connection.Valid()
      invariant connection.At(clock) == After(c, run, i)
      invariant |recorded| == i && forall k :: 0 <= k < i ==> Recorded(c, run, recordAll, k, recorded[k])
    {
      Unrolled(c, run, i);
      var r := connection.Handle(run[i], recordAll, clock);
      clock := After(c, run, i + 1).clock;
      RecordedOk(throughput, pipeline, start, run, recordAll, i, r);
      recorded := recorded + [r];
    }
  }
}
