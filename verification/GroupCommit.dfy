// DBImpl::Write as a protocol between any number of threads: one writer at a
// time leaves the mutex to write the log, on behalf of a group of writers.

module GroupCommit {
  import opened Wrappers
  import opened Entries
  import opened DbState

  datatype Operation = Operation(key: UserKey, op: Op)
  datatype Batch = Batch(ops: seq<Operation>, size: nat)

  // A writer in the queue. A missing batch only forces a memtable switch.
  datatype Request = Request(id: nat, batch: Option<Batch>, sync: bool)

  function OpsOf(r: Request): seq<Operation> {
    if r.batch.Some? then r.batch.value.ops else []
  }

  // The operations of several writers, in queue order.
  function Ops(rs: seq<Request>): seq<Operation> {
    if |rs| == 0 then [] else Ops(rs[..|rs| - 1]) + OpsOf(rs[|rs| - 1])
  }

  lemma {:induction false} OpsConcat(a: seq<Request>, b: seq<Request>)
    ensures Ops(a + b) == Ops(a) + Ops(b)
  {
    if |b| == 0 {
      assert a + b == a;
    } else {
      var front := b[..|b| - 1];
      assert (a + b)[..|a + b| - 1] == a + front;
      OpsConcat(a, front);
    }
  }

  // ---------------------------------------------------- BuildBatchGroup

  const SMALL_WRITE := 131072
  const MAX_GROUP := 1048576

  function SizeLimit(first: nat): nat {
    if first <= SMALL_WRITE then first + SMALL_WRITE else MAX_GROUP
  }

  // Bytes of the batches among several writers.
  function Size(rs: seq<Request>): nat {
    if |rs| == 0 then 0
    else Size(rs[..|rs| - 1]) + (if rs[|rs| - 1].batch.Some? then rs[|rs| - 1].batch.value.size else 0)
  }

  // No sync write in a group led by a non-sync write, and a bounded size
  // unless the leader is alone with its batch.
  ghost predicate MayGroup(queue: seq<Request>, n: nat)
    requires |queue| > 0 && queue[0].batch.Some?
  {
    && 1 <= n <= |queue|
    && (forall i :: 0 <= i < n ==> queue[i].sync ==> queue[0].sync)
    && ((forall i :: 1 <= i < n ==> queue[i].batch == None) || Size(queue[..n]) <= SizeLimit(queue[0].batch.value.size))
  }

  lemma OneMore(rs: seq<Request>, n: nat)
    requires n < |rs|
    ensures Ops(rs[..n + 1]) == Ops(rs[..n]) + OpsOf(rs[n])
    ensures Size(rs[..n + 1]) == Size(rs[..n]) + (if rs[n].batch.Some? then rs[n].batch.value.size else 0)
  {
    assert rs[..n + 1][..n] == rs[..n];
  }

  // Why the writer behind a group was not taken into it.
  ghost predicate CannotJoin(queue: seq<Request>, n: nat)
    requires |queue| > 0 && queue[0].batch.Some? && n < |queue|
  {
    || (queue[n].sync && !queue[0].sync)
    || (queue[n].batch.Some? && Size(queue[..n + 1]) > SizeLimit(queue[0].batch.value.size))
  }

  // The writers taken and their operations in queue order. The next writer, if
  // any, could not have been taken as well.
  method BuildBatchGroup(queue: seq<Request>) returns (n: nat, updates: seq<Operation>)
    requires |queue| > 0 && queue[0].batch.Some?
    ensures MayGroup(queue, n) && updates == Ops(queue[..n])
    ensures n < |queue| ==> CannotJoin(queue, n)
  {
    hide Ops, Size, SizeLimit;
    var first := queue[0];
    updates := first.batch.value.ops;
    var size := first.batch.value.size;
    var maxSize := SizeLimit(size);
    n := 1;
    NothingYet();
    OneMore(queue, 0);
    while n < |queue|
      invariant 1 <= n <= |queue| && MayGroup(queue, n) && updates == Ops(queue[..n]) && size == Size(queue[..n])
      invariant maxSize == SizeLimit(first.batch.value.size)
    {
      var w := queue[n];
      OneMore(queue, n);
      if w.sync && !first.sync { break; }
      if w.batch.Some? {
        if size + w.batch.value.size > maxSize { break; }
        size := size + w.batch.value.size;
        updates := updates + w.batch.value.ops;
      }
      n := n + 1;
    }
  }

  lemma NothingYet()
    ensures Ops([]) == [] && Size([]) == 0
  {
  }

  // ------------------------------------------------------- the protocol

  // SyncFailed: the record is in the log, but may not have reached the disk.
  datatype Status = Ok | Failed | SyncFailed

  // Where a thread is in Write: waiting on its condition variable, out of the
  // mutex writing the log, back with the outcome, or returned.
  datatype Thread =
    | Waiting
    | Logging(n: nat, ops: seq<Operation>)
    | Logged(n: nat, ops: seq<Operation>, status: Status)
    | Returned(status: Status)

  // One log record: its first sequence number and its operations.
  datatype Record = Record(first: nat, ops: seq<Operation>)

  // A log file, and how many of its records a sync has put on disk.
  datatype LogFile = LogFile(records: seq<Record>, synced: nat)

  // A writer that was taken off the queue, its outcome, and the number of
  // records that had been logged by then.
  datatype Taken = Taken(r: Request, status: Status, end: nat)

  datatype State = State(
    queue: seq<Request>,           // writers_
    threads: map<nat, Thread>,
    done: map<nat, Status>,        // w.done and w.status, set by another thread
    lastSequence: nat,
    broken: bool,                  // bg_error_: every later write fails
    flushed: seq<Record>,          // records whose operations are in table files
    older: Option<LogFile>,        // the log of imm_, as long as there is one
    current: LogFile,              // log_ and logfile_
    taken: seq<Taken>)             // writers taken off the queue, in order
  {
    function OlderRecords(): seq<Record> {
      if older.Some? then older.value.records else []
    }

    function OlderSynced(): nat {
      if older.Some? then older.value.synced else 0
    }

    // Every record ever logged.
    function Log(): seq<Record> {
      flushed + OlderRecords() + current.records
    }
  }

  datatype Step =
    | Arrive(r: Request)
    | Lead(id: nat, n: nat)             // front of the queue: builds its group, unlocks
    | LeadFails(id: nat, status: Status)    // no batch, or no room: takes only itself
    | WriteLog(id: nat, status: Status)     // out of the mutex
    | Finish(id: nat)                   // back in the mutex: publishes, dequeues
    | WakeUp(id: nat)                   // finds that another thread did its work
    | SwitchLog(id: nat)                // front of the queue: a new log, and the old one is closed unsynced
    | FlushMemTable                     // the background thread: the table of imm_ replaces its log

  ghost predicate Enabled(s: State, a: Step) {
    match a
    case Arrive(r) => r.id !in s.threads
    case Lead(id, n) =>
      && id in s.threads && s.threads[id] == Waiting && id !in s.done && |s.queue| > 0 && s.queue[0].id == id
      && s.queue[0].batch.Some? && MayGroup(s.queue, n) && !s.broken
    case LeadFails(id, status) =>
      && id in s.threads && s.threads[id] == Waiting && id !in s.done && |s.queue| > 0 && s.queue[0].id == id
      && (status == Failed || (status == Ok && s.queue[0].batch == None && !s.broken))
    case WriteLog(id, status) =>
      id in s.threads && s.threads[id].Logging? && |s.queue| > 0 && (status == SyncFailed ==> s.queue[0].sync)
    case Finish(id) => id in s.threads && s.threads[id].Logged? && s.threads[id].n <= |s.queue|
    case WakeUp(id) => id in s.threads && s.threads[id] == Waiting && id in s.done
    case SwitchLog(id) =>
      && id in s.threads && s.threads[id] == Waiting && id !in s.done && |s.queue| > 0 && s.queue[0].id == id
      && !s.broken && s.older == None
    case FlushMemTable => s.older.Some?
  }

  // Marks writers of the group, except the leader, as done.
  function Mark(done: map<nat, Status>, rs: seq<Request>, leader: nat, status: Status): map<nat, Status> {
    if |rs| == 0 then done
    else
      var front, r := Mark(done, rs[..|rs| - 1], leader, status), rs[|rs| - 1];
      if r.id == leader then front else front[r.id := status]
  }

  function Pairs(rs: seq<Request>, status: Status, end: nat): (p: seq<Taken>)
    ensures |p| == |rs| && forall i :: 0 <= i < |p| ==> p[i] == Taken(rs[i], status, end)
  {
    seq(|rs|, i requires 0 <= i < |rs| => Taken(rs[i], status, end))
  }

  // Takes n writers off the queue and gives each the status.
  function Dequeue(s: State, id: nat, n: nat, status: Status): State
    requires n <= |s.queue|
  {
    s.(queue := s.queue[n..], threads := s.threads[id := Returned(status)],
       done := Mark(s.done, s.queue[..n], id, status), taken := s.taken + Pairs(s.queue[..n], status, |s.Log()|))
  }

  function Next(s: State, a: Step): State
    requires Defined(s, a)
  {
    match a
    case Arrive(r) => s.(queue := s.queue + [r], threads := s.threads[r.id := Waiting])
    case Lead(id, n) => s.(threads := s.threads[id := Logging(n, Ops(s.queue[..n]))])
    case LeadFails(id, status) => Dequeue(s, id, 1, status)
    case WriteLog(id, status) =>
      var t := s.threads[id];
      var s' := s.(threads := s.threads[id := Logged(t.n, t.ops, status)]);
      if status == Failed then s'
      else
        var records := s.current.records + [Record(s.lastSequence + 1, t.ops)];
        s'.(current := LogFile(records, if s.queue[0].sync && status == Ok then |records| else s.current.synced))
    case Finish(id) =>
      var t := s.threads[id];
      Dequeue(s, id, t.n, t.status).(lastSequence := s.lastSequence + |t.ops|,
                                     broken := s.broken || t.status == SyncFailed)
    case WakeUp(id) => s.(threads := s.threads[id := Returned(s.done[id])])
    case SwitchLog(id) => s.(older := Some(s.current), current := LogFile([], 0))
    case FlushMemTable => s.(flushed := s.flushed + s.older.value.records, older := None)
  }

  predicate Defined(s: State, a: Step) {
    match a
    case Arrive(r) => true
    case Lead(id, n) => n <= |s.queue|
    case LeadFails(id, status) => |s.queue| > 0
    case WriteLog(id, status) => id in s.threads && s.threads[id].Logging? && |s.queue| > 0
    case Finish(id) => id in s.threads && s.threads[id].Logged? && s.threads[id].n <= |s.queue|
    case WakeUp(id) => id in s.done
    case SwitchLog(id) => true
    case FlushMemTable => s.older.Some?
  }

  // ------------------------------------------------------ the invariant

  ghost predicate InSection(t: Thread) { t.Logging? || t.Logged? }

  // Only the front of the queue is between its log record and its return to
  // the mutex, and it carries exactly the operations of the writers it took.
  ghost predicate SectionOk(s: State) {
    forall id :: id in s.threads && InSection(s.threads[id]) ==>
      && |s.queue| > 0 && s.queue[0].id == id && s.queue[0].batch.Some? && MayGroup(s.queue, s.threads[id].n)
      && s.threads[id].ops == Ops(s.queue[..s.threads[id].n])
  }

  // The thread has got this status, or will find it when it wakes up.
  ghost predicate Settled(s: State, id: nat, status: Status) {
    id in s.threads && (s.threads[id] == Returned(status) || (s.threads[id] == Waiting && id in s.done && s.done[id] == status))
  }

  ghost predicate InQueue(s: State, id: nat) {
    exists i :: 0 <= i < |s.queue| && s.queue[i].id == id
  }

  ghost predicate WasTaken(s: State, id: nat) {
    exists i :: 0 <= i < |s.taken| && s.taken[i].r.id == id
  }

  // Every writer is either in the queue, once and without a status, or was
  // taken off it, once, and has exactly the status it was taken with.
  ghost predicate WritersOk(s: State) {
    && (forall i :: 0 <= i < |s.queue| ==>
          s.queue[i].id in s.threads && !s.threads[s.queue[i].id].Returned? && s.queue[i].id !in s.done)
    && (forall i, j :: 0 <= i < j < |s.queue| ==> s.queue[i].id != s.queue[j].id)
    && (forall i :: 0 <= i < |s.taken| ==> Settled(s, s.taken[i].r.id, s.taken[i].status))
    && (forall i, j :: 0 <= i < j < |s.taken| ==> s.taken[i].r.id != s.taken[j].r.id)
    && (forall id :: id in s.threads ==> InQueue(s, id) || WasTaken(s, id))
    && (forall id :: id in s.done ==> id in s.threads)
  }

  // The leader has appended its record and not published it yet.
  predicate HasWritten(s: State) {
    && |s.queue| > 0 && s.queue[0].id in s.threads
    && s.threads[s.queue[0].id].Logged? && s.threads[s.queue[0].id].status != Failed
  }

  function InFlight(s: State): seq<Operation> {
    if HasWritten(s) then s.threads[s.queue[0].id].ops else []
  }

  // The operations of writers whose record went into the log, in queue order.
  function Appended(taken: seq<Taken>): seq<Operation> {
    if |taken| == 0 then []
    else
      var last := taken[|taken| - 1];
      Appended(taken[..|taken| - 1]) + (if last.status != Failed then OpsOf(last.r) else [])
  }

  function LogOps(log: seq<Record>): seq<Operation> {
    if |log| == 0 then [] else LogOps(log[..|log| - 1]) + log[|log| - 1].ops
  }

  // Records carry disjoint ascending ranges of sequence numbers.
  ghost predicate RangesOk(log: seq<Record>, limit: nat) {
    && (forall i :: 0 <= i < |log| ==> 0 < log[i].first && log[i].first + |log[i].ops| <= limit + 1)
    && (forall i, j :: 0 <= i < j < |log| ==> log[i].first + |log[i].ops| <= log[j].first)
  }

  // The log is what the writers asked for, in queue order, and the record in
  // flight.
  ghost predicate LogOk(s: State) {
    && LogOps(s.Log()) == Appended(s.taken) + InFlight(s)
    && RangesOk(s.Log(), s.lastSequence + |InFlight(s)|)
    && (HasWritten(s) ==>
          |s.current.records| > 0 && s.current.records[|s.current.records| - 1] == Record(s.lastSequence + 1, InFlight(s)))
  }

  // The record is in a table file, or in the part of its log that was synced.
  predicate OnDisk(s: State, j: nat) {
    var older := |s.flushed|;
    var current := older + |s.OlderRecords()|;
    if j < older then true
    else if j < current then j < older + s.OlderSynced()
    else j < current + s.current.synced
  }

  // Both records are in table files, or in the log of imm_, or in the log of mem_.
  predicate SameLog(s: State, i: nat, j: nat) {
    var older := |s.flushed|;
    var current := older + |s.OlderRecords()|;
    (i < older <==> j < older) && (i < current <==> j < current)
  }

  // The operations of this writer are in the last record logged by then.
  ghost predicate InRecord(s: State, i: nat)
    requires i < |s.taken| && s.taken[i].end <= |s.Log()|
  {
    s.taken[i].r.batch.Some? && s.taken[i].status != Failed ==>
      && s.taken[i].end > 0
      && |LogOps(s.Log()[..s.taken[i].end - 1])| <= |Appended(s.taken[..i])|
      && |Appended(s.taken[..i + 1])| <= |LogOps(s.Log()[..s.taken[i].end])|
  }

  predicate IsSyncWrite(t: Taken) {
    t.r.sync && t.r.batch.Some? && t.status == Ok
  }

  // The record of a sync write that reported success is on disk.
  ghost predicate SyncedUpTo(s: State, i: nat)
    requires i < |s.taken|
  {
    IsSyncWrite(s.taken[i]) ==> s.taken[i].end > 0 && OnDisk(s, s.taken[i].end - 1)
  }

  ghost predicate SyncOk(s: State) {
    && s.OlderSynced() <= |s.OlderRecords()| && s.current.synced <= |s.current.records|
    && (forall i :: 0 <= i < |s.taken| ==> s.taken[i].end <= |s.Log()| && InRecord(s, i) && SyncedUpTo(s, i))
    && (HasWritten(s) && s.queue[0].sync && s.threads[s.queue[0].id].status == Ok ==>
          s.current.synced == |s.current.records|)
    && (HasWritten(s) ==> |s.Log()| > 0 && LogOps(s.Log()[..|s.Log()| - 1]) == Appended(s.taken))
  }

  // After a failed sync no write succeeds.
  ghost predicate BrokenOk(s: State) {
    && (s.broken ==> forall id :: id in s.threads ==> !InSection(s.threads[id]))
    && (!s.broken ==> forall i :: 0 <= i < |s.taken| ==> s.taken[i].status != SyncFailed)
    && (forall i, j :: 0 <= i < j < |s.taken| && s.taken[i].status == SyncFailed ==> s.taken[j].status != Ok)
  }

  ghost predicate Inv(s: State) {
    SectionOk(s) && WritersOk(s) && LogOk(s) && SyncOk(s) && BrokenOk(s)
  }

  // ------------------------------------------------------- every step

  lemma {:induction false} Marked(done: map<nat, Status>, rs: seq<Request>, leader: nat, status: Status)
    ensures var d := Mark(done, rs, leader, status);
      && (forall i :: 0 <= i < |rs| && rs[i].id != leader ==> rs[i].id in d && d[rs[i].id] == status)
      && (forall id :: (id == leader || forall i :: 0 <= i < |rs| ==> rs[i].id != id) ==>
            (id in d <==> id in done) && (id in done ==> d[id] == done[id]))
      && (forall id :: id in d ==> id in done || exists i :: 0 <= i < |rs| && rs[i].id == id)
  {
    if |rs| > 0 { Marked(done, rs[..|rs| - 1], leader, status); }
  }

  // Steps that touch neither log nor outcome.
  lemma LogStays(s: State, s': State)
    requires LogOk(s) && SyncOk(s) && s'.taken == s.taken && s'.lastSequence == s.lastSequence
    requires s'.flushed == s.flushed && s'.older == s.older && s'.current == s.current
    requires HasWritten(s') <==> HasWritten(s)
    requires HasWritten(s) ==> s'.queue[0] == s.queue[0] && s'.threads[s.queue[0].id] == s.threads[s.queue[0].id]
    ensures LogOk(s') && SyncOk(s')
  {
    hide Appended, LogOps, RangesOk;
    assert s'.Log() == s.Log();
    forall i | 0 <= i < |s.taken| ensures s'.taken[i].end <= |s'.Log()| && InRecord(s', i) && SyncedUpTo(s', i) {
      assert InRecord(s, i) && SyncedUpTo(s, i);
    }
  }

  lemma SectionStays(s: State, r: Request)
    requires SectionOk(s) && r.id !in s.threads
    ensures SectionOk(Next(s, Arrive(r)))
  {
    hide Ops, Size, SizeLimit;
    var s' := Next(s, Arrive(r));
    forall id | id in s'.threads && InSection(s'.threads[id])
      ensures |s'.queue| > 0 && s'.queue[0].id == id && s'.queue[0].batch.Some? && MayGroup(s'.queue, s'.threads[id].n)
      ensures s'.threads[id].ops == Ops(s'.queue[..s'.threads[id].n])
    {
      var n := s.threads[id].n;
      assert s'.queue[..n] == s.queue[..n];
    }
  }

  lemma ArriveKeepsInv(s: State, r: Request)
    requires Inv(s) && Enabled(s, Arrive(r))
    ensures Inv(Next(s, Arrive(r)))
  {
    hide LogOk, SyncOk, SectionOk, WritersOk;
    var s' := Next(s, Arrive(r));
    ArriveKeepsWriters(s, r);
    SectionStays(s, r);
    LogStays(s, s');
  }

  lemma ArriveKeepsWriters(s: State, r: Request)
    requires WritersOk(s) && Enabled(s, Arrive(r))
    ensures WritersOk(Next(s, Arrive(r)))
    ensures |s.queue| > 0 ==> s.queue[0].id != r.id
  {
    var s' := Next(s, Arrive(r));
    forall i | 0 <= i < |s.taken| ensures Settled(s', s.taken[i].r.id, s.taken[i].status) {
      assert Settled(s, s.taken[i].r.id, s.taken[i].status);
    }
    forall id | id in s'.threads ensures InQueue(s', id) || WasTaken(s', id) {
      if id == r.id {
        assert s'.queue[|s.queue|].id == id;
      } else if InQueue(s, id) {
        var i :| 0 <= i < |s.queue| && s.queue[i].id == id;
        assert s'.queue[i].id == id;
      } else {
        var i :| 0 <= i < |s.taken| && s.taken[i].r.id == id;
        assert s'.taken[i].r.id == id;
      }
    }
  }

  // A thread of the queue moves between waiting and the log.
  lemma ThreadMoves(s: State, id: nat, t: Thread)
    requires WritersOk(s) && InQueue(s, id) && !t.Returned?
    ensures WritersOk(s.(threads := s.threads[id := t]))
    ensures !WasTaken(s, id)
  {
    var s' := s.(threads := s.threads[id := t]);
    var k :| 0 <= k < |s.queue| && s.queue[k].id == id;
    forall i | 0 <= i < |s.taken| ensures s.taken[i].r.id != id && Settled(s', s.taken[i].r.id, s.taken[i].status) {
      assert Settled(s, s.taken[i].r.id, s.taken[i].status);
    }
    forall x | x in s'.threads ensures InQueue(s', x) || WasTaken(s', x) {
      assert InQueue(s, x) || WasTaken(s, x);
      if InQueue(s, x) {
        var i :| 0 <= i < |s.queue| && s.queue[i].id == x;
        assert s'.queue[i].id == x;
      } else {
        var i :| 0 <= i < |s.taken| && s.taken[i].r.id == x;
        assert s'.taken[i].r.id == x;
      }
    }
  }

  lemma LeadKeepsInv(s: State, id: nat, n: nat)
    requires Inv(s) && Enabled(s, Lead(id, n))
    ensures Inv(Next(s, Lead(id, n)))
  {
    hide LogOk, SyncOk, WritersOk, Ops, MayGroup;
    Possible(s, Lead(id, n));
    var s' := Next(s, Lead(id, n));
    assert InQueue(s, id) by { assert s.queue[0].id == id; }
    ThreadMoves(s, id, s'.threads[id]);
    LogStays(s, s');
  }

  lemma WakeUpKeepsInv(s: State, id: nat)
    requires Inv(s) && Enabled(s, WakeUp(id))
    ensures Inv(Next(s, WakeUp(id)))
  {
    hide LogOk, SyncOk, WritersOk, Ops, MayGroup;
    var s' := Next(s, WakeUp(id));
    WakeUpKeepsWriters(s, id);
    LogStays(s, s');
  }

  lemma WakeUpKeepsWriters(s: State, id: nat)
    requires WritersOk(s) && Enabled(s, WakeUp(id))
    ensures WritersOk(Next(s, WakeUp(id)))
    ensures |s.queue| > 0 ==> s.queue[0].id != id
  {
    var s' := Next(s, WakeUp(id));
    forall i | 0 <= i < |s.taken| ensures Settled(s', s.taken[i].r.id, s.taken[i].status) {
      assert Settled(s, s.taken[i].r.id, s.taken[i].status);
    }
    forall x | x in s'.threads ensures InQueue(s', x) || WasTaken(s', x) {
      assert InQueue(s, x) || WasTaken(s, x);
      SameQueueAndTaken(s, s', x);
    }
  }

  lemma SameQueueAndTaken(s: State, s': State, x: nat)
    requires s'.queue == s.queue && s'.taken == s.taken
    ensures (InQueue(s', x) <==> InQueue(s, x)) && (WasTaken(s', x) <==> WasTaken(s, x))
  {
  }

  lemma WriteLogKeepsInv(s: State, id: nat, status: Status)
    requires Inv(s) && Enabled(s, WriteLog(id, status))
    ensures Inv(Next(s, WriteLog(id, status)))
  {
    hide LogOk, SyncOk, WritersOk, Ops, MayGroup;
    var t := s.threads[id];
    var s' := Next(s, WriteLog(id, status));
    var moved := s.(threads := s'.threads);
    assert InQueue(s, id) by { assert s.queue[0].id == id; }
    ThreadMoves(s, id, s'.threads[id]);
    SameWriters(moved, s');
    if status == Failed {
      LogStays(s, s');
    } else {
      RecordAppended(s, s', t.ops, status);
    }
  }

  lemma SameWriters(s: State, s': State)
    requires WritersOk(s) && s'.queue == s.queue && s'.taken == s.taken && s'.threads == s.threads && s'.done == s.done
    ensures WritersOk(s')
  {
    forall i | 0 <= i < |s.taken| ensures Settled(s', s.taken[i].r.id, s.taken[i].status) {
      assert Settled(s, s.taken[i].r.id, s.taken[i].status);
    }
    forall x | x in s'.threads ensures InQueue(s', x) || WasTaken(s', x) {
      assert InQueue(s, x) || WasTaken(s, x);
      SameQueueAndTaken(s, s', x);
    }
  }

  lemma LogOpsAppend(log: seq<Record>, r: Record)
    ensures LogOps(log + [r]) == LogOps(log) + r.ops
  {
    assert (log + [r])[..|log|] == log;
  }

  lemma RecordAppended(s: State, s': State, ops: seq<Operation>, status: Status)
    requires LogOk(s) && SyncOk(s) && |s.queue| > 0 && s.queue[0].id in s.threads && status != Failed
    requires s.threads[s.queue[0].id].Logging?
    requires s'.queue == s.queue && s'.taken == s.taken && s'.lastSequence == s.lastSequence
    requires s'.flushed == s.flushed && s'.older == s.older
    requires s'.current.records == s.current.records + [Record(s.lastSequence + 1, ops)]
    requires s'.current.synced
      == (if s.queue[0].sync && status == Ok then |s'.current.records| else s.current.synced)
    requires s.queue[0].id in s'.threads
    requires s'.threads[s.queue[0].id].Logged? && s'.threads[s.queue[0].id].ops == ops
    requires s'.threads[s.queue[0].id].status == status
    ensures LogOk(s') && SyncOk(s')
  {
    hide Appended, LogOps;
    var r := Record(s.lastSequence + 1, ops);
    assert s'.Log() == s.Log() + [r];
    LogOpsAppend(s.Log(), r);
    assert InFlight(s) == [];
    assert s'.Log()[..|s.Log()|] == s.Log();
    forall i | 0 <= i < |s.taken| ensures s'.taken[i].end <= |s'.Log()| && InRecord(s', i) && SyncedUpTo(s', i) {
      assert InRecord(s, i) && SyncedUpTo(s, i);
      assert s'.Log()[..s.taken[i].end] == s.Log()[..s.taken[i].end];
      assert s.taken[i].end > 0 ==> s'.Log()[..s.taken[i].end - 1] == s.Log()[..s.taken[i].end - 1];
    }
  }

  lemma {:induction false} LogOpsPrefix(log: seq<Record>, i: nat, j: nat)
    requires i <= j <= |log|
    ensures LogOps(log[..i]) <= LogOps(log[..j])
  {
    if i < j {
      LogOpsPrefix(log, i, j - 1);
      assert log[..j][..j - 1] == log[..j - 1];
    }
  }

  lemma {:induction false} AppendedPrefix(taken: seq<Taken>, i: nat, j: nat)
    requires i <= j <= |taken|
    ensures Appended(taken[..i]) <= Appended(taken[..j])
  {
    if i < j {
      AppendedPrefix(taken, i, j - 1);
      assert taken[..j][..j - 1] == taken[..j - 1];
    }
  }

  lemma OneMoreTaken(taken: seq<Taken>, r: Request, status: Status, end: nat)
    ensures Appended(taken + [Taken(r, status, end)]) == Appended(taken) + (if status != Failed then OpsOf(r) else [])
  {
    assert (taken + [Taken(r, status, end)])[..|taken|] == taken;
  }

  lemma {:induction false} AppendedGroup(taken: seq<Taken>, rs: seq<Request>, status: Status, end: nat)
    ensures Appended(taken + Pairs(rs, status, end)) == Appended(taken) + (if status != Failed then Ops(rs) else [])
  {
    hide Appended;
    if |rs| == 0 {
      assert taken + Pairs(rs, status, end) == taken;
    } else {
      var front, last := rs[..|rs| - 1], rs[|rs| - 1];
      AppendedGroup(taken, front, status, end);
      assert taken + Pairs(rs, status, end) == (taken + Pairs(front, status, end)) + [Taken(last, status, end)];
      OneMoreTaken(taken + Pairs(front, status, end), last, status, end);
    }
  }

  // Taking a group off the queue leaves every writer accounted for.
  lemma DequeueKeepsWriters(s: State, id: nat, n: nat, status: Status)
    requires WritersOk(s) && 1 <= n <= |s.queue| && s.queue[0].id == id
    requires forall i :: 1 <= i < n ==> s.threads[s.queue[i].id] == Waiting
    ensures WritersOk(Dequeue(s, id, n, status))
  {
    hide Mark;
    var s' := Dequeue(s, id, n, status);
    var group := s.queue[..n];
    Marked(s.done, group, id, status);
    QueueRest(s, s', n);
    TakenSettled(s, s', id, n, status);
    forall x | x in s'.threads ensures InQueue(s', x) || WasTaken(s', x) {
      assert x in s.threads;
      StillAccounted(s, s', n, status, x);
    }
  }

  lemma QueueRest(s: State, s': State, n: nat)
    requires WritersOk(s) && 1 <= n <= |s.queue|
    requires s'.queue == s.queue[n..]
    requires forall x :: x in s.threads && x != s.queue[0].id ==> x in s'.threads && s'.threads[x] == s.threads[x]
    requires forall x :: x in s'.done ==> x in s.done || exists i :: 0 <= i < n && s.queue[..n][i].id == x
    ensures forall i :: 0 <= i < |s'.queue| ==>
          s'.queue[i].id in s'.threads && !s'.threads[s'.queue[i].id].Returned? && s'.queue[i].id !in s'.done
    ensures forall i, j :: 0 <= i < j < |s'.queue| ==> s'.queue[i].id != s'.queue[j].id
  {
    forall i | 0 <= i < |s'.queue|
      ensures s'.queue[i].id in s'.threads && !s'.threads[s'.queue[i].id].Returned? && s'.queue[i].id !in s'.done
    {
      assert s'.queue[i] == s.queue[n + i];
    }
  }

  lemma TakenSettled(s: State, s': State, id: nat, n: nat, status: Status)
    requires WritersOk(s) && 1 <= n <= |s.queue| && s.queue[0].id == id
    requires forall i :: 1 <= i < n ==> s.threads[s.queue[i].id] == Waiting
    requires s' == Dequeue(s, id, n, status)
    ensures forall i :: 0 <= i < |s'.taken| ==> Settled(s', s'.taken[i].r.id, s'.taken[i].status)
    ensures forall i, j :: 0 <= i < j < |s'.taken| ==> s'.taken[i].r.id != s'.taken[j].r.id
  {
    hide Mark, Settled, InQueue, WasTaken;
    var group := s.queue[..n];
    forall i | 0 <= i < |s.taken|
      ensures Settled(s', s.taken[i].r.id, s.taken[i].status) && forall j :: 0 <= j < n ==> s.queue[j].id != s.taken[i].r.id
    {
      StaysSettled(s, n, status, s.taken[i].r.id, s.taken[i].status);
    }
    forall k | 0 <= k < n ensures Settled(s', s.queue[k].id, status) {
      GroupSettled(s, n, status, k);
    }
    TakenParts(s.taken, group, status, |s.Log()|);
  }

  lemma TakenParts(taken: seq<Taken>, group: seq<Request>, status: Status, end: nat)
    ensures var all := taken + Pairs(group, status, end);
      && |all| == |taken| + |group|
      && (forall i :: 0 <= i < |all| ==> all[i] == if i < |taken| then taken[i] else Taken(group[i - |taken|], status, end))
  {
  }

  lemma StaysSettled(s: State, n: nat, status: Status, x: nat, had: Status)
    requires WritersOk(s) && 1 <= n <= |s.queue| && Settled(s, x, had)
    ensures Settled(Dequeue(s, s.queue[0].id, n, status), x, had)
    ensures forall j :: 0 <= j < n ==> s.queue[j].id != x
  {
    hide Mark, InQueue, WasTaken;
    Marked(s.done, s.queue[..n], s.queue[0].id, status);
    assert forall j :: 0 <= j < n ==> s.queue[..n][j] == s.queue[j] && s.queue[j].id != x;
  }

  lemma GroupSettled(s: State, n: nat, status: Status, k: nat)
    requires WritersOk(s) && 1 <= n <= |s.queue| && k < n
    requires forall i :: 1 <= i < n ==> s.threads[s.queue[i].id] == Waiting
    ensures Settled(Dequeue(s, s.queue[0].id, n, status), s.queue[k].id, status)
  {
    hide Mark, InQueue, WasTaken;
    Marked(s.done, s.queue[..n], s.queue[0].id, status);
    assert s.queue[..n][k] == s.queue[k];
  }

  lemma StillAccounted(s: State, s': State, n: nat, status: Status, x: nat)
    requires n <= |s.queue| && s'.queue == s.queue[n..] && s'.taken == s.taken + Pairs(s.queue[..n], status, |s.Log()|)
    requires InQueue(s, x) || WasTaken(s, x)
    ensures InQueue(s', x) || WasTaken(s', x)
  {
    if WasTaken(s, x) {
      var i :| 0 <= i < |s.taken| && s.taken[i].r.id == x;
      assert s'.taken[i].r.id == x;
    } else {
      var i :| 0 <= i < |s.queue| && s.queue[i].id == x;
      if i < n {
        assert s'.taken[|s.taken| + i].r.id == x;
      } else {
        assert s'.queue[i - n].id == x;
      }
    }
  }

  ghost predicate SameLogs(s: State, s': State) {
    s'.flushed == s.flushed && s'.older == s.older && s'.current == s.current
  }

  // The log and the outcomes after a group has left the queue.
  lemma DequeueKeepsLog(s: State, s': State, group: seq<Request>, status: Status, ops: seq<Operation>)
    requires LogOk(s) && SyncOk(s) && |group| > 0 && SameLogs(s, s')
    requires InFlight(s) == (if status != Failed then Ops(group) else [])
    requires s'.taken == s.taken + Pairs(group, status, |s.Log()|)
    requires s'.lastSequence == s.lastSequence + |ops| && |InFlight(s)| <= |ops|
    requires !HasWritten(s')
    requires forall i :: 0 <= i < |group| && group[i].batch.Some? && status != Failed ==> HasWritten(s)
    requires forall i :: 0 <= i < |group| && group[i].sync && group[i].batch.Some? && status == Ok ==>
               s.current.synced == |s.current.records|
    ensures LogOk(s') && SyncOk(s')
  {
    hide Appended, LogOps, RangesOk, Ops, HasWritten, InFlight, LogOk, Pairs;
    AppendedGroup(s.taken, group, status, |s.Log()|);
    NothingInFlight(s');
    LogAfter(s, s', if status != Failed then Ops(group) else []);
    WrittenIsLast(s);
    TakenRecorded(s, s', group, status);
  }

  lemma LogAfter(s: State, s': State, more: seq<Operation>)
    requires LogOk(s) && InFlight(s) == more && !HasWritten(s') && InFlight(s') == []
    requires SameLogs(s, s') && s'.lastSequence >= s.lastSequence + |more|
    requires Appended(s'.taken) == Appended(s.taken) + more
    ensures LogOk(s') && LogOps(s'.Log()) == Appended(s'.taken)
  {
    hide Appended, LogOps, RangesOk, HasWritten, InFlight;
    RangesGrow(s.Log(), s.lastSequence + |more|, s'.lastSequence);
  }

  lemma WrittenIsLast(s: State)
    requires LogOk(s)
    ensures HasWritten(s) ==> |s.current.records| > 0
  {
  }

  lemma TakenRecorded(s: State, s': State, group: seq<Request>, status: Status)
    requires SyncOk(s) && SameLogs(s, s') && s'.taken == s.taken + Pairs(group, status, |s.Log()|)
    requires LogOps(s'.Log()) == Appended(s'.taken) && !HasWritten(s') && (HasWritten(s) ==> |s.current.records| > 0)
    requires forall i :: 0 <= i < |group| && group[i].batch.Some? && status != Failed ==> HasWritten(s)
    requires forall i :: 0 <= i < |group| && group[i].sync && group[i].batch.Some? && status == Ok ==>
               s.current.synced == |s.current.records|
    ensures SyncOk(s')
  {
    hide Appended, LogOps, HasWritten, SyncedUpTo, InRecord;
    TakenParts(s.taken, group, status, |s.Log()|);
    forall i | 0 <= i < |s'.taken| ensures s'.taken[i].end <= |s'.Log()| && InRecord(s', i) && SyncedUpTo(s', i) {
      if i < |s.taken| {
        StaysRecorded(s, s', i);
      } else {
        assert s'.taken[i] == Taken(group[i - |s.taken|], status, |s.Log()|);
        NewlyRecorded(s, s', i);
      }
    }
  }

  lemma NothingInFlight(s: State)
    requires !HasWritten(s)
    ensures InFlight(s) == []
  {
  }

  lemma StaysRecorded(s: State, s': State, i: nat)
    requires i < |s.taken| <= |s'.taken| && s'.taken[..|s.taken|] == s.taken && SameLogs(s, s')
    requires s.taken[i].end <= |s.Log()| && InRecord(s, i) && SyncedUpTo(s, i)
    ensures s'.taken[i].end <= |s'.Log()| && InRecord(s', i) && SyncedUpTo(s', i)
  {
    hide Appended, LogOps;
    assert s'.Log() == s.Log();
    assert s'.taken[..i + 1] == s.taken[..i + 1] && s'.taken[..i] == s.taken[..i];
    assert s'.taken[i] == s.taken[i];
  }

  lemma NewlyRecorded(s: State, s': State, i: nat)
    requires SameLogs(s, s') && |s.taken| <= i < |s'.taken| && s'.taken[..|s.taken|] == s.taken
    requires SyncOk(s) && s'.taken[i].end == |s.Log()| && LogOps(s'.Log()) == Appended(s'.taken)
    requires s'.taken[i].r.batch.Some? && s'.taken[i].status != Failed ==> HasWritten(s) && |s.current.records| > 0
    requires IsSyncWrite(s'.taken[i]) ==> s.current.synced == |s.current.records|
    ensures s'.taken[i].end <= |s'.Log()| && InRecord(s', i) && SyncedUpTo(s', i)
  {
    hide Appended, LogOps, HasWritten;
    assert s'.Log() == s.Log() && s.Log()[..|s.Log()|] == s.Log();
    AppendedPrefix(s'.taken, |s.taken|, i);
    AppendedPrefix(s'.taken, i + 1, |s'.taken|);
    assert s'.taken[..|s'.taken|] == s'.taken;
  }

  lemma RangesGrow(log: seq<Record>, limit: nat, limit': nat)
    requires RangesOk(log, limit) && limit <= limit'
    ensures RangesOk(log, limit')
  {
  }

  lemma BrokenStays(s: State, s': State, group: seq<Request>, status: Status)
    requires BrokenOk(s) && s'.taken == s.taken + Pairs(group, status, |s.Log()|)
    requires status != Failed ==> !s.broken
    requires s'.broken == (s.broken || status == SyncFailed)
    requires forall id :: id in s'.threads ==> !InSection(s'.threads[id])
    ensures BrokenOk(s')
  {
    forall i | 0 <= i < |s'.taken|
      ensures s'.taken[i].status == if i < |s.taken| then s.taken[i].status else status
    {
      if i >= |s.taken| { assert s'.taken[i] == Pairs(group, status, |s.Log()|)[i - |s.taken|]; }
    }
  }

  lemma OthersWait(s: State, n: nat)
    requires SectionOk(s) && WritersOk(s) && n <= |s.queue|
    ensures forall i :: 1 <= i < n ==> s.threads[s.queue[i].id] == Waiting
  {
  }

  lemma FinishKeepsInv(s: State, id: nat)
    requires Inv(s) && Enabled(s, Finish(id))
    ensures Inv(Next(s, Finish(id)))
  {
    hide LogOk, SyncOk, WritersOk, Ops, Mark, Size;
    var t := s.threads[id];
    var group := s.queue[..t.n];
    var s' := Next(s, Finish(id));
    OthersWait(s, t.n);
    DequeueKeepsWriters(s, id, t.n, t.status);
    SameWriters(Dequeue(s, id, t.n, t.status), s');
    assert forall x :: x in s'.threads && x != id ==> !InSection(s.threads[x]);
    BrokenStays(s, s', group, t.status);
    assert InFlight(s) == if t.status != Failed then Ops(group) else [];
    Synced(s, t.n, t.status);
    DequeueKeepsLog(s, s', group, t.status, t.ops);
  }

  lemma Synced(s: State, n: nat, status: Status)
    requires SyncOk(s) && |s.queue| > 0 && s.queue[0].batch.Some? && MayGroup(s.queue, n)
    requires status != Failed ==> HasWritten(s) && s.threads[s.queue[0].id].status == status
    ensures forall i :: 0 <= i < n && s.queue[..n][i].sync && status == Ok ==> s.current.synced == |s.current.records|
  {
  }

  lemma LeadFailsKeepsInv(s: State, id: nat, status: Status)
    requires Inv(s) && Enabled(s, LeadFails(id, status))
    ensures Inv(Next(s, LeadFails(id, status)))
  {
    hide LogOk, SyncOk, WritersOk, Mark, Size;
    var group := s.queue[..1];
    var s' := Next(s, LeadFails(id, status));
    DequeueKeepsWriters(s, id, 1, status);
    assert forall x :: x in s'.threads ==> !InSection(s'.threads[x]);
    BrokenStays(s, s', group, status);
    assert group == [s.queue[0]] && Ops(group) == OpsOf(s.queue[0]) by { assert group[..0] == [] && Ops(group[..0]) == []; }
    DequeueKeepsLog(s, s', group, status, []);
  }

  // Steps that move records from one place to the next.
  lemma RecordsMove(s: State, s': State)
    requires LogOk(s) && SyncOk(s) && s'.Log() == s.Log() && s'.taken == s.taken
    requires s'.lastSequence == s.lastSequence && s'.queue == s.queue && s'.threads == s.threads
    requires forall j: nat :: j < |s.Log()| && OnDisk(s, j) ==> OnDisk(s', j)
    requires s'.OlderSynced() <= |s'.OlderRecords()| && s'.current.synced <= |s'.current.records|
    requires HasWritten(s) ==> s'.current == s.current
    ensures LogOk(s') && SyncOk(s')
  {
    hide Appended, LogOps, RangesOk, OnDisk;
    forall i | 0 <= i < |s.taken| ensures s'.taken[i].end <= |s'.Log()| && InRecord(s', i) && SyncedUpTo(s', i) {
      assert InRecord(s, i) && SyncedUpTo(s, i);
    }
  }

  lemma SwitchLogKeepsInv(s: State, id: nat)
    requires Inv(s) && Enabled(s, SwitchLog(id))
    ensures Inv(Next(s, SwitchLog(id)))
  {
    hide LogOk, SyncOk, WritersOk, SectionOk;
    var s' := Next(s, SwitchLog(id));
    assert s'.Log() == s.Log();
    SyncedInRange(s);
    RecordsMove(s, s');
    SameWriters(s, s');
    SectionSame(s, s');
  }

  lemma FlushKeepsInv(s: State)
    requires Inv(s) && Enabled(s, FlushMemTable)
    ensures Inv(Next(s, FlushMemTable))
  {
    hide LogOk, SyncOk, WritersOk, SectionOk;
    var s' := Next(s, FlushMemTable);
    assert s'.Log() == s.Log();
    SyncedInRange(s);
    RecordsMove(s, s');
    SameWriters(s, s');
    SectionSame(s, s');
  }

  lemma SyncedInRange(s: State)
    requires SyncOk(s)
    ensures s.OlderSynced() <= |s.OlderRecords()| && s.current.synced <= |s.current.records|
  {
  }

  lemma SectionSame(s: State, s': State)
    requires SectionOk(s) && s'.queue == s.queue && s'.threads == s.threads
    ensures SectionOk(s')
  {
  }

  lemma StepKeepsInv(s: State, a: Step)
    requires Inv(s) && Enabled(s, a)
    ensures Defined(s, a) && Inv(Next(s, a))
  {
    hide Inv, Next;
    Possible(s, a);
    match a
    case Arrive(r) => ArriveKeepsInv(s, r);
    case Lead(id, n) => LeadKeepsInv(s, id, n);
    case LeadFails(id, status) => LeadFailsKeepsInv(s, id, status);
    case WriteLog(id, status) => WriteLogKeepsInv(s, id, status);
    case Finish(id) => FinishKeepsInv(s, id);
    case WakeUp(id) => WakeUpKeepsInv(s, id);
    case SwitchLog(id) => SwitchLogKeepsInv(s, id);
    case FlushMemTable => FlushKeepsInv(s);
  }

  lemma Possible(s: State, a: Step)
    requires Enabled(s, a)
    ensures Defined(s, a)
  {
  }

  // ----------------------------------------------------------- any run

  // The states of a run, from a fresh queue on.
  ghost predicate IsRun(states: seq<State>, steps: seq<Step>) {
    && |states| == |steps| + 1
    && states[0] == State.State([], map[], map[], 0, false, [], None, LogFile([], 0), [])
    && (forall i :: 0 <= i < |steps| ==> IsStep(states, steps, i))
  }

  ghost predicate IsStep(states: seq<State>, steps: seq<Step>, i: nat)
    requires |states| == |steps| + 1 && i < |steps|
  {
    Enabled(states[i], steps[i]) && Defined(states[i], steps[i]) && states[i + 1] == Next(states[i], steps[i])
  }

  lemma {:induction false} RunKeepsInv(states: seq<State>, steps: seq<Step>, i: nat)
    requires IsRun(states, steps) && i <= |steps|
    ensures Inv(states[i])
  {
    if i == 0 {
      assert LogOps([]) == [] && Appended([]) == [];
    } else {
      RunKeepsInv(states, steps, i - 1);
      assert IsStep(states, steps, i - 1);
      StepKeepsInv(states[i - 1], steps[i - 1]);
    }
  }

  // Two threads are never writing the log at once: only the front of the
  // queue does.
  lemma OneLeader(states: seq<State>, steps: seq<Step>, i: nat, a: nat, b: nat)
    requires IsRun(states, steps) && i <= |steps|
    requires a in states[i].threads && InSection(states[i].threads[a])
    requires b in states[i].threads && InSection(states[i].threads[b])
    ensures a == b && |states[i].queue| > 0 && states[i].queue[0].id == a
  {
    RunKeepsInv(states, steps, i);
  }

  // With no record in flight the log is the operations of the writers that
  // succeeded, each once, in the order they came; only the group of a failed
  // sync can be in it besides, and then it is the end of the log.
  lemma LogIsWhatSucceeded(states: seq<State>, steps: seq<Step>, i: nat)
    requires IsRun(states, steps) && i <= |steps| && !HasWritten(states[i])
    ensures LogOps(states[i].Log()) == Appended(states[i].taken)
    ensures RangesOk(states[i].Log(), states[i].lastSequence)
    ensures forall j, k :: 0 <= j < k < |states[i].taken| ==> states[i].taken[j].r.id != states[i].taken[k].r.id
    ensures forall j, k :: 0 <= j < k < |states[i].taken| && states[i].taken[j].status == SyncFailed ==> states[i].taken[k].status != Ok
  {
    RunKeepsInv(states, steps, i);
  }

  // Whoever returns was taken off the queue, with the status it returns.
  lemma ReturnedIsTaken(states: seq<State>, steps: seq<Step>, i: nat, id: nat)
    requires IsRun(states, steps) && i <= |steps|
    requires id in states[i].threads && states[i].threads[id].Returned?
    ensures exists k :: 0 <= k < |states[i].taken| && states[i].taken[k].r.id == id
                        && states[i].taken[k].status == states[i].threads[id].status
  {
    RunKeepsInv(states, steps, i);
    hide LogOk, SyncOk, SectionOk, Settled;
    var s := states[i];
    assert !InQueue(s, id);
    var k :| 0 <= k < |s.taken| && s.taken[k].r.id == id;
    assert Settled(s, s.taken[k].r.id, s.taken[k].status);
    SettledStatus(s, id, s.taken[k].status);
  }

  lemma SettledStatus(s: State, id: nat, status: Status)
    requires Settled(s, id, status) && id in s.threads && s.threads[id].Returned?
    ensures s.threads[id].status == status
  {
  }

  // A sync write that returned Ok has its operations in one record, and that
  // record is on disk with everything logged before it in the same log.
  lemma SyncWriteIsDurable(states: seq<State>, steps: seq<Step>, i: nat, k: nat)
    requires IsRun(states, steps) && i <= |steps| && k < |states[i].taken| && IsSyncWrite(states[i].taken[k])
    ensures var s, e := states[i], states[i].taken[k].end;
      && 0 < e <= |s.Log()|
      && LogOps(s.Log()[..e - 1]) <= Appended(s.taken[..k]) <= Appended(s.taken[..k + 1]) <= LogOps(s.Log()[..e])
      && forall j: nat :: j < e && SameLog(s, j, e - 1) ==> OnDisk(s, j)
  {
    RunKeepsInv(states, steps, i);
    hide Inv, OnDisk, SameLog;
    var s := states[i];
    var e := s.taken[k].end;
    TakenIsRecorded(s, k);
    RecordIsPrefix(s, k);
    forall j: nat | j < e && SameLog(s, j, e - 1) ensures OnDisk(s, j) {
      SyncedFromTheStart(s, j, e - 1);
    }
  }

  lemma SyncedFromTheStart(s: State, i: nat, j: nat)
    requires i <= j && SameLog(s, i, j) && OnDisk(s, j)
    ensures OnDisk(s, i)
  {
  }

  lemma TakenIsRecorded(s: State, k: nat)
    requires Inv(s) && k < |s.taken|
    ensures s.taken[k].end <= |s.Log()| && InRecord(s, k) && SyncedUpTo(s, k)
  {
  }

  lemma RecordIsPrefix(s: State, k: nat)
    requires Inv(s) && k < |s.taken| && IsSyncWrite(s.taken[k])
    ensures var e := s.taken[k].end;
      && 0 < e <= |s.Log()|
      && LogOps(s.Log()[..e - 1]) <= Appended(s.taken[..k]) <= Appended(s.taken[..k + 1]) <= LogOps(s.Log()[..e])
  {
    hide SectionOk, WritersOk, BrokenOk, Appended, LogOps, OnDisk, SyncedUpTo;
    var e, n := s.taken[k].end, |s.Log()|;
    assert InRecord(s, k) && SyncedUpTo(s, k);
    SyncedIsLogged(s, k);
    assert s.taken[..|s.taken|] == s.taken && s.Log()[..n] == s.Log();
    AppendedPrefix(s.taken, k, k + 1);
    AppendedPrefix(s.taken, k + 1, |s.taken|);
    LogOpsPrefix(s.Log(), e - 1, e);
    LogOpsPrefix(s.Log(), e, n);
    TwoPrefixes(LogOps(s.Log()[..e - 1]), Appended(s.taken[..k]), LogOps(s.Log()));
    TwoPrefixes(Appended(s.taken[..k + 1]), LogOps(s.Log()[..e]), LogOps(s.Log()));
  }

  lemma SyncedIsLogged(s: State, k: nat)
    requires k < |s.taken| && SyncedUpTo(s, k) && IsSyncWrite(s.taken[k])
    ensures s.taken[k].end > 0
  {
  }

  // Everything logged before it is on disk too, if and only if it went into a
  // log that has been flushed or is being flushed, or no older log is left, or
  // that one was synced to its end before it was closed.
  lemma EarlierWritesAreDurableIff(states: seq<State>, steps: seq<Step>, i: nat, k: nat)
    requires IsRun(states, steps) && i <= |steps| && k < |states[i].taken| && IsSyncWrite(states[i].taken[k])
    ensures var s, e := states[i], states[i].taken[k].end;
      (forall j: nat :: j < e ==> OnDisk(s, j)) <==>
        e <= |s.flushed| + |s.OlderRecords()| || s.OlderSynced() == |s.OlderRecords()|
  {
    SyncWriteIsDurable(states, steps, i, k);
    RunKeepsInv(states, steps, i);
    hide Inv;
    var s := states[i];
    InvIsSynced(s);
    SyncedInRange(s);
    var e := s.taken[k].end;
    if e <= |s.flushed| + |s.OlderRecords()| || s.OlderSynced() == |s.OlderRecords()| {
      forall j: nat | j < e ensures OnDisk(s, j) {
        assert SameLog(s, j, e - 1) || j < |s.flushed| || s.OlderSynced() == |s.OlderRecords()| || e - 1 < |s.flushed|;
      }
    } else {
      assert !OnDisk(s, |s.flushed| + s.OlderSynced());
    }
  }

  lemma InvIsSynced(s: State)
    requires Inv(s)
    ensures SyncOk(s)
  {
  }

  // ------------------------------------------ a log closed without a sync

  ghost predicate Reaches(steps: seq<Step>, s: State) {
    exists states :: IsRun(states, steps) && states[|steps|] == s
  }

  lemma OneStepMore(steps: seq<Step>, s: State, a: Step)
    requires Reaches(steps, s) && Enabled(s, a)
    ensures Defined(s, a) && Reaches(steps + [a], Next(s, a))
  {
    hide Enabled, Next;
    Possible(s, a);
    var states :| IsRun(states, steps) && states[|steps|] == s;
    var more, all := states + [Next(s, a)], steps + [a];
    forall i | 0 <= i < |all| ensures IsStep(more, all, i) {
      if i < |steps| { assert IsStep(states, steps, i); }
    }
    assert IsRun(more, all);
  }

  // A thread that finds the queue empty writes its batch alone.
  function Alone(r: Request): seq<Step> {
    [Lead(r.id, 1), WriteLog(r.id, Ok), Finish(r.id)]
  }

  ghost predicate AtFront(s: State, r: Request) {
    s.queue == [r] && r.id in s.threads && s.threads[r.id] == Waiting && r.id !in s.done && !s.broken
  }

  // What a write that nobody joins leaves.
  ghost predicate WroteAlone(s: State, r: Request, s': State) {
    && s'.queue == [] && s'.threads.Keys == s.threads.Keys && s'.done == s.done && !s'.broken
    && s'.taken == s.taken + [Taken(r, Ok, |s.Log()| + 1)] && s'.flushed == s.flushed && s'.older == s.older
    && |s'.current.records| == |s.current.records| + 1
    && s'.current.synced == (if r.sync then |s'.current.records| else s.current.synced)
  }

  lemma AloneRuns(steps: seq<Step>, s: State, r: Request) returns (t: State)
    requires Reaches(steps, s) && r.batch.Some? && AtFront(s, r)
    ensures Reaches(steps + Alone(r), t) && WroteAlone(s, r, t)
  {
    hide Reaches, Ops, Size, SizeLimit;
    var lead, write, finish := Lead(r.id, 1), WriteLog(r.id, Ok), Finish(r.id);
    OneStepMore(steps, s, lead);
    var s1 := Next(s, lead);
    OneStepMore(steps + [lead], s1, write);
    var s2 := Next(s1, write);
    OneStepMore(steps + [lead] + [write], s2, finish);
    t := Next(s2, finish);
    assert steps + [lead] + [write] + [finish] == steps + Alone(r);
    NobodyElse(s.done, s2.queue[..1], r);
  }

  lemma NobodyElse(done: map<nat, Status>, group: seq<Request>, r: Request)
    requires group == [r]
    ensures Mark(done, group, r.id, Ok) == done
  {
    assert group[..0] == [];
  }

  function SwitchBetween(a: Request, b: Request): seq<Step> {
    [Arrive(a)] + Alone(a) + [Arrive(b)] + [SwitchLog(b.id)] + Alone(b)
  }

  // Any write without sync, then a switch to a new log, then any sync write:
  // both report success, and of the two only the second is on disk.
  ghost predicate OnlySecondOnDisk(s: State, a: Request, b: Request) {
    && s.taken == [Taken(a, Ok, 1), Taken(b, Ok, 2)] && |s.Log()| == 2
    && !OnDisk(s, 0) && OnDisk(s, 1)
  }

  lemma SwitchLosesEarlierWrite(a: Request, b: Request) returns (s: State)
    requires a.batch.Some? && b.batch.Some? && a.id != b.id && !a.sync && b.sync
    ensures Reaches(SwitchBetween(a, b), s) && OnlySecondOnDisk(s, a, b)
  {
    hide Reaches;
    var start := State.State([], map[], map[], 0, false, [], None, LogFile([], 0), []);
    var arriveA, arriveB, switch := Arrive(a), Arrive(b), SwitchLog(b.id);
    NoSteps(start);
    OneStepMore([], start, arriveA);
    assert [] + [arriveA] == [arriveA];
    s := AloneRuns([arriveA], Next(start, arriveA), a);
    var steps := [arriveA] + Alone(a);
    OneStepMore(steps, s, arriveB);
    s := Next(s, arriveB);
    OneStepMore(steps + [arriveB], s, switch);
    s := Next(s, switch);
    s := AloneRuns(steps + [arriveB] + [switch], s, b);
  }

  lemma NoSteps(start: State)
    requires start == State.State([], map[], map[], 0, false, [], None, LogFile([], 0), [])
    ensures Reaches([], start)
  {
    assert IsRun([start], []);
  }

  lemma TwoPrefixes(a: seq<Operation>, b: seq<Operation>, whole: seq<Operation>)
    requires a <= whole && b <= whole && |a| <= |b|
    ensures a <= b
  {
  }

  // ---------------------------------------- the group as database entries

  // The entries of a batch whose first sequence number is first.
  function Numbered(ops: seq<Operation>, first: nat): (run: Run)
    requires first + |ops| <= MAX_SEQUENCE_NUMBER + 1
    ensures |run| == |ops|
    ensures forall i :: 0 <= i < |run| ==> run[i] == Entry(ops[i].key, first + i, ops[i].op)
  {
    seq(|ops|, i requires 0 <= i < |ops| => Entry(ops[i].key, first + i, ops[i].op))
  }

  // What the leader logs is a group that the database can begin to write: it
  // is numbered from the published sequence number on, and so is its record.
  lemma LoggedGroupIsNumbered(states: seq<State>, steps: seq<Step>, i: nat, id: nat)
    requires IsRun(states, steps) && i <= |steps|
    requires id in states[i].threads && InSection(states[i].threads[id])
    requires states[i].lastSequence + |states[i].threads[id].ops| < MAX_SEQUENCE_NUMBER
    ensures var s := states[i];
      var group := Numbered(s.threads[id].ops, s.lastSequence + 1);
      && NumberedAfter(group, s.lastSequence)
      && (HasWritten(s) ==>
            |s.current.records| > 0
            && s.current.records[|s.current.records| - 1] == Record(s.lastSequence + 1, s.threads[id].ops))
  {
    RunKeepsInv(states, steps, i);
  }
}
