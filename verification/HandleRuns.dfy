/** Laws of one handle over whole runs: of raw polls in any order, cancelled operations
    included, and of complete append, seek and read calls. */
module HandleRuns {
  import opened ByteStrings
  import opened LargeObjects
  import opened Polls
  import opened FileHandles

  // ---------------------------------------------------------------------------
  // Raw runs: any poll function at any time
  // ---------------------------------------------------------------------------

  ghost predicate IsRun(run: seq<Raw>, calls: seq<(RawCall, Tick)>) {
    && |run| == |calls| + 1
    && forall i :: 0 <= i < |calls| ==> run[i + 1] == RawStep(run[i], calls[i].0, calls[i].1)
  }

  /** The handle has a transaction, or a pending close still holds it. */
  predicate Open(h: Handle) {
    h.inner.Some? || (h.state.Some? && h.state.value.phase.Holding?)
  }

  /** A close that holds the transaction has taken it out of the handle. */
  predicate TakenOnce(h: Handle) {
    h.state.Some? && h.state.value.phase.Holding? ==> h.inner.None? && h.state.value.op.ShuttingDown?
  }

  /** The transaction of an open handle. */
  function Held(h: Handle): Transaction
    requires Open(h)
  {
    if h.inner.Some? then h.inner.value else h.state.value.phase.tx
  }

  /** What one call can do: a closed handle stays closed and commits nothing; an open one
      commits only the content of its transaction, and is closed by that; a transaction in
      which a query failed stays failed. */
  predicate Lawful(s: Raw, s': Raw)
  {
    && TakenOnce(s'.handle)
    && (!Open(s.handle) ==> !Open(s'.handle) && s'.durable == s.durable)
    && (s'.durable != s.durable ==>
          && Open(s.handle) && !Open(s'.handle)
          && !Held(s.handle).aborted
          && s'.durable == Some(Held(s.handle).blob.content))
    && (Open(s.handle) && Open(s'.handle) && Held(s.handle).aborted ==> Held(s'.handle).aborted)
  }

  lemma PollLaw(h: Handle, d: Option<Bytes>, tick: Tick)
    requires h.state.Some? && TakenOnce(h)
    ensures var s := PollFuture(h, d, tick);
            Lawful(Raw(h, d), AfterPoll(if s.poll.Ready? then s.(handle := s.handle.(state := None)) else s))
  {
  }

  lemma RawStepLaw(s: Raw, call: RawCall, tick: Tick)
    requires TakenOnce(s.handle)
    ensures Lawful(s, RawStep(s, call, tick))
  {
    var op := OpOf(call);
    PollLaw(Submit(s.handle, op), s.durable, tick);
  }

  lemma {:induction false} ClosedStaysClosed(run: seq<Raw>, calls: seq<(RawCall, Tick)>, k: nat, i: nat)
    requires IsRun(run, calls) && k <= i < |run|
    requires TakenOnce(run[k].handle) && !Open(run[k].handle)
    ensures TakenOnce(run[i].handle) && !Open(run[i].handle) && run[i].durable == run[k].durable
    decreases i - k
  {
    if k < i {
      ClosedStaysClosed(run, calls, k, i - 1);
      RawStepLaw(run[i - 1], calls[i - 1].0, calls[i - 1].1);
    }
  }

  lemma {:induction false} RunKeepsTakenOnce(run: seq<Raw>, calls: seq<(RawCall, Tick)>, i: nat)
    requires IsRun(run, calls) && i < |run| && TakenOnce(run[0].handle)
    ensures TakenOnce(run[i].handle)
  {
    if i > 0 {
      RunKeepsTakenOnce(run, calls, i - 1);
      RawStepLaw(run[i - 1], calls[i - 1].0, calls[i - 1].1);
    }
  }

  lemma StepLawful(run: seq<Raw>, calls: seq<(RawCall, Tick)>, k: nat, next: nat)
    requires IsRun(run, calls) && TakenOnce(run[0].handle) && k < |calls| && next == k + 1
    ensures TakenOnce(run[k].handle) && Lawful(run[k], run[next])
  {
    RunKeepsTakenOnce(run, calls, k);
    assert run[k + 1] == RawStep(run[k], calls[k].0, calls[k].1);
    RawStepLaw(run[k], calls[k].0, calls[k].1);
  }

  /** Over any run of a handle, cancelled operations included, what is committed changes at
      most once: at call `k`, which shuts the handle down for good and commits exactly the
      content its transaction saw. */
  lemma {:induction false} CommitsAtMostOnce(run: seq<Raw>, calls: seq<(RawCall, Tick)>, n: nat) returns (k: nat)
    requires IsRun(run, calls) && TakenOnce(run[0].handle) && n < |run|
    ensures k <= n
    ensures forall i :: 0 <= i <= k ==> run[i].durable == run[0].durable
    ensures forall i :: k < i <= n ==> run[i].durable == run[n].durable
    ensures k < n ==>
              && Open(run[k].handle) && !Open(run[k + 1].handle)
              && !Held(run[k].handle).aborted
              && run[n].durable == Some(Held(run[k].handle).blob.content)
  {
    if n == 0 {
      k := 0;
    } else {
      var m := n - 1;
      k := CommitsAtMostOnce(run, calls, m);
      StepLawful(run, calls, m, n);
      if k < m {
        RunKeepsTakenOnce(run, calls, k + 1);
        ClosedStaysClosed(run, calls, k + 1, m);
      } else if run[n].durable == run[m].durable {
        k := n;
      }
    }
  }

  /** A pending answer is one its query can give. */
  predicate Sane(h: Handle) {
    h.state.Some? && h.state.value.phase.Answered? ==>
      match h.state.value.phase.answer
      case Data(bytes) => |bytes| <= h.state.value.op.count
      case Offset(n) => n >= 0
      case Written(n) => 0 <= n <= |h.state.value.op.data|
      case _ => true
  }

  /** A poll of a handle that is idle or busy with the same kind of operation does not
      panic, and what it answers is in range for the operation it polled. */
  lemma AnswersInRange(h: Handle, d: Option<Bytes>, op: Op, tick: Tick)
    requires Sane(h) && SameKind(Submit(h, op).state.value.op, op)
    ensures var s := PollOp(h, d, op, tick);
            && Sane(s.handle) && !s.poll.Panicked?
            && (s.poll.Ready? ==>
                  match s.poll.value
                  case Data(bytes) => |bytes| <= Submit(h, op).state.value.op.count
                  case Offset(n) => n >= 0
                  case Written(n) => n >= 0
                  case _ => true)
  {
  }

  lemma RawStepKeepsSane(s: Raw, call: RawCall, tick: Tick)
    requires Sane(s.handle)
    ensures Sane(RawStep(s, call, tick).handle)
  {
    var op := OpOf(call);
    if SameKind(Submit(s.handle, op).state.value.op, op) {
      AnswersInRange(s.handle, s.durable, op, tick);
    }
  }

  lemma {:induction false} RunKeepsSane(run: seq<Raw>, calls: seq<(RawCall, Tick)>, i: nat)
    requires IsRun(run, calls) && i < |run| && Sane(run[0].handle)
    ensures Sane(run[i].handle)
  {
    if i > 0 {
      var k := i - 1;
      RunKeepsSane(run, calls, k);
      assert run[k + 1] == RawStep(run[k], calls[k].0, calls[k].1);
      RawStepKeepsSane(run[k], calls[k].0, calls[k].1);
    }
  }

  /** `poll_read` with `room` bytes of buffer panics if the database meets the poll so. */
  predicate ReadPanics(h: Handle, d: Option<Bytes>, room: nat, tick: Tick) {
    Delivered(PollOp(h, d, Reading(Min(room, READ_LIMIT)), tick).poll, room).Panicked?
  }

  /** The most bytes a pending read can still deliver. */
  function Deliverable(h: Handle, d: Option<Bytes>): nat
    requires h.state.Some? && h.state.value.op.Reading?
  {
    match h.state.value.phase
    case Answered(Data(bytes)) => |bytes|
    case Submitted =>
      var count := AsI32(h.state.value.op.count);
      if Usable(h.inner) && d.Some? && count >= 0 then Min(count, h.inner.value.blob.Available()) else 0
    case _ => 0
  }

  lemma ReadPanicsIff(h: Handle, d: Option<Bytes>, room: nat)
    requires Sane(h) && TakenOnce(h)
    ensures (exists tick :: ReadPanics(h, d, room, tick)) <==>
            h.state.Some? && (h.state.value.op.Reading? ==> room < Deliverable(h, d))
  {
    var op := Reading(Min(room, READ_LIMIT));
    if h.state.Some? && (h.state.value.op.Reading? ==> room < Deliverable(h, d)) {
      assert ReadPanics(h, d, room, Finish(U64_MAX));
    }
    forall tick | ReadPanics(h, d, room, tick)
      ensures h.state.Some? && (h.state.value.op.Reading? ==> room < Deliverable(h, d))
    {
      if SameKind(Submit(h, op).state.value.op, op) {
        AnswersInRange(h, d, op, tick);
      }
    }
  }

  /** Whatever was polled, started and cancelled before, a read can panic exactly if another
      kind of operation is pending, or a read that can still deliver more bytes than there
      is room for now. Polling again with the same buffer never panics. */
  lemma ReadPanicsOnMisuse(run: seq<Raw>, calls: seq<(RawCall, Tick)>, i: nat, room: nat)
    requires IsRun(run, calls) && i < |run| && run[0].handle.state.None?
    ensures var h, d := run[i].handle, run[i].durable;
            && ((exists tick :: ReadPanics(h, d, room, tick)) <==>
                  h.state.Some? && (h.state.value.op.Reading? ==> room < Deliverable(h, d)))
            && (h.state.Some? && h.state.value.op.Reading? ==> Deliverable(h, d) <= h.state.value.op.count)
  {
    RunKeepsSane(run, calls, i);
    RunKeepsTakenOnce(run, calls, i);
    ReadPanicsIff(run[i].handle, run[i].durable, room);
  }

  /** Whatever came before, the other operations panic exactly if another kind is pending;
      no conversion of an answer of the database ever fails. */
  lemma OthersPanicOnMisuse(run: seq<Raw>, calls: seq<(RawCall, Tick)>, i: nat, op: Op, tick: Tick)
    requires IsRun(run, calls) && i < |run| && run[0].handle.state.None? && !op.Reading?
    ensures var h := run[i].handle;
            var p := PollOp(h, run[i].durable, op, tick).poll;
            (if op.ShuttingDown? then Acknowledged(p).Panicked? else Counted(p).Panicked?) <==>
            h.state.Some? && !SameKind(h.state.value.op, op)
  {
    RunKeepsSane(run, calls, i);
    if SameKind(Submit(run[i].handle, op).state.value.op, op) {
      AnswersInRange(run[i].handle, run[i].durable, op, tick);
    }
  }

  /** On a closed handle every operation that is submitted ends in IsShutdown, without
      effect, however it is polled. */
  lemma ClosedAnswersIsShutdown(d: Option<Bytes>, op: Op, h: Handle, tick: Tick)
    requires h.inner.None? && (h.state.None? || InFlight(None, d, op, h, d))
    ensures var s := PollOp(h, d, op, tick);
            && s.durable == d && s.handle.inner.None?
            && (s.poll == Ready(Failed(IsShutdown)) || (s.poll.Pending? && InFlight(None, d, op, s.handle, d)))
  {
  }

  /** A close that has got the lock has taken the transaction out of the handle. */
  predicate CloseTook(h: Handle) {
    h.state.Some? && h.state.value.op.ShuttingDown? && !h.state.value.phase.Submitted? ==> h.inner.None?
  }

  lemma RawStepTakes(s: Raw, call: RawCall, tick: Tick)
    requires TakenOnce(s.handle) && CloseTook(s.handle)
    ensures var s' := RawStep(s, call, tick);
            && CloseTook(s'.handle)
            && (s.handle.inner.None? ==> s'.handle.inner.None?)
            && (call.PollShutdown? && !tick.Wait? && (s.handle.state.None? || s.handle.state.value.op.ShuttingDown?) ==>
                  s'.handle.inner.None?)
  {
  }

  lemma {:induction false} RunKeepsCloseTook(run: seq<Raw>, calls: seq<(RawCall, Tick)>, i: nat)
    requires IsRun(run, calls) && i < |run| && TakenOnce(run[0].handle) && CloseTook(run[0].handle)
    ensures CloseTook(run[i].handle)
  {
    if i > 0 {
      var k := i - 1;
      RunKeepsCloseTook(run, calls, k);
      StepLawful(run, calls, k, i);
      assert run[k + 1] == RawStep(run[k], calls[k].0, calls[k].1);
      RawStepTakes(run[k], calls[k].0, calls[k].1);
    }
  }

  lemma {:induction false} NothingComesBack(run: seq<Raw>, calls: seq<(RawCall, Tick)>, k: nat, i: nat)
    requires IsRun(run, calls) && run[0].handle.state.None? && k <= i < |run| && run[k].handle.inner.None?
    ensures run[i].handle.inner.None?
    decreases i
  {
    if k < i {
      var m := i - 1;
      NothingComesBack(run, calls, k, m);
      StepLawful(run, calls, m, i);
      RunKeepsCloseTook(run, calls, m);
      assert run[m + 1] == RawStep(run[m], calls[m].0, calls[m].1);
      RawStepTakes(run[m], calls[m].0, calls[m].1);
    }
  }

  /** A close that is only polled until it has got the lock, and then cancelled, has shut the
      handle down already: once whatever is pending is dropped, every operation of any later
      state ends in IsShutdown and commits nothing. */
  lemma CancelledCloseShutsDown(run: seq<Raw>, calls: seq<(RawCall, Tick)>, k: nat, i: nat, op: Op, tick: Tick)
    requires IsRun(run, calls) && run[0].handle.state.None? && k < i < |run|
    requires calls[k].0.PollShutdown? && !calls[k].1.Wait?
    requires run[k].handle.state.None? || run[k].handle.state.value.op.ShuttingDown?
    ensures run[i].handle.inner.None?
    ensures var s := PollOp(run[i].handle.(state := None), run[i].durable, op, tick);
            s.durable == run[i].durable && (s.poll.Pending? || s.poll == Ready(Failed(IsShutdown)))
  {
    var next := k + 1;
    RunKeepsCloseTook(run, calls, k);
    StepLawful(run, calls, k, next);
    assert run[k + 1] == RawStep(run[k], calls[k].0, calls[k].1);
    RawStepTakes(run[k], calls[k].0, calls[k].1);
    NothingComesBack(run, calls, next, i);
    ClosedAnswersIsShutdown(run[i].durable, op, run[i].handle.(state := None), tick);
  }

  // ---------------------------------------------------------------------------
  // Runs of complete calls: append-only
  // ---------------------------------------------------------------------------

  datatype Call = AppendCall(data: Bytes) | SeekCall(target: SeekFrom) | ReadCall(room: nat)

  /** What one complete call, acknowledged or not, does to the handle's transaction. */
  ghost predicate CallGives(tx0: Option<Transaction>, call: Call, tx1: Option<Transaction>) {
    match call
    case AppendCall(data) => exists r :: AppendGives(tx0, data, tx1, r)
    case SeekCall(target) => exists r :: SeekGives(tx0, target, tx1, r)
    case ReadCall(room) => exists r :: ReadGives(tx0, room, tx1, r)
  }

  ghost predicate IsCallRun(txs: seq<Option<Transaction>>, calls: seq<Call>) {
    && |txs| == |calls| + 1
    && forall i :: 0 <= i < |calls| ==> CallGives(txs[i], calls[i], txs[i + 1])
  }

  function Appended(calls: seq<Call>): Bytes {
    if calls == [] then [] else
    (if calls[0].AppendCall? then calls[0].data else []) + Appended(calls[1..])
  }

  lemma CallRunTail(txs: seq<Option<Transaction>>, calls: seq<Call>)
    requires IsCallRun(txs, calls) && calls != []
    ensures IsCallRun(txs[1..], calls[1..]) && CallGives(txs[0], calls[0], txs[1])
  {
    forall i | 0 <= i < |calls| - 1
      ensures CallGives(txs[1..][i], calls[1..][i], txs[1..][i + 1])
    {
      var j := i + 1;
      assert CallGives(txs[j], calls[j], txs[j + 1]);
    }
    assert CallGives(txs[0], calls[0], txs[0 + 1]);
  }

  /** Append-only: whatever seeks and reads come in between, a handle that could still be
      committed holds its opening content followed by the appended data, in order. No byte
      is overwritten and no gap is ever filled with zeros. */
  lemma {:induction false} AppendOnly(txs: seq<Option<Transaction>>, calls: seq<Call>)
    requires IsCallRun(txs, calls) && Usable(txs[|calls|])
    ensures Usable(txs[0])
    ensures txs[|calls|].value.blob.content == txs[0].value.blob.content + Appended(calls)
    decreases |calls|
  {
    if calls == [] {
      assert txs[0].value.blob.content + Appended(calls) == txs[0].value.blob.content;
    } else {
      CallRunTail(txs, calls);
      AppendOnly(txs[1..], calls[1..]);
      assert txs[1..][|calls| - 1] == txs[|calls|];
    }
  }
}
