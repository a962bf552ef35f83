/** One poll of the blob handle as a function: what a poll does to the handle, to the
    transaction it owns and to the committed object, for each way the database may answer. */
module Polls {
  import opened ByteStrings
  import opened LargeObjects

  /** `8 * MIB` of the source, whose `MIB` is two mebibytes. */
  const READ_LIMIT := 8 * (2 * 1024 * 1024)

  datatype Error = IsShutdown | QueryFailed | UnexpectedEof | WriteZero

  datatype Result<+T> = Ok(value: T) | Err(error: Error)

  datatype Poll<+T> = Pending | Ready(value: T) | Panicked

  /** How the database connection meets one poll of a future.
      Wait: the future does not even get the lock. Begin: it gets the lock, the query is
      under way. Run: the query is executed, its answer not yet here. Finish: the answer
      is here. Break: the query fails. LoseAnswer: the query is executed, the connection
      fails before the answer. `limit` bounds how many bytes the query moves. */
  datatype Tick = Wait | Begin | Run(limit: nat) | Finish(limit: nat) | Break | LoseAnswer(limit: nat) {
    predicate Clean() { !Break? && !LoseAnswer? }
  }

  ghost predicate AllClean(ticks: seq<Tick>) {
    forall i :: 0 <= i < |ticks| ==> ticks[i].Clean()
  }

  /** No executed query has its answer lost (queries may still fail). */
  ghost predicate AllAnswered(ticks: seq<Tick>) {
    forall i :: 0 <= i < |ticks| ==> !ticks[i].LoseAnswer?
  }

  /** After the last scripted tick every poll is answered at once and in full. */
  function NextTick(ticks: seq<Tick>): Tick {
    if ticks == [] then Finish(U64_MAX) else ticks[0]
  }

  function LaterTicks(ticks: seq<Tick>): seq<Tick> {
    if ticks == [] then [] else ticks[1..]
  }

  /** The open transaction; once a query of it fails, every later one fails too. */
  datatype Transaction = Transaction(blob: OpenObject, aborted: bool)

  datatype Op = Reading(count: u32) | Seeking(target: SeekFrom) | Writing(data: Bytes) | ShuttingDown

  datatype Answer = Data(bytes: Bytes) | Offset(offset: i64) | Written(count: i32) | Closed | Failed(error: Error)

  predicate Fits(op: Op, a: Answer) {
    match a
    case Data(_) => op.Reading?
    case Offset(_) => op.Seeking?
    case Written(_) => op.Writing?
    case Closed => op.ShuttingDown?
    case Failed(_) => true
  }

  /** Submitted: waiting for the lock. Holding: a close that has taken the transaction out
      of the handle. Answered: executed, the answer not yet delivered. */
  datatype Phase = Submitted | Holding(tx: Transaction) | Answered(answer: Answer)

  datatype FutureRep = Future(op: Op, phase: Phase)

  /** A future's answer has the type of its query. */
  type Future = f: FutureRep | f.phase.Answered? ==> Fits(f.op, f.phase.answer)
    witness Future(ShuttingDown, Submitted)

  datatype Handle = Handle(inner: Option<Transaction>, state: Option<Future>, position: u64)

  datatype Effect = Effect(inner: Option<Transaction>, durable: Option<Bytes>, answer: Answer)

  datatype Step = Step(handle: Handle, durable: Option<Bytes>, poll: Poll<Answer>)

  function Abort(inner: Option<Transaction>): Option<Transaction> {
    if inner.Some? then Some(inner.value.(aborted := true)) else None
  }

  /** What is left of the transaction when a query of `op` fails. */
  function Spoiled(inner: Option<Transaction>, op: Op): Option<Transaction> {
    if op.ShuttingDown? then None else Abort(inner)
  }

  /** The query of `op`, executed. `durable` is the committed content of the object, None
      once the object is unlinked; closing commits the content the transaction sees. */
  function Execute(inner: Option<Transaction>, durable: Option<Bytes>, op: Op, limit: nat): (e: Effect)
    ensures Fits(op, e.answer)
  {
    if inner.None? then Effect(None, durable, Failed(IsShutdown)) else
    var tx := inner.value;
    var o := tx.blob;
    var failure := Effect(Spoiled(inner, op), durable, Failed(QueryFailed));
    if tx.aborted || durable.None? then failure else
    match op
    case Reading(count) =>
      if AsI32(count) < 0 then failure else
      var data := o.ReadData(AsI32(count), limit);
      Effect(Some(tx.(blob := o.(cursor := o.cursor + |data|))), durable, Data(data))
    case Seeking(target) =>
      var moved := o.SeekTo(target);
      if moved.None? then failure else
      Effect(Some(tx.(blob := moved.value)), durable, Offset(moved.value.cursor))
    case Writing(data) =>
      var k := Granted(Min(|data|, I32_MAX), limit);
      if o.cursor + k > I64_MAX then failure else
      Effect(Some(tx.(blob := o.Write(data[..k]))), durable, Written(k))
    case ShuttingDown =>
      Effect(None, Some(o.content), Closed)
  }

  /** One poll of the pending future. */
  function PollFuture(h: Handle, durable: Option<Bytes>, tick: Tick): (s: Step)
    requires h.state.Some?
    ensures s.handle.state.Some? && s.handle.state.value.op == h.state.value.op
    ensures s.poll.Ready? ==> Fits(h.state.value.op, s.poll.value)
    ensures !s.poll.Panicked?
  {
    var op, phase := h.state.value.op, h.state.value.phase;
    if phase.Answered? then
      match tick
      case Wait | Begin | Run(_) => Step(h, durable, Pending)
      case Finish(_) | Break => Step(h, durable, Ready(phase.answer))
      case LoseAnswer(_) =>
        if phase.answer.Failed? then Step(h, durable, Ready(phase.answer))
        else Step(h.(inner := Abort(h.inner)), durable, Ready(Failed(QueryFailed)))
    else
      var source := if phase.Holding? then Some(phase.tx) else h.inner;
      match tick
      case Wait => Step(h, durable, Pending)
      case Begin =>
        if op.ShuttingDown? && h.inner.Some? && phase.Submitted? then
          Step(h.(inner := None, state := Some(Future(op, Holding(h.inner.value)))), durable, Pending)
        else Step(h, durable, Pending)
      case Run(limit) =>
        var e := Execute(source, durable, op, limit);
        Step(h.(inner := e.inner, state := Some(Future(op, Answered(e.answer)))), e.durable, Pending)
      case Finish(limit) =>
        var e := Execute(source, durable, op, limit);
        Step(h.(inner := e.inner), e.durable, Ready(e.answer))
      case LoseAnswer(limit) =>
        var e := Execute(source, durable, op, limit);
        Step(h.(inner := Abort(e.inner)), e.durable, Ready(if e.answer.Failed? then e.answer else Failed(QueryFailed)))
      case Break =>
        Step(h.(inner := Spoiled(h.inner, op)), durable,
             Ready(Failed(if source.None? then IsShutdown else QueryFailed)))
  }

  function Submit(h: Handle, op: Op): Handle {
    if h.state.None? then h.(state := Some(Future(op, Submitted))) else h
  }

  predicate SameKind(a: Op, b: Op) {
    (a.Reading? && b.Reading?) || (a.Seeking? && b.Seeking?) || (a.Writing? && b.Writing?) ||
    (a.ShuttingDown? && b.ShuttingDown?)
  }

  /** The common part of the poll functions: an idle handle submits `op`, a handle busy
      with an operation of the same kind polls that one, any other handle panics. */
  function PollOp(h: Handle, durable: Option<Bytes>, op: Op, tick: Tick): Step {
    var busy := Submit(h, op);
    if !SameKind(busy.state.value.op, op) then Step(h, durable, Panicked) else
    var s := PollFuture(busy, durable, tick);
    if s.poll.Ready? then s.(handle := s.handle.(state := None)) else s
  }

  /** `put_slice` into a buffer with room for `room` bytes. */
  function Delivered(p: Poll<Answer>, room: nat): Poll<Result<Bytes>> {
    match p
    case Ready(Data(bytes)) => if |bytes| > room then Panicked else Ready(Ok(bytes))
    case Ready(Failed(e)) => Ready(Err(e))
    case Pending => Pending
    case _ => Panicked
  }

  function Counted(p: Poll<Answer>): Poll<Result<nat>> {
    match p
    case Ready(Written(n)) => if n < 0 then Panicked else Ready(Ok(n))
    case Ready(Offset(n)) => if n < 0 then Panicked else Ready(Ok(n))
    case Ready(Failed(e)) => Ready(Err(e))
    case Pending => Pending
    case _ => Panicked
  }

  function Acknowledged(p: Poll<Answer>): Poll<Result<()>> {
    match p
    case Ready(Closed) => Ready(Ok(()))
    case Ready(Failed(e)) => Ready(Err(e))
    case Pending => Pending
    case _ => Panicked
  }

  // ---------------------------------------------------------------------------
  // Raw calls: any poll function at any time
  // ---------------------------------------------------------------------------

  datatype RawCall =
    PollRead(room: nat) | StartSeek(target: SeekFrom) | PollComplete | PollWrite(data: Bytes) | PollShutdown

  /** The operation a call submits to an idle handle, or polls. */
  function OpOf(call: RawCall): Op {
    match call
    case PollRead(room) => Reading(Min(room, READ_LIMIT))
    case StartSeek(target) => Seeking(target)
    case PollComplete => Seeking(Start(0))
    case PollWrite(data) => Writing(data)
    case PollShutdown => ShuttingDown
  }

  datatype Raw = Raw(handle: Handle, durable: Option<Bytes>)

  /** One call of a poll function; starting a seek drops whatever was pending. A seek that
      completes leaves its offset in `position`. */
  function RawStep(s: Raw, call: RawCall, tick: Tick): Raw {
    match call
    case StartSeek(target) => s.(handle := s.handle.(state := Some(Future(Seeking(target), Submitted))))
    case PollComplete =>
      if s.handle.state.None? then s
      else
        var p := PollOp(s.handle, s.durable, OpOf(call), tick);
        var offset := Counted(p.poll);
        if offset.Ready? && offset.value.Ok? then Raw(p.handle.(position := offset.value.value), p.durable)
        else AfterPoll(p)
    case _ => AfterPoll(PollOp(s.handle, s.durable, OpOf(call), tick))
  }

  function AfterPoll(s: Step): Raw {
    Raw(s.handle, s.durable)
  }

  // ---------------------------------------------------------------------------
  // Exactly once: however often a poll is Pending, the query runs once.
  // ---------------------------------------------------------------------------

  /** `op` was executed exactly once on (tx0, durable0) and its answer is `a`. */
  ghost predicate Took(tx0: Option<Transaction>, durable0: Option<Bytes>, op: Op, e: Effect) {
    exists limit: nat :: Execute(tx0, durable0, op, limit) == e
  }

  /** `op` was not executed at all; its transaction is spoiled. */
  ghost predicate Refused(tx0: Option<Transaction>, durable0: Option<Bytes>, op: Op, e: Effect) {
    tx0.Some? && e == Effect(Spoiled(tx0, op), durable0, Failed(QueryFailed))
  }

  /** `op` was executed exactly once, but its answer was lost. */
  ghost predicate Lost(tx0: Option<Transaction>, durable0: Option<Bytes>, op: Op, e: Effect) {
    tx0.Some? && exists limit: nat :: LostAfter(Execute(tx0, durable0, op, limit)) == e
  }

  ghost predicate Ended(tx0: Option<Transaction>, durable0: Option<Bytes>, op: Op, e: Effect) {
    Took(tx0, durable0, op, e) || Refused(tx0, durable0, op, e) || Lost(tx0, durable0, op, e)
  }

  function LostAfter(e: Effect): Effect {
    Effect(Abort(e.inner), e.durable, Failed(QueryFailed))
  }

  /** `op`, submitted on (tx0, durable0), is pending in `h`: it has had no effect yet, or it
      has had its one effect and only its answer is outstanding. */
  ghost predicate InFlight(tx0: Option<Transaction>, durable0: Option<Bytes>, op: Op,
                           h: Handle, durable: Option<Bytes>) {
    h.state.Some? && h.state.value.op == op &&
    match h.state.value.phase
    case Submitted => h.inner == tx0 && durable == durable0
    case Holding(tx) => op.ShuttingDown? && h.inner == None && tx0 == Some(tx) && durable == durable0
    case Answered(a) => Took(tx0, durable0, op, Effect(h.inner, durable, a))
  }

  /** Executed once, and the answer lost or, being a failure, delivered. */
  lemma LosesAnswer(tx0: Option<Transaction>, durable0: Option<Bytes>, op: Op, limit: nat)
    ensures var e := Execute(tx0, durable0, op, limit);
            if e.answer.Failed? then Ended(tx0, durable0, op, Effect(Abort(e.inner), e.durable, e.answer))
            else Lost(tx0, durable0, op, LostAfter(e))
  {
    var e := Execute(tx0, durable0, op, limit);
    if tx0.Some? && e.answer.Failed? {
      assert LostAfter(e) == Effect(Abort(e.inner), e.durable, e.answer);
    } else if tx0.None? {
      assert Took(tx0, durable0, op, e);
    }
  }

  /** The heart of the poll discipline: polling a pending operation with the same
      arguments keeps it in flight or ends it, having taken effect once (or, when the
      query fails, not at all); the handle never panics. */
  lemma PollKeepsInFlight(tx0: Option<Transaction>, durable0: Option<Bytes>, op: Op,
                          h: Handle, durable: Option<Bytes>, tick: Tick)
    requires InFlight(tx0, durable0, op, Submit(h, op), durable)
    ensures var s := PollOp(h, durable, op, tick);
            && !s.poll.Panicked?
            && s.handle.position == h.position
            && (s.poll.Pending? ==> InFlight(tx0, durable0, op, s.handle, s.durable))
            && (s.poll.Ready? ==>
                  var e := Effect(s.handle.inner, s.durable, s.poll.value);
                  && s.handle.state.None?
                  && Ended(tx0, durable0, op, e)
                  && (!tick.LoseAnswer? ==> Took(tx0, durable0, op, e) || Refused(tx0, durable0, op, e))
                  && (tick.Clean() ==> Took(tx0, durable0, op, e)))
  {
    var busy := Submit(h, op);
    var phase := busy.state.value.phase;
    if phase.Answered? {
      var limit: nat :| Execute(tx0, durable0, op, limit) == Effect(busy.inner, durable, phase.answer);
      LosesAnswer(tx0, durable0, op, limit);
    } else {
      assert (if phase.Holding? then Some(phase.tx) else busy.inner) == tx0;
      if tick.Run? || tick.Finish? {
        assert Took(tx0, durable0, op, Execute(tx0, durable0, op, tick.limit));
      } else if tick.LoseAnswer? {
        LosesAnswer(tx0, durable0, op, tick.limit);
      } else if tick.Break? && tx0.None? {
        assert Took(tx0, durable0, op, Execute(tx0, durable0, op, 0));
      }
    }
  }

  /** The ways the database can meet the poll of a pending operation, seen from outside: it
      can leave it pending for as long as it likes, before and after executing it, execute
      it and answer, fail it, or execute it and lose the answer. */
  lemma EveryWayHappens(tx0: Option<Transaction>, durable0: Option<Bytes>, op: Op,
                        h: Handle, durable: Option<Bytes>, tick: Tick)
    requires InFlight(tx0, durable0, op, Submit(h, op), durable)
    ensures var s := PollOp(h, durable, op, tick);
            var submitted := Submit(h, op).state.value.phase.Submitted?;
            match tick
            case Wait => s == Step(Submit(h, op), durable, Pending)
            case Begin => s.poll.Pending? && s.durable == durable
            case Run(limit) =>
              && s.poll.Pending? && s.handle.state.value.phase.Answered?
              && (submitted ==> s.durable == Execute(tx0, durable0, op, limit).durable)
            case Finish(limit) =>
              && s.poll.Ready?
              && (submitted ==>
                    Effect(s.handle.inner, s.durable, s.poll.value) == Execute(tx0, durable0, op, limit))
            case Break => s.poll.Ready? && s.durable == durable && (submitted ==> s.poll.value.Failed?)
            case LoseAnswer(limit) =>
              && s.poll.Ready? && s.poll.value.Failed?
              && (submitted ==> s.durable == Execute(tx0, durable0, op, limit).durable)
  {
  }

  /** A read can give any first part of what there is, a write take any first part. */
  lemma ShortAnswers(tx: Transaction, durable: Bytes, count: u32, data: Bytes, k: nat)
    requires !tx.aborted && 0 < k
    ensures k <= count <= 0x7FFF_FFFF && k <= tx.blob.Available() ==>
              Execute(Some(tx), Some(durable), Reading(count), k).answer ==
              Data(tx.blob.content[tx.blob.cursor..tx.blob.cursor + k])
    ensures k <= |data| && k <= 0x7FFF_FFFF && tx.blob.cursor + k <= 0x7FFF_FFFF_FFFF_FFFF ==>
              Execute(Some(tx), Some(durable), Writing(data), k).answer == Written(k)
  {
  }

  predicate Usable(tx: Option<Transaction>) {
    tx.Some? && !tx.value.aborted
  }

  /** What a seek that is over means: the true offset, and the cursor there, or a
      transaction no query can use any more. */
  ghost predicate SeekGives(tx0: Option<Transaction>, target: SeekFrom, tx1: Option<Transaction>, r: Result<nat>) {
    && (r.Ok? ==>
          && Usable(tx0)
          && tx0.value.blob.SeekTo(target).Some?
          && r.value == tx0.value.blob.Target(target)
          && tx1 == Some(Transaction(OpenObject(tx0.value.blob.content, r.value), false)))
    && (r.Err? ==> !Usable(tx1) && r.error in {IsShutdown, QueryFailed})
  }

  /** What a read that is over means for a caller with room for `room` bytes: bytes at the
      cursor, none only at the end of the object, never more than there is room for. */
  ghost predicate ReadGives(tx0: Option<Transaction>, room: nat, tx1: Option<Transaction>, r: Result<Bytes>) {
    && (r.Ok? ==>
          && Usable(tx0)
          && var o := tx0.value.blob;
          && |r.value| <= room && |r.value| <= o.Available()
          && (r.value == [] <==> room == 0 || o.Available() == 0)
          && (r.value != [] ==> r.value == o.content[o.cursor..o.cursor + |r.value|])
          && tx1 == Some(Transaction(OpenObject(o.content, o.cursor + |r.value|), false)))
    && (r.Err? ==> !Usable(tx1) && r.error in {IsShutdown, QueryFailed})
  }

  /** What a write that is over means: some first part of the data, not empty if the data
      is not, laid over the object at the cursor. */
  ghost predicate WriteGives(tx0: Option<Transaction>, data: Bytes, tx1: Option<Transaction>, r: Result<nat>) {
    && (r.Ok? ==>
          && Usable(tx0)
          && r.value <= |data|
          && (r.value == 0 <==> data == [])
          && tx1 == Some(Transaction(tx0.value.blob.Write(data[..r.value]), false))
          && tx1.value.blob.cursor <= I64_MAX)
    && (r.Err? ==> !Usable(tx1) && r.error in {IsShutdown, QueryFailed})
  }

  /** What a close that is over means: the handle is shut down for good, and the content
      is committed if the close succeeded, and can be otherwise only if its answer was lost. */
  ghost predicate CloseGives(tx0: Option<Transaction>, durable0: Option<Bytes>,
                             tx1: Option<Transaction>, durable1: Option<Bytes>, r: Result<()>) {
    && tx1.None?
    && (r.Ok? ==> Usable(tx0) && durable0.Some? && durable1 == Some(tx0.value.blob.content))
    && (r.Err? ==> durable1 == durable0 || (Usable(tx0) && durable0.Some? && durable1 == Some(tx0.value.blob.content)))
    && (r.Err? ==> r.error in {IsShutdown, QueryFailed})
  }

  lemma SeekPoll(tx0: Option<Transaction>, d0: Option<Bytes>, target: SeekFrom, h: Handle, tick: Tick)
    requires InFlight(tx0, d0, Seeking(target), Submit(h, Seeking(target)), d0)
    ensures var s := PollOp(h, d0, Seeking(target), tick);
            var p := Counted(s.poll);
            && !p.Panicked?
            && s.durable == d0
            && (p.Pending? ==> s.handle.state.Some? && InFlight(tx0, d0, Seeking(target), s.handle, d0))
            && (p.Ready? ==> s.handle.state.None? && SeekGives(tx0, target, s.handle.inner, p.value))
            && (p.Ready? && p.value.Ok? ==> d0.Some?)
            && (p.Ready? && tick.Clean() && Usable(tx0) && d0.Some? && tx0.value.blob.SeekTo(target).Some? ==>
                  p.value.Ok?)
  {
    PollKeepsInFlight(tx0, d0, Seeking(target), h, d0, tick);
  }

  lemma ReadExecuted(tx0: Option<Transaction>, d0: Option<Bytes>, room: nat, limit: nat)
    ensures var e := Execute(tx0, d0, Reading(Min(room, READ_LIMIT)), limit);
            var p := Delivered(Ready(e.answer), room);
            && p.Ready? && ReadGives(tx0, room, e.inner, p.value)
            && (p.value.Ok? ==> d0.Some? && |p.value.value| <= 16_777_216)
            && (Usable(tx0) && d0.Some? ==> p.value.Ok?)
  {
  }

  lemma ReadEnds(tx0: Option<Transaction>, d0: Option<Bytes>, room: nat, e: Effect)
    requires Ended(tx0, d0, Reading(Min(room, READ_LIMIT)), e)
    ensures var p := Delivered(Ready(e.answer), room);
            && p.Ready? && ReadGives(tx0, room, e.inner, p.value)
            && (p.value.Ok? ==> d0.Some? && |p.value.value| <= 16_777_216)
            && (Took(tx0, d0, Reading(Min(room, READ_LIMIT)), e) && Usable(tx0) && d0.Some? ==> p.value.Ok?)
  {
    if Took(tx0, d0, Reading(Min(room, READ_LIMIT)), e) {
      var limit: nat :| Execute(tx0, d0, Reading(Min(room, READ_LIMIT)), limit) == e;
      ReadExecuted(tx0, d0, room, limit);
    }
  }

  /** No poll of an operation other than a close touches the committed object. */
  lemma NothingCommitted(tx0: Option<Transaction>, d0: Option<Bytes>, op: Op, h: Handle, tick: Tick)
    requires !op.ShuttingDown? && InFlight(tx0, d0, op, Submit(h, op), d0)
    ensures PollOp(h, d0, op, tick).durable == d0
  {
  }

  lemma ReadPoll(tx0: Option<Transaction>, d0: Option<Bytes>, room: nat, h: Handle, tick: Tick)
    requires InFlight(tx0, d0, Reading(Min(room, READ_LIMIT)), Submit(h, Reading(Min(room, READ_LIMIT))), d0)
    ensures var s := PollOp(h, d0, Reading(Min(room, READ_LIMIT)), tick);
            var p := Delivered(s.poll, room);
            && !p.Panicked?
            && s.durable == d0
            && (p.Pending? ==> s.handle.state.Some? && InFlight(tx0, d0, Reading(Min(room, READ_LIMIT)), s.handle, d0))
            && (p.Ready? ==> s.handle.state.None? && ReadGives(tx0, room, s.handle.inner, p.value))
            && (p.Ready? && p.value.Ok? ==> d0.Some? && |p.value.value| <= 16_777_216)
            && (p.Ready? && tick.Clean() && Usable(tx0) && d0.Some? ==> p.value.Ok?)
  {
    var op := Reading(Min(room, READ_LIMIT));
    PollKeepsInFlight(tx0, d0, op, h, d0, tick);
    var s := PollOp(h, d0, op, tick);
    NothingCommitted(tx0, d0, op, h, tick);
    if s.poll.Ready? {
      ReadEnds(tx0, d0, room, Effect(s.handle.inner, s.durable, s.poll.value));
    }
  }

  lemma WriteEnds(tx0: Option<Transaction>, d0: Option<Bytes>, data: Bytes, e: Effect)
    requires Ended(tx0, d0, Writing(data), e)
    ensures var p := Counted(Ready(e.answer));
            && p.Ready? && WriteGives(tx0, data, e.inner, p.value)
            && (p.value.Ok? ==> d0.Some?)
            && (Took(tx0, d0, Writing(data), e) && Usable(tx0) && d0.Some? ==>
                  tx0.value.blob.cursor + |data| <= I64_MAX ==> p.value.Ok?)
  {
  }

  lemma WritePoll(tx0: Option<Transaction>, d0: Option<Bytes>, data: Bytes, h: Handle, tick: Tick)
    requires InFlight(tx0, d0, Writing(data), Submit(h, Writing(data)), d0)
    ensures var s := PollOp(h, d0, Writing(data), tick);
            var p := Counted(s.poll);
            && !p.Panicked?
            && s.durable == d0
            && (p.Pending? ==> s.handle.state.Some? && InFlight(tx0, d0, Writing(data), s.handle, d0))
            && (p.Ready? ==> s.handle.state.None? && WriteGives(tx0, data, s.handle.inner, p.value))
            && (p.Ready? && p.value.Ok? ==> d0.Some?)
            && (p.Ready? && tick.Clean() && Usable(tx0) && d0.Some? && tx0.value.blob.cursor + |data| <= I64_MAX ==>
                  p.value.Ok?)
  {
    PollKeepsInFlight(tx0, d0, Writing(data), h, d0, tick);
    var s := PollOp(h, d0, Writing(data), tick);
    NothingCommitted(tx0, d0, Writing(data), h, tick);
    if s.poll.Ready? {
      WriteEnds(tx0, d0, data, Effect(s.handle.inner, s.durable, s.poll.value));
    }
  }

  lemma ClosePoll(tx0: Option<Transaction>, d0: Option<Bytes>, h: Handle, d: Option<Bytes>, tick: Tick)
    requires InFlight(tx0, d0, ShuttingDown, Submit(h, ShuttingDown), d)
    ensures var s := PollOp(h, d, ShuttingDown, tick);
            var p := Acknowledged(s.poll);
            && !p.Panicked?
            && (p.Pending? ==> s.handle.state.Some? && InFlight(tx0, d0, ShuttingDown, s.handle, s.durable))
            && (p.Ready? ==> s.handle.state.None? && CloseGives(tx0, d0, s.handle.inner, s.durable, p.value))
            && (p.Ready? && p.value.Err? && !tick.LoseAnswer? ==> s.durable == d0)
            && (p.Ready? && tick.Clean() && Usable(tx0) && d0.Some? ==> p.value.Ok?)
  {
    PollKeepsInFlight(tx0, d0, ShuttingDown, h, d, tick);
  }

  /** What `read_exact` of `n` bytes means: exactly the next `n` bytes, or an end of file
      because fewer are left. Reading nothing does not touch the handle. */
  ghost predicate ReadExactGives(tx0: Option<Transaction>, n: nat, tx1: Option<Transaction>, r: Result<Bytes>) {
    && (n == 0 ==> r == Ok([]) && tx1 == tx0)
    && (n > 0 && r.Ok? ==>
          && Usable(tx0)
          && var o := tx0.value.blob;
          && n <= o.Available()
          && r.value == o.content[o.cursor..o.cursor + n]
          && tx1 == Some(Transaction(OpenObject(o.content, o.cursor + n), false)))
    && (r == Err(UnexpectedEof) ==>
          && Usable(tx0)
          && var o := tx0.value.blob;
          && o.Available() < n
          && tx1 == Some(Transaction(OpenObject(o.content, o.cursor + o.Available()), false)))
    && (r.Err? && r.error != UnexpectedEof ==> !Usable(tx1))
  }

  /** What `write_all` means: all of `data` laid over the object at the cursor, or a
      transaction nothing can be committed from any more. */
  ghost predicate WriteAllGives(tx0: Option<Transaction>, data: Bytes, tx1: Option<Transaction>, r: Result<()>) {
    && (data == [] ==> r.Ok? && tx1 == tx0)
    && (data != [] && r.Ok? ==>
          && Usable(tx0)
          && tx1 == Some(Transaction(tx0.value.blob.Write(data), false))
          && tx1.value.blob.cursor <= I64_MAX)
    && (r.Err? ==> !Usable(tx1))
  }
}
