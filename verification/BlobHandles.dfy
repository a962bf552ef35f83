/** The blob handle: poll functions that set and clear the pending operation, and the
    loops of an async caller that polls one operation again until it is Ready. */
module BlobHandles {
  import opened ByteStrings
  import opened LargeObjects
  import opened Tables
  import opened Polls

  class BlobHandle {
    const db: Database
    const oid: Oid
    var inner: Option<Transaction>
    var state: Option<Future>
    var position: u64
    var ticks: seq<Tick>
    /** Every seek started on this handle so far. */
    ghost var seeks: seq<SeekFrom>

    /** Begins a transaction and opens the large object in it. */
    constructor (db: Database, oid: Oid, ticks: seq<Tick>)
      requires oid in db.blobs
      ensures this.db == db && this.oid == oid && this.ticks == ticks && seeks == []
      ensures View() == Handle(Some(Transaction(OpenObject(db.blobs[oid], 0), false)), None, 0)
    {
      this.db, this.oid, this.ticks := db, oid, ticks;
      inner := Some(Transaction(OpenObject(db.blobs[oid], 0), false));
      state, position, seeks := None, 0, [];
    }

    function View(): Handle
      reads this
    {
      Handle(inner, state, position)
    }

    function Durable(): Option<Bytes>
      reads this, db
    {
      Lookup(db.State(), oid)
    }

    /** The query of `op` on the transaction `source`. */
    method RunQuery(source: Option<Transaction>, op: Op, limit: nat) returns (a: Answer)
      modifies this`inner, db`blobs
      ensures Effect(inner, Durable(), a) == Execute(source, old(Durable()), op, limit)
      ensures db.State() == SetBlob(old(db.State()), oid, Durable())
    {
      var e := Execute(source, Durable(), op, limit);
      inner, a := e.inner, e.answer;
      if a.Closed? {
        db.blobs := db.blobs[oid := source.value.blob.content];
      }
      SetBlobSame(db.State(), oid);
    }

    /** Polls the pending future once. */
    method PollPending() returns (r: Poll<Answer>)
      requires state.Some?
      modifies this`inner, this`state, this`ticks, db`blobs
      ensures Step(View(), Durable(), r) == PollFuture(old(View()), old(Durable()), NextTick(old(ticks)))
      ensures ticks == LaterTicks(old(ticks))
      ensures db.State() == SetBlob(old(db.State()), oid, Durable())
    {
      var tick := NextTick(ticks);
      ticks := LaterTicks(ticks);
      SetBlobSame(db.State(), oid);
      var op, phase := state.value.op, state.value.phase;
      if phase.Answered? {
        match tick {
          case Wait | Begin | Run(_) => r := Pending;
          case Finish(_) | Break => r := Ready(phase.answer);
          case LoseAnswer(_) =>
            if phase.answer.Failed? {
              r := Ready(phase.answer);
            } else {
              inner := Abort(inner);
              r := Ready(Failed(QueryFailed));
            }
        }
        return;
      }
      var source := if phase.Holding? then Some(phase.tx) else inner;
      match tick {
        case Wait => r := Pending;
        case Begin =>
          if op.ShuttingDown? && inner.Some? && phase.Submitted? {
            state := Some(Future(op, Holding(inner.value)));
            inner := None;
          }
          r := Pending;
        case Run(limit) =>
          var a := RunQuery(source, op, limit);
          state := Some(Future(op, Answered(a)));
          r := Pending;
        case Finish(limit) =>
          var a := RunQuery(source, op, limit);
          r := Ready(a);
        case LoseAnswer(limit) =>
          var a := RunQuery(source, op, limit);
          inner := Abort(inner);
          r := Ready(if a.Failed? then a else Failed(QueryFailed));
        case Break =>
          inner := Spoiled(inner, op);
          r := Ready(Failed(if source.None? then IsShutdown else QueryFailed));
      }
    }

    /** `poll_read` into a buffer with `room` bytes left. */
    method PollRead(room: nat) returns (r: Poll<Result<Bytes>>)
      modifies this`inner, this`state, this`ticks, db`blobs
      ensures var s := PollOp(old(View()), old(Durable()), Reading(Min(room, READ_LIMIT)), NextTick(old(ticks)));
              View() == s.handle && Durable() == s.durable && r == Delivered(s.poll, room)
      ensures Raw(View(), Durable()) ==
              RawStep(old(Raw(View(), Durable())), RawCall.PollRead(room), NextTick(old(ticks)))
      // A new read asks for all there is room for, up to sixteen mebibytes.
      ensures old(state).None? && r.Pending? ==>
                state.Some? && state.value.op == Reading(if room <= 16_777_216 then room else 16_777_216)
      ensures ticks == LaterTicks(old(ticks)) || (ticks == old(ticks) && r.Panicked?)
      ensures db.State() == SetBlob(old(db.State()), oid, Durable())
    {
      SetBlobSame(db.State(), oid);
      var submitted := false;
      while true
        invariant submitted ==> old(state).None? && View() == Submit(old(View()), Reading(Min(room, READ_LIMIT)))
        invariant !submitted ==> View() == old(View())
        invariant ticks == old(ticks) && Durable() == old(Durable()) && db.State() == old(db.State())
        decreases state.None?
      {
        if state.Some? {
          if state.value.op.Reading? {
            var p := PollPending();
            if p.Pending? {
              return Pending;
            }
            state := None;
            return Delivered(p, room);
          }
          return Panicked;
        }
        var count: u32 := Min(room, READ_LIMIT);
        state := Some(Future(Reading(count), Submitted));
        submitted := true;
      }
    }

    method StartSeek(target: SeekFrom)
      modifies this`state, this`seeks
      ensures View() == old(View()).(state := Some(Future(Seeking(target), Submitted)))
      ensures Raw(View(), Durable()) ==
              RawStep(old(Raw(View(), Durable())), RawCall.StartSeek(target), NextTick(old(ticks)))
      ensures seeks == old(seeks) + [target]
    {
      seeks := seeks + [target];
      state := Some(Future(Seeking(target), Submitted));
    }

    /** `poll_complete`: an idle handle answers with the offset of its last seek. */
    method PollComplete() returns (r: Poll<Result<nat>>)
      modifies this`inner, this`state, this`ticks, this`position, db`blobs
      ensures old(state).None? ==>
                r == Ready(Ok(position)) && View() == old(View()) && Durable() == old(Durable()) && ticks == old(ticks)
      ensures old(state).Some? ==>
                var s := PollOp(old(View()), old(Durable()), Seeking(Start(0)), NextTick(old(ticks)));
                && r == Counted(s.poll)
                && View() == s.handle.(position := if r.Ready? && r.value.Ok? then r.value.value else s.handle.position)
                && Durable() == s.durable
                && (ticks == LaterTicks(old(ticks)) || (ticks == old(ticks) && r.Panicked?))
      ensures Raw(View(), Durable()) == RawStep(old(Raw(View(), Durable())), RawCall.PollComplete, NextTick(old(ticks)))
      ensures db.State() == SetBlob(old(db.State()), oid, Durable())
    {
      SetBlobSame(db.State(), oid);
      if state.None? {
        var last: nat := position;
        return Ready(Ok(last));
      }
      if !state.value.op.Seeking? {
        return Panicked;
      }
      var p := PollPending();
      if p.Pending? {
        return Pending;
      }
      state := None;
      r := Counted(p);
      if r.Ready? && r.value.Ok? {
        position := r.value.value;
      }
    }

    method PollWrite(data: Bytes) returns (r: Poll<Result<nat>>)
      modifies this`inner, this`state, this`ticks, db`blobs
      ensures var s := PollOp(old(View()), old(Durable()), Writing(data), NextTick(old(ticks)));
              View() == s.handle && Durable() == s.durable && r == Counted(s.poll)
      ensures Raw(View(), Durable()) ==
              RawStep(old(Raw(View(), Durable())), RawCall.PollWrite(data), NextTick(old(ticks)))
      ensures ticks == LaterTicks(old(ticks)) || (ticks == old(ticks) && r.Panicked?)
      ensures db.State() == SetBlob(old(db.State()), oid, Durable())
    {
      SetBlobSame(db.State(), oid);
      var submitted := false;
      while true
        invariant submitted ==> old(state).None? && View() == Submit(old(View()), Writing(data))
        invariant !submitted ==> View() == old(View())
        invariant ticks == old(ticks) && Durable() == old(Durable()) && db.State() == old(db.State())
        decreases state.None?
      {
        if state.Some? {
          if state.value.op.Writing? {
            var p := PollPending();
            if p.Pending? {
              return Pending;
            }
            state := None;
            return Counted(p);
          }
          return Panicked;
        }
        state := Some(Future(Writing(data), Submitted));
        submitted := true;
      }
    }

    method PollShutdown() returns (r: Poll<Result<()>>)
      modifies this`inner, this`state, this`ticks, db`blobs
      ensures var s := PollOp(old(View()), old(Durable()), ShuttingDown, NextTick(old(ticks)));
              View() == s.handle && Durable() == s.durable && r == Acknowledged(s.poll)
      ensures Raw(View(), Durable()) == RawStep(old(Raw(View(), Durable())), RawCall.PollShutdown, NextTick(old(ticks)))
      ensures ticks == LaterTicks(old(ticks)) || (ticks == old(ticks) && r.Panicked?)
      ensures db.State() == SetBlob(old(db.State()), oid, Durable())
    {
      SetBlobSame(db.State(), oid);
      var submitted := false;
      while true
        invariant submitted ==> old(state).None? && View() == Submit(old(View()), ShuttingDown)
        invariant !submitted ==> View() == old(View())
        invariant ticks == old(ticks) && Durable() == old(Durable()) && db.State() == old(db.State())
        decreases state.None?
      {
        if state.Some? {
          if state.value.op.ShuttingDown? {
            var p := PollPending();
            if p.Pending? {
              return Pending;
            }
            state := None;
            return Acknowledged(p);
          }
          return Panicked;
        }
        state := Some(Future(ShuttingDown, Submitted));
        submitted := true;
      }
    }

    // -------------------------------------------------------------------------
    // The caller's side: submit one operation, poll it again until it is Ready.
    // -------------------------------------------------------------------------

    /** `seek(target).await`: waits for nothing, starts the seek, waits for its offset. */
    method Seek(target: SeekFrom) returns (r: Result<nat>)
      requires state.None?
      modifies this`inner, this`state, this`ticks, this`position, this`seeks, db`blobs
      ensures state.None? && db.State() == old(db.State())
      ensures SeekGives(old(inner), target, inner, r)
      // Nothing can be asked of an object that has been unlinked.
      ensures r.Ok? ==> old(Durable()).Some?
      ensures r.Ok? ==>
                match target
                case Start(n) => r.value == n
                case Current(d) => r.value == old(inner).value.blob.cursor + d
                case End(d) => r.value == |old(inner).value.blob.content| + d
      ensures seeks == old(seeks) + [target]
      ensures AllClean(old(ticks)) && old(Usable(inner) && Durable().Some? && inner.value.blob.SeekTo(target).Some?) ==>
                r.Ok?
      ensures (AllClean(old(ticks)) ==> AllClean(ticks)) && (AllAnswered(old(ticks)) ==> AllAnswered(ticks))
    {
      var idle := PollComplete();
      SetBlobSame(db.State(), oid);
      StartSeek(target);
      ghost var op, tx0, d0, h := Seeking(target), inner, Durable(), View();
      while true
        invariant h == View() && d0 == Durable() && db.State() == old(db.State())
        invariant h.state.Some? && InFlight(tx0, d0, op, h, d0) && seeks == old(seeks) + [target]
        invariant (AllClean(old(ticks)) ==> AllClean(ticks)) && (AllAnswered(old(ticks)) ==> AllAnswered(ticks))
        decreases |ticks|
      {
        SeekPoll(tx0, d0, target, h, NextTick(ticks));
        assert PollOp(h, d0, op, NextTick(ticks)) == PollOp(h, d0, Seeking(SeekFrom.Start(0)), NextTick(ticks));
        var p := PollComplete();
        h := View();
        if p.Ready? {
          return p.value;
        }
      }
    }

    /** One `poll_read` operation, polled until Ready, for a buffer with `room` bytes left. */
    method Read(room: nat) returns (r: Result<Bytes>)
      requires state.None?
      modifies this`inner, this`state, this`ticks, db`blobs
      ensures state.None? && db.State() == old(db.State())
      ensures ReadGives(old(inner), room, inner, r)
      ensures r.Ok? ==> old(Durable()).Some?
      ensures AllClean(old(ticks)) && old(Usable(inner) && Durable().Some?) ==> r.Ok?
      ensures (AllClean(old(ticks)) ==> AllClean(ticks)) && (AllAnswered(old(ticks)) ==> AllAnswered(ticks))
    {
      ghost var op, tx0, d0, h := Reading(Min(room, READ_LIMIT)), inner, Durable(), View();
      SetBlobSame(db.State(), oid);
      while true
        invariant h == View() && d0 == Durable() && db.State() == old(db.State())
        invariant InFlight(tx0, d0, op, Submit(h, op), d0)
        invariant (AllClean(old(ticks)) ==> AllClean(ticks)) && (AllAnswered(old(ticks)) ==> AllAnswered(ticks))
        decreases |ticks|
      {
        ReadPoll(tx0, d0, room, h, NextTick(ticks));
        var p := PollRead(room);
        h := View();
        if p.Ready? {
          return p.value;
        }
      }
    }

    /** `read_exact` into a buffer of `n` bytes. */
    method ReadExact(n: nat) returns (r: Result<Bytes>)
      requires state.None?
      modifies this`inner, this`state, this`ticks, db`blobs
      ensures state.None? && db.State() == old(db.State())
      ensures ReadExactGives(old(inner), n, inner, r)
      ensures AllClean(old(ticks)) && old(Usable(inner) && Durable().Some?) ==> r.Ok? || r.error == UnexpectedEof
      ensures (AllClean(old(ticks)) ==> AllClean(ticks)) && (AllAnswered(old(ticks)) ==> AllAnswered(ticks))
    {
      var got: Bytes := [];
      while |got| < n
        invariant |got| <= n
        invariant state.None? && db.State() == old(db.State())
        invariant got == [] ==> inner == old(inner)
        invariant got != [] ==>
                    && old(Usable(inner))
                    && var o := old(inner).value.blob;
                    && |got| <= o.Available()
                    && got == o.content[o.cursor..o.cursor + |got|]
                    && inner == Some(Transaction(OpenObject(o.content, o.cursor + |got|), false))
        invariant (AllClean(old(ticks)) ==> AllClean(ticks)) && (AllAnswered(old(ticks)) ==> AllAnswered(ticks))
      {
        var data := Read(n - |got|);
        if data.Err? {
          return Err(data.error);
        }
        if data.value == [] {
          return Err(UnexpectedEof);
        }
        got := got + data.value;
      }
      r := Ok(got);
    }

    /** One `poll_write` operation, polled until Ready. */
    method Write(data: Bytes) returns (r: Result<nat>)
      requires state.None?
      modifies this`inner, this`state, this`ticks, db`blobs
      ensures state.None? && db.State() == old(db.State())
      ensures WriteGives(old(inner), data, inner, r)
      ensures r.Ok? ==> old(Durable()).Some?
      ensures (AllClean(old(ticks))
               && old(Usable(inner) && Durable().Some? && inner.value.blob.cursor + |data| <= I64_MAX)) ==> r.Ok?
      ensures (AllClean(old(ticks)) ==> AllClean(ticks)) && (AllAnswered(old(ticks)) ==> AllAnswered(ticks))
    {
      ghost var op, tx0, d0, h := Writing(data), inner, Durable(), View();
      SetBlobSame(db.State(), oid);
      while true
        invariant h == View() && d0 == Durable() && db.State() == old(db.State())
        invariant InFlight(tx0, d0, op, Submit(h, op), d0)
        invariant (AllClean(old(ticks)) ==> AllClean(ticks)) && (AllAnswered(old(ticks)) ==> AllAnswered(ticks))
        decreases |ticks|
      {
        WritePoll(tx0, d0, data, h, NextTick(ticks));
        var p := PollWrite(data);
        h := View();
        if p.Ready? {
          return p.value;
        }
      }
    }

    /** `write_all` */
    method WriteAll(data: Bytes) returns (r: Result<()>)
      requires state.None?
      modifies this`inner, this`state, this`ticks, db`blobs
      ensures state.None? && db.State() == old(db.State())
      ensures WriteAllGives(old(inner), data, inner, r)
      ensures (AllClean(old(ticks))
               && old(Usable(inner) && Durable().Some? && inner.value.blob.cursor + |data| <= I64_MAX)) ==> r.Ok?
      ensures (AllClean(old(ticks)) ==> AllClean(ticks)) && (AllAnswered(old(ticks)) ==> AllAnswered(ticks))
    {
      var done := 0;
      ghost var tx0, d0 := inner, Durable();
      while done < |data|
        invariant 0 <= done <= |data|
        invariant state.None? && db.State() == old(db.State())
        invariant done == 0 ==> inner == tx0
        invariant done > 0 ==>
                    && Usable(tx0)
                    && inner == Some(Transaction(tx0.value.blob.Write(data[..done]), false))
                    && tx0.value.blob.cursor + done <= I64_MAX
        invariant (AllClean(old(ticks)) ==> AllClean(ticks)) && (AllAnswered(old(ticks)) ==> AllAnswered(ticks))
      {
        var n := Write(data[done..]);
        if n.Err? {
          return Err(n.error);
        }
        if n.value == 0 {
          return Err(WriteZero);
        }
        assert tx0.value.blob.Write(data[..0]) == tx0.value.blob;
        WriteMore(tx0.value.blob, data, done, n.value);
        done := done + n.value;
      }
      assert data[..done] == data;
      r := Ok(());
    }

    /** `shutdown().await`: closes the descriptor and commits the transaction. */
    method Shutdown() returns (r: Result<()>)
      requires state.None?
      modifies this`inner, this`state, this`ticks, db`blobs
      ensures state.None? && db.State() == SetBlob(old(db.State()), oid, Durable())
      ensures CloseGives(old(inner), old(Durable()), inner, Durable(), r)
      ensures AllAnswered(old(ticks)) && r.Err? ==> Durable() == old(Durable())
      ensures AllClean(old(ticks)) && old(Usable(inner) && Durable().Some?) ==> r.Ok?
    {
      ghost var tx0, d0, h, d := inner, Durable(), View(), Durable();
      SetBlobSame(db.State(), oid);
      while true
        invariant h == View() && d == Durable() && db.State() == SetBlob(old(db.State()), oid, d)
        invariant InFlight(tx0, d0, ShuttingDown, Submit(h, ShuttingDown), d)
        invariant (AllClean(old(ticks)) ==> AllClean(ticks)) && (AllAnswered(old(ticks)) ==> AllAnswered(ticks))
        decreases |ticks|
      {
        ClosePoll(tx0, d0, h, d, NextTick(ticks));
        var p := PollShutdown();
        h, d := View(), Durable();
        if p.Ready? {
          return p.value;
        }
      }
    }
  }
}
