/** Event retrieval (sdl2hl/events.py): pump, peek, get, the shared _peep
    and the poll generator, over the native event queue.

    `EventSystem` holds the state these operations touch: the native
    library's queue and whether its event subsystem is running, the module's
    `_event_reference_map`, and the native last-error state. The native calls
    SDL_PumpEvents, SDL_PeepEvents and SDL_PollEvent are methods of it whose
    behaviour follows the doc comments of pump, peek and get. */
module Events {
  import opened Error
  import opened EventRecords
  import opened Wrappers

  /** The action flag of SDL_PeepEvents that the source uses. */
  datatype Action = PeekEvent | GetEvent

  /** The message SDL_PeepEvents leaves when the event subsystem is down. */
  const ShutDownMessage := "The event system has been shut down"

  /** `_event_reference_map` after registering the first `n` slots of `buf`. */
  function Register(m: map<RecordPtr, array<Record>>, buf: array<Record>, n: nat): map<RecordPtr, array<Record>>
  {
    m + map i | 0 <= i < n :: RecordPtr(buf, i) := buf
  }

  /** Registering one more slot is one more map update. */
  lemma RegisterStep(m: map<RecordPtr, array<Record>>, buf: array<Record>, n: nat)
    ensures Register(m, buf, n + 1) == Register(m, buf, n)[RecordPtr(buf, n) := buf]
  {
    var a, b := Register(m, buf, n + 1), Register(m, buf, n)[RecordPtr(buf, n) := buf];
    assert a.Keys == b.Keys;
    forall p | p in a.Keys ensures a[p] == b[p] {
    }
  }

  /** The views of one retrieval: view i classifies slot i of the buffer, and
      slot i holds the i-th retrieved record. */
  ghost predicate Delivered(views: seq<View>, got: seq<Record>, buf: array<Record>)
    reads buf
  {
    && |views| == |got| <= buf.Length
    && forall i :: 0 <= i < |views| ==>
         buf[i] == got[i] && views[i] == FromPtr(RecordPtr(buf, i))
  }

  class EventSystem {
    var queue: seq<Record>
    var active: bool
    var referenceMap: map<RecordPtr, array<Record>>
    const errors: ErrorState

    constructor (queue: seq<Record>, active: bool, errors: ErrorState)
      ensures this.queue == queue && this.active == active && this.errors == errors
      ensures referenceMap == map[]
    {
      this.queue := queue;
      this.active := active;
      this.errors := errors;
      referenceMap := map[];
    }

    /** pump / SDL_PumpEvents: the events the input devices produced since the
        last pump (a parameter here) join the back of the queue. */
    method Pump(arrived: seq<Record>)
      modifies this`queue
      ensures queue == if active then old(queue) + arrived else old(queue)
    {
      if active {
        queue := queue + arrived;
      }
    }

    /** SDL_PeepEvents: fills the first slots of `events` with the retrieved
        records and returns their count; with GetEvent it also removes them
        from the queue. When the event subsystem is down it returns -1 and
        sets the last-error message. */
    method NativePeepEvents(events: array<Record>, numevents: nat, action: Action, minType: nat, maxType: nat)
      returns (n: int)
      requires numevents <= events.Length
      modifies this`queue, events, errors
      ensures !active ==> n < 0 && queue == old(queue) && unchanged(events)
                          && errors.lastError == ShutDownMessage
      ensures active ==>
                var got := Retrieved(old(queue), numevents, minType, maxType);
                && n == |got|
                && events[..n] == got && events[n..] == old(events[n..])
                && queue == (if action == GetEvent then Remaining(old(queue), numevents, minType, maxType) else old(queue))
                && errors.lastError == old(errors.lastError)
    {
      if !active {
        errors.lastError := ShutDownMessage;
        return -1;
      }
      var got := Retrieved(queue, numevents, minType, maxType);
      for k := 0 to |got|
        invariant events[..k] == got[..k]
        invariant events[k..] == old(events[k..])
        invariant queue == old(queue) && errors.lastError == old(errors.lastError)
      {
        events[k] := got[k];
        assert events[k + 1..] == old(events[k + 1..]);
      }
      if action == GetEvent {
        queue := Remaining(queue, numevents, minType, maxType);
      }
      n := |got|;
    }

    /** What a retrieval with these arguments must have done: on failure, the
        native message raised, the error state cleared and nothing else
        changed; on success, one view per retrieved record in queue order,
        each over its slot of the one buffer and registered against it, and
        the retrieved records removed from the queue exactly when getting. */
    twostate predicate Retrieval(quantity: nat, action: Action, minType: nat, maxType: nat,
                                 new r: Result<seq<View>>, new events: array<Record>)
      reads this, errors, events
    {
      && fresh(events) && events.Length == quantity
      && active == old(active)
      && (!old(active) ==>
            && r == Err(SDLError(ShutDownMessage))
            && errors.lastError == ""
            && queue == old(queue)
            && referenceMap == old(referenceMap))
      && (old(active) ==>
            var got := Retrieved(old(queue), quantity, minType, maxType);
            && r.Ok?
            && Delivered(r.value, got, events)
            && queue == (if action == GetEvent then Remaining(old(queue), quantity, minType, maxType) else old(queue))
            && referenceMap == Register(old(referenceMap), events, |got|)
            && errors.lastError == old(errors.lastError))
    }

    /** The loop of _peep: wraps each of the first `n` slots of `buf` in a
        view and registers the slot's address against the buffer. */
    method WrapSlots(buf: array<Record>, n: nat) returns (views: seq<View>)
      requires n <= buf.Length
      modifies this`referenceMap
      ensures |views| == n
      ensures forall j :: 0 <= j < n ==> views[j] == FromPtr(RecordPtr(buf, j))
      ensures referenceMap == Register(old(referenceMap), buf, n)
    {
      views := [];
      for i := 0 to n
        invariant |views| == i
        invariant forall j :: 0 <= j < i ==> views[j] == FromPtr(RecordPtr(buf, j))
        invariant referenceMap == Register(old(referenceMap), buf, i)
      {
        var eventPtr := RecordPtr(buf, i);
        referenceMap := referenceMap[eventPtr := buf];
        RegisterStep(old(referenceMap), buf, i);
        views := views + [FromPtr(eventPtr)];
      }
    }

    /** _peep: allocates a zeroed buffer of `quantity` records, asks the native
        library to fill it, checks the count, then wraps each filled slot in a
        view registered against the buffer. A failed call raises before any
        view exists. */
    method Peep(quantity: nat, action: Action, minType: nat, maxType: nat)
      returns (r: Result<seq<View>>, ghost events: array<Record>)
      modifies this`queue, this`referenceMap, errors
      ensures Retrieval(quantity, action, minType, maxType, r, events)
      ensures r.Ok? ==> |r.value| <= quantity
    {
      var buf := new Record[quantity](_ => ZeroRecord);
      events := buf;
      var count := NativePeepEvents(buf, quantity, action, minType, maxType);
      var checked := errors.CheckIntErr(count);
      if checked.Err? {
        return Err(checked.error), events;
      }
      ghost var got := Retrieved(old(queue), quantity, minType, maxType);
      assert buf[..count] == got;
      var views := WrapSlots(buf, checked.value);
      assert forall j :: 0 <= j < count ==> buf[j] == buf[..count][j];
      r := Ok(views);
    }

    /** peek: _peep with the peek action; the queue is left as it was. */
    method Peek(quantity: nat, minType: nat := FIRSTEVENT, maxType: nat := LASTEVENT)
      returns (r: Result<seq<View>>, ghost events: array<Record>)
      modifies this`queue, this`referenceMap, errors
      ensures Retrieval(quantity, PeekEvent, minType, maxType, r, events)
      ensures queue == old(queue)
    {
      r, events := Peep(quantity, PeekEvent, minType, maxType);
    }

    /** get: _peep with the get action; the returned events leave the queue. */
    method Get(quantity: nat, minType: nat := FIRSTEVENT, maxType: nat := LASTEVENT)
      returns (r: Result<seq<View>>, ghost events: array<Record>)
      modifies this`queue, this`referenceMap, errors
      ensures Retrieval(quantity, GetEvent, minType, maxType, r, events)
      ensures old(active) ==> queue == Remaining(old(queue), quantity, minType, maxType)
    {
      r, events := Peep(quantity, GetEvent, minType, maxType);
    }

    /** SDL_PollEvent: moves the oldest event, if any, into `event[0]`.
        Its type range [FIRSTEVENT, LASTEVENT] covers every discriminant, so
        it always takes the front of the queue. A subsystem that is down
        reports no event. */
    method NativePollEvent(event: array<Record>) returns (available: bool)
      requires event.Length == 1
      modifies this`queue, event
      ensures available == (active && old(queue) != [])
      ensures available ==> event[0] == old(queue)[0] && queue == old(queue)[1..]
      ensures !available ==> queue == old(queue) && unchanged(event)
    {
      available := active && queue != [];
      if available {
        event[0] := queue[0];
        queue := queue[1..];
      }
    }

    /** poll(): calling it makes a generator; nothing runs until its first
        step. */
    method Poll() returns (g: PollGenerator)
      ensures fresh(g) && fresh(g.eventPtr) && g.Fresh()
      ensures g.system == this
    {
      g := new PollGenerator(this);
    }
  }

  /** The generator object poll() returns. `eventPtr` is the scratch record
      `event_ptr`, allocated before poll's loop; `resumed` says a view was yielded and the body continues
      after the `yield`; `exhausted` says the loop has ended. */
  class PollGenerator {
    const system: EventSystem
    var eventPtr: array<Record>
    var resumed: bool
    var exhausted: bool

    /** A generator no step has been taken of. */
    predicate Fresh()
      reads this
    {
      eventPtr.Length == 1 && !resumed && !exhausted
    }

    constructor (system: EventSystem)
      ensures this.system == system && fresh(eventPtr) && Fresh()
    {
      this.system := system;
      eventPtr := new Record[1](_ => ZeroRecord);
      resumed := false;
      exhausted := false;
    }

    /** One step of poll as written: every step polls into the same scratch
        record, and every view yielded wraps it. The record bound to `event`
        after each yield is never used. */
    method Next() returns (v: Option<View>)
      requires eventPtr.Length == 1
      modifies this`resumed, this`exhausted, eventPtr, system`queue
      ensures old(exhausted) ==> v == None && exhausted && system.queue == old(system.queue) && unchanged(eventPtr)
      ensures !old(exhausted) && system.active && old(system.queue) != [] ==>
                && v == Some(FromPtr(RecordPtr(eventPtr, 0)))
                && eventPtr[0] == old(system.queue)[0]
                && system.queue == old(system.queue)[1..]
                && resumed && !exhausted
      ensures !old(exhausted) && !(system.active && old(system.queue) != []) ==>
                v == None && exhausted && system.queue == old(system.queue) && unchanged(eventPtr)
    {
      if exhausted {
        return None;
      }
      if resumed {
        var event := new Record[1](_ => ZeroRecord);
      }
      var available := system.NativePollEvent(eventPtr);
      if available {
        resumed := true;
        v := Some(FromPtr(RecordPtr(eventPtr, 0)));
      } else {
        exhausted := true;
        v := None;
      }
    }

    /** One step of poll as evidently intended: after each yield the scratch
        pointer is rebound to a fresh record, so the next native poll cannot
        overwrite a record an earlier view reads. */
    method NextFresh() returns (v: Option<View>)
      requires eventPtr.Length == 1
      modifies this`eventPtr, this`resumed, this`exhausted, eventPtr, system`queue
      ensures eventPtr.Length == 1
      ensures old(resumed) && !old(exhausted) ==> fresh(eventPtr) && unchanged(old(eventPtr))
      ensures !old(resumed) || old(exhausted) ==> eventPtr == old(eventPtr)
      ensures old(exhausted) ==> v == None && exhausted && system.queue == old(system.queue) && unchanged(old(eventPtr))
      ensures !old(exhausted) && system.active && old(system.queue) != [] ==>
                && v == Some(FromPtr(RecordPtr(eventPtr, 0)))
                && eventPtr[0] == old(system.queue)[0]
                && system.queue == old(system.queue)[1..]
                && resumed && !exhausted
      ensures !old(exhausted) && !(system.active && old(system.queue) != []) ==>
                v == None && exhausted && system.queue == old(system.queue) && unchanged(old(eventPtr))
    {
      if exhausted {
        return None;
      }
      if resumed {
        eventPtr := new Record[1](_ => ZeroRecord);
      }
      var available := system.NativePollEvent(eventPtr);
      if available {
        resumed := true;
        v := Some(FromPtr(RecordPtr(eventPtr, 0)));
      } else {
        exhausted := true;
        v := None;
      }
    }
  }
  /** `list(poll())` as written: drains the queue, and every view it returns
      wraps the one scratch record, which ends up holding the last event. The
      views keep the classes of the events they were made for, but all of
      them now read the last event's record. */
  method PollAll(system: EventSystem) returns (views: seq<View>, ghost scratch: array<Record>)
    modifies system`queue
    ensures system.active ==> |views| == |old(system.queue)| && system.queue == []
    ensures !system.active ==> views == [] && system.queue == old(system.queue)
    ensures scratch.Length == 1
    ensures forall i :: 0 <= i < |views| ==>
              && views[i].ptr == RecordPtr(scratch, 0)
              && views[i].cls == ClassOf(old(system.queue)[i].eventType)
              && views[i].Current() == old(system.queue)[|views| - 1]
  {
    var g := system.Poll();
    scratch := g.eventPtr;
    views := [];
    ghost var consumed: seq<Record> := [];
    var done := false;
    while !done
      invariant fresh(g) && fresh(scratch)
      invariant g.system == system && g.eventPtr == scratch && scratch.Length == 1
      invariant system.active == old(system.active)
      invariant !done ==> !g.exhausted
      invariant old(system.queue) == consumed + system.queue
      invariant !system.active ==> consumed == []
      invariant done ==> !system.active || system.queue == []
      invariant |views| == |consumed|
      invariant forall i :: 0 <= i < |views| ==>
                  views[i].ptr == RecordPtr(scratch, 0) && views[i].cls == ClassOf(consumed[i].eventType)
      invariant consumed != [] ==> scratch[0] == consumed[|consumed| - 1]
      decreases |system.queue|, !done
    {
      ghost var before := system.queue;
      var v := g.Next();
      match v {
        case None =>
          done := true;
        case Some(view) =>
          views := views + [view];
          consumed := consumed + [before[0]];
      }
    }
  }

  /** `list(poll())` with the corrected generator: view i reads a record of
      its own, holding the i-th event of the queue. */
  method PollAllFresh(system: EventSystem) returns (views: seq<View>)
    modifies system`queue
    ensures system.active ==> |views| == |old(system.queue)| && system.queue == []
    ensures !system.active ==> views == [] && system.queue == old(system.queue)
    ensures forall i :: 0 <= i < |views| ==>
              && views[i].ptr.index == 0 && views[i].ptr.Valid()
              && views[i].Current() == old(system.queue)[i]
              && views[i].cls == ClassOf(old(system.queue)[i].eventType)
    ensures forall i, j :: 0 <= i < j < |views| ==> views[i].ptr.buf != views[j].ptr.buf
  {
    var g := system.Poll();
    views := [];
    ghost var consumed: seq<Record> := [];
    var done := false;
    while !done
      invariant fresh(g) && fresh(g.eventPtr)
      invariant g.system == system && g.eventPtr.Length == 1
      invariant system.active == old(system.active)
      invariant !done ==> !g.exhausted && g.resumed == (views != [])
      invariant old(system.queue) == consumed + system.queue
      invariant !system.active ==> consumed == []
      invariant done ==> !system.active || system.queue == []
      invariant |views| == |consumed|
      invariant forall i :: 0 <= i < |views| ==>
                  && fresh(views[i].ptr.buf) && views[i].ptr.index == 0 && views[i].ptr.Valid()
                  && views[i].Current() == consumed[i]
                  && views[i].cls == ClassOf(consumed[i].eventType)
      invariant forall i, j :: 0 <= i < j < |views| ==> views[i].ptr.buf != views[j].ptr.buf
      invariant !done && views != [] ==> views[|views| - 1].ptr.buf == g.eventPtr
      decreases |system.queue|, !done
    {
      ghost var before := system.queue;
      var v := g.NextFresh();
      match v {
        case None =>
          done := true;
        case Some(view) =>
          views := views + [view];
          consumed := consumed + [before[0]];
      }
    }
  }

  /** peek followed by get with the same arguments: peek leaves the queue
      as it was, so both return views over the same records, in the same
      order, and only get consumes them. When the event subsystem is down
      both raise. */
  method PeekThenGet(system: EventSystem, n: nat, minType: nat, maxType: nat)
    returns (peeked: Result<seq<View>>, got: Result<seq<View>>)
    modifies system`queue, system`referenceMap, system.errors
    ensures !system.active ==> peeked == got == Err(SDLError(ShutDownMessage))
    ensures system.active ==>
              && peeked.Ok? && got.Ok?
              && |peeked.value| == |got.value| == |Retrieved(old(system.queue), n, minType, maxType)|
              && (forall i :: 0 <= i < |got.value| ==>
                    && peeked.value[i].ptr.Valid() && got.value[i].ptr.Valid()
                    && peeked.value[i].Current() == got.value[i].Current()
                    == Retrieved(old(system.queue), n, minType, maxType)[i])
              && system.queue == Remaining(old(system.queue), n, minType, maxType)
  {
    ghost var e1, e2;
    peeked, e1 := system.Peek(n, minType, maxType);
    got, e2 := system.Get(n, minType, maxType);
  }

  /** The aliasing on a concrete queue: a key press followed by a quit. The
      first view returned by `list(poll())` is a keyboard view, yet the record
      it reads is the quit event, whose payload has no key fields. */
  method AliasedPollExample() returns (first: View)
    ensures first.cls == KeyboardEvent && first.ptr.Valid()
    ensures first.Type() == QUIT && !first.Readable()
  {
    var key := Record(KEYDOWN, 10, KeyData(1, 1, 0, 4, 97, 0));
    var quit := Record(QUIT, 20, Common);
    var errors := new ErrorState("");
    var system := new EventSystem([key, quit], true, errors);
    var views, scratch := PollAll(system);
    assert ClassOf(KEYDOWN) == KeyboardEvent by { ClassOfExactly(KEYDOWN); }
    first := views[0];
  }

  /** The same queue drained with the corrected generator: exactly two
      views, in queue order; the first reads the key press it was made for,
      the second is a quit view. */
  method FreshPollExample() returns (first: View, second: View)
    ensures first.cls == KeyboardEvent && first.ptr.Valid() && first.Readable()
    ensures first.Type() == KEYDOWN && first.State() == 1 && first.ScanCode() == 4
    ensures second.cls == QuitEvent && second.ptr.Valid() && second.Type() == QUIT
  {
    var key := Record(KEYDOWN, 10, KeyData(1, 1, 0, 4, 97, 0));
    var quit := Record(QUIT, 20, Common);
    var errors := new ErrorState("");
    var system := new EventSystem([key, quit], true, errors);
    var views := PollAllFresh(system);
    assert ClassOf(KEYDOWN) == KeyboardEvent by { ClassOfExactly(KEYDOWN); }
    assert ClassOf(QUIT) == QuitEvent by { ClassOfExactly(QUIT); }
    first, second := views[0], views[1];
  }
}
