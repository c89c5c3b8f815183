/**
 The handle shim for MPI libraries with integer handles (include/tracking.h, include/handle-data.h).

 The application sees indices into a table of tool data; the data hold the MPI handle.  Indices
 and data are recycled.  Requests and matched messages have a table and a pool each, and data
 move between the two.
 */
module Handles {
  import opened Options

  /** A completion callback; those of sends only wait for the shadow message and update no clock. */
  datatype Completion = Completion(id: nat, updates: bool)

  datatype Callbacks = Callbacks(start: Option<nat>, cancel: Option<nat>, completion: Option<Completion>)

  const NO_CALLBACKS := Callbacks(None, None, None)

  /** A callback that was called; a completion may merge a clock. */
  datatype Call = Starting(id: nat) | Cancelling(id: nat) | Completing(id: nat, merged: bool)

  class Log {
    var calls: seq<Call>

    constructor ()
      ensures calls == []
    {
      calls := [];
    }
  }

  /** What the application can observe of a live handle. */
  datatype Entry = Entry(handle: int, persistent: bool, callbacks: Callbacks, cancelled: bool)

  /** The callbacks that starting, cancelling and completing an entry call. */
  function Starts(e: Entry): seq<Call> {
    if e.callbacks.start.Some? then [Starting(e.callbacks.start.value)] else []
  }

  function Cancels(e: Entry): seq<Call> {
    if e.callbacks.cancel.Some? then [Cancelling(e.callbacks.cancel.value)] else []
  }

  function Fires(e: Entry): seq<Call> {
    match e.callbacks.completion
    case None => []
    case Some(c) => [Completing(c.id, c.updates && !e.cancelled)]
  }

  /** A completed persistent entry: its next completion merges again. */
  function Completed(e: Entry): Entry {
    if e.callbacks.completion.Some? then e.(cancelled := false) else e
  }

  class RequestData {
    var handle: int
    var persistent: bool
    var callbacks: Callbacks
    var freed: bool
    var cancelled: bool

    constructor ()
      ensures Unused()
    {
      handle, persistent, callbacks, freed, cancelled := 0, false, NO_CALLBACKS, true, false;
    }

    /** In a pool: nothing refers to a request any more. */
    predicate Unused()
      reads this
    {
      freed && callbacks == NO_CALLBACKS
    }

    function Value(): Entry
      reads this
    {
      Entry(handle, persistent, callbacks, cancelled)
    }

    method Init(request: int, isPersistent: bool)
      modifies this
      ensures Value() == Entry(request, isPersistent, old(callbacks), false) && !freed
    {
      persistent := isPersistent;
      handle := request;
      freed := false;
      cancelled := false;
    }

    /** Sets those of the callbacks that are given; a start callback makes the data persistent. */
    method SetCallbacks(given: Callbacks)
      requires callbacks == NO_CALLBACKS
      modifies this
      ensures Value() == old(Value()).(callbacks := given, persistent := old(persistent) || given.start.Some?)
      ensures freed == old(freed)
    {
      if given.start.Some? {
        persistent := true;
        callbacks := callbacks.(start := given.start);
      }
      if given.cancel.Some? {
        callbacks := callbacks.(cancel := given.cancel);
      }
      if given.completion.Some? {
        callbacks := callbacks.(completion := given.completion);
      }
    }

    method Start(log: Log)
      requires !freed
      modifies log
      ensures log.calls == old(log.calls) + Starts(Value())
    {
      if callbacks.start.Some? {
        log.calls := log.calls + [Starting(callbacks.start.value)];
      }
    }

    method Cancel(log: Log)
      requires !freed && !cancelled
      modifies this, log
      ensures Value() == old(Value()).(cancelled := true) && !freed
      ensures log.calls == old(log.calls + Cancels(Value()))
    {
      cancelled := true;
      if callbacks.cancel.Some? {
        log.calls := log.calls + [Cancelling(callbacks.cancel.value)];
      }
    }

    /** Reading the flag clears it. */
    method IsCancelled() returns (r: bool)
      modifies this
      ensures r == old(cancelled)
      ensures Value() == old(Value()).(cancelled := false) && freed == old(freed)
    {
      r := cancelled;
      cancelled := false;
    }

    method Complete(log: Log)
      requires !freed
      modifies this, log
      ensures log.calls == old(log.calls + Fires(Value()))
      ensures Value() == Completed(old(Value())) && !freed
    {
      if callbacks.completion.Some? {
        var c := callbacks.completion.value;
        var wasCancelled := IsCancelled();
        log.calls := log.calls + [Completing(c.id, c.updates && !wasCancelled)];
      }
    }

    method Fini()
      modifies this
      ensures Unused()
    {
      handle := 0;
      callbacks := NO_CALLBACKS;
      freed := true;
      cancelled := false;
    }
  }

  ghost predicate Distinct<T>(s: seq<T>) {
    forall i, j :: 0 <= i < j < |s| ==> s[i] != s[j]
  }

  /** The number of indices that a full table grows by. */
  const GROWTH := 64

  /**
   Whether the data of a new request remember that it is persistent.  With Fortran wrappers the flag
   is passed where their initialisation expects a Fortran handle, and is lost.
   */
  predicate Remembered(persistent: bool, fortran: bool) {
    persistent && !fortran
  }

  class Factory {
    const nullHandle: int
    const chunk: nat      // data allocated together
    const fortran: bool   // built with Fortran wrappers
    var dataTable: seq<RequestData?>
    var availableHandles: seq<int>
    var pool: seq<RequestData>

    predicate Live(i: int)
      reads this
    {
      0 <= i < |dataTable| && i !in availableHandles
    }

    ghost function LiveData(): set<RequestData?>
      reads this
    {
      set i | 0 <= i < |dataTable| && Live(i) :: dataTable[i]
    }

    /** Free and live indices partition the table; live data are pairwise distinct and in no pool. */
    ghost predicate Shape()
      reads this
    {
      && !(0 <= nullHandle < |dataTable|) && chunk > 0
      && (forall k :: 0 <= k < |availableHandles| ==> 0 <= availableHandles[k] < |dataTable|)
      && Distinct(availableHandles) && Distinct(pool)
      && (forall i :: Live(i) ==> dataTable[i] != null && dataTable[i] !in pool)
      && (forall i, j :: Live(i) && Live(j) && i != j ==> dataTable[i] != dataTable[j])
    }

    ghost predicate Valid()
      reads this, LiveData(), pool
    {
      && Shape()
      && (forall d :: d in pool ==> d.Unused())
      && (forall i :: Live(i) ==> !dataTable[i].freed)
    }

    /** The live handles and what they stand for. */
    ghost function Entries(): map<int, Entry>
      requires Shape()
      reads this, LiveData()
    {
      map i | 0 <= i < |dataTable| && Live(i) :: dataTable[i].Value()
    }

    ghost predicate NoCallbacks()
      reads this, LiveData()
    {
      forall d :: d in LiveData() && d != null ==> d.callbacks == NO_CALLBACKS
    }

    /** All data the factory can reach through a live index or its pool. */
    ghost function Owned(): (owned: set<RequestData?>)
      reads this
      ensures forall d :: d in pool ==> d in owned
    {
      LiveData() + set d | d in pool
    }

    /** A new index would not be the predefined one. */
    predicate Room()
      reads this
    {
      availableHandles != [] || !(|dataTable| <= nullHandle < |dataTable| + GROWTH)
    }

    constructor (nullHandle: int, chunk: nat, fortran: bool)
      requires chunk > 0
      ensures Valid() && Entries() == map[] && LiveData() == {} && Owned() == {} && pool == [] && NoCallbacks()
      ensures this.fortran == fortran
    {
      this.nullHandle, this.chunk, this.fortran := nullHandle, chunk, fortran;
      dataTable, availableHandles, pool := [], [], [];
    }

    method NewIndices()
      requires Valid() && availableHandles == [] && Room()
      modifies `dataTable, `availableHandles
      ensures Valid() && availableHandles != []
      ensures LiveData() == old(LiveData()) && Entries() == old(Entries())
    {
      var oldSize := |dataTable|;
      var i := 0;
      while i < GROWTH
        invariant 0 <= i <= GROWTH
        invariant |dataTable| == oldSize + i && dataTable[..oldSize] == old(dataTable)
        invariant availableHandles == seq(i, j requires 0 <= j => oldSize + j)
      {
        dataTable := dataTable + [null];
        availableHandles := availableHandles + [oldSize + i];
        i := i + 1;
      }
      forall j | oldSize <= j < |dataTable|
        ensures j in availableHandles
      {
        assert availableHandles[j - oldSize] == j;
      }
      assert forall j :: Live(j) <==> 0 <= j < oldSize;
    }

    method NewDatas()
      requires Valid() && pool == []
      modifies `pool
      ensures Valid() && pool != [] && fresh(pool)
    {
      var i := 0;
      while i < chunk
        invariant 0 <= i == |pool| <= chunk
        invariant fresh(pool) && Valid()
      {
        var d := new RequestData();
        pool := pool + [d];
        i := i + 1;
      }
    }

    method TakeLast() returns (d: RequestData)
      requires Valid() && pool != []
      modifies `pool
      ensures Valid() && d.Unused() && d !in Owned() && Owned() + {d} == old(Owned())
      ensures LiveData() == old(LiveData()) && Entries() == old(Entries())
    {
      d := pool[|pool| - 1];
      pool := pool[..|pool| - 1];
    }

    method GetData() returns (d: RequestData)
      requires Valid()
      modifies `pool
      ensures Valid() && d.Unused() && d !in Owned() && (d in old(Owned()) || fresh(d))
      ensures fresh(Owned() - old(Owned())) && Entries() == old(Entries())
      ensures LiveData() == old(LiveData())
    {
      if pool == [] {
        NewDatas();
      }
      d := TakeLast();
    }

    method ReturnData(d: RequestData)
      requires Valid() && d.Unused() && d !in Owned()
      modifies `pool
      ensures Valid() && Owned() == old(Owned()) + {d}
      ensures LiveData() == old(LiveData()) && Entries() == old(Entries())
    {
      pool := pool + [d];
    }

    /** The end of data that are in no table any more. */
    method Retire(d: RequestData)
      requires Valid() && d !in Owned()
      modifies `pool, d
      ensures Valid() && Owned() == old(Owned()) + {d}
      ensures LiveData() == old(LiveData()) && Entries() == old(Entries())
    {
      d.Fini();
      ReturnData(d);
    }

    /** Puts `d` into the table; the new index was not live. */
    method Store(d: RequestData) returns (r: int)
      requires Valid() && Room() && !d.freed && d !in Owned()
      modifies `dataTable, `availableHandles
      ensures Valid() && r != nullHandle && r !in old(Entries())
      ensures Entries() == old(Entries())[r := d.Value()]
      ensures LiveData() == old(LiveData()) + {d}
    {
      if availableHandles == [] {
        NewIndices();
      }
      r := Place(d);
    }

    method Place(d: RequestData) returns (r: int)
      requires Valid() && availableHandles != [] && !d.freed && d !in Owned()
      modifies `dataTable, `availableHandles
      ensures Valid() && r != nullHandle && r !in old(Entries())
      ensures Entries() == old(Entries())[r := d.Value()]
      ensures LiveData() == old(LiveData()) + {d}
    {
      r := availableHandles[|availableHandles| - 1];
      availableHandles := availableHandles[..|availableHandles| - 1];
      dataTable := dataTable[r := d];
      assert Live(r) && dataTable[r] == d;
      assert forall i :: i != r ==> (Live(i) <==> old(Live(i)));
    }

    /** Takes `i` out of the table; its data are with the caller. */
    method DetachHandle(i: int) returns (d: RequestData)
      requires Valid() && Live(i)
      modifies `availableHandles
      ensures Valid() && d == old(dataTable[i]) && d !in Owned() && !d.freed
      ensures Entries() == old(Entries()) - {i}
      ensures LiveData() == old(LiveData()) - {d}
    {
      d := dataTable[i];
      availableHandles := availableHandles + [i];
    }

    method NewHandle(handle: int, d: RequestData) returns (r: int)
      requires Valid() && Room() && d !in Owned()
      modifies `dataTable, `availableHandles, d
      ensures Valid() && r != nullHandle && r !in old(Entries())
      ensures Entries() == old(Entries())[r := Entry(handle, false, old(d.callbacks), false)]
      ensures LiveData() == old(LiveData()) + {d}
      ensures old(NoCallbacks() && d.callbacks == NO_CALLBACKS) ==> NoCallbacks()
    {
      d.Init(handle, false);
      r := Store(d);
    }

    method NewRequest(request: int, d: RequestData, persistent: bool) returns (r: int)
      requires Valid() && Room() && d !in Owned()
      modifies `dataTable, `availableHandles, d
      ensures request == nullHandle ==> r == nullHandle && unchanged(this, d)
      ensures request != nullHandle ==>
        && r != nullHandle && r !in old(Entries())
        && Shape()
        && Entries() == old(Entries())[r := Entry(request, Remembered(persistent, fortran), old(d.callbacks), false)]
        && LiveData() == old(LiveData()) + {d}
      ensures Valid()
    {
      if request == nullHandle {
        return nullHandle;
      }
      var flag := if fortran then false else persistent;
      d.Init(request, flag);
      r := Store(d);
    }

    /** New data, with a callback, for a new request; the null request is passed through. */
    method Enlist(request: int, callbacks: Callbacks, persistent: bool) returns (r: int)
      requires Valid() && Room()
      modifies this, pool
      ensures Valid() && fresh(Owned() - old(Owned()))
      ensures request == nullHandle ==> r == nullHandle && Entries() == old(Entries())
      ensures request != nullHandle ==>
        && r != nullHandle && r !in old(Entries())
        && Entries() == old(Entries())[r := Entry(request, Remembered(persistent, fortran), callbacks, false)]
    {
      var d := GetData();
      r := Attach(d, request, callbacks, persistent);
    }

    method Attach(d: RequestData, request: int, callbacks: Callbacks, persistent: bool) returns (r: int)
      requires Valid() && Room() && d !in Owned() && d.callbacks == NO_CALLBACKS
      modifies `dataTable, `availableHandles, d
      ensures Valid()
      ensures request == nullHandle ==> r == nullHandle && LiveData() == old(LiveData()) && Entries() == old(Entries())
      ensures request != nullHandle ==>
        && r != nullHandle && r !in old(Entries()) && LiveData() == old(LiveData()) + {d}
        && Entries() == old(Entries())[r := Entry(request, Remembered(persistent, fortran), callbacks, false)]
    {
      d.SetCallbacks(callbacks);
      r := NewRequest(request, d, persistent);
    }

    method GetHandle(i: int) returns (h: int)
      requires Valid() && (i == nullHandle || Live(i))
      ensures h == if i == nullHandle then nullHandle else Entries()[i].handle
    {
      if i == nullHandle {
        return nullHandle;
      }
      h := dataTable[i].handle;
    }

    method FreeHandle(i: int) returns (r: int)
      requires Valid() && (i == nullHandle || Live(i))
      modifies `availableHandles, `pool, LiveData()
      ensures Valid() && r == nullHandle
      ensures Entries() == old(Entries()) - {i} && Owned() == old(Owned())
    {
      if i == nullHandle {
        return nullHandle;
      }
      var d := DetachHandle(i);
      Retire(d);
      return nullHandle;
    }

    /** The table entry of a persistent request stays, that of another one is free again. */
    method CompleteRequest(i: int, mpiRequest: int, log: Log) returns (r: int)
      requires Valid() && (i == nullHandle || Live(i))
      modifies `availableHandles, `pool, LiveData(), log
      ensures Valid() && Owned() == old(Owned())
      ensures Entries() == EntriesAfter(old(Entries()), i, mpiRequest)
      ensures log.calls == old(log.calls) + FiresAt(old(Entries()), i)
      ensures r == if i in old(Entries()) && old(Entries())[i].persistent then i else nullHandle
    {
      if i == nullHandle {
        return nullHandle;
      }
      if dataTable[i].persistent {
        CompletePersistent(i, mpiRequest, log);
        return i;
      }
      var d := DetachHandle(i);
      Finish(d, mpiRequest, log);
      return nullHandle;
    }

    /** Completes a request that is in no table any more. */
    method Finish(d: RequestData, mpiRequest: int, log: Log)
      requires Valid() && d !in Owned() && !d.freed
      modifies `pool, d, log
      ensures Valid() && Owned() == old(Owned()) + {d}
      ensures LiveData() == old(LiveData()) && Entries() == old(Entries())
      ensures log.calls == old(log.calls + Fires(d.Value()))
    {
      d.handle := mpiRequest;
      d.Complete(log);
      Retire(d);
    }

    method CompletePersistent(i: int, mpiRequest: int, log: Log)
      requires Valid() && Live(i)
      modifies dataTable[i], log
      ensures Valid()
      ensures Entries() == old(Entries())[i := Completed(old(Entries())[i].(handle := mpiRequest))]
      ensures log.calls == old(log.calls) + Fires(old(Entries())[i])
    {
      var d := dataTable[i];
      d.handle := mpiRequest;
      d.Complete(log);
    }

    method StartRequest(i: int, log: Log) returns (h: int)
      requires Valid() && (i == nullHandle || (Live(i) && Entries()[i].persistent))
      modifies log
      ensures i == nullHandle ==> h == nullHandle && log.calls == old(log.calls)
      ensures i != nullHandle ==> h == Entries()[i].handle && log.calls == old(log.calls) + Starts(Entries()[i])
    {
      if i == nullHandle {
        return nullHandle;
      }
      dataTable[i].Start(log);
      return dataTable[i].handle;
    }

    method CancelRequest(i: int, log: Log) returns (r: int)
      requires Valid() && (i == nullHandle || (Live(i) && !Entries()[i].cancelled))
      modifies LiveData(), log
      ensures Valid() && r == i
      ensures i == nullHandle ==> Entries() == old(Entries()) && log.calls == old(log.calls)
      ensures i != nullHandle ==>
        && Entries() == old(Entries())[i := old(Entries())[i].(cancelled := true)]
        && log.calls == old(log.calls) + Cancels(old(Entries())[i])
    {
      if i == nullHandle {
        return nullHandle;
      }
      dataTable[i].Cancel(log);
      return i;
    }
  }

  function EntriesAfter(m: map<int, Entry>, i: int, handle: int): map<int, Entry> {
    if i !in m then m
    else if m[i].persistent then m[i := Completed(m[i].(handle := handle))]
    else m - {i}
  }

  function FiresAt(m: map<int, Entry>, i: int): seq<Call> {
    if i in m then Fires(m[i]) else []
  }

  // ---------------------------------------------------------------------------
  // Requests and messages together
  // ---------------------------------------------------------------------------

  datatype State = State(requests: map<int, Entry>, messages: map<int, Entry>, calls: seq<Call>)

  datatype Step =
    | Post(index: int, handle: int, persistent: bool, callbacks: Callbacks)
    | Start(index: int)
    | Complete(index: int, handle: int)
    | Free(index: int)
    | Cancel(index: int)
    | Probe(index: int, handle: int)
    | Receive(index: int)
    | Move(message: int, index: int, handle: int, callbacks: Callbacks)

  predicate Enabled(s: State, step: Step) {
    match step
    case Post(i, _, _, _) => i !in s.requests
    case Complete(i, _) => i in s.requests
    case Free(i) => i in s.requests
    case Start(i) => i in s.requests && s.requests[i].persistent
    case Cancel(i) => i in s.requests && !s.requests[i].cancelled
    case Probe(i, _) => i !in s.messages
    case Receive(i) => i in s.messages
    case Move(m, i, _, _) => m in s.messages && i !in s.requests
  }

  function CompleteOne(s: State, i: int, handle: int): State {
    s.(requests := EntriesAfter(s.requests, i, handle), calls := s.calls + FiresAt(s.requests, i))
  }

  function Next(s: State, step: Step): State
    requires Enabled(s, step)
  {
    match step
    case Post(i, h, p, c) => s.(requests := s.requests[i := Entry(h, p, c, false)])
    case Complete(i, h) => CompleteOne(s, i, h)
    case Free(i) => s.(requests := s.requests - {i})
    case Start(i) => s.(calls := s.calls + Starts(s.requests[i]))
    case Cancel(i) =>
      s.(requests := s.requests[i := s.requests[i].(cancelled := true)], calls := s.calls + Cancels(s.requests[i]))
    case Probe(i, h) => s.(messages := s.messages[i := Entry(h, false, NO_CALLBACKS, false)])
    case Receive(i) => s.(messages := s.messages - {i})
    case Move(m, i, h, c) => s.(messages := s.messages - {m}, requests := s.requests[i := Entry(h, false, c, false)])
  }

  /** All of `rs` complete, in order, with the MPI handles `hs` afterwards. */
  function CompleteAll(s: State, rs: seq<int>, hs: seq<int>): State
    requires |rs| == |hs|
  {
    if rs == [] then s
    else var n := |rs| - 1; CompleteOne(CompleteAll(s, rs[..n], hs[..n]), rs[n], hs[n])
  }

  lemma {:induction false} OthersKeep(s: State, rs: seq<int>, hs: seq<int>, x: int)
    requires |rs| == |hs| && x !in rs
    ensures var m := CompleteAll(s, rs, hs).requests;
      (x in m <==> x in s.requests) && (x in m ==> m[x] == s.requests[x])
  {
    if rs != [] {
      OthersKeep(s, rs[..|rs| - 1], hs[..|rs| - 1], x);
    }
  }

  /** What the application's array holds for `r` after its completion. */
  function Left(m: map<int, Entry>, r: int, nullHandle: int): int {
    if r in m && m[r].persistent then r else nullHandle
  }

  function AllLeft(m: map<int, Entry>, rs: seq<int>, nullHandle: int): seq<int> {
    seq(|rs|, i requires 0 <= i < |rs| => Left(m, rs[i], nullHandle))
  }

  /** MPI allows null requests anywhere in the array, other requests once. */
  ghost predicate Completable(m: map<int, Entry>, rs: seq<int>, nullHandle: int) {
    && (forall i :: 0 <= i < |rs| ==> rs[i] == nullHandle || rs[i] in m)
    && (forall i, j :: 0 <= i < j < |rs| && rs[i] == rs[j] ==> rs[i] == nullHandle)
  }

  class Shim {
    const rf: Factory
    const mf: Factory
    const log: Log

    /** Besides the two tables, no data is with both factories; matched messages have no callback. */
    ghost predicate Valid()
      reads rf, mf, rf.Owned(), mf.Owned()
    {
      && rf != mf && rf.Valid() && mf.Valid()
      && rf.Owned() !! mf.Owned()
      && mf.NoCallbacks()
    }

    ghost function Value(): State
      requires Valid()
      reads rf, mf, log, rf.Owned(), mf.Owned()
    {
      State(rf.Entries(), mf.Entries(), log.calls)
    }

    constructor (nullRequest: int, nullMessage: int, chunk: nat, fortran: bool)
      requires chunk > 0
      ensures Valid() && fresh(rf) && fresh(mf) && fresh(log) && rf.fortran == fortran
      ensures Value() == State(map[], map[], [])
    {
      rf := new Factory(nullRequest, chunk, fortran);
      mf := new Factory(nullMessage, chunk, fortran);
      log := new Log();
    }

    /** A nonblocking operation or the creation of a persistent one; the null request is passed through. */
    method NewRequest(request: int, callbacks: Callbacks, persistent: bool) returns (r: int)
      requires Valid() && rf.Room()
      modifies rf, rf.Owned()
      ensures Valid()
      ensures request == rf.nullHandle ==> r == rf.nullHandle && Value() == old(Value())
      ensures var step := Post(r, request, Remembered(persistent, rf.fortran), callbacks);
        request != rf.nullHandle ==>
          r != rf.nullHandle && Enabled(old(Value()), step) && Value() == Next(old(Value()), step)
    {
      r := rf.Enlist(request, callbacks, persistent);
    }

    /** In no table and no pool. */
    ghost predicate Held(d: RequestData)
      reads rf, mf
    {
      d !in rf.Owned() && d !in mf.Owned()
    }

    method TakeData() returns (d: RequestData)
      requires Valid()
      modifies rf
      ensures Valid() && Held(d) && d.Unused() && (d in old(rf.Owned()) || fresh(d))
      ensures Value() == old(Value())
    {
      d := rf.GetData();
    }

    method TakeMessage(m: int) returns (d: RequestData)
      requires Valid() && mf.Live(m)
      modifies mf
      ensures Valid() && Held(d) && !d.freed && d in old(mf.Owned())
      ensures m in old(Value()).messages && d.Value() == old(Value()).messages[m] && d.callbacks == NO_CALLBACKS
      ensures Value() == old(Value()).(messages := old(Value()).messages - {m})
    {
      d := mf.DetachHandle(m);
    }

    method Mprobe(handle: int) returns (m: int)
      requires Valid() && mf.Room()
      modifies rf, mf, rf.Owned()
      ensures Valid() && m != mf.nullHandle
      ensures Enabled(old(Value()), Probe(m, handle)) && Value() == Next(old(Value()), Probe(m, handle))
    {
      var d := TakeData();
      assert mf.Entries() == old(mf.Entries()) && rf.Entries() == old(rf.Entries());
      m := mf.NewHandle(handle, d);
    }

    /** The matched message's MPI handle; its data go to the message pool. */
    method Mrecv(m: int) returns (handle: int)
      requires Valid() && mf.Live(m)
      modifies mf, mf.Owned()
      ensures Valid() && Enabled(old(Value()), Receive(m)) && handle == old(Value()).messages[m].handle
      ensures Value() == Next(old(Value()), Receive(m))
    {
      var d := TakeMessage(m);
      handle := d.handle;
      mf.Retire(d);
    }

    /** The data of the matched message become those of the request. */
    method Imrecv(m: int, request: int, callbacks: Callbacks) returns (handle: int, r: int)
      requires Valid() && mf.Live(m) && rf.Room() && request != rf.nullHandle
      modifies rf, mf, mf.Owned()
      ensures Valid() && r != rf.nullHandle && Enabled(old(Value()), Move(m, r, request, callbacks))
      ensures handle == old(Value()).messages[m].handle
      ensures Value() == Next(old(Value()), Move(m, r, request, callbacks))
    {
      var d := TakeMessage(m);
      handle := d.handle;
      r := Reuse(d, request, callbacks);
    }

    method Reuse(d: RequestData, request: int, callbacks: Callbacks) returns (r: int)
      requires Valid() && Held(d) && d.callbacks == NO_CALLBACKS && rf.Room() && request != rf.nullHandle
      modifies rf, d
      ensures Valid() && r != rf.nullHandle && r !in old(Value()).requests
      ensures Value() == old(Value()).(requests := old(Value()).requests[r := Entry(request, false, callbacks, false)])
    {
      r := rf.Attach(d, request, callbacks, false);
    }

    /** Completing the null request changes nothing. */
    method Wait(r: int, mpiRequest: int) returns (left: int)
      requires Valid() && (r == rf.nullHandle || r in Value().requests)
      modifies rf, log, rf.Owned()
      ensures Valid() && rf.Owned() == old(rf.Owned())
      ensures Value() == CompleteOne(old(Value()), r, mpiRequest)
      ensures left == Left(old(Value()).requests, r, rf.nullHandle)
    {
      left := rf.CompleteRequest(r, mpiRequest, log);
    }

    method WaitAt(requests: array<int>, i: nat, mpiRequest: int)
      requires Valid() && i < requests.Length && (requests[i] == rf.nullHandle || requests[i] in Value().requests)
      modifies rf, log, rf.Owned(), requests
      ensures Valid() && rf.Owned() == old(rf.Owned())
      ensures Value() == CompleteOne(old(Value()), old(requests[i]), mpiRequest)
      ensures requests[..] == old(requests[..])[i := Left(old(Value()).requests, old(requests[i]), rf.nullHandle)]
    {
      var left := Wait(requests[i], mpiRequest);
      requests[i] := left;
    }

    method RequestFree(r: int) returns (left: int)
      requires Valid() && (r == rf.nullHandle || rf.Live(r))
      modifies rf, rf.Owned()
      ensures Valid() && left == rf.nullHandle
      ensures r == rf.nullHandle ==> Value() == old(Value())
      ensures r != rf.nullHandle ==> Enabled(old(Value()), Free(r)) && Value() == Next(old(Value()), Free(r))
    {
      left := rf.FreeHandle(r);
    }

    method RequestCancel(r: int)
      requires Valid() && (r == rf.nullHandle || (rf.Live(r) && !Value().requests[r].cancelled))
      modifies rf.Owned(), log
      ensures Valid()
      ensures r == rf.nullHandle ==> Value() == old(Value())
      ensures r != rf.nullHandle ==> Enabled(old(Value()), Cancel(r)) && Value() == Next(old(Value()), Cancel(r))
    {
      var _ := rf.CancelRequest(r, log);
    }

    /** The MPI handle to start. */
    method RequestStart(r: int) returns (handle: int)
      requires Valid() && (r == rf.nullHandle || (rf.Live(r) && Value().requests[r].persistent))
      modifies log
      ensures Valid()
      ensures r == rf.nullHandle ==> handle == r && Value() == old(Value())
      ensures r != rf.nullHandle ==>
        && Enabled(old(Value()), Start(r)) && Value() == Next(old(Value()), Start(r))
        && handle == Value().requests[r].handle
    {
      handle := rf.StartRequest(r, log);
    }

    /** The loop of Waitall and Testall; `after` is what the MPI library left in the array of MPI requests. */
    method Waitall(requests: array<int>, after: seq<int>)
      requires Valid() && requests.Length == |after|
      requires Completable(Value().requests, requests[..], rf.nullHandle)
      modifies rf, log, rf.Owned(), requests
      ensures Valid()
      ensures Value() == CompleteAll(old(Value()), old(requests[..]), after)
      ensures requests[..] == AllLeft(old(Value()).requests, old(requests[..]), rf.nullHandle)
    {
      ghost var s, rs := Value(), requests[..];
      Begun(s, rs, after, rf.nullHandle);
      var i := 0;
      while i < requests.Length
        invariant 0 <= i <= requests.Length && Valid() && rf.Owned() == old(rf.Owned())
        invariant Progress(s, rs, after, rf.nullHandle, i, Value(), requests[..])
      {
        Continued(s, rs, after, rf.nullHandle, i, Value(), requests[..]);
        WaitAt(requests, i, after[i]);
        i := i + 1;
      }
      Ended(s, rs, after, rf.nullHandle, Value(), requests[..]);
    }
  }

  /** The first `i` of the requests `rs` are done: the tables are `now`, the array holds `a`. */
  ghost predicate Progress(s: State, rs: seq<int>, hs: seq<int>, nullHandle: int, i: nat, now: State, a: seq<int>) {
    && i <= |rs| == |hs| && Completable(s.requests, rs, nullHandle) && nullHandle !in s.requests
    && now == CompleteAll(s, rs[..i], hs[..i])
    && a == AllLeft(s.requests, rs, nullHandle)[..i] + rs[i..]
  }

  lemma Begun(s: State, rs: seq<int>, hs: seq<int>, nullHandle: int)
    requires |rs| == |hs| && Completable(s.requests, rs, nullHandle) && nullHandle !in s.requests
    ensures Progress(s, rs, hs, nullHandle, 0, s, rs)
  {
    assert AllLeft(s.requests, rs, nullHandle)[..0] + rs[0..] == rs;
  }

  lemma Continued(s: State, rs: seq<int>, hs: seq<int>, nullHandle: int, i: nat, now: State, a: seq<int>)
    requires Progress(s, rs, hs, nullHandle, i, now, a) && i < |rs|
    ensures |a| == |rs| && (a[i] == nullHandle || a[i] in now.requests)
    ensures Progress(s, rs, hs, nullHandle, i + 1,
                     CompleteOne(now, a[i], hs[i]), a[i := Left(now.requests, a[i], nullHandle)])
  {
    NextToComplete(s, rs, hs, i, nullHandle);
    Advance(AllLeft(s.requests, rs, nullHandle), rs, i);
  }

  lemma Ended(s: State, rs: seq<int>, hs: seq<int>, nullHandle: int, now: State, a: seq<int>)
    requires Progress(s, rs, hs, nullHandle, |rs|, now, a)
    ensures now == CompleteAll(s, rs, hs) && a == AllLeft(s.requests, rs, nullHandle)
  {
    assert rs[..|rs|] == rs && hs[..|rs|] == hs;
  }

  /** A completed non-persistent request is gone, a persistent one has its new MPI handle. */
  lemma {:induction false} RequestAfterAll(s: State, rs: seq<int>, hs: seq<int>, nullHandle: int, k: nat)
    requires |rs| == |hs| && Completable(s.requests, rs, nullHandle) && nullHandle !in s.requests
    requires k < |rs| && rs[k] != nullHandle
    ensures var r, m := rs[k], CompleteAll(s, rs, hs).requests;
      if s.requests[r].persistent then r in m && m[r] == Completed(s.requests[r].(handle := hs[k])) else r !in m
  {
    var n := |rs| - 1;
    NextToComplete(s, rs, hs, n, nullHandle);
    assert rs[..n + 1] == rs && hs[..n + 1] == hs;
    if k < n {
      RequestAfterAll(s, rs[..n], hs[..n], nullHandle, k);
      assert rs[k] != rs[n];
    }
  }

  lemma Append(a: seq<Call>, b: seq<Call>, c: seq<Call>)
    ensures (a + b) + c == a + (b + c)
  {
  }

  /** The callback of every completed request ran once, in the order of the array. */
  lemma {:induction false} FiredByAll(s: State, rs: seq<int>, hs: seq<int>, nullHandle: int)
    requires |rs| == |hs| && Completable(s.requests, rs, nullHandle) && nullHandle !in s.requests
    ensures CompleteAll(s, rs, hs).calls == s.calls + AllFired(s.requests, rs)
  {
    if rs != [] {
      var n := |rs| - 1;
      NextToComplete(s, rs, hs, n, nullHandle);
      assert rs[..n + 1] == rs && hs[..n + 1] == hs;
      FiredByAll(s, rs[..n], hs[..n], nullHandle);
      Append(s.calls, AllFired(s.requests, rs[..n]), FiresAt(s.requests, rs[n]));
    }
  }

  /** The callbacks of the requests `rs`, in order. */
  function AllFired(m: map<int, Entry>, rs: seq<int>): seq<Call> {
    if rs == [] then [] else AllFired(m, rs[..|rs| - 1]) + FiresAt(m, rs[|rs| - 1])
  }

  lemma Advance(done: seq<int>, todo: seq<int>, i: nat)
    requires i < |done| == |todo|
    ensures (done[..i] + todo[i..])[i] == todo[i]
    ensures (done[..i] + todo[i..])[i := done[i]] == done[..i + 1] + todo[i + 1..]
  {
  }

  /** When its turn comes, a request is as it was before the loop. */
  lemma NextToComplete(s: State, rs: seq<int>, hs: seq<int>, i: nat, nullHandle: int)
    requires |rs| == |hs| && i < |rs| && Completable(s.requests, rs, nullHandle) && nullHandle !in s.requests
    ensures var p := CompleteAll(s, rs[..i], hs[..i]);
      && CompleteAll(s, rs[..i + 1], hs[..i + 1]) == CompleteOne(p, rs[i], hs[i])
      && nullHandle !in p.requests
      && (rs[i] != nullHandle ==> rs[i] in p.requests && p.requests[rs[i]] == s.requests[rs[i]])
  {
    assert rs[..i + 1][..i] == rs[..i] && hs[..i + 1][..i] == hs[..i];
    NullStaysOut(s, rs[..i], hs[..i], nullHandle);
    if rs[i] != nullHandle {
      OthersKeep(s, rs[..i], hs[..i], rs[i]);
    }
  }

  lemma {:induction false} NullStaysOut(s: State, rs: seq<int>, hs: seq<int>, x: int)
    requires |rs| == |hs| && x !in s.requests
    ensures x !in CompleteAll(s, rs, hs).requests
  {
    if rs != [] {
      NullStaysOut(s, rs[..|rs| - 1], hs[..|rs| - 1], x);
    }
  }
}
