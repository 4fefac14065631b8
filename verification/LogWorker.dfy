/**
  Group commit as a step system.  Appenders fill the active one of two buffers; one flush worker
  swaps the buffers, writes the full one out as a frame, syncs, publishes how far the log is
  persistent and empties the buffer; committers ask for a flush and wait until their record is
  covered.  A step is one stretch of code under a lock, one atomic access or one disk call, so the
  runs of the system are all interleavings of the threads.
  */
module LogWorker {
  import opened Sequences
  import opened LogFormat

  const LOG_BUFFER_SIZE := 4194304
  const INVALID_LSN := -1

  datatype Lock = Free | WorkerHolds | AppenderHolds(record: Record)

  datatype Stage = HeaderDue | BodyDue | SyncDue | PublishDue | ResetDue

  datatype Worker =
    | Waiting
    | Draining
    | Paused
    | Decided
    | Flushing(fl: int, batchOff: int, target: int, stage: Stage)

  datatype Client =
    | AwaitingSpace(record: Record)
    | Requesting(target: int)
    | AwaitingPersist(target: int)
    | Returned(target: int)

  /** records holds every record appended so far, by LSN; cuts holds how many records had been
      appended at each swap; file holds the log file from the initial offset on. */
  datatype State = State(
    base: int, records: seq<Record>, cuts: seq<nat>,
    bufs: seq<seq<Byte>>, active: int, totalOffset: int,
    file: seq<Byte>, synced: nat,
    persist: int, requested: int, flushRequested: bool, spaceWaiters: int,
    lock: Lock, worker: Worker, clients: map<int, Client>)

  function Init(base: int): State {
    State(base, [], [], [[], []], 0, base, [], 0, INVALID_LSN, INVALID_LSN, false, 0, Free, Waiting, map[])
  }

  /** The next LSN: taken at the start of an append, before the record is in the buffer. */
  function GlobalLsn(s: State): int {
    |s.records| + if s.lock.AppenderHolds? then 1 else 0
  }

  predicate TwoBuffers(s: State) {
    |s.bufs| == 2 && 0 <= s.active <= 1
  }

  predicate IsFull(s: State, size: int)
    requires TwoBuffers(s)
  {
    |s.bufs[s.active]| + size > LOG_BUFFER_SIZE
  }

  /** Overwrites bytes from an offset on; a write past the end leaves zeros in between. */
  function WriteAt(file: seq<Byte>, offset: int, data: seq<Byte>): seq<Byte>
    requires offset >= 0
  {
    var padded := if |file| < offset then file + seq(offset - |file|, _ => 0) else file;
    padded[..offset] + data + if offset + |data| < |padded| then padded[offset + |data|..] else []
  }

  // -------------------------------------------------------------------------------------------
  // Steps

  datatype Step =
    | AppendStart(record: Record)
    | AppendFinish
    | AppendBlock(c: int, record: Record)
    | AppendResume(c: int)
    | Request(c: int, target: int)
    | SetFlag(c: int)
    | Return(c: int)
    | WorkerWake
    | WorkerRest
    | WorkerPause
    | WorkerResume
    | WorkerDecide
    | WorkerSwap
    | WriteHeader
    | WriteBody
    | SyncFile
    | Publish
    | ResetBuffer

  predicate NeedFlush(s: State) { s.persist < s.requested }

  predicate Enabled(s: State, step: Step) {
    TwoBuffers(s) &&
    match step
    case AppendStart(r) => s.lock.Free? && IsRecord(r) && |r| <= LOG_BUFFER_SIZE && !IsFull(s, |r|)
    case AppendFinish => s.lock.AppenderHolds?
    case AppendBlock(c, r) => s.lock.Free? && IsRecord(r) && |r| <= LOG_BUFFER_SIZE && IsFull(s, |r|) && c !in s.clients
    case AppendResume(c) => s.lock.Free? && c in s.clients && s.clients[c].AwaitingSpace? && !IsFull(s, |s.clients[c].record|)
    case Request(c, target) => c !in s.clients && target < GlobalLsn(s)
    case SetFlag(c) => s.lock.Free? && c in s.clients && s.clients[c].Requesting?
    case Return(c) => c in s.clients && s.clients[c].AwaitingPersist? && s.persist >= s.clients[c].target
    case WorkerWake => s.lock.Free? && s.worker.Waiting? && s.flushRequested
    case WorkerRest => s.worker.Draining? && (s.bufs[s.active] == [] || (!NeedFlush(s) && s.spaceWaiters == 0))
    case WorkerPause => s.worker.Draining? && s.bufs[s.active] != [] && NeedFlush(s) && s.spaceWaiters == 0
    case WorkerResume => s.lock.Free? && s.worker.Paused?
    case WorkerDecide => s.worker.Draining? && s.bufs[s.active] != [] && (NeedFlush(s) || s.spaceWaiters != 0)
    case WorkerSwap => s.worker.Decided?
    case WriteHeader =>
      s.worker.Flushing? && s.worker.stage.HeaderDue? && 0 <= s.worker.fl <= 1
      && s.worker.batchOff >= s.base && |s.bufs[s.worker.fl]| < WORD
    case WriteBody =>
      s.worker.Flushing? && s.worker.stage.BodyDue? && 0 <= s.worker.fl <= 1 && s.worker.batchOff >= s.base
    case SyncFile => s.worker.Flushing? && s.worker.stage.SyncDue?
    case Publish => s.worker.Flushing? && s.worker.stage.PublishDue?
    case ResetBuffer => s.lock.Free? && s.worker.Flushing? && s.worker.stage.ResetDue? && 0 <= s.worker.fl <= 1
  }

  function Do(s: State, step: Step): State
    requires Enabled(s, step)
  {
    match step
    case AppendStart(r) => s.(lock := AppenderHolds(r))
    case AppendFinish =>
      var r := s.lock.record;
      s.(records := s.records + [r], bufs := s.bufs[s.active := s.bufs[s.active] + r],
         totalOffset := s.totalOffset + |r|, lock := Free)
    case AppendBlock(c, r) =>
      s.(flushRequested := true, spaceWaiters := s.spaceWaiters + 1, clients := s.clients[c := AwaitingSpace(r)])
    case AppendResume(c) =>
      s.(spaceWaiters := s.spaceWaiters - 1, lock := AppenderHolds(s.clients[c].record), clients := s.clients - {c})
    case Request(c, target) =>
      if s.persist >= target then s.(clients := s.clients[c := Returned(target)])
      else s.(requested := if target > s.requested then target else s.requested,
              clients := s.clients[c := Requesting(target)])
    case SetFlag(c) =>
      s.(flushRequested := true, clients := s.clients[c := AwaitingPersist(s.clients[c].target)])
    case Return(c) => s.(clients := s.clients[c := Returned(s.clients[c].target)])
    case WorkerWake => s.(flushRequested := false, lock := WorkerHolds, worker := Draining)
    case WorkerRest => s.(lock := Free, worker := Waiting)
    case WorkerPause => s.(lock := Free, worker := Paused)
    case WorkerResume => s.(lock := WorkerHolds, worker := Draining)
    case WorkerDecide => s.(worker := Decided)
    case WorkerSwap =>
      var fl := s.active;
      s.(active := 1 - s.active, totalOffset := s.totalOffset + WAL_BATCH_HDR_SIZE, cuts := s.cuts + [|s.records|],
         lock := Free, worker := Flushing(fl, s.totalOffset - |s.bufs[fl]|, GlobalLsn(s) - 1, HeaderDue))
    case WriteHeader =>
      s.(file := WriteAt(s.file, s.worker.batchOff - s.base, Header(s.bufs[s.worker.fl])),
         worker := s.worker.(stage := BodyDue))
    case WriteBody =>
      s.(file := WriteAt(s.file, s.worker.batchOff - s.base + WAL_BATCH_HDR_SIZE, s.bufs[s.worker.fl]),
         worker := s.worker.(stage := SyncDue))
    case SyncFile => s.(synced := |s.file|, worker := s.worker.(stage := PublishDue))
    case Publish => s.(persist := s.worker.target, worker := s.worker.(stage := ResetDue))
    case ResetBuffer => s.(bufs := s.bufs[s.worker.fl := []], lock := WorkerHolds, worker := Draining)
  }

  // -------------------------------------------------------------------------------------------
  // The log as the records and the swaps determine it

  function LastCut(cuts: seq<nat>): nat {
    if cuts == [] then 0 else cuts[|cuts| - 1]
  }

  /** Every frame holds a whole number of records, and at least one. */
  predicate CutsOk(records: seq<Record>, cuts: seq<nat>) {
    && (forall i, j :: 0 <= i < j < |cuts| ==> cuts[i] < cuts[j])
    && (forall i :: 0 <= i < |cuts| ==> 0 < cuts[i] <= |records|)
  }

  function Slice(records: seq<Record>, from: nat, to: nat): seq<Byte> {
    if from <= to <= |records| then Concat(records[from..to]) else []
  }

  /** The frames of the first swaps, one after another. */
  function Frames(records: seq<Record>, cuts: seq<nat>): seq<Byte> {
    if cuts == [] then [] else
      var body := Slice(records, LastCut(cuts[..|cuts| - 1]), LastCut(cuts));
      Frames(records, cuts[..|cuts| - 1]) + if |body| < WORD then Frame(body) else []
  }

  /** Every batch fits a buffer. */
  predicate FramesFit(records: seq<Record>, cuts: seq<nat>) {
    cuts == [] ||
    (|Slice(records, LastCut(cuts[..|cuts| - 1]), LastCut(cuts))| <= LOG_BUFFER_SIZE && FramesFit(records, cuts[..|cuts| - 1]))
  }

  /** How many swaps have reached the file in full, and how many have been synced and published. */
  function Done(s: State): seq<nat>
  {
    if s.worker.Flushing? && (s.worker.stage.HeaderDue? || s.worker.stage.BodyDue?) && s.cuts != []
    then s.cuts[..|s.cuts| - 1] else s.cuts
  }

  function Durable(s: State): seq<nat>
  {
    if s.worker.Flushing? && !s.worker.stage.PublishDue? && !s.worker.stage.ResetDue? && s.cuts != []
    then s.cuts[..|s.cuts| - 1] else s.cuts
  }

  function Published(s: State): seq<nat>
  {
    if s.worker.Flushing? && !s.worker.stage.ResetDue? && s.cuts != [] then s.cuts[..|s.cuts| - 1] else s.cuts
  }

  /** The active buffer holds what came since the last swap, the other one what is being written. */
  predicate BufferInv(s: State) {
    && TwoBuffers(s) && CutsOk(s.records, s.cuts) && FramesFit(s.records, s.cuts)
    && (forall i :: 0 <= i < |s.records| ==> IsRecord(s.records[i]))
    && s.bufs[s.active] == Slice(s.records, LastCut(s.cuts), |s.records|)
    && s.bufs[1 - s.active] == InFlight(s)
    && |s.bufs[0]| <= LOG_BUFFER_SIZE && |s.bufs[1]| <= LOG_BUFFER_SIZE
    && (s.worker.Decided? ==> s.bufs[s.active] != [])
    && (s.worker.Flushing? ==> s.cuts != [] && s.worker.fl == 1 - s.active)
  }

  /** The file is the frames that have been written, without gap or overlap. */
  predicate FileInv(s: State) {
    && s.file == Frames(s.records, Done(s)) + PartialFrame(s)
    && s.synced <= |s.file| && s.file[..s.synced] == Frames(s.records, Durable(s))
  }

  predicate MarkInv(s: State) {
    && TwoBuffers(s)
    && s.totalOffset == s.base + |Frames(s.records, s.cuts)| + |s.bufs[s.active]|
    && s.persist == LastCut(Published(s)) - 1
    && (s.worker.Flushing? ==>
          && s.cuts != [] && s.worker.target == LastCut(s.cuts) - 1
          && s.worker.batchOff == s.base + |Frames(s.records, s.cuts[..|s.cuts| - 1])|)
  }

  predicate LogInv(s: State) {
    BufferInv(s) && FileInv(s) && MarkInv(s)
  }

  function InFlight(s: State): seq<Byte> {
    if s.worker.Flushing? && s.cuts != []
    then Slice(s.records, LastCut(s.cuts[..|s.cuts| - 1]), LastCut(s.cuts)) else []
  }

  function PartialFrame(s: State): seq<Byte> {
    if s.worker.Flushing? && s.worker.stage.BodyDue? && |InFlight(s)| < WORD then Header(InFlight(s)) else []
  }

  predicate ClientInv(s: State) {
    && TwoBuffers(s)
    && (s.lock.WorkerHolds? <==> s.worker.Draining? || s.worker.Decided?)
    && (s.lock.AppenderHolds? ==> IsRecord(s.lock.record) && !IsFull(s, |s.lock.record|))
    && INVALID_LSN <= s.requested < GlobalLsn(s)
    && (forall c :: c in s.clients ==> ClientOk(s, s.clients[c]))
    && (NeedFlush(s) ==> s.flushRequested || !s.worker.Waiting? || SomeoneRequests(s))
    && s.spaceWaiters == |SpaceWaiters(s.clients)|
  }

  function SpaceWaiters(clients: map<int, Client>): set<int> {
    set c | c in clients && clients[c].AwaitingSpace?
  }

  predicate ClientOk(s: State, client: Client) {
    match client
    case AwaitingSpace(r) => IsRecord(r) && |r| <= LOG_BUFFER_SIZE
    case Requesting(t) => t <= s.requested
    case AwaitingPersist(t) => t <= s.requested
    case Returned(t) => t <= s.persist
  }

  predicate SomeoneRequests(s: State) {
    exists c :: c in s.clients && s.clients[c].Requesting?
  }

  predicate Inv(s: State) {
    LogInv(s) && ClientInv(s)
  }

  // -------------------------------------------------------------------------------------------
  // Slices and frames

  lemma SliceGrow(records: seq<Record>, r: Record, from: nat)
    requires from <= |records|
    ensures Slice(records + [r], from, |records| + 1) == Slice(records, from, |records|) + r
  {
    var rs := (records + [r])[from..];
    assert (records + [r])[from..|records| + 1] == rs;
    assert rs[..|rs| - 1] == records[from..|records|] && rs[|rs| - 1] == r;
  }

  lemma SliceKept(records: seq<Record>, r: Record, from: nat, to: nat)
    requires to <= |records|
    ensures Slice(records + [r], from, to) == Slice(records, from, to)
  {
    if from <= to {
      assert (records + [r])[from..to] == records[from..to];
    }
  }

  lemma {:induction false} FramesKept(records: seq<Record>, r: Record, cuts: seq<nat>)
    requires CutsOk(records, cuts)
    ensures Frames(records + [r], cuts) == Frames(records, cuts) && CutsOk(records + [r], cuts)
  {
    if cuts != [] {
      FramesKept(records, r, cuts[..|cuts| - 1]);
      SliceKept(records, r, LastCut(cuts[..|cuts| - 1]), LastCut(cuts));
    }
  }

  lemma {:induction false} FramesFitKept(records: seq<Record>, r: Record, cuts: seq<nat>)
    requires CutsOk(records, cuts) && FramesFit(records, cuts)
    ensures FramesFit(records + [r], cuts)
  {
    hide Slice;
    if cuts != [] {
      FramesFitKept(records, r, cuts[..|cuts| - 1]);
      SliceKept(records, r, LastCut(cuts[..|cuts| - 1]), LastCut(cuts));
    }
  }

  lemma WriteAtEnd(file: seq<Byte>, data: seq<Byte>)
    ensures WriteAt(file, |file|, data) == file + data
  {
  }

  lemma SliceEmpty(records: seq<Record>, n: nat)
    ensures Slice(records, n, n) == []
  {
    if n <= |records| {
      assert records[n..n] == [];
    }
  }

  // -------------------------------------------------------------------------------------------
  // What every step keeps

  lemma AppendKeepsBuffers(s: State, s': State)
    requires Inv(s) && Enabled(s, AppendFinish) && s' == Do(s, AppendFinish)
    ensures BufferInv(s')
  {
    hide Slice, FileInv, MarkInv, IsRecord, FramesFit;
    var r := s.lock.record;
    FramesFitKept(s.records, r, s.cuts);
    SliceGrow(s.records, r, LastCut(s.cuts));
    if s.cuts != [] {
      SliceKept(s.records, r, LastCut(s.cuts[..|s.cuts| - 1]), LastCut(s.cuts));
    }
  }

  lemma InFlightKept(s: State, r: Record)
    requires BufferInv(s)
    ensures InFlight(s.(records := s.records + [r])) == InFlight(s)
  {
    hide Slice, FramesFit, IsRecord;
    CutsPrefix(s.records, s.cuts);
    if s.cuts != [] {
      SliceKept(s.records, r, LastCut(s.cuts[..|s.cuts| - 1]), LastCut(s.cuts));
    }
  }

  lemma InFlightOf(s: State, s': State)
    requires s'.worker == s.worker && s'.cuts == s.cuts && s'.records == s.records
    ensures InFlight(s') == InFlight(s)
  {
  }

  lemma AppendFields(s: State, s': State)
    requires Enabled(s, AppendFinish) && s' == Do(s, AppendFinish)
    ensures s.lock.AppenderHolds? && s'.records == s.records + [s.lock.record]
    ensures s'.worker == s.worker && s'.cuts == s.cuts && s'.file == s.file && s'.synced == s.synced
  {
  }

  lemma AppendKeepsFile(s: State, s': State)
    requires BufferInv(s) && FileInv(s) && Enabled(s, AppendFinish) && s' == Do(s, AppendFinish)
    ensures FileInv(s')
  {
    hide BufferInv, Frames, Slice, InFlight, Header, CutsOk, Do, Enabled;
    AppendFields(s, s');
    var r := s.lock.record;
    BufferFacts(s);
    CutsPrefix(s.records, s.cuts);
    InFlightKept(s, r);
    InFlightOf(s.(records := s.records + [r]), s');
    FramesKept(s.records, r, Done(s));
    FramesKept(s.records, r, Durable(s));
  }

  lemma CutsPrefix(records: seq<Record>, cuts: seq<nat>)
    requires CutsOk(records, cuts)
    ensures cuts != [] ==> CutsOk(records, cuts[..|cuts| - 1])
    ensures LastCut(cuts) <= |records|
  {
  }

  lemma BufferFacts(s: State)
    requires BufferInv(s)
    ensures TwoBuffers(s) && CutsOk(s.records, s.cuts) && |InFlight(s)| < WORD && |s.bufs[s.active]| < WORD
    ensures s.bufs[s.active] == Slice(s.records, LastCut(s.cuts), |s.records|)
    ensures s.worker.Flushing? ==> s.cuts != [] && s.worker.fl == 1 - s.active && s.bufs[s.worker.fl] == InFlight(s)
    ensures !s.worker.Flushing? ==> s.bufs[1 - s.active] == []
  {
    hide Slice, CutsOk, IsRecord;
  }

  lemma InFlightFrame(s: State)
    requires s.worker.Flushing? && s.cuts != [] && |InFlight(s)| < WORD
    ensures Frames(s.records, s.cuts) == Frames(s.records, s.cuts[..|s.cuts| - 1]) + Frame(InFlight(s))
  {
    hide Slice, Frame;
  }

  lemma AppendKeepsMarks(s: State, s': State)
    requires BufferInv(s) && MarkInv(s) && Enabled(s, AppendFinish) && s' == Do(s, AppendFinish)
    ensures MarkInv(s')
  {
    hide BufferInv, Frames, Slice, CutsOk, IsRecord, InFlight;
    BufferFacts(s);
    var r := s.lock.record;
    CutsPrefix(s.records, s.cuts);
    FramesKept(s.records, r, s.cuts);
    if s.cuts != [] {
      FramesKept(s.records, r, s.cuts[..|s.cuts| - 1]);
    }
  }

  lemma SwapKeepsBuffers(s: State, s': State)
    requires BufferInv(s) && Enabled(s, WorkerSwap) && s' == Do(s, WorkerSwap)
    ensures BufferInv(s')
  {
    hide Slice, IsRecord, CutsOk, FramesFit;
    SliceEmpty(s.records, |s.records|);
    SwapCut(s.records, s.cuts);
    FramesFitSnoc(s.records, s.cuts, |s.records|);
    assert s'.cuts[..|s'.cuts| - 1] == s.cuts;
  }

  lemma FramesFitSnoc(records: seq<Record>, cuts: seq<nat>, n: nat)
    requires FramesFit(records, cuts) && |Slice(records, LastCut(cuts), n)| <= LOG_BUFFER_SIZE
    ensures FramesFit(records, cuts + [n])
  {
    hide Slice;
    assert (cuts + [n])[..|cuts|] == cuts;
  }

  lemma SwapKeepsFile(s: State, s': State)
    requires BufferInv(s) && FileInv(s) && MarkInv(s) && s.lock.WorkerHolds?
    requires TwoBuffers(s) && s.worker.Decided?
    requires s' == s.(active := 1 - s.active, totalOffset := s.totalOffset + WAL_BATCH_HDR_SIZE, cuts := s.cuts + [|s.records|],
                      lock := Free,
                      worker := Flushing(s.active, s.totalOffset - |s.bufs[s.active]|, GlobalLsn(s) - 1, HeaderDue))
    ensures FileInv(s') && MarkInv(s')
  {
    hide BufferInv, Frames, Slice, Frame, Header, CutsOk, IsRecord, InFlight;
    BufferFacts(s);
    assert s'.cuts[..|s'.cuts| - 1] == s.cuts;
    FrameSize(s.bufs[s.active]);
    LastFrame(s.records, s'.cuts);
  }

  lemma FrameSize(body: seq<Byte>)
    requires |body| < WORD
    ensures |Frame(body)| == WAL_BATCH_HDR_SIZE + |body|
  {
  }

  lemma SwapCut(records: seq<Record>, cuts: seq<nat>)
    requires CutsOk(records, cuts) && Slice(records, LastCut(cuts), |records|) != []
    ensures CutsOk(records, cuts + [|records|])
  {
    SliceEmpty(records, |records|);
    assert LastCut(cuts) < |records|;
  }

  /** Disk calls leave the buffers alone, and all marks but the file. */
  predicate DiskOnly(s: State, s': State) {
    && s.worker.Flushing? && s'.worker.Flushing? && s'.worker == s.worker.(stage := s'.worker.stage)
    && s' == s.(file := s'.file, synced := s'.synced, worker := s'.worker)
    && !s.worker.stage.ResetDue? && !s'.worker.stage.ResetDue?
  }

  lemma DiskKeepsBuffers(s: State, s': State)
    requires BufferInv(s) && MarkInv(s) && DiskOnly(s, s')
    ensures BufferInv(s') && MarkInv(s')
  {
    hide Slice, Frames, CutsOk, IsRecord, LastCut;
  }

  lemma WriteHeaderKeepsFile(s: State, s': State)
    requires BufferInv(s) && FileInv(s) && MarkInv(s) && Enabled(s, WriteHeader) && s' == Do(s, WriteHeader)
    ensures FileInv(s')
  {
    hide BufferInv, Slice, Frames, Frame, Header, WriteAt, CutsOk, LastCut;
    BufferFacts(s);
    assert InFlight(s') == InFlight(s);
    hide InFlight;
    var h := Header(s.bufs[s.worker.fl]);
    WriteAtEnd(s.file, h);
    assert s'.file[..s.synced] == s.file[..s.synced];
  }

  lemma BodyAppended(file: seq<Byte>, before: seq<Byte>, body: seq<Byte>, synced: nat)
    requires |body| < WORD && file == before + Header(body) && synced <= |file|
    ensures WriteAt(file, |before| + WAL_BATCH_HDR_SIZE, body) == before + Frame(body)
    ensures synced <= |before + Frame(body)| && (before + Frame(body))[..synced] == file[..synced]
  {
    hide Header, WriteAt;
    WriteAtEnd(file, body);
    assert file + body == before + Frame(body);
  }

  lemma WriteBodyKeepsFile(s: State, s': State)
    requires BufferInv(s) && FileInv(s) && MarkInv(s)
    requires TwoBuffers(s) && s.worker.Flushing? && s.worker.stage.BodyDue? && 0 <= s.worker.fl <= 1 && s.worker.batchOff >= s.base
    requires s' == s.(file := WriteAt(s.file, s.worker.batchOff - s.base + WAL_BATCH_HDR_SIZE, s.bufs[s.worker.fl]),
                      worker := s.worker.(stage := SyncDue))
    ensures FileInv(s')
  {
    hide BufferInv, Slice, Frames, Frame, Header, WriteAt, InFlight, CutsOk, LastCut;
    BufferFacts(s);
    InFlightFrame(s);
    BodyAppended(s.file, Frames(s.records, s.cuts[..|s.cuts| - 1]), InFlight(s), s.synced);
  }

  lemma LastFrame(records: seq<Record>, cuts: seq<nat>)
    requires cuts != []
    ensures var body := Slice(records, LastCut(cuts[..|cuts| - 1]), LastCut(cuts));
            |body| < WORD ==> Frames(records, cuts) == Frames(records, cuts[..|cuts| - 1]) + Frame(body)
  {
  }

  /** Steps of the worker between disk calls, and all steps of clients. */
  predicate Quiet(s: State, s': State) {
    && s'.base == s.base && s'.records == s.records && s'.cuts == s.cuts && s'.bufs == s.bufs && s'.active == s.active
    && s'.totalOffset == s.totalOffset && s'.file == s.file && s'.synced == s.synced && s'.persist == s.persist
    && (s'.worker == s.worker || (!s.worker.Flushing? && !s'.worker.Flushing?))
    && (s'.worker.Decided? ==> TwoBuffers(s) && (s.worker.Decided? || s.bufs[s.active] != []))
  }

  lemma QuietKeepsLog(s: State, s': State)
    requires LogInv(s) && Quiet(s, s')
    ensures LogInv(s')
  {
    hide Slice, Frames, Frame, Header, CutsOk, IsRecord, LastCut;
  }

  lemma SyncKeepsFile(s: State, s': State)
    requires FileInv(s) && Enabled(s, SyncFile) && s' == Do(s, SyncFile)
    ensures FileInv(s')
  {
    hide Frames;
    assert s.file[..|s.file|] == s.file;
  }

  lemma PublishKeepsLog(s: State, s': State)
    requires LogInv(s) && Enabled(s, Publish) && s' == Do(s, Publish)
    ensures LogInv(s')
  {
    hide Slice, Frames, CutsOk, IsRecord, LastCut;
  }

  lemma ResetKeepsLog(s: State, s': State)
    requires LogInv(s) && Enabled(s, ResetBuffer) && s' == Do(s, ResetBuffer)
    ensures LogInv(s')
  {
    hide Slice, Frames, CutsOk, IsRecord, LastCut;
  }

  lemma StepKeepsLog(s: State, step: Step)
    requires Inv(s) && Enabled(s, step)
    ensures LogInv(Do(s, step))
  {
    hide BufferInv, FileInv, MarkInv, ClientInv;
    var s' := Do(s, step);
    LockFacts(s);
    match step
    case AppendFinish =>
      AppendKeepsBuffers(s, s');
      AppendKeepsFile(s, s');
      AppendKeepsMarks(s, s');
    case WorkerSwap =>
      SwapKeepsBuffers(s, s');
      SwapKeepsFile(s, s');
    case WriteHeader =>
      DiskKeepsBuffers(s, s');
      WriteHeaderKeepsFile(s, s');
    case WriteBody =>
      DiskKeepsBuffers(s, s');
      WriteBodyKeepsFile(s, s');
    case SyncFile =>
      DiskKeepsBuffers(s, s');
      SyncKeepsFile(s, s');
    case Publish => PublishKeepsLog(s, s');
    case ResetBuffer => ResetKeepsLog(s, s');
    case _ => QuietKeepsLog(s, s');
  }

  lemma LockFacts(s: State)
    requires Inv(s)
    ensures TwoBuffers(s) && (s.lock.WorkerHolds? <==> s.worker.Draining? || s.worker.Decided?)
  {
  }

  /** The worker goes back to waiting with the active buffer empty: everything is persistent. */
  lemma EmptyMeansPersistent(s: State)
    requires Inv(s) && s.worker.Draining? && s.bufs[s.active] == []
    ensures s.persist == |s.records| - 1
  {
    hide Frames, Frame, Header;
    if LastCut(s.cuts) < |s.records| {
      SliceNonempty(s.records, LastCut(s.cuts));
    }
  }

  lemma SliceNonempty(records: seq<Record>, from: nat)
    requires from < |records| && forall i :: 0 <= i < |records| ==> IsRecord(records[i])
    ensures Slice(records, from, |records|) != []
  {
    var rs := records[from..|records|];
    assert rs[|rs| - 1] == records[|records| - 1];
  }

  /** What is persistent stays persistent. */
  lemma PersistGrows(s: State, step: Step)
    requires Inv(s) && Enabled(s, step)
    ensures Do(s, step).persist >= s.persist
  {
    hide FileInv, ClientInv, Slice, Frames, IsRecord;
    if step.Publish? {
      assert s.cuts[..|s.cuts| - 1] == [] || LastCut(s.cuts[..|s.cuts| - 1]) == s.cuts[|s.cuts| - 2];
    }
  }

  lemma StepKeepsLock(s: State, step: Step)
    requires ClientInv(s) && Enabled(s, step)
    ensures var s' := Do(s, step);
            && TwoBuffers(s')
            && (s'.lock.WorkerHolds? <==> s'.worker.Draining? || s'.worker.Decided?)
            && (s'.lock.AppenderHolds? ==> IsRecord(s'.lock.record) && !IsFull(s', |s'.lock.record|))
            && INVALID_LSN <= s'.requested < GlobalLsn(s') && s'.requested >= s.requested
  {
    hide IsRecord, Header, WriteAt, SomeoneRequests;
  }

  lemma StepKeepsRequests(s: State, step: Step)
    requires Inv(s) && Enabled(s, step)
    ensures var s' := Do(s, step); NeedFlush(s') ==> s'.flushRequested || !s'.worker.Waiting? || SomeoneRequests(s')
  {
    hide LogInv, ClientOk, IsRecord, Header, WriteAt;
    var s' := Do(s, step);
    PersistGrows(s, step);
    if step.WorkerRest? && s.bufs[s.active] == [] {
      EmptyMeansPersistent(s);
    } else if step.Request? && s.persist < step.target {
      assert step.c in s'.clients && s'.clients[step.c].Requesting?;
    } else if SomeoneRequests(s) && !step.SetFlag? {
      var c :| c in s.clients && s.clients[c].Requesting?;
      assert c in s'.clients && s'.clients[c].Requesting?;
    }
  }

  /** How a client's new state changes the number of clients waiting for space. */
  lemma WaitersUpdate(clients: map<int, Client>, c: int, x: Client)
    requires c in clients ==> !clients[c].AwaitingSpace?
    ensures |SpaceWaiters(clients[c := x])| == |SpaceWaiters(clients)| + if x.AwaitingSpace? then 1 else 0
  {
    assert SpaceWaiters(clients[c := x]) == SpaceWaiters(clients) + if x.AwaitingSpace? then {c} else {};
  }

  lemma WaitersRemove(clients: map<int, Client>, c: int)
    requires c in clients && clients[c].AwaitingSpace?
    ensures |SpaceWaiters(clients - {c})| == |SpaceWaiters(clients)| - 1
  {
    assert SpaceWaiters(clients) == SpaceWaiters(clients - {c}) + {c};
  }

  lemma StepKeepsWaiters(s: State, step: Step)
    requires ClientInv(s) && Enabled(s, step)
    ensures Do(s, step).spaceWaiters == |SpaceWaiters(Do(s, step).clients)|
  {
    hide IsRecord, Header, WriteAt, SomeoneRequests, SpaceWaiters, ClientOk;
    match step
    case AppendBlock(c, r) => WaitersUpdate(s.clients, c, AwaitingSpace(r));
    case AppendResume(c) => WaitersRemove(s.clients, c);
    case Request(c, t) =>
      WaitersUpdate(s.clients, c, Returned(t));
      WaitersUpdate(s.clients, c, Requesting(t));
    case SetFlag(c) => WaitersUpdate(s.clients, c, AwaitingPersist(s.clients[c].target));
    case Return(c) => WaitersUpdate(s.clients, c, Returned(s.clients[c].target));
    case _ =>
  }

  lemma StepKeepsClients(s: State, step: Step)
    requires Inv(s) && Enabled(s, step)
    ensures ClientInv(Do(s, step))
  {
    hide LogInv, SomeoneRequests, SpaceWaiters, IsRecord, Header, WriteAt;
    PersistGrows(s, step);
    StepKeepsLock(s, step);
    StepKeepsRequests(s, step);
    StepKeepsWaiters(s, step);
  }

  lemma InitInv(base: int)
    ensures Inv(Init(base))
  {
    SliceEmpty([], 0);
  }

  lemma StepInv(s: State, step: Step)
    requires Inv(s) && Enabled(s, step)
    ensures Inv(Do(s, step))
  {
    hide LogInv, ClientInv, Enabled, Do;
    StepKeepsLog(s, step);
    StepKeepsClients(s, step);
  }

  // -------------------------------------------------------------------------------------------
  // Runs

  /** s' is reached from s by these steps, each enabled in its turn. */
  ghost predicate Run(s: State, steps: seq<Step>, s': State)
    decreases |steps|
  {
    if steps == [] then s' == s else Enabled(s, steps[0]) && Run(Do(s, steps[0]), steps[1..], s')
  }

  lemma {:induction false} RunInv(s: State, steps: seq<Step>, s': State)
    requires Inv(s) && Run(s, steps, s')
    ensures Inv(s') && s'.persist >= s.persist && s'.base == s.base
    decreases |steps|
  {
    hide Inv, Enabled, Do;
    if steps != [] {
      StepInv(s, steps[0]);
      PersistGrows(s, steps[0]);
      StepKeepsBase(s, steps[0]);
      RunInv(Do(s, steps[0]), steps[1..], s');
    }
  }

  lemma StepKeepsBase(s: State, step: Step)
    requires Enabled(s, step)
    ensures Do(s, step).base == s.base
  {
  }

  // -------------------------------------------------------------------------------------------
  // What the invariant means

  /** A batch of records is read back record by record. */
  lemma BatchScan(records: seq<Record>, from: nat, to: nat, tail: seq<Byte>)
    requires from < to <= |records| && (forall i :: 0 <= i < |records| ==> IsRecord(records[i]))
    requires |Slice(records, from, to)| < WORD
    ensures ScanBatches(Frame(Slice(records, from, to)) + tail) == records[from..to] + ScanBatches(tail)
  {
    BodyNonempty(records, from, to);
    hide IsRecord, ScanBatches, ScanRecords, Frame, Concat;
    FrameBack(Slice(records, from, to), tail);
    ScanRecordsBack(records[from..to]);
  }

  lemma {:induction false} FramesScan(records: seq<Record>, cuts: seq<nat>, tail: seq<Byte>)
    requires CutsOk(records, cuts) && (forall i :: 0 <= i < |records| ==> IsRecord(records[i]))
    requires FramesFit(records, cuts)
    ensures LastCut(cuts) <= |records|
    ensures ScanBatches(Frames(records, cuts) + tail) == records[..LastCut(cuts)] + ScanBatches(tail)
  {
    hide IsRecord, ScanBatches, Frame, FramesFit, Slice;
    if cuts == [] {
      assert Frames(records, cuts) + tail == tail;
    } else {
      var front := cuts[..|cuts| - 1];
      var from, to := LastCut(front), LastCut(cuts);
      var body := Slice(records, from, to);
      CutsPrefix(records, cuts);
      FramesFitFacts(records, cuts);
      LastFrame(records, cuts);
      hide Frames;
      assert Frames(records, cuts) + tail == Frames(records, front) + (Frame(body) + tail);
      FramesScan(records, front, Frame(body) + tail);
      BatchScan(records, from, to, tail);
      assert records[..from] + records[from..to] == records[..to];
    }
  }

  lemma FramesFitFacts(records: seq<Record>, cuts: seq<nat>)
    requires FramesFit(records, cuts) && cuts != []
    ensures |Slice(records, LastCut(cuts[..|cuts| - 1]), LastCut(cuts))| <= LOG_BUFFER_SIZE && FramesFit(records, cuts[..|cuts| - 1])
  {
  }

  lemma BodyNonempty(records: seq<Record>, from: nat, to: nat)
    requires from < to <= |records| && forall i :: 0 <= i < |records| ==> IsRecord(records[i])
    ensures Slice(records, from, to) != []
  {
    var rs := records[from..to];
    assert rs[|rs| - 1] == records[to - 1];
  }

  lemma Reached(base: int, steps: seq<Step>, s: State)
    requires Run(Init(base), steps, s)
    ensures BufferInv(s) && FileInv(s) && MarkInv(s) && ClientInv(s) && s.base == base
  {
    hide Run, BufferInv, FileInv, MarkInv, ClientInv;
    InitInv(base);
    RunInv(Init(base), steps, s);
  }

  lemma ScanSynced(s: State, disk: seq<Byte>)
    requires BufferInv(s) && s.synced <= |s.file| && s.file[..s.synced] == Frames(s.records, Durable(s))
    requires s.file[..s.synced] <= disk
    ensures LastCut(Durable(s)) <= |s.records| && s.records[..LastCut(Durable(s))] <= ScanBatches(disk)
  {
    hide Frames, Slice, FramesFit, ScanBatches, InFlight, IsRecord;
    CutsPrefix(s.records, s.cuts);
    if s.cuts != [] {
      FramesFitFacts(s.records, s.cuts);
    }
    var tail := disk[s.synced..];
    assert disk == Frames(s.records, Durable(s)) + tail;
    FramesScan(s.records, Durable(s), tail);
  }

  /** Crash anywhere in any run, keep the synced part of the log file, let anything follow it: the
      recovery scan gets back every record up to the published LSN, in LSN order. */
  lemma Durability(base: int, steps: seq<Step>, s: State, disk: seq<Byte>)
    requires Run(Init(base), steps, s) && s.synced <= |s.file| && s.file[..s.synced] <= disk
    ensures INVALID_LSN <= s.persist < |s.records| && s.records[..s.persist + 1] <= ScanBatches(disk)
  {
    hide Run, BufferInv, ClientInv, Frames, PartialFrame, ScanBatches, CutsOk;
    Reached(base, steps, s);
    BufferFacts(s);
    ScanSynced(s, disk);
    PublishedFirst(s);
    hide FileInv, MarkInv;
    assert s.records[..s.persist + 1] == s.records[..LastCut(Durable(s))][..s.persist + 1];
  }

  lemma PublishedFirst(s: State)
    requires CutsOk(s.records, s.cuts)
    ensures LastCut(Published(s)) <= LastCut(Durable(s)) <= LastCut(Done(s)) <= |s.records|
  {
  }

  /** A committer whose wait returned finds its record durable, then and ever after. */
  lemma ReturnedIsDurable(base: int, steps: seq<Step>, s: State, later: seq<Step>, s': State, c: int, disk: seq<Byte>)
    requires Run(Init(base), steps, s) && Run(s, later, s')
    requires c in s.clients && s.clients[c].Returned? && s.clients[c].target >= 0
    requires s'.synced <= |s'.file| && s'.file[..s'.synced] <= disk
    ensures var t := s.clients[c].target; t < |s'.records| && t < |ScanBatches(disk)| && ScanBatches(disk)[t] == s'.records[t]
  {
    hide Run, ScanBatches, BufferInv, FileInv, MarkInv;
    Reached(base, steps, s);
    var t := s.clients[c].target;
    assert ClientOk(s, s.clients[c]);
    hide ClientInv;
    RunInv(s, later, s');
    RunJoins(Init(base), steps, s, later, s');
    Durability(base, steps + later, s', disk);
    assert ScanBatches(disk)[t] == s'.records[..s'.persist + 1][t];
  }

  lemma {:induction false} RunJoins(s: State, steps: seq<Step>, s1: State, later: seq<Step>, s2: State)
    requires Run(s, steps, s1) && Run(s1, later, s2)
    ensures Run(s, steps + later, s2)
    decreases |steps|
  {
    hide Enabled, Do;
    if steps == [] {
      assert steps + later == later;
    } else {
      assert (steps + later)[0] == steps[0] && (steps + later)[1..] == steps[1..] + later;
      RunJoins(Do(s, steps[0]), steps[1..], s1, later, s2);
    }
  }

  /** The file is always whole frames, at most one of them still being written; the append offset
      counts the frames, the one in flight included, and the active buffer.  A buffer that is about
      to be swapped in is empty, and no buffer overflows. */
  lemma FileShape(base: int, steps: seq<Step>, s: State)
    requires Run(Init(base), steps, s)
    ensures TwoBuffers(s) && |s.bufs[0]| <= LOG_BUFFER_SIZE && |s.bufs[1]| <= LOG_BUFFER_SIZE
    ensures s.worker.Decided? ==> s.bufs[1 - s.active] == []
    ensures !s.worker.Flushing? ==> s.file == Frames(s.records, s.cuts) && s.totalOffset == base + |s.file| + |s.bufs[s.active]|
    ensures s.worker.Flushing? ==>
              && s.cuts != [] && s.bufs[1 - s.active] == InFlight(s) != []
              && Frames(s.records, s.cuts[..|s.cuts| - 1]) <= s.file <= Frames(s.records, s.cuts)
              && s.worker.batchOff == base + |Frames(s.records, s.cuts[..|s.cuts| - 1])|
              && s.totalOffset == s.worker.batchOff + WAL_BATCH_HDR_SIZE + |InFlight(s)| + |s.bufs[s.active]|
  {
    hide Run, BufferInv, ClientInv, Frames, Slice, InFlight, CutsOk;
    Reached(base, steps, s);
    BufferFacts(s);
    BufferBounds(s);
    if s.worker.Flushing? {
      InFlightFrame(s);
      InFlightNonempty(s);
    }
  }

  lemma BufferBounds(s: State)
    requires BufferInv(s)
    ensures |s.bufs[0]| <= LOG_BUFFER_SIZE && |s.bufs[1]| <= LOG_BUFFER_SIZE
  {
  }

  lemma InFlightNonempty(s: State)
    requires BufferInv(s) && s.worker.Flushing?
    ensures InFlight(s) != []
  {
    hide FramesFit, Slice;
    BodyNonempty(s.records, LastCut(s.cuts[..|s.cuts| - 1]), LastCut(s.cuts));
  }

  /** A request for persistence is never lost: its flag is up, or the worker has not gone back to
      waiting, or the requester is still about to raise the flag. */
  lemma NoLostRequest(base: int, steps: seq<Step>, s: State)
    requires Run(Init(base), steps, s) && s.persist < s.requested
    ensures s.flushRequested || !s.worker.Waiting? || SomeoneRequests(s)
    ensures s.requested < GlobalLsn(s)
  {
    hide Run, BufferInv, FileInv, MarkInv;
    Reached(base, steps, s);
  }

  /** Once a flush has begun, its next step is always possible as soon as the lock is free. */
  lemma FlushGoesOn(base: int, steps: seq<Step>, s: State)
    requires Run(Init(base), steps, s) && s.worker.Flushing?
    ensures match s.worker.stage
            case HeaderDue => Enabled(s, WriteHeader)
            case BodyDue => Enabled(s, WriteBody)
            case SyncDue => Enabled(s, SyncFile)
            case PublishDue => Enabled(s, Publish)
            case ResetDue => s.lock.Free? ==> Enabled(s, ResetBuffer)
  {
    hide Run, BufferInv, FileInv, ClientInv, Frames, InFlight, CutsOk;
    Reached(base, steps, s);
    BufferFacts(s);
  }

  // -------------------------------------------------------------------------------------------
  // Waiting for space

  /** Client c waits for space that is not there, and the worker waits for a flag that is not up. */
  predicate StuckFor(s: State, c: int) {
    && TwoBuffers(s) && c in s.clients && s.clients[c].AwaitingSpace? && IsFull(s, |s.clients[c].record|)
    && s.worker.Waiting? && !s.flushRequested
  }

  /** The appender that holds the lock is about to take the space c waits for while the worker rests
      and the flag is down.  It could see all of this under the lock. */
  predicate TakesSpaceOf(s: State, c: int) {
    && TwoBuffers(s) && c in s.clients && s.clients[c].AwaitingSpace? && !IsFull(s, |s.clients[c].record|)
    && s.lock.AppenderHolds? && |s.bufs[s.active]| + |s.lock.record| + |s.clients[c].record| > LOG_BUFFER_SIZE
    && s.worker.Waiting? && !s.flushRequested
  }

  /** A step leaves a client stuck exactly if it is the end of an append that takes the client's space;
      above all, the worker does not go to rest while somebody lacks space. */
  lemma OnlyAppendsStall(base: int, steps: seq<Step>, s: State, step: Step, c: int)
    requires Run(Init(base), steps, s) && Enabled(s, step) && !StuckFor(s, c)
    ensures StuckFor(Do(s, step), c) <==> step.AppendFinish? && TakesSpaceOf(s, c)
  {
    hide Run, BufferInv, FileInv, MarkInv, SomeoneRequests, IsRecord, Header, WriteAt;
    Reached(base, steps, s);
    if c in s.clients && s.clients[c].AwaitingSpace? {
      assert c in SpaceWaiters(s.clients);
      assert s.spaceWaiters != 0;
      assert ClientOk(s, s.clients[c]);
    }
  }

  /** A stuck client gets free only by another client raising the flag: one that asks for persistence,
      or one that finds no space itself. */
  lemma StuckUntilFlag(base: int, steps: seq<Step>, s: State, step: Step, c: int)
    requires Run(Init(base), steps, s) && Enabled(s, step) && StuckFor(s, c)
    ensures !StuckFor(Do(s, step), c) <==> step.SetFlag? || step.AppendBlock?
  {
    hide Run, BufferInv, FileInv, MarkInv, SomeoneRequests, IsRecord, Header, WriteAt;
    Reached(base, steps, s);
  }

  /** So it stays stuck through every run in which nobody does. */
  lemma {:induction false} StuckForGood(base: int, steps: seq<Step>, s: State, more: seq<Step>, s': State, c: int)
    requires Run(Init(base), steps, s) && StuckFor(s, c) && Run(s, more, s')
    requires forall step :: step in more ==> !step.SetFlag? && !step.AppendBlock?
    ensures StuckFor(s', c)
    decreases |more|
  {
    hide StuckFor, Enabled, Do;
    if more != [] {
      StuckUntilFlag(base, steps, s, more[0], c);
      RunJoins(Init(base), steps, s, [more[0]], Do(s, more[0])) by { StepTo(s, more[0], Do(s, more[0])); }
      StuckForGood(base, steps + [more[0]], Do(s, more[0]), more[1..], s', c);
    }
  }

  /** A record that takes more than half a buffer. */
  function LargeRecord(): (r: Record)
    ensures IsRecord(r) && |r| == 3000000
  {
    WordBack(3000000);
    var r := Bytes(OFFSET_LOG_TOT_LEN) + Le32(3000000) + Bytes(3000000 - OFFSET_LOG_TOT_LEN - 4);
    assert r[OFFSET_LOG_TOT_LEN..OFFSET_LOG_TOT_LEN + 4] == Le32(3000000);
    r
  }

  function Bytes(n: nat): (s: seq<Byte>)
    ensures |s| == n
  {
    seq(n, _ => 0)
  }

  /** Two large records and a third one that slips in while the waiter has yet to wake up. */
  function StallSteps(): seq<Step> {
    var r := LargeRecord();
    [AppendStart(r), AppendFinish] + [AppendBlock(1, r), WorkerWake, WorkerDecide, WorkerSwap]
    + [WriteHeader, WriteBody, SyncFile, Publish, ResetBuffer] + [WorkerRest, AppendStart(r), AppendFinish]
  }

  /** And it does happen: the second record of the run fills the buffer that was emptied for the
      waiter before the waiter wakes up. */
  lemma SpaceWaiterStalls()
    ensures exists s :: Run(Init(0), StallSteps(), s) && StuckFor(s, 1) && s.lock.Free? && !SomeoneRequests(s)
  {
    hide LargeRecord, Run, Enabled, Do, IsRecord;
    var r := LargeRecord();
    var s2 := Init(0).(records := [r], bufs := [r, []], totalOffset := 3000000);
    var s6 := s2.(spaceWaiters := 1, clients := map[1 := AwaitingSpace(r)], active := 1, totalOffset := 3000012,
                  cuts := [1], worker := Flushing(0, 0, 0, HeaderDue));
    var f := WriteAt(WriteAt([], 0, Header(r)), 12, r);
    var s11 := s6.(file := f, synced := |f|, persist := 0, bufs := [[], []], lock := WorkerHolds, worker := Draining);
    var s14 := s11.(lock := Free, worker := Waiting, records := [r, r], bufs := [[], r], totalOffset := 6000012);
    StallFill(r, s2);
    StallSwap(r, s2, s6);
    StallFlush(r, s6, s11);
    StallAgain(r, s11, s14);
    RunJoins(Init(0), [AppendStart(r), AppendFinish], s2, [AppendBlock(1, r), WorkerWake, WorkerDecide, WorkerSwap], s6);
    RunJoins(Init(0), [AppendStart(r), AppendFinish] + [AppendBlock(1, r), WorkerWake, WorkerDecide, WorkerSwap], s6,
             [WriteHeader, WriteBody, SyncFile, Publish, ResetBuffer], s11);
    RunJoins(Init(0), [AppendStart(r), AppendFinish] + [AppendBlock(1, r), WorkerWake, WorkerDecide, WorkerSwap]
                      + [WriteHeader, WriteBody, SyncFile, Publish, ResetBuffer], s11,
             [WorkerRest, AppendStart(r), AppendFinish], s14);
    assert StuckFor(s14, 1);
  }

  lemma StallFill(r: Record, s2: State)
    requires IsRecord(r) && |r| == 3000000
    requires s2 == Init(0).(records := [r], bufs := [r, []], totalOffset := 3000000)
    ensures Run(Init(0), [AppendStart(r), AppendFinish], s2)
  {
    hide IsRecord;
    var s1 := Init(0).(lock := AppenderHolds(r));
    assert [] + r == r;
    StepTo(Init(0), AppendStart(r), s1);
    StepTo(s1, AppendFinish, s2);
    RunJoins(Init(0), [AppendStart(r)], s1, [AppendFinish], s2);
    assert [AppendStart(r)] + [AppendFinish] == [AppendStart(r), AppendFinish];
  }

  lemma StallSwap(r: Record, s2: State, s6: State)
    requires IsRecord(r) && |r| == 3000000
    requires s2 == Init(0).(records := [r], bufs := [r, []], totalOffset := 3000000)
    requires s6 == s2.(spaceWaiters := 1, clients := map[1 := AwaitingSpace(r)], active := 1, totalOffset := 3000012,
                       cuts := [1], worker := Flushing(0, 0, 0, HeaderDue))
    ensures Run(s2, [AppendBlock(1, r), WorkerWake, WorkerDecide, WorkerSwap], s6)
  {
    hide IsRecord, Run;
    var s3 := s2.(flushRequested := true, spaceWaiters := 1, clients := map[1 := AwaitingSpace(r)]);
    var s4 := s3.(flushRequested := false, lock := WorkerHolds, worker := Draining);
    var s5 := s4.(worker := Decided);
    StepTo(s2, AppendBlock(1, r), s3);
    StepTo(s3, WorkerWake, s4);
    StepTo(s4, WorkerDecide, s5);
    StepTo(s5, WorkerSwap, s6);
    RunJoins(s2, [AppendBlock(1, r)], s3, [WorkerWake], s4);
    RunJoins(s2, [AppendBlock(1, r)] + [WorkerWake], s4, [WorkerDecide], s5);
    RunJoins(s2, [AppendBlock(1, r)] + [WorkerWake] + [WorkerDecide], s5, [WorkerSwap], s6);
    assert [AppendBlock(1, r)] + [WorkerWake] + [WorkerDecide] + [WorkerSwap] == [AppendBlock(1, r), WorkerWake, WorkerDecide, WorkerSwap];
  }

  lemma StallFlush(r: Record, s6: State, s11: State)
    requires |r| == 3000000 && s6.bufs == [r, []] && s6.active == 1 && s6.base == 0 && s6.file == [] && s6.lock.Free?
    requires s6.worker == Flushing(0, 0, 0, HeaderDue)
    requires var f := WriteAt(WriteAt([], 0, Header(r)), 12, r);
             s11 == s6.(file := f, synced := |f|, persist := 0, bufs := [[], []], lock := WorkerHolds, worker := Draining)
    ensures Run(s6, [WriteHeader, WriteBody, SyncFile, Publish, ResetBuffer], s11)
  {
    hide Header, WriteAt, Run;
    var s7 := s6.(file := WriteAt([], 0, Header(r)), worker := Flushing(0, 0, 0, BodyDue));
    var s8 := s7.(file := WriteAt(s7.file, 12, r), worker := Flushing(0, 0, 0, SyncDue));
    var s9 := s8.(synced := |s8.file|, worker := Flushing(0, 0, 0, PublishDue));
    var s10 := s9.(persist := 0, worker := Flushing(0, 0, 0, ResetDue));
    StepTo(s6, WriteHeader, s7);
    StepTo(s7, WriteBody, s8);
    StepTo(s8, SyncFile, s9);
    StepTo(s9, Publish, s10);
    StepTo(s10, ResetBuffer, s11);
    RunJoins(s6, [WriteHeader], s7, [WriteBody], s8);
    RunJoins(s6, [WriteHeader] + [WriteBody], s8, [SyncFile], s9);
    RunJoins(s6, [WriteHeader] + [WriteBody] + [SyncFile], s9, [Publish], s10);
    RunJoins(s6, [WriteHeader] + [WriteBody] + [SyncFile] + [Publish], s10, [ResetBuffer], s11);
    assert [WriteHeader] + [WriteBody] + [SyncFile] + [Publish] + [ResetBuffer] == [WriteHeader, WriteBody, SyncFile, Publish, ResetBuffer];
  }

  lemma StallAgain(r: Record, s11: State, s14: State)
    requires IsRecord(r) && |r| == 3000000 && s11.bufs == [[], []] && s11.active == 1 && s11.records == [r]
    requires s11.worker == Draining && s11.totalOffset == 3000012
    requires s14 == s11.(lock := Free, worker := Waiting, records := [r, r], bufs := [[], r], totalOffset := 6000012)
    ensures Run(s11, [WorkerRest, AppendStart(r), AppendFinish], s14)
  {
    hide IsRecord, Run;
    var s12 := s11.(lock := Free, worker := Waiting);
    var s13 := s12.(lock := AppenderHolds(r));
    assert [] + r == r;
    StepTo(s11, WorkerRest, s12);
    StepTo(s12, AppendStart(r), s13);
    StepTo(s13, AppendFinish, s14);
    RunJoins(s11, [WorkerRest], s12, [AppendStart(r)], s13);
    RunJoins(s11, [WorkerRest] + [AppendStart(r)], s13, [AppendFinish], s14);
    assert [WorkerRest] + [AppendStart(r)] + [AppendFinish] == [WorkerRest, AppendStart(r), AppendFinish];
  }

  lemma StepTo(s: State, step: Step, s': State)
    requires Enabled(s, step) && Do(s, step) == s'
    ensures Run(s, [step], s')
  {
    assert [step][1..] == [];
  }
}
