/** The two-thread VVAR probe: a writer that sets the clock and a reader that reads it through the vDSO,
    coordinated by flags. Steps interleave in any order; each load and store is atomic. */
module VvarHandshake {

  datatype Writing =
    | Pinning                 // setting its affinity
    | Pinned                  // about to say so
    | Waiting                 // spinning on reader_ready
    | Updating(round: nat)
    | Updated(round: nat)     // clock set, count not yet stored
    | Flagging                // first count stored, writer_started not yet
    | Leaving                 // about to store writer_done
    | Gone

  /** What the writer thread stores, and the clock settings that took place. */
  datatype Writer = Writer(
    at: Writing,
    affinity: bool,
    started: bool,
    updates: nat,
    done: bool,
    settings: nat,
    early: bool)              // some setting before reader_ready

  datatype Reading =
    | Cloning
    | Affining
    | Announcing              // about to store reader_ready
    | Spinning                // on writer_started
    | Checking
    | Fetching(round: nat)
    | Fetched(round: nat)     // read done, count not yet stored
    | Ending                  // about to store reader_done
    | Joining                 // spinning on writer_done
    | Judging
    | Returned(pass: bool)

  /** What the reader thread stores, and the valid direct reads that took place. */
  datatype Reader = Reader(
    at: Reading,
    cloned: bool,
    affinity: bool,
    ready: bool,
    counted: nat,
    errors: bool,
    done: bool,
    fetches: nat,
    early: bool)              // some read before a completed update

  datatype State = State(w: Writer, r: Reader)

  /** One atomic step; `ok` is what a system call, a read or a bounded spin comes to. */
  datatype WriterStep =
    | Pin(ok: bool)
    | SayPinned
    | AwaitReader(ok: bool)
    | SetClock(ok: bool)
    | StoreUpdates
    | StoreStarted
    | StopUpdating
    | StoreDone

  datatype ReaderStep =
    | Clone(ok: bool)
    | Affine(ok: bool)
    | StoreReady
    | AwaitStarted(ok: bool)
    | Check(symbol: bool)
    | Fetch(ok: bool)
    | StoreCount
    | StopFetching
    | StoreReaderDone
    | AwaitWriter(ok: bool)
    | Judge

  datatype Step = W(ws: WriterStep) | R(rs: ReaderStep)

  function Init(): (s: State) {
    State(Writer(Pinning, false, false, 0, false, 0, false), Reader(Cloning, false, false, false, 0, false, false, 0, false))
  }

  /** `total` is the number of clock settings wanted. The writer exists once it is cloned. */
  predicate WriterCan(total: nat, w: Writer, r: Reader, step: WriterStep) {
    && r.cloned
    && match step
       case Pin(_) => w.at == Pinning
       case SayPinned => w.at == Pinned
       case AwaitReader(ok) => w.at == Waiting && (ok ==> r.ready)
       case SetClock(_) => w.at.Updating? && w.at.round < total
       case StoreUpdates => w.at.Updated?
       case StoreStarted => w.at == Flagging
       case StopUpdating => w.at == Updating(total)
       case StoreDone => w.at == Leaving
  }

  function WriterMoves(total: nat, w: Writer, r: Reader, step: WriterStep): (v: Writer)
    requires WriterCan(total, w, r, step)
  {
    match step
    case Pin(ok) => w.(at := if ok then Pinned else Leaving)
    case SayPinned => w.(at := Waiting, affinity := true)
    case AwaitReader(ok) => w.(at := if ok then Updating(0) else Leaving)
    case SetClock(ok) =>
      if ok then w.(at := Updated(w.at.round), settings := w.settings + 1, early := w.early || !r.ready) else w.(at := Leaving)
    case StoreUpdates => w.(at := if w.at.round == 0 then Flagging else Updating(w.at.round + 1), updates := w.at.round + 1)
    case StoreStarted => w.(at := Updating(1), started := true)
    case StopUpdating => w.(at := Leaving)
    case StoreDone => w.(at := Gone, done := true)
  }

  /** `wanted` is the number of reads wanted. */
  predicate ReaderCan(wanted: nat, w: Writer, r: Reader, step: ReaderStep) {
    match step
    case Clone(_) => r.at == Cloning
    case Affine(_) => r.at == Affining
    case StoreReady => r.at == Announcing
    case AwaitStarted(ok) => r.at == Spinning && (ok ==> w.started)
    case Check(_) => r.at == Checking
    case Fetch(_) => r.at.Fetching? && r.at.round < wanted
    case StoreCount => r.at.Fetched?
    case StopFetching => r.at == Fetching(wanted)
    case StoreReaderDone => r.at == Ending
    case AwaitWriter(ok) => r.at == Joining && (ok ==> w.done)
    case Judge => r.at == Judging
  }

  /** The final check of the probe. */
  predicate Passes(total: nat, wanted: nat, w: Writer, r: Reader) {
    w.affinity && r.affinity && w.updates == total && r.counted == wanted && !r.errors && w.done && r.done
  }

  function ReaderMoves(total: nat, wanted: nat, w: Writer, r: Reader, step: ReaderStep): (q: Reader)
    requires ReaderCan(wanted, w, r, step)
  {
    match step
    case Clone(ok) => if ok then r.(at := Affining, cloned := true) else r.(at := Returned(false))
    case Affine(ok) => r.(at := Announcing, affinity := ok)
    case StoreReady => r.(at := Spinning, ready := true)
    case AwaitStarted(_) => r.(at := Checking)
    case Check(symbol) => if !r.affinity || !symbol || !w.started then r.(at := Ending, errors := true) else r.(at := Fetching(0))
    case Fetch(ok) =>
      if ok then r.(at := Fetched(r.at.round), fetches := r.fetches + 1, early := r.early || w.updates == 0)
      else r.(at := Ending, errors := true)
    case StoreCount => r.(at := Fetching(r.at.round + 1), counted := r.at.round + 1)
    case StopFetching => r.(at := Ending)
    case StoreReaderDone => r.(at := Joining, done := true)
    case AwaitWriter(ok) => r.(at := if ok then Judging else Returned(false))
    case Judge => r.(at := Returned(Passes(total, wanted, w, r)))
  }

  predicate Enabled(total: nat, wanted: nat, s: State, step: Step) {
    match step
    case W(ws) => WriterCan(total, s.w, s.r, ws)
    case R(rs) => ReaderCan(wanted, s.w, s.r, rs)
  }

  function Apply(total: nat, wanted: nat, s: State, step: Step): (t: State)
    requires Enabled(total, wanted, s, step)
  {
    match step
    case W(ws) => State(WriterMoves(total, s.w, s.r, ws), s.r)
    case R(rs) => State(s.w, ReaderMoves(total, wanted, s.w, s.r, rs))
  }

  // What every step keeps

  /** How far the writer is agrees with what it has done and announced. */
  predicate WriterInv(total: nat, w: Writer, ready: bool) {
    && w.updates <= w.settings <= total && !w.early
    && (w.settings > 0 ==> ready)
    && (w.started ==> w.updates >= 1)
    && (w.done <==> w.at.Gone?)
    && match w.at
       case Pinning => w.settings == 0
       case Pinned => w.settings == 0
       case Waiting => w.settings == 0
       case Updating(g) => ready && w.settings == w.updates == g
       case Updated(g) => ready && w.settings == g + 1 && w.updates == g
       case Flagging => ready && w.settings == w.updates == 1
       case Leaving => w.settings == w.updates
       case Gone => w.settings == w.updates
  }

  /** Everything the pass marker stands for. */
  predicate Complete(total: nat, wanted: nat, w: Writer, r: Reader) {
    && w.settings == total && w.done && r.fetches == wanted && !r.errors && w.affinity && r.affinity
  }

  predicate ReaderInv(total: nat, wanted: nat, w: Writer, r: Reader) {
    && r.counted <= r.fetches <= wanted && !r.early
    && (r.fetches > 0 ==> w.updates >= 1)
    && match r.at
       case Cloning => r.fetches == 0
       case Affining => r.fetches == 0
       case Announcing => r.fetches == 0
       case Spinning => r.fetches == 0
       case Checking => r.fetches == 0
       case Fetching(k) => w.started && r.fetches == r.counted == k
       case Fetched(k) => w.started && r.fetches == k + 1 && r.counted == k
       case Ending => r.fetches == r.counted && (!r.errors ==> w.started)
       case Joining => r.fetches == r.counted && (!r.errors ==> w.started)
       case Judging => r.fetches == r.counted && w.done && (!r.errors ==> w.started)
       case Returned(pass) => pass ==> Complete(total, wanted, w, r) && total >= 1
  }

  predicate Inv(total: nat, wanted: nat, s: State) { WriterInv(total, s.w, s.r.ready) && ReaderInv(total, wanted, s.w, s.r) }

  lemma WriterKeeps(total: nat, w: Writer, r: Reader, step: WriterStep)
    requires WriterInv(total, w, r.ready) && WriterCan(total, w, r, step)
    ensures WriterInv(total, WriterMoves(total, w, r, step), r.ready)
  {}

  /** A writer that still moves has not announced its end, and never takes anything back. */
  lemma WriterGrows(total: nat, w: Writer, r: Reader, step: WriterStep)
    requires WriterInv(total, w, r.ready) && WriterCan(total, w, r, step)
    ensures var v := WriterMoves(total, w, r, step);
            !w.done && w.updates <= v.updates && (w.started ==> v.started)
  {}

  lemma ReaderUntouched(total: nat, wanted: nat, w: Writer, v: Writer, r: Reader)
    requires ReaderInv(total, wanted, w, r) && !w.done && w.updates <= v.updates && (w.started ==> v.started)
    ensures ReaderInv(total, wanted, v, r)
  {}

  lemma ReaderKeeps(total: nat, wanted: nat, w: Writer, r: Reader, step: ReaderStep)
    requires WriterInv(total, w, r.ready) && ReaderInv(total, wanted, w, r) && ReaderCan(wanted, w, r, step)
    ensures ReaderInv(total, wanted, w, ReaderMoves(total, wanted, w, r, step))
    ensures r.ready ==> ReaderMoves(total, wanted, w, r, step).ready
  {}

  lemma WriterUntouched(total: nat, w: Writer, ready: bool, now: bool)
    requires WriterInv(total, w, ready) && (ready ==> now)
    ensures WriterInv(total, w, now)
  {}

  lemma StepKeeps(total: nat, wanted: nat, s: State, step: Step)
    requires Inv(total, wanted, s) && Enabled(total, wanted, s, step)
    ensures Inv(total, wanted, Apply(total, wanted, s, step))
  {
    hide WriterInv, ReaderInv, WriterCan, ReaderCan, WriterMoves, ReaderMoves;
    match step
    case W(ws) =>
      WriterKeeps(total, s.w, s.r, ws);
      WriterGrows(total, s.w, s.r, ws);
      ReaderUntouched(total, wanted, s.w, WriterMoves(total, s.w, s.r, ws), s.r);
    case R(rs) =>
      ReaderKeeps(total, wanted, s.w, s.r, rs);
      WriterUntouched(total, s.w, s.r.ready, ReaderMoves(total, wanted, s.w, s.r, rs).ready);
  }

  // Whole runs

  predicate Possible(total: nat, wanted: nat, s: State, steps: seq<Step>)
    decreases |steps|
  {
    steps == [] || (Enabled(total, wanted, s, steps[0]) && Possible(total, wanted, Apply(total, wanted, s, steps[0]), steps[1..]))
  }

  function After(total: nat, wanted: nat, s: State, steps: seq<Step>): (t: State)
    requires Possible(total, wanted, s, steps)
    decreases |steps|
  {
    if steps == [] then s else After(total, wanted, Apply(total, wanted, s, steps[0]), steps[1..])
  }

  lemma {:induction false} RunKeeps(total: nat, wanted: nat, s: State, steps: seq<Step>)
    requires Inv(total, wanted, s) && Possible(total, wanted, s, steps)
    ensures Inv(total, wanted, After(total, wanted, s, steps))
    decreases |steps|
  {
    hide Inv, Enabled, Apply;
    if steps != [] {
      StepKeeps(total, wanted, s, steps[0]);
      RunKeeps(total, wanted, Apply(total, wanted, s, steps[0]), steps[1..]);
    }
  }

  /** In every interleaving no update precedes reader_ready and no direct read precedes the first completed
      update; the probe passes only when exactly the full counts of updates and of valid reads took place. */
  lemma EveryRun(total: nat, wanted: nat, steps: seq<Step>)
    requires Possible(total, wanted, Init(), steps)
    ensures var s := After(total, wanted, Init(), steps);
            && !s.w.early && !s.r.early
            && (s.w.settings > 0 ==> s.r.ready) && (s.r.fetches > 0 ==> s.w.updates >= 1)
            && s.w.settings <= total && s.r.fetches <= wanted
            && (s.r.at == Returned(true) ==> Complete(total, wanted, s.w, s.r) && total >= 1)
  {
    hide Enabled, Apply, Possible, After;
    RunKeeps(total, wanted, Init(), steps);
  }

  // A run in which nothing fails

  predicate Smooth(step: Step) {
    match step
    case W(Pin(ok)) => ok
    case W(AwaitReader(ok)) => ok
    case W(SetClock(ok)) => ok
    case R(Clone(ok)) => ok
    case R(Affine(ok)) => ok
    case R(AwaitStarted(ok)) => ok
    case R(Check(symbol)) => symbol
    case R(Fetch(ok)) => ok
    case R(AwaitWriter(ok)) => ok
    case _ => true
  }

  /** How far the threads are when nothing has failed yet. */
  predicate OnCourse(total: nat, wanted: nat, w: Writer, r: Reader) {
    && (w.affinity || w.at.Pinning? || w.at.Pinned?)
    && (w.at.Leaving? || w.at.Gone? ==> w.updates == total)
    && (w.at.Updating? && w.at.round >= 1 ==> w.started)
    && (w.at.Updated? && w.at.round >= 1 ==> w.started)
    && !r.errors && (r.affinity || r.at.Cloning? || r.at.Affining?)
    && (r.at.Checking? ==> w.started)
    && (r.at.Ending? || r.at.Joining? || r.at.Judging? ==> r.counted == wanted)
    && (r.at.Joining? || r.at.Judging? ==> r.done)
    && (r.at.Returned? ==> r.at.pass)
  }

  lemma StaysOnCourse(total: nat, wanted: nat, s: State, step: Step)
    requires Inv(total, wanted, s) && OnCourse(total, wanted, s.w, s.r) && Enabled(total, wanted, s, step) && Smooth(step)
    ensures var t := Apply(total, wanted, s, step); OnCourse(total, wanted, t.w, t.r)
  {}

  lemma {:induction false} RunsOnCourse(total: nat, wanted: nat, s: State, steps: seq<Step>)
    requires Inv(total, wanted, s) && OnCourse(total, wanted, s.w, s.r) && Possible(total, wanted, s, steps)
    requires forall i :: 0 <= i < |steps| ==> Smooth(steps[i])
    ensures var t := After(total, wanted, s, steps); OnCourse(total, wanted, t.w, t.r)
    decreases |steps|
  {
    hide Inv, OnCourse, Enabled, Apply, Smooth;
    if steps != [] {
      StepKeeps(total, wanted, s, steps[0]);
      StaysOnCourse(total, wanted, s, steps[0]);
      RunsOnCourse(total, wanted, Apply(total, wanted, s, steps[0]), steps[1..]);
    }
  }

  /** However its steps interleave, a run in which no call, read or wait fails passes if it returns. */
  lemma SmoothRunPasses(total: nat, wanted: nat, steps: seq<Step>)
    requires Possible(total, wanted, Init(), steps) && forall i :: 0 <= i < |steps| ==> Smooth(steps[i])
    ensures var s := After(total, wanted, Init(), steps); s.r.at.Returned? ==> s.r.at.pass && !s.r.errors
  {
    hide Possible, After, Enabled, Apply, Smooth;
    RunsOnCourse(total, wanted, Init(), steps);
  }

  // The probe can pass

  lemma {:induction false} Chain(total: nat, wanted: nat, s: State, a: seq<Step>, step: Step)
    requires Possible(total, wanted, s, a) && Enabled(total, wanted, After(total, wanted, s, a), step)
    ensures Possible(total, wanted, s, a + [step])
    ensures After(total, wanted, s, a + [step]) == Apply(total, wanted, After(total, wanted, s, a), step)
    decreases |a|
  {
    hide Enabled, Apply;
    if a == [] {
      assert a + [step] == [step] && [step][1..] == [];
    } else {
      Chain(total, wanted, Apply(total, wanted, s, a[0]), a[1..], step);
      assert (a + [step])[1..] == a[1..] + [step];
    }
  }

  /** One more step at the end of a run from the beginning. */
  lemma Then(total: nat, wanted: nat, steps: seq<Step>, step: Step) returns (more: seq<Step>)
    requires Possible(total, wanted, Init(), steps) && Enabled(total, wanted, After(total, wanted, Init(), steps), step)
    ensures Possible(total, wanted, Init(), more)
    ensures After(total, wanted, Init(), more) == Apply(total, wanted, After(total, wanted, Init(), steps), step)
  {
    hide Enabled, Apply, Possible, After;
    Chain(total, wanted, Init(), steps, step);
    more := steps + [step];
  }

  /** The writer after k updates while the reader spins, and the reader after k reads once the writer is gone. */
  function Wrote(k: nat): (s: State) {
    State(Writer(Updating(k), true, k >= 1, k, false, k, false), Reader(Spinning, true, true, true, 0, false, false, 0, false))
  }

  function HasRead(total: nat, k: nat): (s: State) {
    State(Writer(Gone, true, true, total, true, total, false), Reader(Fetching(k), true, true, true, k, false, false, k, false))
  }

  lemma {:induction false} WritesAll(total: nat, wanted: nat, k: nat) returns (steps: seq<Step>)
    requires k <= total
    ensures Possible(total, wanted, Init(), steps) && After(total, wanted, Init(), steps) == Wrote(k)
  {
    if k == 0 {
      hide Possible, After;
      Nothing(total, wanted);
      steps := Then(total, wanted, [], R(Clone(true)));
      steps := Then(total, wanted, steps, R(Affine(true)));
      steps := Then(total, wanted, steps, R(StoreReady));
      steps := Then(total, wanted, steps, W(Pin(true)));
      steps := Then(total, wanted, steps, W(SayPinned));
      steps := Then(total, wanted, steps, W(AwaitReader(true)));
    } else {
      hide Possible, After;
      steps := WritesAll(total, wanted, k - 1);
      steps := Then(total, wanted, steps, W(SetClock(true)));
      steps := Then(total, wanted, steps, W(StoreUpdates));
      if k == 1 {
        steps := Then(total, wanted, steps, W(StoreStarted));
      }
    }
  }

  lemma Nothing(total: nat, wanted: nat)
    ensures Possible(total, wanted, Init(), []) && After(total, wanted, Init(), []) == Init()
  {}

  lemma {:induction false} ReadsAll(total: nat, wanted: nat, k: nat) returns (steps: seq<Step>)
    requires total >= 1 && k <= wanted
    ensures Possible(total, wanted, Init(), steps) && After(total, wanted, Init(), steps) == HasRead(total, k)
  {
    hide Possible, After;
    if k == 0 {
      steps := WritesAll(total, wanted, total);
      steps := Then(total, wanted, steps, W(StopUpdating));
      steps := Then(total, wanted, steps, W(StoreDone));
      steps := Then(total, wanted, steps, R(AwaitStarted(true)));
      steps := Then(total, wanted, steps, R(Check(true)));
    } else {
      steps := ReadsAll(total, wanted, k - 1);
      steps := Then(total, wanted, steps, R(Fetch(true)));
      steps := Then(total, wanted, steps, R(StoreCount));
    }
  }

  ghost predicate CanPass(total: nat, wanted: nat) {
    exists steps :: Possible(total, wanted, Init(), steps) && After(total, wanted, Init(), steps).r.at == Returned(true)
  }

  /** Some run passes exactly when at least one update is asked for. */
  lemma CanPassIff(total: nat, wanted: nat)
    ensures CanPass(total, wanted) <==> total >= 1
  {
    hide Possible, After;
    if steps :| Possible(total, wanted, Init(), steps) && After(total, wanted, Init(), steps).r.at == Returned(true) {
      EveryRun(total, wanted, steps);
    }
    if total >= 1 {
      var steps := ReadsAll(total, wanted, wanted);
      steps := Then(total, wanted, steps, R(StopFetching));
      steps := Then(total, wanted, steps, R(StoreReaderDone));
      steps := Then(total, wanted, steps, R(AwaitWriter(true)));
      steps := Then(total, wanted, steps, R(Judge));
      assert After(total, wanted, Init(), steps).r.at == Returned(true);
    }
  }
}
