/** The pipe case of the SMP scheduler witness: workers race to become the one writer, a reader checks
    every byte. Steps interleave in any order; loads, stores and the compare-and-swap are atomic. */
module PipeWitness {
  import opened Bytes

  datatype Worker =
    | Idle                    // polling the start flag
    | Ready                   // has seen the start flag
    | Claimed                 // has won the compare-and-swap
    | Writing(round: nat)
    | Finishing               // about to set the done flag

  datatype Reader =
    | Setup
    | Opened                  // pipe created
    | Cleared                 // claim word reset
    | Reading(round: nat)
    | Polling                 // waiting for the done flag
    | Closing
    | Over

  datatype State = State(
    workers: seq<Worker>,
    reader: Reader,
    start: bool,
    claimed: bool,
    done: bool,
    pipe: seq<Byte>,
    open: bool,               // both ends of the pipe
    got: seq<Byte>,           // bytes the reader has taken, all of them
    rounds: nat,              // bytes it has accepted
    errors: nat,
    mismatch: bool,           // some byte was not the expected one
    sent: nat,
    claims: nat,              // how often the compare-and-swap succeeded
    writer: nat)              // who won it last

  /** One atomic step of a worker or of the reader; `ok` is what a system call does. */
  datatype Step =
    | LoadStart(i: nat)
    | Swap(i: nat)
    | CheckCpu(i: nat, ok: bool)
    | Write(i: nat, ok: bool)
    | StopWriting(i: nat)
    | StoreDone(i: nat)
    | Prepare(ok: bool)
    | ClearClaim
    | StoreStart
    | Read(ok: bool)
    | StopReading
    | Poll(ok: bool)
    | Close

  /** The byte of a round: 'a' plus the round, kept to eight bits. */
  function RoundByte(round: nat): (b: Byte) { (97 + round) % 256 }

  function Intended(n: nat): (bs: seq<Byte>)
    ensures |bs| == n
  {
    if n == 0 then [] else Intended(n - 1) + [RoundByte(n - 1)]
  }

  function Init(n: nat): (s: State) {
    State(seq(n, _ => Idle), Setup, false, false, false, [], false, [], 0, 0, false, 0, 0, 0)
  }

  predicate At(s: State, i: nat, w: Worker) { i < |s.workers| && s.workers[i] == w }

  predicate Enabled(rounds: nat, s: State, step: Step) {
    match step
    case LoadStart(i) => At(s, i, Idle)
    case Swap(i) => At(s, i, Ready)
    case CheckCpu(i, _) => At(s, i, Claimed)
    case Write(i, ok) => i < |s.workers| && s.workers[i].Writing? && s.workers[i].round < rounds && (ok ==> s.open)
    case StopWriting(i) => At(s, i, Writing(rounds))
    case StoreDone(i) => At(s, i, Finishing)
    case Prepare(_) => s.reader == Setup
    case ClearClaim => s.reader == Opened
    case StoreStart => s.reader == Cleared
    case Read(ok) => s.reader.Reading? && s.reader.round < rounds && (ok ==> s.pipe != [])
    case StopReading => s.reader == Reading(rounds)
    case Poll(ok) => s.reader == Polling && (ok ==> s.done)
    case Close => s.reader == Closing
  }

  function Move(s: State, i: nat, w: Worker): (t: State)
    requires i < |s.workers|
  {
    s.(workers := s.workers[i := w])
  }

  function Apply(rounds: nat, s: State, step: Step): (t: State)
    requires Enabled(rounds, s, step)
  {
    match step
    case LoadStart(i) => if s.start then Move(s, i, Ready) else s
    case Swap(i) => if s.claimed then Move(s, i, Idle) else Move(s, i, Claimed).(claimed := true, claims := s.claims + 1, writer := i)
    case CheckCpu(i, ok) => if ok then Move(s, i, Writing(0)) else Move(s, i, Idle).(errors := s.errors + 1)
    case Write(i, ok) =>
      if ok then
        var r := s.workers[i].round;
        Move(s, i, Writing(r + 1)).(pipe := s.pipe + [RoundByte(r)], sent := s.sent + 1)
      else Move(s, i, Finishing).(errors := s.errors + 1)
    case StopWriting(i) => Move(s, i, Finishing)
    case StoreDone(i) => Move(s, i, Idle).(done := true)
    case Prepare(ok) => if ok then s.(reader := Opened, open := true) else s.(reader := Over, errors := s.errors + 1)
    case ClearClaim => s.(reader := Cleared, claimed := false)
    case StoreStart => s.(reader := Reading(0), start := true)
    case Read(ok) =>
      if !ok then s.(reader := Polling, errors := s.errors + 1)
      else
        var t := s.(pipe := s.pipe[1..], got := s.got + [s.pipe[0]]);
        if s.pipe[0] == RoundByte(s.reader.round) then t.(reader := Reading(s.reader.round + 1), rounds := s.rounds + 1)
        else t.(reader := Polling, errors := s.errors + 1, mismatch := true)
    case StopReading => s.(reader := Polling)
    case Poll(ok) => if ok then s.(reader := Closing) else s.(reader := Closing, errors := s.errors + 1)
    case Close => s.(reader := Over, open := false)
  }

  // What every step keeps

  predicate Busy(w: Worker) { w.Claimed? || w.Writing? || w.Finishing? }

  /** Nobody moves before the start flag; afterwards the claim word counts the claims. */
  ghost predicate Started(s: State) {
    && (s.start <==> s.reader.Reading? || s.reader.Polling? || s.reader.Closing? || (s.reader.Over? && s.start))
    && (!s.start ==> s.claims == 0 && !s.claimed && !s.done && forall i :: 0 <= i < |s.workers| ==> s.workers[i] == Idle)
    && s.claims <= 1 && (s.claimed <==> s.claims == 1)
  }

  /** A worker past the compare-and-swap is the one that won it, and knows how much was sent. */
  predicate WriterAt(rounds: nat, s: State, i: nat, w: Worker) {
    && i == s.writer && s.claimed && !s.done
    && (w.Writing? ==> w.round == s.sent)
    && (w.Claimed? ==> s.sent == 0)
    && (w.Finishing? && s.errors == 0 ==> s.sent == rounds)
  }

  ghost predicate OneWriter(rounds: nat, s: State) {
    && (forall i :: 0 <= i < |s.workers| && Busy(s.workers[i]) ==> WriterAt(rounds, s, i, s.workers[i]))
    && (!s.claimed ==> s.sent == 0 && !s.done)
    && (s.done && s.errors == 0 ==> s.sent == rounds)
    && s.sent <= rounds
  }

  /** Bytes taken and bytes in the pipe are together what was meant to be sent so far. */
  ghost predicate InOrder(rounds: nat, s: State) {
    && s.got + s.pipe == Intended(s.sent)
    && s.rounds == |s.got| && !s.mismatch
    && (s.reader.Reading? ==> s.reader.round == |s.got|)
    && (s.reader.Setup? || s.reader.Opened? || s.reader.Cleared? ==> s.got == [])
    && (s.errors == 0 && (s.reader.Polling? || s.reader.Closing? || s.reader.Over?) ==> |s.got| == rounds)
    && (s.errors == 0 && (s.reader.Closing? || s.reader.Over?) ==> s.done && s.start)
  }

  ghost predicate Inv(rounds: nat, s: State) { Started(s) && OneWriter(rounds, s) && InOrder(rounds, s) }

  lemma {:induction false} IntendedAt(n: nat, k: nat)
    requires k < n
    ensures Intended(n)[k] == RoundByte(k) == ('a' as int + k) % 256
  {
    if k < n - 1 {
      IntendedAt(n - 1, k);
    }
  }

  predicate WorkerStep(step: Step) {
    step.LoadStart? || step.Swap? || step.CheckCpu? || step.Write? || step.StopWriting? || step.StoreDone?
  }

  lemma WorkerKeepsStarted(rounds: nat, s: State, step: Step)
    requires Started(s) && WorkerStep(step) && Enabled(rounds, s, step)
    ensures Started(Apply(rounds, s, step))
  {
    hide Intended, RoundByte;
    if !s.start {
      assert s.workers[step.i] == Idle;
      assert Apply(rounds, s, step) == s;
    }
  }

  lemma StartedKept(rounds: nat, s: State, step: Step)
    requires Inv(rounds, s) && Enabled(rounds, s, step)
    ensures Started(Apply(rounds, s, step))
  {
    hide InOrder, OneWriter, Intended, RoundByte;
    if WorkerStep(step) {
      hide Started, Apply, Enabled;
      WorkerKeepsStarted(rounds, s, step);
    }
  }

  lemma OneWriterKept(rounds: nat, s: State, step: Step)
    requires Inv(rounds, s) && Enabled(rounds, s, step)
    ensures OneWriter(rounds, Apply(rounds, s, step))
  {
    hide InOrder, Intended, RoundByte;
    if WorkerStep(step) {
      WorkerKeepsOneWriter(rounds, s, step);
    }
  }

  lemma WorkerKeepsOneWriter(rounds: nat, s: State, step: Step)
    requires Started(s) && OneWriter(rounds, s) && WorkerStep(step) && Enabled(rounds, s, step)
    ensures OneWriter(rounds, Apply(rounds, s, step))
  {
    hide Intended, RoundByte;
    var t := Apply(rounds, s, step);
    assert Busy(s.workers[step.i]) ==> WriterAt(rounds, s, step.i, s.workers[step.i]);
    forall j | 0 <= j < |t.workers| && Busy(t.workers[j]) ensures WriterAt(rounds, t, j, t.workers[j]) {
      assert j != step.i ==> t.workers[j] == s.workers[j];
    }
  }

  lemma InOrderKept(rounds: nat, s: State, step: Step)
    requires Inv(rounds, s) && Enabled(rounds, s, step)
    ensures InOrder(rounds, Apply(rounds, s, step))
  {
    hide RoundByte, Intended;
    if step.Write? && step.ok {
      WriteInOrder(rounds, s, step);
    } else if step.Read? && step.ok {
      ReadInOrder(rounds, s, step);
    }
  }

  lemma WriteInOrder(rounds: nat, s: State, step: Step)
    requires OneWriter(rounds, s) && InOrder(rounds, s) && Enabled(rounds, s, step) && step.Write? && step.ok
    ensures InOrder(rounds, Apply(rounds, s, step))
  {
    hide RoundByte;
    assert Busy(s.workers[step.i]);
    assert s.got + (s.pipe + [RoundByte(s.sent)]) == s.got + s.pipe + [RoundByte(s.sent)];
  }

  lemma ReadInOrder(rounds: nat, s: State, step: Step)
    requires InOrder(rounds, s) && Enabled(rounds, s, step) && step.Read? && step.ok
    ensures InOrder(rounds, Apply(rounds, s, step))
  {
    hide RoundByte, Intended;
    IntendedAt(s.sent, |s.got|);
    assert (s.got + s.pipe)[|s.got|] == s.pipe[0];
    assert s.got + [s.pipe[0]] + s.pipe[1..] == s.got + s.pipe;
  }

  lemma StepKeeps(rounds: nat, s: State, step: Step)
    requires Inv(rounds, s) && Enabled(rounds, s, step)
    ensures Inv(rounds, Apply(rounds, s, step))
  {
    hide Started, OneWriter, InOrder;
    StartedKept(rounds, s, step);
    OneWriterKept(rounds, s, step);
    InOrderKept(rounds, s, step);
  }

  // Whole runs

  predicate Possible(rounds: nat, s: State, steps: seq<Step>)
    decreases |steps|
  {
    steps == [] || (Enabled(rounds, s, steps[0]) && Possible(rounds, Apply(rounds, s, steps[0]), steps[1..]))
  }

  function After(rounds: nat, s: State, steps: seq<Step>): (t: State)
    requires Possible(rounds, s, steps)
    decreases |steps|
  {
    if steps == [] then s else After(rounds, Apply(rounds, s, steps[0]), steps[1..])
  }

  lemma {:induction false} RunKeeps(rounds: nat, s: State, steps: seq<Step>)
    requires Inv(rounds, s) && Possible(rounds, s, steps)
    ensures Inv(rounds, After(rounds, s, steps))
    decreases |steps|
  {
    hide Inv, Enabled, Apply;
    if steps != [] {
      StepKeeps(rounds, s, steps[0]);
      RunKeeps(rounds, Apply(rounds, s, steps[0]), steps[1..]);
    }
  }

  lemma {:induction false} IntendedPrefix(m: nat, n: nat)
    requires m <= n
    ensures Intended(m) == Intended(n)[..m]
  {
    if m < n {
      IntendedPrefix(m, n - 1);
    } else {
      assert Intended(n)[..m] == Intended(n);
    }
  }

  /** In every interleaving of any number of workers: at most one claim succeeds and at most one worker is
      past it; what was read and what is in the pipe is a prefix of the intended bytes, so no byte is ever
      the wrong one; and a reader that ends without an error has read all of it. */
  lemma EveryRun(rounds: nat, n: nat, steps: seq<Step>)
    requires Possible(rounds, Init(n), steps)
    ensures var s := After(rounds, Init(n), steps);
            && s.claims <= 1
            && (forall i, j :: 0 <= i < |s.workers| && 0 <= j < |s.workers| && Busy(s.workers[i]) && Busy(s.workers[j]) ==> i == j)
            && s.got + s.pipe <= Intended(rounds)
            && !s.mismatch && s.rounds == |s.got|
            && (s.reader.Over? && s.errors == 0 ==> s.got == Intended(rounds) && s.pipe == [] && s.done && s.claims == 1)
  {
    hide Possible, After, Intended, Enabled, Apply;
    InitHolds(rounds, n);
    RunKeeps(rounds, Init(n), steps);
    var s := After(rounds, Init(n), steps);
    IntendedPrefix(s.sent, rounds);
    if s.reader.Over? && s.errors == 0 {
      assert |s.got + s.pipe| == |s.got| + |s.pipe|;
      assert s.pipe == [] && s.got + [] == s.got;
      assert Intended(rounds)[..rounds] == Intended(rounds);
    }
  }

  lemma InitHolds(rounds: nat, n: nat)
    ensures Inv(rounds, Init(n))
  {}

  // Errors are failures and nothing else

  predicate Fails(step: Step) {
    match step
    case CheckCpu(_, ok) => !ok
    case Write(_, ok) => !ok
    case Prepare(ok) => !ok
    case Read(ok) => !ok
    case Poll(ok) => !ok
    case _ => false
  }

  function Failures(steps: seq<Step>): (n: nat) {
    if steps == [] then 0 else (if Fails(steps[0]) then 1 else 0) + Failures(steps[1..])
  }

  lemma StepErrors(rounds: nat, s: State, step: Step)
    requires Inv(rounds, s) && Enabled(rounds, s, step)
    ensures Apply(rounds, s, step).errors == s.errors + if Fails(step) then 1 else 0
  {
    StepKeeps(rounds, s, step);
    hide Started, OneWriter, Intended, RoundByte;
  }

  /** In every interleaving the errors counted are the system calls and waits that failed: no byte is ever
      reported that was right. */
  lemma {:induction false} ErrorsAreFailures(rounds: nat, s: State, steps: seq<Step>)
    requires Inv(rounds, s) && Possible(rounds, s, steps)
    ensures After(rounds, s, steps).errors == s.errors + Failures(steps)
    decreases |steps|
  {
    hide Inv, Enabled, Apply, Fails;
    if steps != [] {
      StepKeeps(rounds, s, steps[0]);
      StepErrors(rounds, s, steps[0]);
      ErrorsAreFailures(rounds, Apply(rounds, s, steps[0]), steps[1..]);
    }
  }

  /** So every run to the end in which nothing fails reads all the bytes. */
  lemma CleanRunPasses(rounds: nat, n: nat, steps: seq<Step>)
    requires Possible(rounds, Init(n), steps) && Failures(steps) == 0 && After(rounds, Init(n), steps).reader.Over?
    ensures var s := After(rounds, Init(n), steps); s.errors == 0 && s.got == Intended(rounds) && s.rounds == rounds
  {
    hide Possible, After, Enabled, Apply, Failures, Intended;
    InitHolds(rounds, n);
    ErrorsAreFailures(rounds, Init(n), steps);
    EveryRun(rounds, n, steps);
  }

  // The machine can pass

  lemma {:induction false} Chain(rounds: nat, s: State, a: seq<Step>, b: seq<Step>)
    requires Possible(rounds, s, a) && Possible(rounds, After(rounds, s, a), b)
    ensures Possible(rounds, s, a + b) && After(rounds, s, a + b) == After(rounds, After(rounds, s, a), b)
    decreases |a|
  {
    hide Enabled, Apply;
    if a == [] {
      assert a + b == b;
    } else {
      Chain(rounds, Apply(rounds, s, a[0]), a[1..], b);
      assert (a + b)[1..] == a[1..] + b;
    }
  }

  lemma One(rounds: nat, s: State, step: Step)
    requires Enabled(rounds, s, step)
    ensures Possible(rounds, s, [step]) && After(rounds, s, [step]) == Apply(rounds, s, step)
  {
    hide Enabled, Apply;
    assert [step][1..] == [];
  }

  /** One more step at the end of a run. */
  lemma Then(rounds: nat, s: State, steps: seq<Step>, step: Step) returns (more: seq<Step>)
    requires Possible(rounds, s, steps) && Enabled(rounds, After(rounds, s, steps), step)
    ensures Possible(rounds, s, more) && After(rounds, s, more) == Apply(rounds, After(rounds, s, steps), step)
  {
    hide Enabled, Apply, Possible, After;
    One(rounds, After(rounds, s, steps), step);
    Chain(rounds, s, steps, [step]);
    more := steps + [step];
  }

  /** The states of a run in which worker 0 writes everything before the reader reads it. */
  function Wrote(rounds: nat, n: nat, k: nat): (s: State)
    requires n >= 1
  {
    State(Init(n).workers[0 := Writing(k)], Reading(0), true, true, false, Intended(k), true, [], 0, 0, false, k, 1, 0)
  }

  function HasRead(rounds: nat, n: nat, k: nat): (s: State)
    requires n >= 1 && k <= rounds
  {
    State(Init(n).workers, Reading(k), true, true, true, Intended(rounds)[k..], true, Intended(rounds)[..k], k, 0, false, rounds, 1, 0)
  }

  lemma Begins(rounds: nat, n: nat) returns (steps: seq<Step>)
    requires n >= 1
    ensures Possible(rounds, Init(n), steps) && After(rounds, Init(n), steps) == Wrote(rounds, n, 0)
  {
    hide Possible, After;
    var s := Init(n);
    One(rounds, s, Prepare(true));
    steps := Then(rounds, s, [Prepare(true)], ClearClaim);
    steps := Then(rounds, s, steps, StoreStart);
    steps := Then(rounds, s, steps, LoadStart(0));
    steps := Then(rounds, s, steps, Swap(0));
    steps := Then(rounds, s, steps, CheckCpu(0, true));
  }

  lemma {:induction false} WritesAll(rounds: nat, n: nat, k: nat) returns (steps: seq<Step>)
    requires n >= 1 && k <= rounds
    ensures Possible(rounds, Init(n), steps) && After(rounds, Init(n), steps) == Wrote(rounds, n, k)
  {
    hide Possible, After, RoundByte;
    if k == 0 {
      steps := Begins(rounds, n);
    } else {
      steps := WritesAll(rounds, n, k - 1);
      steps := Then(rounds, Init(n), steps, Write(0, true));
      assert Wrote(rounds, n, k - 1).workers[0 := Writing(k)] == Wrote(rounds, n, k).workers;
    }
  }

  lemma {:induction false} ReadsAll(rounds: nat, n: nat, k: nat) returns (steps: seq<Step>)
    requires n >= 1 && k <= rounds
    ensures Possible(rounds, Init(n), steps) && After(rounds, Init(n), steps) == HasRead(rounds, n, k)
  {
    hide Possible, After, RoundByte, Intended;
    if k == 0 {
      steps := WritesAll(rounds, n, rounds);
      steps := Then(rounds, Init(n), steps, StopWriting(0));
      steps := Then(rounds, Init(n), steps, StoreDone(0));
      assert Init(n).workers[0 := Writing(rounds)][0 := Finishing][0 := Idle] == Init(n).workers;
      assert Intended(rounds)[0..] == Intended(rounds) && Intended(rounds)[..0] == [];
    } else {
      steps := ReadsAll(rounds, n, k - 1);
      IntendedAt(rounds, k - 1);
      var rest := Intended(rounds)[k - 1..];
      assert rest[1..] == Intended(rounds)[k..];
      assert Intended(rounds)[..k - 1] + [rest[0]] == Intended(rounds)[..k];
      steps := Then(rounds, Init(n), steps, Read(true));
    }
  }

  /** With at least one worker, some run reads everything without an error. */
  lemma PassingRun(rounds: nat, n: nat) returns (steps: seq<Step>)
    requires n >= 1
    ensures Possible(rounds, Init(n), steps)
    ensures var s := After(rounds, Init(n), steps); s.reader == Over && s.errors == 0 && s.rounds == rounds
  {
    hide Possible, After, Intended;
    steps := ReadsAll(rounds, n, rounds);
    steps := Then(rounds, Init(n), steps, StopReading);
    steps := Then(rounds, Init(n), steps, Poll(true));
    steps := Then(rounds, Init(n), steps, Close);
  }
}
