/** The threads of the genesis miner as a state machine: a shared counter hands out nonces,
    a flag stops the others, progress is saved at any moment, and the main thread prints the
    winner once every thread has ended. Every theorem holds for every number of threads and
    every interleaving.
 */
module Workers {

  /** Nonces are 32 bits wide. */
  const LIMIT: nat := 0x1_0000_0000

  /** Where one thread stands between two accesses to shared state. */
  datatype Worker = Idle | Fetched(n: nat) | Hashed(n: nat) | Won(n: nat) | Published | Done

  /** The main thread: watching for the flag, then printing, then saving the winner. */
  datatype Main = Watching | Printed | Saved

  /** tested: the nonces compared with the target so far. dropped: those handed out and given
      up because the flag was up. saved: the counter in the progress file. */
  datatype State = State(counter: nat, found: bool, foundNonce: nat, saved: nat, workers: seq<Worker>,
                         tested: set<nat>, dropped: set<nat>, main: Main)

  datatype Event = Step(i: nat) | SaveProgress | Print | SaveWinner

  function Start(start: nat, threads: nat): State {
    State(start, false, 0, start, seq(threads, i => Idle), {}, {}, Watching)
  }

  predicate AllDone(workers: seq<Worker>) {
    forall i :: 0 <= i < |workers| ==> workers[i].Done?
  }

  /** One access to shared state by thread i, with the private work up to the next one. */
  function Advance(hit: nat -> bool, s: State, i: nat): State
    requires i < |s.workers|
  {
    match s.workers[i]
    case Idle => s.(counter := s.counter + 1, workers := s.workers[i := Fetched(s.counter)])
    case Fetched(n) =>
      if n >= LIMIT then s.(workers := s.workers[i := Done])
      else if s.found then s.(dropped := s.dropped + {n}, workers := s.workers[i := Done])
      else s.(workers := s.workers[i := Hashed(n)])
    case Hashed(n) => s.(tested := s.tested + {n}, workers := s.workers[i := if hit(n) then Won(n) else Idle])
    case Won(n) => s.(foundNonce := n, workers := s.workers[i := Published])
    case Published => s.(found := true, workers := s.workers[i := Done])
    case Done => s
  }

  function Next(hit: nat -> bool, s: State, e: Event): State {
    match e
    case Step(i) => if i < |s.workers| then Advance(hit, s, i) else s
    case SaveProgress => if s.main.Watching? then s.(saved := s.counter) else s
    case Print => if s.main.Watching? && s.found && AllDone(s.workers) then s.(main := Printed) else s
    case SaveWinner => if s.main.Printed? then s.(saved := s.foundNonce, main := Saved) else s
  }

  function Run(hit: nat -> bool, s: State, events: seq<Event>): State {
    if events == [] then s else Next(hit, Run(hit, s, events[..|events| - 1]), events[|events| - 1])
  }

  // ------------------------------------------------------------ the invariant

  /** A nonce handed out and not yet tested. */
  predicate Holds(w: Worker, n: nat) {
    (w.Fetched? || w.Hashed?) && w.n == n
  }

  predicate Held(s: State, n: nat) {
    exists i :: 0 <= i < |s.workers| && Holds(s.workers[i], n)
  }

  /** A thread that has a winning nonce and has not raised the flag. */
  predicate Winning(w: Worker) {
    w.Won? || w.Published?
  }

  predicate Announcing(s: State) {
    exists i :: 0 <= i < |s.workers| && Winning(s.workers[i])
  }

  predicate Good(hit: nat -> bool, start: nat, s: State, n: nat) {
    start <= n < LIMIT && n in s.tested && hit(n)
  }

  predicate WorkerOk(hit: nat -> bool, start: nat, s: State, w: Worker) {
    match w
    case Fetched(n) => start <= n < s.counter && n !in s.tested && n !in s.dropped
    case Hashed(n) => start <= n < s.counter && n < LIMIT && n !in s.tested && n !in s.dropped
    case Won(n) => Good(hit, start, s, n)
    case Published => Good(hit, start, s, s.foundNonce)
    case Done => s.found || s.counter > LIMIT
    case Idle => true
  }

  ghost predicate Inv(hit: nat -> bool, start: nat, s: State) {
    && start <= s.saved <= s.counter
    && (forall i :: 0 <= i < |s.workers| ==> WorkerOk(hit, start, s, s.workers[i]))
    && (forall i, j, n :: 0 <= i < j < |s.workers| && Holds(s.workers[i], n) ==> !Holds(s.workers[j], n))
    && (s.found ==> Good(hit, start, s, s.foundNonce))
    && (forall n :: n in s.tested ==> start <= n < s.counter && n < LIMIT && n !in s.dropped)
    && (forall n :: n in s.dropped ==> start <= n < s.counter && n < LIMIT && s.found)
    && (forall n :: start <= n < s.counter && n < LIMIT ==> n in s.tested || n in s.dropped || Held(s, n))
    && (forall n :: n in s.tested && hit(n) ==> s.found || Announcing(s))
    && (!s.main.Watching? ==> s.found && AllDone(s.workers))
    && (s.main.Saved? ==> s.saved == s.foundNonce)
  }

  lemma StartInv(hit: nat -> bool, start: nat, threads: nat)
    ensures Inv(hit, start, Start(start, threads))
  {
  }

  /** Thread i stops holding; the others hold what they held. */
  lemma HeldElsewhere(s: State, t: State, i: nat, n: nat)
    requires i < |s.workers| == |t.workers| && t.workers == s.workers[i := t.workers[i]]
    requires Held(s, n) && !Holds(s.workers[i], n)
    ensures Held(t, n)
  {
    var j :| 0 <= j < |s.workers| && Holds(s.workers[j], n);
    assert t.workers[j] == s.workers[j];
  }

  lemma AnnouncingElsewhere(s: State, t: State, i: nat)
    requires i < |s.workers| == |t.workers| && t.workers == s.workers[i := t.workers[i]]
    requires Announcing(s) && (!Winning(s.workers[i]) || Winning(t.workers[i]))
    ensures Announcing(t)
  {
    var j :| 0 <= j < |s.workers| && Winning(s.workers[j]);
    assert Winning(t.workers[j]);
  }

  /** Coverage after a step. */
  lemma Covered(hit: nat -> bool, start: nat, s: State, i: nat, n: nat)
    requires Inv(hit, start, s) && i < |s.workers|
    requires start <= n < Advance(hit, s, i).counter && n < LIMIT
    ensures var t := Advance(hit, s, i); n in t.tested || n in t.dropped || Held(t, n)
  {
    var t, w := Advance(hit, s, i), s.workers[i];
    if w.Idle? && n == s.counter {
      assert Holds(t.workers[i], n);
    } else if n !in s.tested && n !in s.dropped && w != Done {
      if Holds(w, n) {
        assert w.Fetched? && !s.found ==> Holds(t.workers[i], n);
      } else {
        HeldElsewhere(s, t, i, n);
      }
    }
  }

  lemma Announced(hit: nat -> bool, start: nat, s: State, i: nat, n: nat)
    requires Inv(hit, start, s) && i < |s.workers|
    requires n in Advance(hit, s, i).tested && hit(n)
    ensures Advance(hit, s, i).found || Announcing(Advance(hit, s, i))
  {
    var t, w := Advance(hit, s, i), s.workers[i];
    if w.Hashed? && w.n == n {
      assert Winning(t.workers[i]);
    } else if !t.found && w != Done {
      AnnouncingElsewhere(s, t, i);
    }
  }

  lemma WorkersKept(hit: nat -> bool, start: nat, s: State, i: nat, j: nat)
    requires Inv(hit, start, s) && i < |s.workers| && j < |s.workers|
    ensures WorkerOk(hit, start, Advance(hit, s, i), Advance(hit, s, i).workers[j])
  {
    hide Held, Announcing;
    assert WorkerOk(hit, start, s, s.workers[i]) && WorkerOk(hit, start, s, s.workers[j]);
    if i != j && (s.workers[i].Fetched? || s.workers[i].Hashed?) {
      Apart(hit, start, s, i, j, s.workers[i].n);
    }
  }

  lemma Apart(hit: nat -> bool, start: nat, s: State, i: nat, j: nat, n: nat)
    requires Inv(hit, start, s) && i < |s.workers| && j < |s.workers| && i != j && Holds(s.workers[i], n)
    ensures !Holds(s.workers[j], n)
  {
  }

  lemma StepInv(hit: nat -> bool, start: nat, s: State, i: nat)
    requires Inv(hit, start, s) && i < |s.workers|
    ensures Inv(hit, start, Advance(hit, s, i))
  {
    hide Held, Announcing;
    var t := Advance(hit, s, i);
    forall j | 0 <= j < |t.workers| ensures WorkerOk(hit, start, t, t.workers[j]) {
      WorkersKept(hit, start, s, i, j);
    }
    forall n | start <= n < t.counter && n < LIMIT ensures n in t.tested || n in t.dropped || Held(t, n) {
      Covered(hit, start, s, i, n);
    }
    forall n | n in t.tested && hit(n) ensures t.found || Announcing(t) {
      Announced(hit, start, s, i, n);
    }
    assert WorkerOk(hit, start, s, s.workers[i]);
    forall a, b, n | 0 <= a < b < |t.workers| && Holds(t.workers[a], n) ensures !Holds(t.workers[b], n) {
      StillApart(hit, start, s, i, a, b, n);
    }
  }

  lemma StillApart(hit: nat -> bool, start: nat, s: State, i: nat, a: nat, b: nat, n: nat)
    requires Inv(hit, start, s) && i < |s.workers| && a < b < |s.workers|
    requires Holds(Advance(hit, s, i).workers[a], n)
    ensures !Holds(Advance(hit, s, i).workers[b], n)
  {
    hide Held, Announcing;
    var t := Advance(hit, s, i);
    assert WorkerOk(hit, start, s, s.workers[a]) && WorkerOk(hit, start, s, s.workers[b]);
    if Holds(s.workers[a], n) {
      Apart(hit, start, s, a, b, n);
    } else if Holds(s.workers[b], n) {
      Apart(hit, start, s, b, a, n);
    }
  }

  lemma {:induction false} RunInv(hit: nat -> bool, start: nat, threads: nat, events: seq<Event>)
    ensures var s := Run(hit, Start(start, threads), events); Inv(hit, start, s) && |s.workers| == threads
  {
    hide Inv;
    if events == [] {
      StartInv(hit, start, threads);
    } else {
      var init, e := events[..|events| - 1], events[|events| - 1];
      RunInv(hit, start, threads, init);
      var s := Run(hit, Start(start, threads), init);
      if e.Step? && e.i < |s.workers| {
        StepInv(hit, start, s, e.i);
      } else {
        MainInv(hit, start, s, e);
      }
    }
  }

  /** The main thread's events change nothing the threads use. */
  lemma MainInv(hit: nat -> bool, start: nat, s: State, e: Event)
    requires Inv(hit, start, s) && !(e.Step? && e.i < |s.workers|)
    ensures Inv(hit, start, Next(hit, s, e)) && Next(hit, s, e).workers == s.workers
  {
    hide WorkerOk;
    var t := Next(hit, s, e);
    forall i | 0 <= i < |t.workers| ensures WorkerOk(hit, start, t, t.workers[i]) {
      MainWorker(hit, start, s, t.saved, t.main, s.workers[i]);
    }
    forall n | Held(s, n) ensures Held(t, n) {
    }
  }

  lemma MainWorker(hit: nat -> bool, start: nat, s: State, saved: nat, main: Main, w: Worker)
    requires WorkerOk(hit, start, s, w)
    ensures WorkerOk(hit, start, s.(saved := saved, main := main), w)
  {
  }

  // ------------------------------------------------------------ what it gives

  /** Whatever the threads do, a nonce reported as found meets the target; and no nonce is
      held by two threads or handed out after it was tested. */
  lemma FoundIsGood(hit: nat -> bool, start: nat, threads: nat, events: seq<Event>)
    ensures var s := Run(hit, Start(start, threads), events);
            && (s.found ==> hit(s.foundNonce) && start <= s.foundNonce < LIMIT)
            && (forall i, j, n :: 0 <= i < j < |s.workers| && Holds(s.workers[i], n) ==> !Holds(s.workers[j], n))
            && (forall n :: Held(s, n) ==> n !in s.tested)
  {
    RunInv(hit, start, threads, events);
    hide Run;
    var s := Run(hit, Start(start, threads), events);
    forall n | Held(s, n) ensures n !in s.tested {
      var i :| 0 <= i < |s.workers| && Holds(s.workers[i], n);
      assert WorkerOk(hit, start, s, s.workers[i]);
    }
  }

  /** If every thread has ended and none found anything, no nonce from the start on does. */
  lemma ExhaustedMeansNone(hit: nat -> bool, start: nat, threads: nat, events: seq<Event>, n: nat)
    requires threads > 0 && start <= n < LIMIT
    requires var s := Run(hit, Start(start, threads), events);
             !s.found && |s.workers| == threads && forall i :: 0 <= i < threads ==> s.workers[i].Done?
    ensures !hit(n)
  {
    RunInv(hit, start, threads, events);
    hide Run;
    var s := Run(hit, Start(start, threads), events);
    assert WorkerOk(hit, start, s, s.workers[0]);
    assert n in s.tested || Held(s, n);
  }

  /** The main thread waits for the flag alone: once every thread has ended without raising
      it, it waits forever and never says that the nonces are used up. */
  lemma {:induction false} ExhaustedWaitsForever(hit: nat -> bool, s: State, events: seq<Event>)
    requires !s.found && s.main.Watching? && AllDone(s.workers)
    ensures var t := Run(hit, s, events); !t.found && t.main.Watching? && t.workers == s.workers
  {
    if events != [] {
      ExhaustedWaitsForever(hit, s, events[..|events| - 1]);
    }
  }

  /** The nonce the main thread has printed. */
  predicate Reported(s: State, n: nat) {
    !s.main.Watching? && s.foundNonce == n
  }

  /** What is printed is a winner, every thread has ended by then, and it stays the winner
      whatever happens next. */
  lemma ReportIsFinal(hit: nat -> bool, start: nat, threads: nat, events: seq<Event>, n: nat)
    requires Reported(Run(hit, Start(start, threads), events), n)
    ensures hit(n) && start <= n < LIMIT
    ensures AllDone(Run(hit, Start(start, threads), events).workers)
    ensures forall e :: Reported(Next(hit, Run(hit, Start(start, threads), events), e), n)
  {
    RunInv(hit, start, threads, events);
  }

  // ------------------------------------------------------------ what a resume can still find

  /** Some number of threads, scheduled somehow from this counter on, prints n. */
  ghost predicate Reachable(hit: nat -> bool, from: nat, n: nat) {
    exists threads, events :: Reported(Run(hit, Start(from, threads), events), n)
  }

  lemma {:induction false} RunAppend(hit: nat -> bool, s: State, a: seq<Event>, b: seq<Event>)
    ensures Run(hit, s, a + b) == Run(hit, Run(hit, s, a), b)
    decreases |b|
  {
    if b == [] {
      assert a + b == a;
    } else {
      RunAppend(hit, s, a, b[..|b| - 1]);
      assert (a + b)[..|a + b| - 1] == a + b[..|b| - 1];
    }
  }

  /** One step of each of the first k threads. */
  function Sweep(k: nat): (events: seq<Event>)
    ensures |events| == k
  {
    if k == 0 then [] else Sweep(k - 1) + [Step(k - 1)]
  }

  function Taken(from: nat, threads: nat, k: nat): State
    requires k <= threads
  {
    State(from + k, false, 0, from, seq(threads, i requires 0 <= i < threads => if i < k then Fetched(from + i) else Idle),
          {}, {}, Watching)
  }

  lemma {:induction false} SweepTakes(hit: nat -> bool, from: nat, threads: nat, k: nat)
    requires k <= threads
    ensures Run(hit, Start(from, threads), Sweep(k)) == Taken(from, threads, k)
    decreases k
  {
    if k == 0 {
      assert Taken(from, threads, 0).workers == Start(from, threads).workers;
    } else {
      SweepTakes(hit, from, threads, k - 1);
      assert Sweep(k)[..k - 1] == Sweep(k - 1);
      assert Taken(from, threads, k).workers == Taken(from, threads, k - 1).workers[k - 1 := Fetched(from + k - 1)];
    }
  }

  /** A thread that leaves when it next looks at the flag. */
  predicate Leaving(w: Worker) {
    w.Fetched? || w.Done?
  }

  /** The flag is up: one step of each waiting thread ends it and changes no result. */
  lemma {:induction false} SweepEnds(hit: nat -> bool, s: State, k: nat)
    requires s.found && k <= |s.workers| && forall i :: 0 <= i < k ==> Leaving(s.workers[i])
    ensures var t := Run(hit, s, Sweep(k));
            && t.found && t.foundNonce == s.foundNonce && t.main == s.main
            && |t.workers| == |s.workers|
            && (forall i :: 0 <= i < k ==> t.workers[i].Done?)
            && (forall i :: k <= i < |s.workers| ==> t.workers[i] == s.workers[i])
    decreases k
  {
    hide Advance;
    if k != 0 {
      SweepEnds(hit, s, k - 1);
      assert Sweep(k)[..k - 1] == Sweep(k - 1);
      EndsOne(hit, Run(hit, s, Sweep(k - 1)), k - 1);
    }
  }

  lemma EndsOne(hit: nat -> bool, s: State, i: nat)
    requires s.found && i < |s.workers| && Leaving(s.workers[i])
    ensures var t := Next(hit, s, Step(i));
            t.found && t.foundNonce == s.foundNonce && t.main == s.main && t.workers == s.workers[i := Done]
  {
  }

  /** Four steps take the thread that fetched a winner to the flag. */
  lemma WinnerPublishes(hit: nat -> bool, s: State, i: nat, n: nat)
    requires i < |s.workers| && s.workers[i] == Fetched(n) && hit(n) && n < LIMIT && !s.found
    ensures var t := Run(hit, s, [Step(i), Step(i), Step(i), Step(i)]);
            t.found && t.foundNonce == n && t.main == s.main && t.workers == s.workers[i := Done]
  {
    var e := Step(i);
    assert [e, e, e, e][..3] == [e, e, e] && [e, e, e][..2] == [e, e] && [e, e][..1] == [e] && [e][..0] == [];
    var s1 := Advance(hit, s, i);
    var s2 := Advance(hit, s1, i);
    var s3 := Advance(hit, s2, i);
    assert Run(hit, s, [e][..0]) == s;
    assert Run(hit, s, [e]) == s1;
    assert Run(hit, s, [e, e]) == s2;
    assert Run(hit, s, [e, e, e]) == s3;
    assert Advance(hit, s3, i).workers == s.workers[i := Done];
  }

  /** The schedule that prints n: one thread per nonce up to n, and the last one goes first. */
  lemma CanReport(hit: nat -> bool, from: nat, n: nat)
    requires from <= n < LIMIT && hit(n)
    ensures Reachable(hit, from, n)
  {
    hide Run, Advance;
    var k := n - from;
    var s0 := Start(from, k + 1);
    var fetch, win := Sweep(k + 1), [Step(k), Step(k), Step(k), Step(k)];
    SweepTakes(hit, from, k + 1, k + 1);
    var s1 := Run(hit, s0, fetch);
    WinnerPublishes(hit, s1, k, n);
    RunAppend(hit, s0, fetch, win);
    var s2 := Run(hit, s1, win);
    SweepEnds(hit, s2, k + 1);
    RunAppend(hit, s0, fetch + win, Sweep(k + 1));
    var s3 := Run(hit, s2, Sweep(k + 1));
    RunAppend(hit, s0, fetch + win + Sweep(k + 1), [Print]);
    PrintNow(hit, s3);
    assert Reported(Run(hit, s0, fetch + win + Sweep(k + 1) + [Print]), n);
  }

  lemma PrintNow(hit: nat -> bool, s: State)
    requires s.found && s.main.Watching? && AllDone(s.workers)
    ensures Run(hit, s, [Print]) == s.(main := Printed)
  {
    assert [Print][..0] == [];
  }

  /** From a counter on, the search can print exactly the winners not below it. */
  lemma ReachableIff(hit: nat -> bool, from: nat, n: nat)
    ensures Reachable(hit, from, n) <==> from <= n < 0x1_0000_0000 && hit(n)
  {
    if Reachable(hit, from, n) {
      var threads, events :| Reported(Run(hit, Start(from, threads), events), n);
      ReportIsFinal(hit, from, threads, events, n);
    }
    if from <= n < LIMIT && hit(n) {
      CanReport(hit, from, n);
    }
  }

  /** Once the winner itself is saved, a resumed search can print it again. */
  lemma SavedWinnerStays(hit: nat -> bool, start: nat, threads: nat, events: seq<Event>)
    requires Run(hit, Start(start, threads), events).main.Saved?
    ensures var s := Run(hit, Start(start, threads), events);
            s.saved == s.foundNonce && Reported(s, s.saved) && Reachable(hit, s.saved, s.saved)
  {
    RunInv(hit, start, threads, events);
    hide Run, Reachable;
    var s := Run(hit, Start(start, threads), events);
    ReachableIff(hit, s.saved, s.saved);
  }

  // ------------------------------------------------------------ the progress file

  /** A winner that was not printed and that no search resumed from the progress file prints. */
  ghost predicate Lost(hit: nat -> bool, s: State, n: nat) {
    !Reported(s, n) && !Reachable(hit, s.saved, n)
  }

  /** Whenever the process ends, a winner is lost if and only if it is below the saved counter
      and a thread holds it untested, or it was given up after another one was found, or it
      was tested and is not the one printed. */
  lemma LostOnResume(hit: nat -> bool, start: nat, threads: nat, events: seq<Event>, n: nat)
    requires hit(n) && start <= n < LIMIT
    ensures var s := Run(hit, Start(start, threads), events);
            Lost(hit, s, n)
            <==> n < s.saved && (Held(s, n) || n in s.dropped || (n in s.tested && !Reported(s, n)))
    ensures var s := Run(hit, Start(start, threads), events);
            Held(s, n) || n in s.dropped ==> !Reported(s, n)
  {
    var s := Run(hit, Start(start, threads), events);
    RunInv(hit, start, threads, events);
    FoundIsGood(hit, start, threads, events);
    hide Run, Reachable, WorkerOk;
    ReachableIff(hit, s.saved, n);
  }

  /** As long as nothing was found, the nonces a resume leaves untested are those held by a
      thread. */
  lemma SkippedOnResume(hit: nat -> bool, start: nat, threads: nat, events: seq<Event>, n: nat)
    requires !Run(hit, Start(start, threads), events).found && n < LIMIT
    ensures var s := Run(hit, Start(start, threads), events);
            start <= n < s.saved && n !in s.tested <==> Held(s, n) && n < s.saved
  {
    RunInv(hit, start, threads, events);
    hide Run;
    var s := Run(hit, Start(start, threads), events);
    if Held(s, n) {
      var i :| 0 <= i < |s.workers| && Holds(s.workers[i], n);
      assert WorkerOk(hit, start, s, s.workers[i]);
    }
  }

  /** The only winner can be lost in each of three ways: the process ends with the counter
      saved while the thread has fetched nonce 0, has tested it, or has raised the flag and
      the main thread has not printed it. No search resumed from there finds anything. */
  lemma ResumeCanMiss(k: nat, threads: nat, events: seq<Event>)
    requires k == 1 || k == 3 || k == 5
    ensures var hit := (n: nat) => n == 0;
            var s := Run(hit, Start(0, 1), Steps(k) + [SaveProgress]);
            && s.saved == 1 && (k == 1 <==> Held(s, 0)) && (k != 1 <==> 0 in s.tested) && (k == 5 <==> s.found)
            && Lost(hit, s, 0) && !Run(hit, Start(s.saved, threads), events).found
  {
    var hit := (n: nat) => n == 0;
    SoleThread(k);
    RunAppend(hit, Start(0, 1), Steps(k), [SaveProgress]);
    var s := Run(hit, Start(0, 1), Steps(k));
    assert [SaveProgress][..0] == [];
    assert Run(hit, s, [SaveProgress]) == s.(saved := s.counter);
    assert k == 1 ==> Holds(s.workers[0], 0);
    LostOnResume(hit, 0, 1, Steps(k) + [SaveProgress], 0);
    FoundIsGood(hit, 1, threads, events);
  }

  /** k steps of thread 0. */
  function Steps(k: nat): seq<Event> {
    seq(k, i => Step(0))
  }

  lemma SoleThread(k: nat)
    requires k <= 5
    ensures var w := [Idle, Fetched(0), Hashed(0), Won(0), Published, Done];
            Run((n: nat) => n == 0, Start(0, 1), Steps(k))
            == State(if k == 0 then 0 else 1, k == 5, 0, 0, [w[k]], if k < 3 then {} else {0}, {}, Watching)
  {
    if k != 0 {
      SoleThread(k - 1);
      assert Steps(k)[..k - 1] == Steps(k - 1);
    }
  }
}
