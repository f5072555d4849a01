/** Submitters and workers around one bounded queue, interleaved at every queue and counter operation. */
module QueueSteps {
  import opened Bags
  import opened ByteStrings
  import opened DriftQueue

  datatype Worker = Idle | Taken(job: Job) | Running(job: Job) | Stopped

  /** The drift verdict of a job, and the queue's bound. */
  datatype Setup = Setup(preserved: Job -> bool, cap: nat)

  /**
    The Go state is queue, workers and the four counters; the rest is history for the proofs: how many
    jobs were offered and turned away, jobs the queue took, jobs workers took out, jobs done, split by
    verdict, how many were counted, and how many of the drifted ones were filed and failed.
    */
  datatype State = State(
    queue: seq<Job>, workers: seq<Worker>,
    processed: U64, quarantined: U64, dropped: U64, errors: U64,
    offered: nat, lost: nat, accepted: seq<Job>, taken: seq<Job>,
    kept: multiset<Job>, drifted: multiset<Job>, counted: nat, filed: nat, failed: nat
  )

  datatype Action =
    | Submit(job: Job)
    | Take(w: nat)
    | Count(w: nat)
    | Finish(w: nat, failed: bool)
    | Stop(w: nat)

  predicate Enabled(u: Setup, s: State, a: Action) {
    if a.Submit? then true
    else
      && a.w < |s.workers|
      && match a
         case Take(w) => s.workers[w].Idle? && s.queue != []
         case Count(w) => s.workers[w].Taken?
         case Finish(w, failed) => s.workers[w].Running? && (failed ==> !u.preserved(s.workers[w].job))
         case Stop(w) => s.workers[w].Idle?
  }

  function Step(u: Setup, s: State, a: Action): State
    requires Enabled(u, s, a)
  {
    match a
    case Submit(job) =>
      if |s.queue| < u.cap then
        s.(queue := s.queue + [job], accepted := s.accepted + [job], offered := s.offered + 1)
      else s.(dropped := Plus(s.dropped, 1), lost := s.lost + 1, offered := s.offered + 1)
    case Take(w) =>
      s.(queue := s.queue[1..], taken := s.taken + [s.queue[0]], workers := s.workers[w := Taken(s.queue[0])])
    case Count(w) =>
      s.(processed := Plus(s.processed, 1), counted := s.counted + 1,
         workers := s.workers[w := Running(s.workers[w].job)])
    case Finish(w, failed) =>
      var job := s.workers[w].job;
      var t := s.(workers := s.workers[w := Idle]);
      if u.preserved(job) then t.(kept := s.kept + multiset{job})
      else if failed then t.(drifted := s.drifted + multiset{job}, errors := Plus(s.errors, 1), failed := s.failed + 1)
      else t.(drifted := s.drifted + multiset{job}, quarantined := Plus(s.quarantined, 1), filed := s.filed + 1)
    case Stop(w) => s.(workers := s.workers[w := Stopped])
  }

  ghost predicate Possible(u: Setup, s: State, run: seq<Action>)
    decreases |run|
  {
    run == [] || (Enabled(u, s, run[0]) && Possible(u, Step(u, s, run[0]), run[1..]))
  }

  ghost function After(u: Setup, s: State, run: seq<Action>): State
    requires Possible(u, s, run)
    decreases |run|
  {
    if run == [] then s else After(u, Step(u, s, run[0]), run[1..])
  }

  predicate Initial(s: State) {
    && s.queue == [] && s.accepted == [] && s.taken == [] && s.kept == multiset{} && s.drifted == multiset{}
    && s.processed == s.quarantined == s.dropped == s.errors == 0
    && s.offered == s.lost == s.counted == s.filed == s.failed == 0
    && forall w :: 0 <= w < |s.workers| ==> s.workers[w].Idle?
  }

  // ------------------------------------------------------------ the invariant

  function Held(w: Worker): multiset<Job> {
    if w.Taken? || w.Running? then multiset{w.job} else multiset{}
  }

  /** Jobs in the hands of workers. */
  function InHand(ws: seq<Worker>): multiset<Job> {
    if ws == [] then multiset{} else InHand(ws[..|ws| - 1]) + Held(ws[|ws| - 1])
  }

  /** Workers that took a job but have not counted it yet. */
  function Uncounted(ws: seq<Worker>): nat {
    if ws == [] then 0 else Uncounted(ws[..|ws| - 1]) + if ws[|ws| - 1].Taken? then 1 else 0
  }

  lemma {:induction false} InHandUpdate(ws: seq<Worker>, w: nat, p: Worker)
    requires w < |ws|
    ensures InHand(ws[w := p]) + Held(ws[w]) == InHand(ws) + Held(p)
    ensures Uncounted(ws[w := p]) + (if ws[w].Taken? then 1 else 0) == Uncounted(ws) + if p.Taken? then 1 else 0
  {
    var n := |ws| - 1;
    var init := ws[..n];
    if w == n {
      assert ws[w := p][..n] == init;
      assert InHand(init) + Held(p) + Held(ws[n]) == InHand(init) + Held(ws[n]) + Held(p);
    } else {
      assert ws[w := p][..n] == init[w := p] && ws[w := p][n] == ws[n];
      InHandUpdate(init, w, p);
      Carry(InHand(init[w := p]), Held(ws[w]), InHand(init), Held(p), Held(ws[n]));
    }
  }

  lemma {:induction false} EmptyHands(ws: seq<Worker>)
    requires forall w :: 0 <= w < |ws| ==> ws[w].Idle? || ws[w].Stopped?
    ensures InHand(ws) == multiset{} && Uncounted(ws) == 0
  {
    if ws != [] {
      EmptyHands(ws[..|ws| - 1]);
    }
  }

  ghost predicate Inv(u: Setup, s: State) {
    && |s.queue| <= u.cap
    && s.accepted == s.taken + s.queue
    && s.offered == |s.accepted| + s.lost
    && multiset(s.taken) == s.kept + s.drifted + InHand(s.workers)
    && s.counted + Uncounted(s.workers) == |s.taken|
    && s.filed + s.failed == |s.drifted|
    && Wrapped(s)
    && (forall j :: j in s.kept ==> u.preserved(j))
    && (forall j :: j in s.drifted ==> !u.preserved(j))
  }

  /** The counters are the counts, on 64 bits. */
  predicate Wrapped(s: State) {
    && s.processed == Plus(0, s.counted) && s.dropped == Plus(0, s.lost)
    && s.quarantined == Plus(0, s.filed) && s.errors == Plus(0, s.failed)
  }

  lemma WrappedKept(u: Setup, s: State, a: Action)
    requires Wrapped(s) && Enabled(u, s, a)
    ensures Wrapped(Step(u, s, a))
  {
    PlusPlus(0, s.counted, 1);
    PlusPlus(0, s.lost, 1);
    PlusPlus(0, s.filed, 1);
    PlusPlus(0, s.failed, 1);
  }

  lemma QueueKept(u: Setup, s: State, a: Action)
    requires Inv(u, s) && Enabled(u, s, a)
    ensures var t := Step(u, s, a);
            && |t.queue| <= u.cap && t.accepted == t.taken + t.queue
            && t.offered == |t.accepted| + t.lost
  {
    if a.Take? {
      assert s.queue == [s.queue[0]] + s.queue[1..];
    }
  }

  lemma TakeKeepsJobs(u: Setup, s: State, w: nat)
    requires multiset(s.taken) == s.kept + s.drifted + InHand(s.workers) && Enabled(u, s, Take(w))
    ensures var t := Step(u, s, Take(w)); multiset(t.taken) == t.kept + t.drifted + InHand(t.workers)
  {
    var job := s.queue[0];
    HandsGain(s.workers, w, Taken(job));
    assert multiset(s.taken + [job]) == multiset(s.taken) + multiset{job};
    Associate(s.kept + s.drifted, InHand(s.workers), multiset{job});
  }

  lemma Settle(a: multiset<Job>, b: multiset<Job>, c: multiset<Job>, x: multiset<Job>)
    ensures a + b + (c + x) == (a + x) + b + c
    ensures a + b + (c + x) == a + (b + x) + c
  {
  }

  lemma FinishKeepsJobs(u: Setup, s: State, w: nat, failed: bool)
    requires multiset(s.taken) == s.kept + s.drifted + InHand(s.workers) && Enabled(u, s, Finish(w, failed))
    ensures var t := Step(u, s, Finish(w, failed)); multiset(t.taken) == t.kept + t.drifted + InHand(t.workers)
  {
    var job := s.workers[w].job;
    HandsLose(s.workers, w, Idle);
    Settle(s.kept, s.drifted, InHand(s.workers[w := Idle]), multiset{job});
  }

  lemma JobsKept(u: Setup, s: State, a: Action)
    requires multiset(s.taken) == s.kept + s.drifted + InHand(s.workers) && Enabled(u, s, a)
    ensures var t := Step(u, s, a); multiset(t.taken) == t.kept + t.drifted + InHand(t.workers)
  {
    match a
    case Submit(_) =>
    case Take(w) => TakeKeepsJobs(u, s, w);
    case Count(w) => HandsSame(s.workers, w, Running(s.workers[w].job));
    case Finish(w, failed) => FinishKeepsJobs(u, s, w, failed);
    case Stop(w) => HandsSame(s.workers, w, Stopped);
  }

  lemma HandsSame(ws: seq<Worker>, w: nat, p: Worker)
    requires w < |ws| && Held(ws[w]) == Held(p)
    ensures InHand(ws[w := p]) == InHand(ws)
  {
    InHandUpdate(ws, w, p);
    Cancel(InHand(ws[w := p]), InHand(ws), Held(p));
  }

  lemma HandsGain(ws: seq<Worker>, w: nat, p: Worker)
    requires w < |ws| && Held(ws[w]) == multiset{}
    ensures InHand(ws[w := p]) == InHand(ws) + Held(p)
  {
    InHandUpdate(ws, w, p);
    Unit(InHand(ws[w := p]));
  }

  lemma HandsLose(ws: seq<Worker>, w: nat, p: Worker)
    requires w < |ws| && Held(p) == multiset{}
    ensures InHand(ws) == InHand(ws[w := p]) + Held(ws[w])
  {
    InHandUpdate(ws, w, p);
    Unit(InHand(ws));
  }

  lemma CountsKept(u: Setup, s: State, a: Action)
    requires Inv(u, s) && Enabled(u, s, a)
    ensures var t := Step(u, s, a);
            && t.counted + Uncounted(t.workers) == |t.taken|
            && t.filed + t.failed == |t.drifted|
            && (forall j :: j in t.kept ==> u.preserved(j))
            && (forall j :: j in t.drifted ==> !u.preserved(j))
  {
    if !a.Submit? {
      InHandUpdate(s.workers, a.w, Step(u, s, a).workers[a.w]);
    }
  }

  lemma {:induction false} RunKeepsInv(u: Setup, s: State, run: seq<Action>)
    requires Inv(u, s) && Possible(u, s, run)
    ensures Inv(u, After(u, s, run))
    decreases |run|
  {
    if run != [] {
      QueueKept(u, s, run[0]);
      JobsKept(u, s, run[0]);
      CountsKept(u, s, run[0]);
      WrappedKept(u, s, run[0]);
      RunKeepsInv(u, Step(u, s, run[0]), run[1..]);
    }
  }

  // ------------------------------------------------------------ conservation

  /**
    Under every interleaving: offers are queued or dropped, the queue is first-in first-out and
    bounded, every job taken is done or in one worker's hands, and the 64-bit counters say how many were
    dropped, processed, filed and failed.
    */
  lemma JobsAreConserved(u: Setup, s: State, run: seq<Action>)
    requires Initial(s) && Possible(u, s, run)
    ensures var t := After(u, s, run);
            && |t.queue| <= u.cap
            && t.accepted == t.taken + t.queue
            && t.offered == |t.taken| + |t.queue| + t.lost
            && multiset(t.taken) == t.kept + t.drifted + InHand(t.workers)
            && t.counted + Uncounted(t.workers) == |t.taken|
            && t.filed + t.failed == |t.drifted|
            && Wrapped(t)
            && (forall j :: j in t.kept ==> u.preserved(j)) && (forall j :: j in t.drifted ==> !u.preserved(j))
  {
    EmptyHands(s.workers);
    RunKeepsInv(u, s, run);
  }

  /** Once the queue is drained and no worker holds a job, every accepted job was judged exactly once. */
  lemma QuiescentAccount(u: Setup, s: State, run: seq<Action>)
    requires Initial(s) && Possible(u, s, run)
    requires var t := After(u, s, run);
             t.queue == [] && forall w :: 0 <= w < |t.workers| ==> t.workers[w].Idle? || t.workers[w].Stopped?
    ensures var t := After(u, s, run);
            && multiset(t.accepted) == t.kept + t.drifted
            && t.counted == |t.accepted| == |t.kept| + t.filed + t.failed
            && t.offered == t.counted + t.lost
            && Wrapped(t)
  {
    JobsAreConserved(u, s, run);
    var t := After(u, s, run);
    EmptyHands(t.workers);
    assert t.accepted == t.taken;
    Unit(t.kept + t.drifted);
    assert |multiset(t.taken)| == |t.taken|;
  }
}
