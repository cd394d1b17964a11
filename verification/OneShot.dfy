/** The EPOLLONESHOT hand-over: who may touch a connection, in every interleaving of main, the queue
    and the workers. */
module OneShot {
  import opened Wrappers

  type Conn = nat

  /** main before and behind its own re-arming of a connection; Dropping runs cb_func. */
  datatype Main = Free | Reading(c: Conn) | Writing(c: Conn) | Finishing(c: Conn) | Dropping(c: Conn)

  /** armed: registered with the kernel and ready to report; pending: reported in the current batch;
      closed: the workers that have closed the connection they still process. */
  datatype State = State(
    open: set<Conn>, armed: set<Conn>, pending: set<Conn>, main: Main, queue: seq<Conn>, workers: seq<Option<Conn>>,
    closed: set<nat>)

  datatype Step =
    | Wait(batch: set<Conn>)
    | Accept(c: Conn)
    | BeginRead(c: Conn)
    | BeginWrite(c: Conn)
    | Hangup(c: Conn)
    | ReadDone(accepted: bool)
    | ReadFails
    | WriteRearms
    | WriteFails
    | Finish(keepOpen: bool)
    | Drop
    | Reap(c: Conn)
    | WorkerTakes(w: nat)
    | WorkerCloses(w: nat)
    | WorkerRearms(w: nat)

  predicate Enabled(s: State, step: Step) {
    match step
    case Wait(batch) => s.main == Free && s.pending == {} && batch <= s.armed
    case Accept(c) => s.main == Free && c !in s.open
    case BeginRead(c) => s.main == Free && c in s.pending
    case BeginWrite(c) => s.main == Free && c in s.pending
    case Hangup(c) => s.main == Free && c in s.pending
    case ReadDone(_) => s.main.Reading?
    case ReadFails => s.main.Reading?
    case WriteRearms => s.main.Writing?
    case WriteFails => s.main.Writing?
    case Finish(_) => s.main.Finishing?
    case Drop => s.main.Dropping?
    case Reap(c) => s.main == Free && s.pending == {} && c in s.open
    case WorkerTakes(w) => w < |s.workers| && s.workers[w] == None && s.queue != []
    case WorkerCloses(w) => w < |s.workers| && s.workers[w].Some? && w !in s.closed
    case WorkerRearms(w) => w < |s.workers| && s.workers[w].Some?
  }

  function Apply(s: State, step: Step): State
    requires Enabled(s, step)
  {
    match step
    case Wait(batch) => s.(armed := s.armed - batch, pending := batch)
    // addfd comes first, the rest of init() behind it
    case Accept(c) => s.(open := s.open + {c}, armed := s.armed + {c}, main := Finishing(c))
    case BeginRead(c) => s.(pending := s.pending - {c}, main := Reading(c))
    case BeginWrite(c) => s.(pending := s.pending - {c}, main := Writing(c))
    case Hangup(c) => s.(pending := s.pending - {c}, main := Dropping(c))
    // append may refuse: nobody re-arms the connection then
    case ReadDone(accepted) => s.(main := Free, queue := if accepted then s.queue + [s.main.c] else s.queue)
    case ReadFails => s.(main := Dropping(s.main.c))
    // modfd, and then init() or the log line, or the close of a connection not kept
    case WriteRearms => s.(armed := s.armed + {s.main.c}, main := Finishing(s.main.c))
    case WriteFails => s.(main := Dropping(s.main.c))
    case Finish(keepOpen) => s.(main := if keepOpen then Free else Dropping(s.main.c))
    case Drop => s.(open := s.open - {s.main.c}, armed := s.armed - {s.main.c}, main := Free)
    case Reap(c) => s.(open := s.open - {c}, armed := s.armed - {c})
    case WorkerTakes(w) => s.(workers := s.workers[w := Some(s.queue[0])], queue := s.queue[1..])
    // close_conn, for an answer that process_write cannot give
    case WorkerCloses(w) =>
      var c := s.workers[w].value;
      s.(open := s.open - {c}, armed := s.armed - {c}, closed := s.closed + {w})
    // modfd, which fails for a descriptor that is not registered; one closed may have been accepted again
    case WorkerRearms(w) =>
      var c := s.workers[w].value;
      s.(armed := if c in s.open then s.armed + {c} else s.armed, workers := s.workers[w := None],
         closed := s.closed - {w})
  }

  /** tick does not reap a connection that is queued or in process, and no worker closes one. */
  predicate Tame(s: State, step: Step) {
    !step.WorkerCloses? && (step.Reap? ==> step.c !in s.queue && Some(step.c) !in s.workers)
  }

  ghost predicate Next(s: State, t: State) { exists step :: Enabled(s, step) && Tame(s, step) && t == Apply(s, step) }

  function Start(workers: nat): State { State({}, {}, {}, Free, [], seq(workers, _ => None), {}) }

  ghost predicate IsRun(run: seq<State>, workers: nat) {
    run != [] && run[0] == Start(workers) && forall i :: 0 <= i < |run| - 1 ==> Next(run[i], run[i + 1])
  }

  // ----- the invariant

  /** main works on the connection. */
  predicate MainHas(s: State, c: Conn) { s.main != Free && s.main.c == c }

  predicate QueuedOnce(s: State) {
    && (forall i, j :: 0 <= i < j < |s.queue| ==> s.queue[i] != s.queue[j])
    && (forall i, w :: 0 <= i < |s.queue| && 0 <= w < |s.workers| ==> s.workers[w] != Some(s.queue[i]))
    && (forall v, w :: 0 <= v < w < |s.workers| && s.workers[v].Some? ==> s.workers[v] != s.workers[w])
  }

  /** A connection with the workers, queued or in process: not reported, not with main, not armed. */
  predicate HandedOver(s: State, c: Conn) {
    c in s.open && c !in s.armed && c !in s.pending && !MainHas(s, c)
  }

  predicate Apart(s: State) {
    && (forall i :: 0 <= i < |s.queue| ==> HandedOver(s, s.queue[i]))
    && (forall w :: 0 <= w < |s.workers| && s.workers[w].Some? ==> HandedOver(s, s.workers[w].value))
    && s.armed !! s.pending && s.armed <= s.open && s.pending <= s.open && s.closed == {}
    && (s.main != Free ==> s.main.c in s.open && s.main.c !in s.pending)
    && (s.main.Reading? || s.main.Writing? ==> s.main.c !in s.armed)
  }

  lemma KeepsOnce(s: State, step: Step)
    requires QueuedOnce(s) && Apart(s) && Enabled(s, step)
    ensures QueuedOnce(Apply(s, step))
  {
    match step
    case ReadDone(accepted) =>
    case WorkerTakes(w) =>
    case WorkerRearms(w) =>
    case _ =>
  }

  lemma KeepsApart(s: State, step: Step)
    requires QueuedOnce(s) && Apart(s) && Enabled(s, step) && Tame(s, step)
    ensures Apart(Apply(s, step))
  {
  }

  lemma {:induction false} RunsKeepInv(run: seq<State>, workers: nat, n: nat)
    requires IsRun(run, workers) && n < |run|
    ensures QueuedOnce(run[n]) && Apart(run[n])
  {
    if n == 0 {
    } else {
      RunsKeepInv(run, workers, n - 1);
      hide QueuedOnce, Apart, Enabled, Apply, Tame;
      assert Next(run[n - 1], run[n]);
      var step :| Enabled(run[n - 1], step) && Tame(run[n - 1], step) && run[n] == Apply(run[n - 1], step);
      KeepsOnce(run[n - 1], step);
      KeepsApart(run[n - 1], step);
    }
  }

  // ----- what the runs promise

  /** Who works on a connection, or has it waiting: 0 main, 1 the queue, 2 and on the workers. */
  predicate Has(s: State, party: nat, c: Conn) {
    if party == 0 then MainHas(s, c)
    else if party == 1 then c in s.queue
    else party - 2 < |s.workers| && s.workers[party - 2] == Some(c)
  }

  /** One-shot ownership: a connection is with at most one of main, the queue and the workers, and is
      queued at most once. While it is queued or in process it cannot be reported. So a worker that
      re-arms it, and thereby gives it up, was the only one to touch it. */
  lemma OneOwner(run: seq<State>, workers: nat, n: nat, c: Conn, a: nat, b: nat)
    requires IsRun(run, workers) && n < |run| && Has(run[n], a, c) && Has(run[n], b, c)
    ensures a == b
    ensures a > 0 ==> c in run[n].open && c !in run[n].armed && c !in run[n].pending
    ensures forall i, j :: 0 <= i < j < |run[n].queue| ==> run[n].queue[i] != run[n].queue[j]
  {
    hide IsRun;
    RunsKeepInv(run, workers, n);
    var s := run[n];
    if a == 1 {
      var i :| 0 <= i < |s.queue| && s.queue[i] == c;
      assert HandedOver(s, s.queue[i]);
    }
    if b == 1 {
      var i :| 0 <= i < |s.queue| && s.queue[i] == c;
      assert HandedOver(s, s.queue[i]);
    }
  }

  /** A worker's re-arming is its last access: from then on only main can come to the connection. */
  lemma RearmGivesUp(run: seq<State>, workers: nat, n: nat, w: nat)
    requires IsRun(run, workers) && n < |run| && Enabled(run[n], WorkerRearms(w))
    ensures var c := run[n].workers[w].value;
            var t := Apply(run[n], WorkerRearms(w));
            c in t.armed && forall party: nat :: !Has(t, party, c)
  {
    hide IsRun;
    RunsKeepInv(run, workers, n);
    var s := run[n];
    var c := s.workers[w].value;
    var t := Apply(s, WorkerRearms(w));
    assert HandedOver(s, c);
    forall party: nat ensures !Has(t, party, c) {
      if party > 1 && party - 2 < |s.workers| && party - 2 != w {
        assert t.workers[party - 2] == s.workers[party - 2] != Some(c);
      }
    }
  }

  // ----- exactly the tame reaps keep it

  /** A run of given steps, Tame or not. */
  function Exec(s: State, steps: seq<Step>): Option<State>
    decreases |steps|
  {
    if steps == [] then Some(s)
    else if Enabled(s, steps[0]) then Exec(Apply(s, steps[0]), steps[1..])
    else None
  }

  /** Only Tame steps on the way. */
  predicate AllTame(s: State, steps: seq<Step>)
    decreases |steps|
  {
    steps == [] || !Enabled(s, steps[0]) || (Tame(s, steps[0]) && AllTame(Apply(s, steps[0]), steps[1..]))
  }

  /** Every connection is with at most one party. */
  ghost predicate SingleOwners(s: State) {
    forall c: Conn, a: nat, b: nat :: Has(s, a, c) && Has(s, b, c) ==> a == b
  }

  lemma InvOwnsSingly(s: State)
    requires QueuedOnce(s) && Apart(s)
    ensures SingleOwners(s)
  {
    forall c: Conn, a: nat, b: nat | Has(s, a, c) && Has(s, b, c) ensures a == b {
      if c in s.queue {
        var i :| 0 <= i < |s.queue| && s.queue[i] == c;
        assert HandedOver(s, s.queue[i]);
      }
    }
  }

  lemma {:induction false} TameRunsKeepInv(s: State, steps: seq<Step>)
    requires QueuedOnce(s) && Apart(s) && AllTame(s, steps) && Exec(s, steps).Some?
    ensures var t := Exec(s, steps).value; QueuedOnce(t) && Apart(t)
    decreases |steps|
  {
    hide QueuedOnce, Apart, Enabled, Apply, Tame;
    if steps == [] {
    } else {
      KeepsOnce(s, steps[0]);
      KeepsApart(s, steps[0]);
      TameRunsKeepInv(Apply(s, steps[0]), steps[1..]);
    }
  }

  lemma {:induction false} ExecJoins(s: State, a: seq<Step>, b: seq<Step>)
    requires AllTame(s, a) && Exec(s, a).Some?
    ensures var t := Exec(s, a).value; Exec(s, a + b) == Exec(t, b) && (AllTame(s, a + b) <==> AllTame(t, b))
    decreases |a|
  {
    hide Enabled, Apply, Tame;
    if a == [] {
      assert a + b == b;
    } else {
      assert (a + b)[1..] == a[1..] + b && (a + b)[0] == a[0];
      ExecJoins(Apply(s, a[0]), a[1..], b);
    }
  }

  lemma ExecNothing(s: State)
    ensures Exec(s, []) == Some(s) && AllTame(s, [])
  {
  }

  lemma ExecOne(s: State, step: Step)
    requires Enabled(s, step) && Tame(s, step)
    ensures Exec(s, [step]) == Some(Apply(s, step)) && AllTame(s, [step])
  {
    hide Enabled, Apply, Tame;
    assert [step][1..] == [];
    ExecNothing(Apply(s, step));
  }

  /** t comes from s by tame steps. */
  ghost predicate Leads(s: State, t: State) { exists steps :: AllTame(s, steps) && Exec(s, steps) == Some(t) }

  lemma LeadsByStep(s: State, t: State, step: Step)
    requires Leads(s, t) && Enabled(t, step) && Tame(t, step)
    ensures Leads(s, Apply(t, step))
  {
    hide Enabled, Apply, Tame, Exec, AllTame;
    var steps :| AllTame(s, steps) && Exec(s, steps) == Some(t);
    ExecOne(t, step);
    ExecJoins(s, steps, [step]);
  }

  lemma LeadsToItself(s: State)
    ensures Leads(s, s)
  {
    ExecNothing(s);
  }

  // ----- main can finish what it has begun

  /** The connection is closed, but the queue or a worker still has it. */
  predicate LeftBehind(s: State, c: Conn) {
    c !in s.open && c !in s.armed && c !in s.pending && !MainHas(s, c) && (c in s.queue || Some(c) in s.workers)
  }

  /** main gets free, whatever it is doing. */
  lemma MainFinishes(s: State, t: State, c: Conn) returns (u: State)
    requires Leads(s, t) && LeftBehind(t, c)
    ensures Leads(s, u) && LeftBehind(u, c) && u.main == Free && u.pending == t.pending
  {
    hide Leads;
    u := t;
    if u.main.Reading? {
      LeadsByStep(s, u, ReadDone(false));
      u := Apply(u, ReadDone(false));
    } else if u.main.Writing? {
      LeadsByStep(s, u, WriteRearms);
      u := Apply(u, WriteRearms);
    }
    if u.main.Finishing? {
      LeadsByStep(s, u, Finish(true));
      u := Apply(u, Finish(true));
    } else if u.main.Dropping? {
      LeadsByStep(s, u, Drop);
      u := Apply(u, Drop);
    }
  }

  /** And the batch ends. */
  lemma BatchFinishes(s: State, t: State, c: Conn) returns (u: State)
    requires Leads(s, t) && LeftBehind(t, c) && t.main == Free
    ensures Leads(s, u) && LeftBehind(u, c) && u.main == Free && u.pending == {}
    decreases |t.pending|
  {
    hide Leads;
    if t.pending == {} {
      u := t;
    } else {
      var d :| d in t.pending;
      LeadsByStep(s, t, BeginRead(d));
      var t1 := Apply(t, BeginRead(d));
      assert t1.pending < t.pending;
      SmallerSet(t1.pending, t.pending);
      var t2 := MainFinishes(s, t1, c);
      u := BatchFinishes(s, t2, c);
    }
  }

  lemma SmallerSet(a: set<Conn>, b: set<Conn>)
    requires a < b
    ensures |a| < |b|
  {
    assert b == a + (b - a);
    var d :| d in b - a;
  }

  /** The descriptor is accepted anew, kept, reported and read, and then two have the connection. */
  lemma ComesBack(s: State, t: State, c: Conn) returns (u: State)
    requires Leads(s, t) && LeftBehind(t, c) && t.main == Free && t.pending == {}
    ensures Leads(s, u) && MainHas(u, c) && (c in u.queue || Some(c) in u.workers) && !SingleOwners(u)
    ensures Enabled(u, ReadDone(true)) && Apply(u, ReadDone(true)).queue == t.queue + [c]
  {
    hide Leads;
    LeadsByStep(s, t, Accept(c));
    var t1 := Apply(t, Accept(c));
    LeadsByStep(s, t1, Finish(true));
    var t2 := Apply(t1, Finish(true));
    LeadsByStep(s, t2, Wait({c}));
    var t3 := Apply(t2, Wait({c}));
    LeadsByStep(s, t3, BeginRead(c));
    u := Apply(t3, BeginRead(c));
    assert Has(u, 0, c);
    if c in u.queue {
      assert Has(u, 1, c);
    } else {
      var w :| 0 <= w < |u.workers| && u.workers[w] == Some(c);
      assert Has(u, w + 2, c);
    }
  }

  /** A connection left behind can come to be with main as well, by tame steps alone; and main can then
      queue it, a second time if it was queued. */
  lemma LeftBehindBreaks(s: State, c: Conn) returns (u: State)
    requires LeftBehind(s, c)
    ensures Leads(s, u) && MainHas(u, c) && (c in u.queue || Some(c) in u.workers) && !SingleOwners(u)
    ensures Enabled(u, ReadDone(true)) && c in Apply(u, ReadDone(true)).queue
  {
    hide Leads;
    LeadsToItself(s);
    var t := MainFinishes(s, s, c);
    t := BatchFinishes(s, t, c);
    u := ComesBack(s, t, c);
    assert Apply(u, ReadDone(true)).queue[|t.queue|] == c;
  }

  /** The steps by which a handed-over connection is closed: a reap, or the worker's own close. */
  predicate Closes(s: State, step: Step) { step.Reap? || step.WorkerCloses? }

  function Closed(s: State, step: Step): Conn
    requires Enabled(s, step) && Closes(s, step)
  {
    if step.Reap? then step.c else s.workers[step.w].value
  }

  /** In any state, an untame close leaves its connection behind, if only the kernel and main have let go
      of it. */
  lemma UntameLeavesBehind(s: State, step: Step)
    requires Enabled(s, step) && Closes(s, step) && !Tame(s, step)
    requires step.WorkerCloses? ==> HandedOver(s, s.workers[step.w].value)
    ensures LeftBehind(Apply(s, step), Closed(s, step))
  {
  }

  /** In any state, tick reaping a connection that the queue or a worker has. */
  lemma ReapingHandedOverBreaks(s: State, c: Conn) returns (u: State)
    requires Enabled(s, Reap(c)) && !Tame(s, Reap(c))
    ensures Leads(Apply(s, Reap(c)), u) && !SingleOwners(u)
  {
    UntameLeavesBehind(s, Reap(c));
    u := LeftBehindBreaks(Apply(s, Reap(c)), c);
  }

  /** In any state where the worker alone has it, a worker closing its connection. */
  lemma WorkerCloseBreaks(s: State, w: nat) returns (u: State)
    requires Enabled(s, WorkerCloses(w)) && HandedOver(s, s.workers[w].value)
    ensures Leads(Apply(s, WorkerCloses(w)), u) && !SingleOwners(u)
  {
    UntameLeavesBehind(s, WorkerCloses(w));
    u := LeftBehindBreaks(Apply(s, WorkerCloses(w)), s.workers[w].value);
  }

  /** In any state a tame run reaches, a step keeps every connection with a single owner, however the run
      goes on by tame steps, exactly if it is tame: tick reaps nothing that is queued or in process, and
      no worker closes its connection. */
  lemma OwnershipExactly(run: seq<State>, workers: nat, n: nat, step: Step)
    requires IsRun(run, workers) && n < |run| && Enabled(run[n], step)
    ensures Tame(run[n], step) <==> forall t :: Leads(Apply(run[n], step), t) ==> SingleOwners(t)
  {
    hide IsRun, Exec, AllTame, SingleOwners, Leads, QueuedOnce;
    RunsKeepInv(run, workers, n);
    var s := run[n];
    if Tame(s, step) {
      KeepsOnce(s, step);
      KeepsApart(s, step);
      var u := Apply(s, step);
      hide Apart, Tame, Apply, Enabled;
      forall t | Leads(u, t) ensures SingleOwners(t) {
        TameKeepsOwners(u, t);
      }
    } else if step.Reap? {
      var u := ReapingHandedOverBreaks(s, step.c);
    } else {
      var u := WorkerCloseBreaks(s, step.w);
    }
  }

  lemma TameKeepsOwners(u: State, t: State)
    requires QueuedOnce(u) && Apart(u) && Leads(u, t)
    ensures SingleOwners(t)
  {
    hide QueuedOnce, Apart, Exec, AllTame, SingleOwners;
    var steps :| AllTame(u, steps) && Exec(u, steps) == Some(t);
    TameRunsKeepInv(u, steps);
    InvOwnsSingly(t);
  }
}
