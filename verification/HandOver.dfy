/** What main's and the workers' sequences of one-shot steps come to, for a connection reported alone. */
module HandOver {
  import opened Wrappers
  import opened OneShot

  /** A step that can be taken, and what it leads to. */
  predicate Steps(s: State, step: Step, t: State) { Enabled(s, step) && t == Apply(s, step) }

  /** Accepting: open and armed. */
  lemma AcceptRound(s: State, c: Conn) returns (t: State)
    requires Enabled(s, Accept(c))
    ensures exists u :: Steps(s, Accept(c), u) && Steps(u, Finish(true), t)
    ensures t == s.(open := s.open + {c}, armed := s.armed + {c})
  {
    var u := Apply(s, Accept(c));
    t := Apply(u, Finish(true));
    assert Steps(s, Accept(c), u) && Steps(u, Finish(true), t);
  }

  /** Reading: the connection is disarmed and last in the queue; or, if the pool refuses it, only disarmed;
      or, if reading fails, closed. */
  lemma ReadRound(s: State, c: Conn) returns (queued: State, refused: State, closed: State)
    requires Enabled(s, Wait({c})) && c in s.armed
    ensures exists u, v :: Steps(s, Wait({c}), u) && Steps(u, BeginRead(c), v)
              && Steps(v, ReadDone(true), queued) && Steps(v, ReadDone(false), refused)
              && exists w :: Steps(v, ReadFails, w) && Steps(w, Drop, closed)
    ensures queued == s.(armed := s.armed - {c}, queue := s.queue + [c])
    ensures refused == s.(armed := s.armed - {c})
    ensures closed == s.(armed := s.armed - {c}, open := s.open - {c})
  {
    var u := Apply(s, Wait({c}));
    var v := Apply(u, BeginRead(c));
    queued := Apply(v, ReadDone(true));
    refused := Apply(v, ReadDone(false));
    var w := Apply(v, ReadFails);
    closed := Apply(w, Drop);
    assert Steps(s, Wait({c}), u) && Steps(u, BeginRead(c), v);
    assert Steps(v, ReadDone(true), queued) && Steps(v, ReadDone(false), refused);
    assert Steps(v, ReadFails, w) && Steps(w, Drop, closed);
  }

  /** Processing: an idle worker takes the first connection of the queue, and arms it when it is done. */
  lemma WorkerRound(s: State, w: nat) returns (taken: State, done: State)
    requires Enabled(s, WorkerTakes(w)) && s.queue[0] in s.open && w !in s.closed
    ensures Steps(s, WorkerTakes(w), taken) && Steps(taken, WorkerRearms(w), done)
    ensures taken == s.(workers := s.workers[w := Some(s.queue[0])], queue := s.queue[1..])
    ensures done == s.(queue := s.queue[1..], armed := s.armed + {s.queue[0]})
  {
    taken := Apply(s, WorkerTakes(w));
    done := Apply(taken, WorkerRearms(w));
    assert s.workers[w := Some(s.queue[0])][w := None] == s.workers;
  }

  /** Writing: the connection is armed again, at once and still when main is done with it; or closed, if it
      is not kept or writing fails. */
  lemma WriteRound(s: State, c: Conn) returns (armed: State, kept: State, closed: State)
    requires Enabled(s, Wait({c})) && c in s.armed
    ensures exists u, v :: Steps(s, Wait({c}), u) && Steps(u, BeginWrite(c), v)
              && Steps(v, WriteRearms, armed) && Steps(armed, Finish(true), kept)
              && (exists w :: Steps(armed, Finish(false), w) && Steps(w, Drop, closed))
              && exists w :: Steps(v, WriteFails, w) && Steps(w, Drop, closed)
    ensures armed == s.(main := Finishing(c)) && kept == s
    ensures closed == s.(armed := s.armed - {c}, open := s.open - {c})
  {
    var u := Apply(s, Wait({c}));
    var v := Apply(u, BeginWrite(c));
    armed := Apply(v, WriteRearms);
    kept := Apply(armed, Finish(true));
    assert s.armed - {c} + {c} == s.armed;
    var w := Apply(armed, Finish(false));
    closed := Apply(w, Drop);
    assert Steps(s, Wait({c}), u) && Steps(u, BeginWrite(c), v);
    assert Steps(v, WriteRearms, armed) && Steps(armed, Finish(true), kept);
    assert Steps(armed, Finish(false), w) && Steps(w, Drop, closed);
    var x := Apply(v, WriteFails);
    assert Apply(x, Drop) == closed;
    assert Steps(v, WriteFails, x) && Steps(x, Drop, closed);
  }

  /** A hang-up reported, or a reap by tick: closed. */
  lemma CloseRound(s: State, c: Conn) returns (closed: State)
    requires Enabled(s, Wait({c})) && c in s.armed && c in s.open
    ensures exists u, v :: Steps(s, Wait({c}), u) && Steps(u, Hangup(c), v) && Steps(v, Drop, closed)
    ensures Steps(s, Reap(c), closed)
    ensures closed == s.(armed := s.armed - {c}, open := s.open - {c})
  {
    var u := Apply(s, Wait({c}));
    var v := Apply(u, Hangup(c));
    closed := Apply(v, Drop);
    assert Steps(s, Wait({c}), u) && Steps(u, Hangup(c), v) && Steps(v, Drop, closed);
  }
}
