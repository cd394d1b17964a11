/** write(): a header and a file handed to the kernel by writev, however little it takes at a time.
    Bytes are followed by where they are read from, so sending the wrong byte shows even if its
    value happens to be right. */
module Sending {

  datatype Loc = HeaderByte(i: int) | FileByte(i: int)

  /** header: m_write_idx; file: the mapped size, 0 if one iovec is used. */
  datatype Job = Job(header: nat, file: nat)

  /** The two iovecs as offsets and lengths, the two counters, and the bytes the kernel has taken. */
  datatype Transfer = Transfer(base0: int, len0: nat, base1: int, len1: nat, have: nat, toSend: int, handed: seq<Loc>)

  function Total(job: Job): nat { job.header + job.file }

  function HeaderLocs(from: int, n: nat): seq<Loc> { seq(n, i requires 0 <= i < n => HeaderByte(from + i)) }

  function FileLocs(from: int, n: nat): seq<Loc> { seq(n, i requires 0 <= i < n => FileByte(from + i)) }

  /** The response: header and then file. */
  function Whole(job: Job): (w: seq<Loc>)
    ensures |w| == Total(job)
  {
    HeaderLocs(0, job.header) + FileLocs(0, job.file)
  }

  /** process_write's iovecs and counters. */
  function Start(job: Job): Transfer { Transfer(0, job.header, 0, job.file, 0, Total(job), []) }

  /** What writev would read, were it to take everything. */
  function Offered(job: Job, t: Transfer): seq<Loc> {
    HeaderLocs(t.base0, t.len0) + if job.file > 0 then FileLocs(t.base1, t.len1) else []
  }

  /** Iovecs and counters never promise more than is left. */
  predicate Bounded(t: Transfer) { t.len0 + t.len1 <= t.toSend }

  /** One writev that takes n bytes, and what write() makes of the count. The length of the first
      iovec is compared with, and reduced by, all bytes sent so far, not the n just sent. */
  function Accept(job: Job, t: Transfer, n: nat): (r: Transfer)
    requires Bounded(t) && n <= |Offered(job, t)|
    ensures Bounded(r) && r.have + r.toSend == t.have + t.toSend
  {
    var u := t.(have := t.have + n, toSend := t.toSend - n, handed := t.handed + Offered(job, t)[..n]);
    if u.have >= u.len0 then u.(len0 := 0, base1 := u.have - job.header, len1 := u.toSend)
    else u.(base0 := u.have, len0 := u.len0 - u.have)
  }

  /** ns are counts of successive positive writev returns, up to the last byte at most. */
  predicate Possible(job: Job, t: Transfer, ns: seq<nat>)
    requires Bounded(t)
    decreases |ns|
  {
    ns == [] || (1 <= ns[0] <= |Offered(job, t)| && Possible(job, Accept(job, t, ns[0]), ns[1..]))
  }

  function Replay(job: Job, t: Transfer, ns: seq<nat>): (r: Transfer)
    requires Bounded(t) && Possible(job, t, ns)
    ensures Bounded(r) && r.have + r.toSend == t.have + t.toSend
    decreases |ns|
  {
    if ns == [] then t else Replay(job, Accept(job, t, ns[0]), ns[1..])
  }

  /** How many returns leave the sent bytes ending strictly inside the header. */
  function EndsInside(job: Job, have: nat, ns: seq<nat>): nat
    decreases |ns|
  {
    if ns == [] then 0
    else (if have + ns[0] < job.header then 1 else 0) + EndsInside(job, have + ns[0], ns[1..])
  }

  // ----- the states a run goes through

  /** As it should be, after k returns inside the header. */
  predicate Sound(job: Job, t: Transfer, k: nat) {
    && t.have + t.toSend == Total(job) && t.have <= Total(job)
    && t.handed == Whole(job)[..t.have]
    && if t.have < job.header then
         k <= 1 && (k == 0 <==> t.have == 0) && t.base0 == t.have && t.len0 == job.header - t.have
         && t.base1 == 0 && t.len1 == job.file
       else t.len0 == 0 && t.base1 == t.have - job.header && t.len1 == t.toSend
  }

  /** The first iovec is too short, or its end has been taken for reached; nothing wrong sent yet. */
  predicate Doomed(job: Job, t: Transfer) {
    && t.have + t.toSend == Total(job)
    && t.have < job.header && t.handed == Whole(job)[..t.have]
    && if t.len0 == 0 then t.base1 == t.have - job.header
       else t.base0 == t.have && t.have + t.len0 < job.header && t.base1 == 0
  }

  predicate Wrong(job: Job, t: Transfer) {
    && t.have + t.toSend == Total(job)
    && |t.handed| == t.have
    && exists i :: 0 <= i < |t.handed| && i < Total(job) && t.handed[i] != Whole(job)[i]
  }

  lemma SoundStep(job: Job, t: Transfer, k: nat, n: nat)
    requires Bounded(t) && Sound(job, t, k) && 1 <= n <= |Offered(job, t)|
    ensures var u := Accept(job, t, n);
            if u.have >= job.header then Sound(job, u, k)
            else if k == 0 then Sound(job, u, 1)
            else Doomed(job, u)
  {
    var u := Accept(job, t, n);
    assert Offered(job, t) == Whole(job)[t.have..] ;
    assert u.handed == Whole(job)[..u.have];
  }

  lemma DoomedStep(job: Job, t: Transfer, n: nat)
    requires Bounded(t) && Doomed(job, t) && 1 <= n <= |Offered(job, t)|
    ensures var u := Accept(job, t, n); Doomed(job, u) || Wrong(job, u)
  {
    var u := Accept(job, t, n);
    var o := Offered(job, t);
    if n <= t.len0 {
      assert o[..n] == Whole(job)[t.have..t.have + n];
      assert u.handed == Whole(job)[..u.have];
    } else {
      var i := t.have + t.len0;
      assert o[t.len0] == FileByte(t.base1);
      assert u.handed[i] == o[t.len0] && Whole(job)[i] == HeaderByte(i);
    }
  }

  lemma WrongStep(job: Job, t: Transfer, n: nat)
    requires Bounded(t) && Wrong(job, t) && n <= |Offered(job, t)|
    ensures Wrong(job, Accept(job, t, n))
  {
    var i :| 0 <= i < |t.handed| && i < Total(job) && t.handed[i] != Whole(job)[i];
    assert Accept(job, t, n).handed[i] == t.handed[i];
  }

  lemma {:induction false} RunOutcome(job: Job, t: Transfer, ns: seq<nat>, k: nat)
    requires Bounded(t) && Possible(job, t, ns) && k <= 1
    requires Sound(job, t, k)
    ensures var u := Replay(job, t, ns);
            var inside := k + EndsInside(job, t.have, ns);
            if inside <= 1 then Sound(job, u, inside) else Doomed(job, u) || Wrong(job, u)
    decreases |ns|
  {
    hide Sound, Doomed, Wrong, Offered, Whole;
    if ns == [] {
    } else {
      var n := ns[0];
      var u := Accept(job, t, n);
      SoundStep(job, t, k, n);
      if u.have >= job.header || k == 0 {
        RunOutcome(job, u, ns[1..], if u.have < job.header then 1 else k);
      } else {
        DoomedRun(job, u, ns[1..]);
      }
    }
  }

  lemma {:induction false} DoomedRun(job: Job, t: Transfer, ns: seq<nat>)
    requires Bounded(t) && Possible(job, t, ns) && (Doomed(job, t) || Wrong(job, t))
    ensures var u := Replay(job, t, ns); Doomed(job, u) || Wrong(job, u)
    decreases |ns|
  {
    if ns == [] {
    } else {
      if Wrong(job, t) { WrongStep(job, t, ns[0]); } else { DoomedStep(job, t, ns[0]); }
      DoomedRun(job, Accept(job, t, ns[0]), ns[1..]);
    }
  }

  /** Resumable send. In every run the counters add up. With at most one return ending strictly inside
      the header, the bytes taken are a prefix of header and file, everything left is offered, and so
      the run ends with exactly the response. With more, a finished run has sent a wrong byte. */
  lemma SentExactly(job: Job, ns: seq<nat>)
    requires job.header > 0 && Possible(job, Start(job), ns)
    ensures var u := Replay(job, Start(job), ns);
            && u.have + u.toSend == Total(job)
            && (EndsInside(job, 0, ns) <= 1 ==>
                  && u.handed == Whole(job)[..u.have] && |Offered(job, u)| == u.toSend)
            && (u.toSend <= 0 ==> (u.handed == Whole(job) <==> EndsInside(job, 0, ns) <= 1))
  {
    var u := Replay(job, Start(job), ns);
    RunOutcome(job, Start(job), ns, 0);
    assert Whole(job)[..Total(job)] == Whole(job);
  }

  /** Every positive return brings the end nearer: a run has at most as many as there are bytes. */
  lemma {:induction false} RunsEnd(job: Job, t: Transfer, ns: seq<nat>)
    requires Bounded(t) && Possible(job, t, ns)
    ensures |ns| + Replay(job, t, ns).toSend <= t.toSend
    decreases |ns|
  {
    if ns == [] {
    } else {
      RunsEnd(job, Accept(job, t, ns[0]), ns[1..]);
    }
  }

  /** A header alone that has been cut twice stays doomed: what is sent is right, but some is left. */
  lemma {:induction false} HeaderOnlyStaysDoomed(job: Job, t: Transfer, ns: seq<nat>)
    requires Bounded(t) && Possible(job, t, ns) && Doomed(job, t) && job.file == 0
    ensures Doomed(job, Replay(job, t, ns))
    decreases |ns|
  {
    if ns == [] {
    } else {
      DoomedHeaderStep(job, t, ns[0]);
      HeaderOnlyStaysDoomed(job, Accept(job, t, ns[0]), ns[1..]);
    }
  }

  lemma DoomedHeaderStep(job: Job, t: Transfer, n: nat)
    requires Bounded(t) && Doomed(job, t) && job.file == 0 && 1 <= n <= |Offered(job, t)|
    ensures Doomed(job, Accept(job, t, n))
  {
    var u := Accept(job, t, n);
    assert Offered(job, t)[..n] == Whole(job)[t.have..t.have + n];
    assert u.handed == Whole(job)[..u.have];
  }

  lemma {:induction false} HeaderOnlyLeavesSome(job: Job, t: Transfer, ns: seq<nat>, k: nat)
    requires Bounded(t) && Possible(job, t, ns) && k <= 1 && Sound(job, t, k) && job.file == 0
    requires k + EndsInside(job, t.have, ns) >= 2
    ensures Doomed(job, Replay(job, t, ns))
    decreases |ns|
  {
    hide Sound, Doomed, Wrong, Offered, Whole;
    if ns == [] {
    } else {
      var n := ns[0];
      var u := Accept(job, t, n);
      SoundStep(job, t, k, n);
      if u.have >= job.header || k == 0 {
        HeaderOnlyLeavesSome(job, u, ns[1..], if u.have < job.header then 1 else k);
      } else {
        HeaderOnlyStaysDoomed(job, u, ns[1..]);
      }
    }
  }

  /** Past the first iovec, the second is offered whole. */
  predicate Offers(t: Transfer) { t.len0 > 0 || t.len1 == t.toSend }

  lemma {:induction false} RunsOffer(job: Job, t: Transfer, ns: seq<nat>)
    requires Bounded(t) && Possible(job, t, ns) && Offers(t)
    ensures Offers(Replay(job, t, ns))
    decreases |ns|
  {
    if ns == [] {
    } else {
      RunsOffer(job, Accept(job, t, ns[0]), ns[1..]);
    }
  }

  /** A run that can go no further, since writev is offered nothing, has something left exactly if the
      answer is a header alone and two returns ended strictly inside it. */
  lemma StuckExactly(job: Job, ns: seq<nat>)
    requires job.header > 0 && Possible(job, Start(job), ns)
    ensures var u := Replay(job, Start(job), ns);
            && (job.file == 0 && EndsInside(job, 0, ns) >= 2 ==> u.toSend > 0)
            && (Offered(job, u) == [] ==> (u.toSend > 0 <==> job.file == 0 && EndsInside(job, 0, ns) >= 2))
  {
    var t := Start(job);
    var u := Replay(job, t, ns);
    RunsOffer(job, t, ns);
    if EndsInside(job, 0, ns) <= 1 {
      SentExactly(job, ns);
    } else if job.file == 0 {
      HeaderOnlyLeavesSome(job, t, ns, 0);
    } else if Offered(job, u) == [] {
      OfferedNothing(job, u);
    }
  }

  lemma OfferedNothing(job: Job, t: Transfer)
    requires job.file > 0 && Offers(t) && Offered(job, t) == []
    ensures t.toSend == 0
  {
    assert |Offered(job, t)| == t.len0 + t.len1;
  }

  /** From there on write() loops for ever: whatever writev answers, nothing more is sent. */
  lemma {:induction false} StuckForever(job: Job, t: Transfer, replies: seq<Reply>)
    requires Bounded(t) && job.file == 0 && Offered(job, t) == []
    ensures var u := After(job, t, replies);
            u.toSend == t.toSend && u.handed == t.handed && Offered(job, u) == []
    decreases |replies|
  {
    if replies == [] {
    } else {
      var front := replies[..|replies| - 1];
      StuckForever(job, t, front);
      NothingAccepted(job, After(job, t, front));
    }
  }

  lemma NothingAccepted(job: Job, t: Transfer)
    requires Bounded(t) && job.file == 0 && Offered(job, t) == []
    ensures var u := Accept(job, t, 0); u.toSend == t.toSend && u.handed == t.handed && Offered(job, u) == []
  {
    assert |HeaderLocs(t.base0, t.len0)| == t.len0;
    assert t.handed + [] == t.handed;
  }

  /** A ten-byte header, of which 3, 3 and 1 bytes are taken, and then no more. */
  lemma StuckHeader()
    ensures var job := Job(10, 0);
            Possible(job, Start(job), [3, 3, 1]) && EndsInside(job, 0, [3, 3, 1]) == 3
            && var u := Replay(job, Start(job), [3, 3, 1]); u.toSend == 3 && Offered(job, u) == []
  {
    var job := Job(10, 0);
    var t1 := Accept(job, Start(job), 3);
    var t2 := Accept(job, t1, 3);
    assert t1 == Transfer(3, 7, 0, 0, 3, 7, t1.handed);
    assert t2 == Transfer(6, 1, 0, 0, 6, 4, t2.handed);
    var t3 := Accept(job, t2, 1);
    assert t3.toSend == 3 && t3.len0 == 0;
    assert [3, 3, 1][1..] == [3, 1] && [3, 1][1..] == [1] && [1][1..] == [];
    assert EndsInside(job, 6, [1]) == 1;
  }

  /** The condition is needed: ten header bytes and a file, of which 3, 3 and 7 bytes are taken. */
  lemma TwoReturnsInsideHeader()
    ensures var job := Job(10, 6);
            Possible(job, Start(job), [3, 3, 7]) && EndsInside(job, 0, [3, 3, 7]) == 2
            && Replay(job, Start(job), [3, 3, 7]).handed != Whole(job)[..13]
  {
    var job := Job(10, 6);
    var t1 := Accept(job, Start(job), 3);
    var t2 := Accept(job, t1, 3);
    assert t1 == Transfer(3, 7, 0, 6, 3, 13, t1.handed);
    assert t2 == Transfer(6, 1, 0, 6, 6, 10, t2.handed);
    var t3 := Accept(job, t2, 7);
    assert t3.handed[7] == Offered(job, t2)[1] == FileByte(0);
    assert [3, 3, 7][1..] == [3, 7] && [3, 7][1..] == [7] && [7][1..] == [];
    assert EndsInside(job, 6, [7]) == 0;
  }

  // ----- the method

  /** What one writev answers. */
  datatype Reply = Took(n: nat) | WouldBlock | Failed

  /** What write() answers: true after EAGAIN, true or false after the last byte, false after an error;
      StillLooping when the replies given are used up. */
  datatype WriteResult = Again | Finished(keepOpen: bool) | Broken | StillLooping

  datatype Interest = Reading | Writing

  function Taken(job: Job, t: Transfer, r: Reply): nat {
    if !r.Took? then 0 else if r.n < |Offered(job, t)| then r.n else |Offered(job, t)|
  }

  /** The transfer after some replies; EAGAIN only means that write() is entered again. */
  function After(job: Job, t: Transfer, replies: seq<Reply>): (r: Transfer)
    requires Bounded(t)
    ensures Bounded(r) && r.have + r.toSend == t.have + t.toSend
  {
    if replies == [] then t
    else
      var before := After(job, t, replies[..|replies| - 1]);
      var last := replies[|replies| - 1];
      if last.Took? then Accept(job, before, Taken(job, before, last)) else before
  }

  /** The counts of the returns in a run of replies. */
  function CountsOf(job: Job, t: Transfer, replies: seq<Reply>): seq<nat>
    requires Bounded(t)
  {
    if replies == [] then []
    else
      var front := replies[..|replies| - 1];
      var last := replies[|replies| - 1];
      CountsOf(job, t, front) + if last.Took? then [Taken(job, After(job, t, front), last)] else []
  }

  lemma {:induction false} PossibleAppend(job: Job, t: Transfer, ns: seq<nat>, n: nat)
    requires Bounded(t) && Possible(job, t, ns) && 1 <= n <= |Offered(job, Replay(job, t, ns))|
    ensures Possible(job, t, ns + [n]) && Replay(job, t, ns + [n]) == Accept(job, Replay(job, t, ns), n)
    decreases |ns|
  {
    if ns == [] {
      assert ([] + [n])[1..] == [];
    } else {
      assert (ns + [n])[1..] == ns[1..] + [n];
      PossibleAppend(job, Accept(job, t, ns[0]), ns[1..], n);
    }
  }

  /** A run of replies is the run of its counts: leaving and re-entering write() changes nothing. */
  lemma {:induction false} ReentryIsInvisible(job: Job, t: Transfer, replies: seq<Reply>)
    requires Bounded(t)
    requires forall n :: n in CountsOf(job, t, replies) ==> n >= 1
    ensures Possible(job, t, CountsOf(job, t, replies))
    ensures After(job, t, replies) == Replay(job, t, CountsOf(job, t, replies))
    decreases |replies|
  {
    if replies == [] {
    } else {
      var front := replies[..|replies| - 1];
      var last := replies[|replies| - 1];
      var ns := CountsOf(job, t, front);
      assert forall n :: n in ns ==> n in CountsOf(job, t, replies);
      ReentryIsInvisible(job, t, front);
      if last.Took? {
        var n := Taken(job, After(job, t, front), last);
        assert n in CountsOf(job, t, replies);
        PossibleAppend(job, t, ns, n);
      } else {
        assert ns + [] == ns;
      }
    }
  }

  /** Two runs of counts, one after the other, are one run. */
  lemma {:induction false} ReplayJoins(job: Job, t: Transfer, a: seq<nat>, b: seq<nat>)
    requires Bounded(t) && Possible(job, t, a) && Possible(job, Replay(job, t, a), b)
    ensures Possible(job, t, a + b) && Replay(job, t, a + b) == Replay(job, Replay(job, t, a), b)
    decreases |a|
  {
    if a == [] {
      assert a + b == b;
    } else {
      assert (a + b)[1..] == a[1..] + b;
      ReplayJoins(job, Accept(job, t, a[0]), a[1..], b);
    }
  }

  /** Likewise the replies of two calls of write(). */
  lemma {:induction false} CallsJoin(job: Job, t: Transfer, a: seq<Reply>, b: seq<Reply>)
    requires Bounded(t)
    ensures After(job, t, a + b) == After(job, After(job, t, a), b)
    ensures CountsOf(job, t, a + b) == CountsOf(job, t, a) + CountsOf(job, After(job, t, a), b)
    decreases |b|
  {
    if b == [] {
      assert a + b == a;
    } else {
      var front := b[..|b| - 1];
      assert (a + b)[..|a + b| - 1] == a + front;
      CallsJoin(job, t, a, front);
    }
  }

  /** What SentExactly says, for replies. */
  lemma RepliesSendExactly(job: Job, replies: seq<Reply>)
    requires job.header > 0
    requires forall n :: n in CountsOf(job, Start(job), replies) ==> n >= 1
    ensures var u := After(job, Start(job), replies);
            var inside := EndsInside(job, 0, CountsOf(job, Start(job), replies));
            && (inside <= 1 ==> u.handed <= Whole(job))
            && (u.toSend <= 0 ==> (u.handed == Whole(job) <==> inside <= 1))
  {
    hide After, CountsOf, Replay, Whole, EndsInside;
    ReentryIsInvisible(job, Start(job), replies);
    SentExactly(job, CountsOf(job, Start(job), replies));
  }

  class Sender {
    const job: Job
    const linger: bool
    var base0: int
    var len0: int
    var base1: int
    var len1: int
    var bytesHaveSend: int
    var bytesToSend: int
    var interest: Interest
    var mapped: bool
    ghost var handed: seq<Loc>

    ghost predicate Valid()
      reads this
    {
      0 <= len0 && 0 <= len1 && 0 <= bytesHaveSend && len0 + len1 <= bytesToSend
    }

    ghost function State(): Transfer
      requires Valid()
      reads this
    {
      Transfer(base0, len0, base1, len1, bytesHaveSend, bytesToSend, handed)
    }

    constructor (job: Job, linger: bool)
      ensures Valid() && this.job == job && this.linger == linger && State() == Start(job)
    {
      this.job, this.linger := job, linger;
      base0, len0, base1, len1 := 0, job.header, 0, job.file;
      bytesHaveSend, bytesToSend := 0, job.header + job.file;
      interest, mapped, handed := Writing, job.file > 0, [];
    }

    /** write(): used tells how many replies this call consumed. */
    method Write(replies: seq<Reply>) returns (result: WriteResult, used: nat)
      requires Valid()
      modifies this
      ensures used <= |replies|
      ensures old(bytesToSend) == 0 ==>
                result == Finished(true) && used == 0 && interest == Reading && bytesHaveSend == 0
      ensures old(bytesToSend) != 0 ==>
                var t := After(job, old(State()), replies[..used]);
                match result
                case StillLooping => used == |replies| && Valid() && State() == t
                case Again =>
                  && used > 0 && replies[used - 1] == WouldBlock && interest == Writing && Valid() && State() == t
                  && bytesToSend != 0
                case Broken => used > 0 && replies[used - 1] == Failed && !mapped && Valid() && State() == t
                case Finished(keepOpen) =>
                  && keepOpen == linger && t.toSend <= 0 && handed == t.handed
                  && !mapped && interest == Reading && (linger ==> bytesToSend == 0 && bytesHaveSend == 0)
    {
      hide Accept, Offered, Taken;
      used := 0;
      if bytesToSend == 0 {
        interest := Reading;
        Reset();
        return Finished(true), 0;
      }
      while used < |replies|
        invariant 0 <= used <= |replies| && Valid() && bytesToSend != 0
        invariant State() == After(job, old(State()), replies[..used])
      {
        var reply := replies[used];
        used := used + 1;
        assert replies[..used][..used - 1] == replies[..used - 1];
        match reply {
          case WouldBlock =>
            interest := Writing;
            return Again, used;
          case Failed =>
            mapped := false;
            return Broken, used;
          case Took(n) =>
            Advance(n);
            if bytesToSend <= 0 {
              mapped := false;
              interest := Reading;
              if linger { Reset(); }
              return Finished(linger), used;
            }
        }
      }
      result := StillLooping;
    }

    /** write() called again after every EAGAIN, as main does when the socket is writable. Over all the
        calls together: what is taken is a prefix of the response, and a finished response is exactly
        header and file, if and only if at most one return ended strictly inside the header. */
    method WriteUntilDone(replies: seq<Reply>) returns (result: WriteResult, used: nat)
      requires Valid() && State() == Start(job) && job.header > 0
      modifies this
      ensures used <= |replies| && result != Again
      ensures var t := After(job, Start(job), replies[..used]);
              handed == t.handed && (result.Finished? ==> t.toSend <= 0) && (result == StillLooping ==> used == |replies|)
      ensures var counts := CountsOf(job, Start(job), replies[..used]);
              var inside := EndsInside(job, 0, counts);
              (forall n :: n in counts ==> n >= 1) ==>
                && (inside <= 1 ==> handed <= Whole(job))
                && (result.Finished? ==> (handed == Whole(job) <==> inside <= 1))
    {
      hide After, CountsOf, EndsInside, Whole, Start;
      used := 0;
      AfterNothing();
      while true
        invariant used <= |replies| && Valid() && bytesToSend != 0
        invariant State() == After(job, Start(job), replies[..used])
        decreases |replies| - used
      {
        ghost var rest := replies[used..];
        var more;
        result, more := Write(replies[used..]);
        CallsJoin(job, Start(job), replies[..used], rest[..more]);
        assert replies[..used] + rest[..more] == replies[..used + more];
        used := used + more;
        if result != Again { break; }
      }
      ghost var counts := CountsOf(job, Start(job), replies[..used]);
      if forall n :: n in counts ==> n >= 1 { RepliesSendExactly(job, replies[..used]); }
    }

    lemma AfterNothing()
      ensures After(job, Start(job), []) == Start(job) && Start(job).toSend == Total(job)
    {
    }

    /** The bookkeeping after a writev that could take n bytes. */
    method Advance(n: nat)
      requires Valid()
      modifies this`base0, this`len0, this`base1, this`len1, this`bytesHaveSend, this`bytesToSend, this`handed
      ensures Valid() && State() == Accept(job, old(State()), Taken(job, old(State()), Took(n)))
    {
      var room := len0 + if job.file > 0 then len1 else 0;
      var temp := if n < room then n else room;
      handed := handed + Offered(job, State())[..temp];
      bytesHaveSend := bytesHaveSend + temp;
      bytesToSend := bytesToSend - temp;
      if bytesHaveSend >= len0 {
        len0 := 0;
        base1 := bytesHaveSend - job.header;
        len1 := bytesToSend;
      } else {
        base0 := bytesHaveSend;
        len0 := len0 - bytesHaveSend;
      }
    }

    method Reset()
      modifies this`bytesToSend, this`bytesHaveSend
      ensures bytesToSend == 0 && bytesHaveSend == 0
    {
      bytesToSend, bytesHaveSend := 0, 0;
    }
  }
}
