/**
 * What a producer or the consumer gets done on its own from any reachable state: a push that nobody interferes with is
 * decided in at most five steps, by what the queue holds, and a pop takes the oldest message exactly if it is
 * published.
 */
module QueueProgress {
  import opened QueuePositions
  import opened MailboxQueue
  import Proof = MailboxQueueProof

  /** Steps one after the other, all silent but the last. */
  ghost predicate Runs(states: seq<QueueState>, steps: seq<Step>, out: Outcome) {
    && |states| == |steps| + 1 && |steps| > 0
    && forall j :: 0 <= j < |steps| ==>
         Shape(states[j]) && Next(states[j], steps[j], if j == |steps| - 1 then out else Silent, states[j + 1])
  }

  /** The producer of a push step. */
  predicate By(step: Step, pid: nat) {
    (step.Load? || step.ReadStamp? || step.Exchange? || step.Write? || step.Publish?) && step.pid == pid
  }

  /** The slot for the next message is free exactly if the queue is not full, and a stale one is behind. */
  lemma NextSlot(s: QueueState)
    requires QueueInv(s)
    ensures var n := |s.claimed|;
      if Full(s) then s.stamps[SlotOf(s, n)] < PosOf(s, n)
      else s.stamps[SlotOf(s, n)] == PosOf(s, n)
  {
    hide Pos, Slot;
    var n := |s.claimed|;
    if Full(s) {
      var t := WindowHas(s.released, n, s.capacity);
      assert SlotOk(s, t);
      RoundsApart(t, n, s.capacity, s.flag);
    } else {
      assert SlotOk(s, n);
    }
  }

  lemma Loads(s: QueueState, pid: nat, msg: Msg) returns (s': QueueState)
    requires QueueInv(s) && At(s, pid).Idle?
    ensures Next(s, Load(pid, msg), Silent, s') && QueueInv(s')
    ensures At(s', pid) == Loaded(msg, s.enqueuePos, |s.claimed|) && s' == Put(s, pid, At(s', pid))
  {
    s' := Reload(s, pid, msg);
    assert Next(s, Load(pid, msg), Silent, s');
    hide QueueInv;
    Proof.StepKeepsInv(s, Load(pid, msg), Silent, s');
  }

  /** What a producer that has just loaded the position finds: closed, full or free. */
  lemma Stamps(s: QueueState, pid: nat, msg: Msg) returns (out: Outcome, s': QueueState)
    requires QueueInv(s) && At(s, pid) == Loaded(msg, s.enqueuePos, |s.claimed|)
    ensures Next(s, ReadStamp(pid), out, s') && QueueInv(s') && s' == Put(s, pid, At(s', pid))
    ensures if Closed(s) then out == PushClosed && At(s', pid) == Idle
            else
              && out == Silent && At(s', pid).Stamped? && At(s', pid).pos == s.enqueuePos && At(s', pid).msg == msg
              && (if Full(s) then At(s', pid).stamp < s.enqueuePos else At(s', pid).stamp == s.enqueuePos)
  {
    var n := |s.claimed|;
    Proof.Fields(s, n);
    NextSlot(s);
    assert s.enqueuePos == PosOf(s, n) || s.enqueuePos == PosOf(s, n) + s.flag;
    hide Index, Flagged, Pos, Slot, WithFlag, NextPos;
    if Closed(s) {
      out, s' := PushClosed, Put(s, pid, Idle);
    } else {
      out := Silent;
      s' := Put(s, pid, Stamped(msg, s.enqueuePos, n, s.stamps[SlotOf(s, n)], Full(s)));
    }
    assert Next(s, ReadStamp(pid), out, s');
    hide QueueInv;
    Proof.StepKeepsInv(s, ReadStamp(pid), out, s');
  }

  /** With the stamp still right and nobody ahead, the exchange claims the next place ... */
  lemma Claims(s: QueueState, pid: nat) returns (s': QueueState)
    requires QueueInv(s) && At(s, pid).Stamped? && At(s, pid).stamp == At(s, pid).pos == s.enqueuePos
    ensures Next(s, Exchange(pid, false), Silent, s') && QueueInv(s')
    ensures At(s', pid).Claimed? && s'.claimed == s.claimed + [At(s, pid).msg]
  {
    var p := At(s, pid);
    s' := Put(s, pid, Claimed(p.msg, p.pos, p.ticket)).(
      enqueuePos := NextPos(p.pos, s.capacity, s.flag), claimed := s.claimed + [p.msg]);
    assert Next(s, Exchange(pid, false), Silent, s');
    hide QueueInv, NextPos;
    Proof.StepKeepsInv(s, Exchange(pid, false), Silent, s');
  }

  /** ... which is then written ... */
  lemma Writes(s: QueueState, pid: nat) returns (s': QueueState)
    requires QueueInv(s) && At(s, pid).Claimed?
    ensures Next(s, Write(pid), Silent, s') && QueueInv(s') && At(s', pid).Written? && s'.claimed == s.claimed
  {
    InvShape(s);
    hide QueueInv, Index;
    var p := At(s, pid);
    Proof.NeverUnreachable(s);
    s' := Put(s, pid, Written(p.msg, p.pos, p.ticket)).(cells := s.cells[Index(p.pos, s.flag) := Populated(p.msg)]);
    assert Next(s, Write(pid), Silent, s');
    Proof.StepKeepsInv(s, Write(pid), Silent, s');
  }

  /** ... and published. */
  lemma Publishes(s: QueueState, pid: nat) returns (s': QueueState)
    requires QueueInv(s) && At(s, pid).Written?
    ensures Next(s, Publish(pid), PushOk, s') && QueueInv(s') && At(s', pid) == Idle && s'.claimed == s.claimed
  {
    InvShape(s);
    hide QueueInv, Index;
    var p := At(s, pid);
    Proof.NeverUnreachable(s);
    s' := Put(s, pid, Idle).(stamps := s.stamps[Index(p.pos, s.flag) := p.pos + 1]);
    assert Next(s, Publish(pid), PushOk, s');
    Proof.StepKeepsInv(s, Publish(pid), PushOk, s');
  }

  /** A stamp that is behind means full. */
  lemma GivesUp(s: QueueState, pid: nat) returns (s': QueueState)
    requires QueueInv(s) && At(s, pid).Stamped? && At(s, pid).stamp < At(s, pid).pos
    ensures Next(s, Exchange(pid, false), PushFull, s') && QueueInv(s')
    ensures At(s', pid) == Idle && s'.claimed == s.claimed
  {
    s' := Put(s, pid, Idle);
    assert Next(s, Exchange(pid, false), PushFull, s');
    hide QueueInv;
    Proof.StepKeepsInv(s, Exchange(pid, false), PushFull, s');
  }

  /** From `s`, producer `pid` alone takes these steps, at most `n`, to `out`, with `claimed` accepted in the end. */
  ghost predicate Solo(s: QueueState, pid: nat, n: nat, states: seq<QueueState>, steps: seq<Step>, out: Outcome,
                       claimed: seq<Msg>)
  {
    && Runs(states, steps, out) && |steps| <= n && (forall j :: 0 <= j < |steps| ==> By(steps[j], pid))
    && states[0] == s && At(states[|steps|], pid) == Idle && QueueInv(states[|steps|])
    && states[|steps|].claimed == claimed
  }

  lemma LastStep(s: QueueState, pid: nat, step: Step, out: Outcome, s': QueueState)
    requires Shape(s) && Next(s, step, out, s') && By(step, pid) && At(s', pid) == Idle && QueueInv(s')
    ensures Solo(s, pid, 1, [s, s'], [step], out, s'.claimed)
  {
    hide Next, QueueInv;
  }

  lemma OneStepBefore(s: QueueState, pid: nat, step: Step, s': QueueState, n: nat, states: seq<QueueState>,
                      steps: seq<Step>, out: Outcome, claimed: seq<Msg>)
    requires Shape(s) && Next(s, step, Silent, s') && By(step, pid) && Solo(s', pid, n, states, steps, out, claimed)
    ensures Solo(s, pid, n + 1, [s] + states, [step] + steps, out, claimed)
  {
    hide Next, QueueInv, Shape;
    var all, more := [s] + states, [step] + steps;
    forall j | 0 <= j < |more|
      ensures Shape(all[j]) && Next(all[j], more[j], if j == |more| - 1 then out else Silent, all[j + 1])
    {
      if j > 0 {
        assert all[j] == states[j - 1] && more[j] == steps[j - 1] && all[j + 1] == states[j - 1 + 1];
      }
    }
    assert all[|more|] == states[|steps|];
  }

  /** A producer that has read its stamp and is not overtaken is done in at most three steps. */
  lemma Decides(s: QueueState, pid: nat) returns (states: seq<QueueState>, steps: seq<Step>, out: Outcome)
    requires QueueInv(s) && At(s, pid).Stamped? && At(s, pid).stamp <= At(s, pid).pos == s.enqueuePos
    ensures out == if At(s, pid).stamp < At(s, pid).pos then PushFull else PushOk
    ensures Solo(s, pid, 3, states, steps, out, if out == PushOk then s.claimed + [At(s, pid).msg] else s.claimed)
  {
    InvShape(s);
    if At(s, pid).stamp < At(s, pid).pos {
      out := PushFull;
      var s1 := GivesUp(s, pid);
      hide QueueInv, Next;
      LastStep(s, pid, Exchange(pid, false), out, s1);
      states, steps := [s, s1], [Exchange(pid, false)];
    } else {
      out := PushOk;
      var s1 := Claims(s, pid);
      InvShape(s1);
      hide QueueInv, Next, Solo, Shape;
      states, steps := Accepted(s1, pid);
      OneStepBefore(s, pid, Exchange(pid, false), s1, 2, states, steps, out, s1.claimed);
      states, steps := [s] + states, [Exchange(pid, false)] + steps;
    }
  }

  lemma Accepted(s: QueueState, pid: nat) returns (states: seq<QueueState>, steps: seq<Step>)
    requires QueueInv(s) && At(s, pid).Claimed?
    ensures Solo(s, pid, 2, states, steps, PushOk, s.claimed)
  {
    InvShape(s);
    var s1 := Writes(s, pid);
    InvShape(s1);
    var s2 := Publishes(s1, pid);
    hide QueueInv, Next, Solo, Shape;
    LastStep(s1, pid, Publish(pid), PushOk, s2);
    OneStepBefore(s, pid, Write(pid), s1, 1, [s1, s2], [Publish(pid)], PushOk, s2.claimed);
    states, steps := [s] + [s1, s2], [Write(pid)] + [Publish(pid)];
  }

  /**
   * Alone, a push from any reachable state is decided within five steps: closed if the queue is closed, full if it is
   * full, and otherwise its message is accepted, as the last one.
   */
  lemma SoloPush(s: QueueState, pid: nat, msg: Msg)
    returns (states: seq<QueueState>, steps: seq<Step>, out: Outcome)
    requires QueueInv(s) && At(s, pid).Idle?
    ensures out == if Closed(s) then PushClosed else if Full(s) then PushFull else PushOk
    ensures Solo(s, pid, 5, states, steps, out, if out == PushOk then s.claimed + [msg] else s.claimed)
  {
    InvShape(s);
    var s1 := Loads(s, pid, msg);
    var out1, s2 := Stamps(s1, pid, msg);
    InvShape(s1);
    hide QueueInv, Next, Solo;
    if Closed(s) {
      out := PushClosed;
      LastStep(s1, pid, ReadStamp(pid), out, s2);
      OneStepBefore(s, pid, Load(pid, msg), s1, 1, [s1, s2], [ReadStamp(pid)], out, s2.claimed);
      states, steps := [s] + [s1, s2], [Load(pid, msg)] + [ReadStamp(pid)];
      Sooner(s, pid, 2, 5, states, steps, out, s2.claimed);
    } else {
      states, steps, out := Decides(s2, pid);
      var claimed := if out == PushOk then s.claimed + [msg] else s.claimed;
      OneStepBefore(s1, pid, ReadStamp(pid), s2, 3, states, steps, out, claimed);
      states, steps := [s1] + states, [ReadStamp(pid)] + steps;
      OneStepBefore(s, pid, Load(pid, msg), s1, 4, states, steps, out, claimed);
      states, steps := [s] + states, [Load(pid, msg)] + steps;
    }
  }

  lemma Sooner(s: QueueState, pid: nat, n: nat, m: nat, states: seq<QueueState>, steps: seq<Step>, out: Outcome,
               claimed: seq<Msg>)
    requires Solo(s, pid, n, states, steps, out, claimed) && n <= m
    ensures Solo(s, pid, m, states, steps, out, claimed)
  {
    hide Runs, QueueInv;
  }

  lemma InvShape(s: QueueState)
    requires QueueInv(s)
    ensures Shape(s)
  {
  }

  /** A producer that has to try again, and not by a spurious failure, was overtaken: another message was accepted, or
      the queue was closed. */
  lemma RetryMeansProgress(s: QueueState, pid: nat, out: Outcome, s': QueueState)
    requires QueueInv(s) && Next(s, Exchange(pid, false), out, s') && At(s', pid).Loaded?
    requires At(s, pid).stamp == At(s, pid).pos
    ensures At(s, pid).ticket < |s.claimed| || Closed(s)
  {
    hide SlotOk, ConsumerOk, Pos;
    assert ProducerOk(s, pid);
  }

  /** A pop takes the oldest message not yet received exactly if there is one and its producer has published it. */
  lemma PopExactly(s: QueueState, out: Outcome, s': QueueState)
    requires QueueInv(s) && Next(s, Pop, out, s')
    ensures var d := |s.received|;
      && (out.Popped? <==> d < |s.claimed| && !exists pid :: Owns(s, pid, d))
      && (out.Popped? ==> out.msg == s.claimed[d] && s'.received == s.received + [out.msg])
      && (!out.Popped? ==> s' == s.(consumer := SawEmpty))
  {
    Proof.PopFinds(s);
    forall pid | Owns(s, pid, |s.received|)
      ensures s.stamps[SlotOf(s, |s.received|)] == s.dequeuePos
    {
      assert ProducerOk(s, pid);
    }
    hide QueueInv, Index, NextPos;
  }

  /** A ready consumer can always look, and one that took a message can always give its slot back. */
  lemma SoloPop(s: QueueState) returns (out: Outcome, s': QueueState)
    requires QueueInv(s)
    ensures s.consumer == Ready ==> Next(s, Pop, out, s')
    ensures s.consumer == SawEmpty ==>
      Next(s, CheckClosed, out, s') && out == if Closed(s) && |s.received| == |s.claimed| then PopClosed else PopEmpty
    ensures s.consumer.Holding? ==> Next(s, Vacate, out, s') && s'.consumer.Vacating?
    ensures s.consumer.Vacating? ==> Next(s, Release, out, s') && s'.consumer == Ready && s'.released == s.released + 1
  {
    Proof.NeverUnreachable(s);
    hide QueueInv, Index, WithFlag, NextPos;
    out := Silent;
    match s.consumer
    case Ready =>
      var i := Index(s.dequeuePos, s.flag);
      if s.stamps[i] == s.dequeuePos {
        s' := s.(consumer := SawEmpty);
      } else {
        out := Popped(s.cells[i].msg);
        s' := s.(dequeuePos := NextPos(s.dequeuePos, s.capacity, s.flag), cells := s.cells[i := Taken],
                 consumer := Holding(s.cells[i].msg, i, s.stamps[i] + 2 * s.flag - 1),
                 received := s.received + [s.cells[i].msg]);
      }
    case SawEmpty =>
      out := if s.enqueuePos == WithFlag(s.dequeuePos, s.flag) then PopClosed else PopEmpty;
      s' := s.(consumer := Ready);
      Proof.CheckClosedMeans(s, out, s');
    case Holding(_, _, _) =>
      s' := s.(cells := s.cells[s.consumer.index := Vacated],
               consumer := Vacating(s.consumer.index, s.consumer.stamp));
    case Vacating(_, _) =>
      s' := s.(stamps := s.stamps[s.consumer.index := s.consumer.stamp], released := s.released + 1,
               consumer := Ready);
  }
}
