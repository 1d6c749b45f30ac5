/** Liveness: no step of an upload undoes progress, and every run that keeps serving the base packet
    completes, whatever else is lost, repeated or reordered in between. */
module Liveness {
  import opened Common
  import opened Transfer
  import opened Safety
  import opened Upload
  import opened Progress
  import Arq

  // ----- no step undoes progress -----

  /** Neither end goes back: the base, what is written, and closing. */
  predicate NotBefore(s: System, t: System) {
    && s.snd.sr.nextExpected <= t.snd.sr.nextExpected
    && s.rcv.written <= t.rcv.written
    && (!s.snd.open ==> !t.snd.open)
    && (!s.rcv.open ==> !t.rcv.open)
  }

  lemma DeliverUpForward(s: System, p: Packet)
    ensures NotBefore(s, DeliverUp(s, p))
  {
  }

  lemma DeliverDownForward(s: System, p: Packet)
    ensures NotBefore(s, DeliverDown(s, p))
  {
  }

  lemma StepForward(s: System, step: Step)
    ensures NotBefore(s, Apply(s, step))
  {
    match step
    case ToReceiver(p) => DeliverUpForward(s, p);
    case ToSender(p) => DeliverDownForward(s, p);
    case _ =>
  }

  /** In every continuation, whatever is lost, repeated or reordered, the base never moves back and what
      is written only grows. */
  lemma {:induction false} RunForward(s: System, steps: seq<Step>)
    ensures NotBefore(s, Run(s, steps))
    decreases |steps|
  {
    if steps != [] {
      StepForward(s, steps[0]);
      RunForward(Apply(s, steps[0]), steps[1..]);
    }
  }

  lemma StepInFlight(s: System, step: Step, p: Packet)
    ensures p in s.up && step != LoseUp(p) ==> p in Apply(s, step).up
    ensures p in s.down && step != LoseDown(p) ==> p in Apply(s, step).down
  {
  }

  /** A packet that is not lost stays in flight through every run. */
  lemma {:induction false} RunInFlight(s: System, steps: seq<Step>, p: Packet)
    ensures p in s.up && LoseUp(p) !in steps ==> p in Run(s, steps).up
    ensures p in s.down && LoseDown(p) !in steps ==> p in Run(s, steps).down
    decreases |steps|
  {
    if steps != [] {
      StepInFlight(s, steps[0], p);
      RunInFlight(Apply(s, steps[0]), steps[1..], p);
    }
  }

  // ----- every fair run completes -----

  /** The packet that the base waits for. */
  function BasePacket(s: System): Packet {
    Genuine(s.snd, File(s), s.snd.sr.nextExpected)
  }

  /** The receiver's answer to it. */
  function Reply(s: System): Packet {
    if s.snd.sr.nextExpected <= |File(s)| then Arq.AckPacket(s.snd.sr, s.snd.sr.nextExpected)
    else Arq.FinAckPacket(s.snd.sr)
  }

  /** A stretch of a run in which the base packet of its first state is delivered and then the answer to
      it, with any steps before, between and after. */
  datatype Service = Service(before: seq<Step>, between: seq<Step>, after: seq<Step>)

  function Steps(s: System, r: Service): seq<Step> {
    r.before + ([ToReceiver(BasePacket(s))] + (r.between + ([ToSender(Reply(s))] + r.after)))
  }

  /** The network serves the base: its packet is in flight when it is to be delivered, and the answer is
      not lost before it is. */
  predicate Serves(s: System, r: Service) {
    BasePacket(s) in Run(s, r.before).up && LoseDown(Reply(s)) !in r.between
  }

  lemma RunStep(s: System, step: Step, steps: seq<Step>)
    ensures Run(s, [step] + steps) == Run(Apply(s, step), steps)
  {
    assert ([step] + steps)[1..] == steps;
  }

  /** How it comes to be in flight: a timeout while its timer is over resends it, and it stays until lost. */
  lemma ResentStays(s: System, a: seq<Step>, b: seq<Step>)
    requires Inv(s) && Run(s, a).snd.open && LoseUp(BasePacket(s)) !in b
    requires var u := Run(s, a); var base := s.snd.sr.nextExpected;
      u.snd.sr.nextExpected == base && base in u.snd.sr.window && Arq.TimedOut(u.snd.sr.window[base], u.now)
    ensures BasePacket(s) in Run(s, a + ([Timeout] + b)).up
  {
    var u, base := Run(s, a), s.snd.sr.nextExpected;
    RunKeeps(s, a);
    RunSameSession(s, a);
    Arq.OverdueExact(u.snd.sr.window, u.now, base, u.snd.sr.seqNum, BasePacket(s));
    assert BasePacket(s) in Apply(u, Timeout).up;
    RunAppend(s, a, [Timeout] + b);
    RunStep(u, Timeout, b);
    RunInFlight(Apply(u, Timeout), b, BasePacket(s));
  }

  /** The states that a service passes through. */
  lemma RunService(s: System, r: Service)
    ensures var delivered := Apply(Run(s, r.before), ToReceiver(BasePacket(s)));
      Run(s, Steps(s, r)) == Run(Apply(Run(delivered, r.between), ToSender(Reply(s))), r.after)
  {
    var u := Run(s, r.before);
    var last := [ToSender(Reply(s))] + r.after;
    RunAppend(s, r.before, [ToReceiver(BasePacket(s))] + (r.between + last));
    RunStep(u, ToReceiver(BasePacket(s)), r.between + last);
    var delivered := Apply(u, ToReceiver(BasePacket(s)));
    RunAppend(delivered, r.between, last);
    RunStep(Run(delivered, r.between), ToSender(Reply(s)), r.after);
  }

  /** A sender that has closed has a complete transfer behind it. */
  lemma ClosedIsDone(s: System)
    requires Inv(s) && !s.snd.open
    ensures Done(s)
  {
    FinComplete(s);
  }

  /** The answer to a payload moves the base past it, if it was not past it already. */
  lemma AnswerMoves(s: System, p: Packet)
    requires Inv(s) && p in s.down && p.pktType == TYPE_ACK && p.seqNum <= s.snd.sr.nextExpected
    ensures Apply(s, ToSender(p)).snd.sr.nextExpected > p.seqNum
  {
    assert GenuineReply(s.snd, s.rcv, |File(s)|, p);
    if s.snd.open {
      if p.seqNum == s.snd.sr.nextExpected {
        BaseMoves(s, p);
      } else {
        StepForward(s, ToSender(p));
      }
    }
  }

  /** Delivering the base packet of an earlier state puts its answer in flight. */
  lemma BaseAnswered(s: System, u: System)
    requires Inv(s) && Inv(u) && SameSession(s.snd, u.snd) && BasePacket(s) in u.up
    ensures Reply(s) in Apply(u, ToReceiver(BasePacket(s))).down
  {
    var p := BasePacket(s);
    if p.pktType == TYPE_DATA {
      ChunkAcknowledged(u, p);
    } else {
      DeliverFinKeeps(u, p);
    }
  }

  /** The first half of a service: the answer to the base packet is in flight when it is to be delivered. */
  lemma ServiceAnswered(s: System, r: Service)
    requires Inv(s) && Serves(s, r)
    ensures var w := Run(Apply(Run(s, r.before), ToReceiver(BasePacket(s))), r.between);
      Inv(w) && Reply(s) in w.down && s.snd.sr.nextExpected <= w.snd.sr.nextExpected
  {
    var u := Run(s, r.before);
    RunKeeps(s, r.before);
    RunSameSession(s, r.before);
    RunForward(s, r.before);
    BaseAnswered(s, u);
    StepKeeps(u, ToReceiver(BasePacket(s)));
    StepForward(u, ToReceiver(BasePacket(s)));
    var v := Apply(u, ToReceiver(BasePacket(s)));
    RunInFlight(v, r.between, Reply(s));
    RunKeeps(v, r.between);
    RunForward(v, r.between);
  }

  /** The second half of a service. */
  lemma AnswerLowers(s: System, w: System, after: seq<Step>)
    requires Inv(s) && Inv(w) && Reply(s) in w.down && s.snd.sr.nextExpected <= w.snd.sr.nextExpected
    ensures var t := Run(Apply(w, ToSender(Reply(s))), after);
      if s.snd.sr.nextExpected <= |File(s)| then t.snd.sr.nextExpected > s.snd.sr.nextExpected else Done(t)
  {
    var x := Apply(w, ToSender(Reply(s)));
    StepKeeps(w, ToSender(Reply(s)));
    RunKeeps(x, after);
    RunForward(x, after);
    StepForward(w, ToSender(Reply(s)));
    if s.snd.sr.nextExpected > |File(s)| {
      ClosedIsDone(Run(x, after));
    } else if w.snd.sr.nextExpected == s.snd.sr.nextExpected {
      AnswerMoves(w, Reply(s));
    }
  }

  /** A service lowers the measure, however its deliveries are interleaved with other steps; when only the
      FIN is left, it completes the transfer. */
  lemma ServiceLowers(s: System, r: Service)
    requires Inv(s) && Serves(s, r)
    ensures var t := Run(s, Steps(s, r));
      if s.snd.sr.nextExpected <= |File(s)| then Left(t) < Left(s) else Done(t)
  {
    ServiceAnswered(s, r);
    AnswerLowers(s, Run(Apply(Run(s, r.before), ToReceiver(BasePacket(s))), r.between), r.after);
    RunService(s, r);
    RunSameSession(s, Steps(s, r));
  }

  /** Each service serves the base as it is when the service begins, until the transfer is complete. */
  predicate Fair(s: System, services: seq<Service>)
    decreases |services|
  {
    services != [] ==>
      && (s.snd.open ==> Serves(s, services[0]))
      && Fair(Run(s, Steps(s, services[0])), services[1..])
  }

  function AllSteps(s: System, services: seq<Service>): seq<Step>
    decreases |services|
  {
    if services == [] then []
    else
      Steps(s, services[0]) + AllSteps(Run(s, Steps(s, services[0])), services[1..])
  }

  lemma DoneStays(s: System, steps: seq<Step>)
    requires Inv(s) && !s.snd.open
    ensures Done(Run(s, steps))
  {
    RunKeeps(s, steps);
    RunForward(s, steps);
    ClosedIsDone(Run(s, steps));
  }

  lemma {:induction false} FairCompletes(s: System, services: seq<Service>)
    requires Inv(s) && Fair(s, services) && |services| >= Left(s)
    ensures Done(Run(s, AllSteps(s, services)))
    decreases |services|
  {
    if !s.snd.open {
      DoneStays(s, AllSteps(s, services));
    } else {
      var t := Run(s, Steps(s, services[0]));
      RunKeeps(s, Steps(s, services[0]));
      ServiceLowers(s, services[0]);
      RunAppend(s, Steps(s, services[0]), AllSteps(t, services[1..]));
      if t.snd.open {
        FairCompletes(t, services[1..]);
      } else {
        DoneStays(t, AllSteps(t, services[1..]));
      }
    }
  }

  /** Liveness: however losses, repetitions and reorderings are interleaved, a run that serves the base
      once for each number left completes the upload. */
  lemma EveryFairRunCompletes(s: System, content: Bytes, windowSize: nat, services: seq<Service>)
    requires Reachable(s, content, windowSize)
    requires Fair(s, services) && |services| >= Left(s)
    ensures Done(Run(s, AllSteps(s, services))) && Run(s, AllSteps(s, services)).rcv.written == content
  {
    ReachableInv(s, content, windowSize);
    FairCompletes(s, services);
    RunSameSession(s, AllSteps(s, services));
  }
}
