/**
 The piggyback protocol of blocking point-to-point communication (include/mpi-critical.h).

 Around every application message travels a shadow message on a duplicated communicator.  A
 sender posts the shadow message, with the clock it loaded, before it calls the application
 send.  A receiver with a specific source and tag posts the shadow receive before the
 application receive, a receiver with a wildcard only afterwards, for the source and tag that
 the status reports.  Each communicator delivers the messages of one source, destination and
 tag in order (section 3.5 of MPI 3.1); nothing else is assumed about the order of steps.
 */
module Piggyback {
  import opened Options
  import opened Clocks

  datatype Channel = Channel(src: nat, dst: nat, tag: nat)

  /** `id` numbers the sends of the run; the code has no such number. */
  datatype Message = Message(id: nat, clock: Payload)

  /** A record of a send, for the proofs; see SentAt for what it says. */
  datatype Send = Send(channel: Channel, clock: Payload)

  datatype Phase =
    | Idle
    | Sending(dst: nat, tag: nat, id: nat)
    | Receiving(srcSpec: Option<nat>, tagSpec: Option<nat>,
                got: Option<(Channel, nat)>, shadow: Option<(Channel, Message)>)

  datatype System = System(
    phases: seq<Phase>,
    clocks: seq<Payload>,
    app: map<Channel, seq<nat>>,
    shadow: map<Channel, seq<Message>>,
    sends: seq<Send>)

  function Queue<T>(m: map<Channel, seq<T>>, ch: Channel): seq<T> {
    if ch in m then m[ch] else []
  }

  datatype Step =
    | Work(r: nat, clock: Payload)
    | SendBegin(r: nat, dst: nat, tag: nat)
    | SendEnd(r: nat)
    | RecvBegin(r: nat, srcSpec: Option<nat>, tagSpec: Option<nat>)
    | AppMatch(r: nat, src: nat, tag: nat)
    | ShadowMatch(r: nat)
    | RecvEnd(r: nat)

  predicate WellFormed(s: System) {
    |s.phases| == |s.clocks|
  }

  predicate Matches(p: Option<nat>, v: nat) {
    p.None? || p.value == v
  }

  /** The channel the shadow receive listens to, once it is posted. */
  function ShadowChannel(p: Phase, r: nat): Option<Channel>
    requires p.Receiving?
  {
    if p.srcSpec.Some? && p.tagSpec.Some? then Some(Channel(p.srcSpec.value, r, p.tagSpec.value))
    else if p.got.Some? then Some(p.got.value.0)
    else None
  }

  predicate Enabled(s: System, step: Step)
    requires WellFormed(s)
  {
    && step.r < |s.phases|
    && var p := s.phases[step.r];
       match step
       case Work(_, _) => true
       case SendBegin(_, dst, _) => p.Idle? && dst < |s.phases|
       case SendEnd(_) => p.Sending?
       case RecvBegin(_, _, _) => p.Idle?
       case AppMatch(r, src, tag) =>
         p.Receiving? && p.got.None? && Matches(p.srcSpec, src) && Matches(p.tagSpec, tag)
         && Queue(s.app, Channel(src, r, tag)) != []
       case ShadowMatch(r) =>
         p.Receiving? && p.shadow.None? && ShadowChannel(p, r).Some?
         && Queue(s.shadow, ShadowChannel(p, r).value) != []
       case RecvEnd(_) => p.Receiving? && p.got.Some? && p.shadow.Some?
  }

  function Merge(a: Payload, b: Payload): Payload {
    [Max(a[0], b[0]), Max(a[1], b[1]), Max(a[2], b[2])]
  }

  function Next(s: System, step: Step): System
    requires WellFormed(s) && Enabled(s, step)
  {
    var p := s.phases[step.r];
    match step
    case Work(r, clock) => s.(clocks := s.clocks[r := clock])
    case SendBegin(r, dst, tag) =>
      var ch, id := Channel(r, dst, tag), |s.sends|;
      s.(phases := s.phases[r := Sending(dst, tag, id)],
         shadow := s.shadow[ch := Queue(s.shadow, ch) + [Message(id, s.clocks[r])]],
         sends := s.sends + [Send(ch, s.clocks[r])])
    case SendEnd(r) =>
      var ch := Channel(r, p.dst, p.tag);
      s.(phases := s.phases[r := Idle], app := s.app[ch := Queue(s.app, ch) + [p.id]])
    case RecvBegin(r, src, tag) => s.(phases := s.phases[r := Receiving(src, tag, None, None)])
    case AppMatch(r, src, tag) =>
      var ch := Channel(src, r, tag);
      var q := Queue(s.app, ch);
      s.(phases := s.phases[r := p.(got := Some((ch, q[0])))], app := s.app[ch := q[1..]])
    case ShadowMatch(r) =>
      var ch := ShadowChannel(p, r).value;
      var q := Queue(s.shadow, ch);
      s.(phases := s.phases[r := p.(shadow := Some((ch, q[0])))], shadow := s.shadow[ch := q[1..]])
    case RecvEnd(r) =>
      s.(phases := s.phases[r := Idle], clocks := s.clocks[r := Merge(s.clocks[r], p.shadow.value.1.clock)])
  }

  predicate Initial(s: System) {
    && WellFormed(s)
    && s.app == map[] && s.shadow == map[] && s.sends == []
    && forall r :: 0 <= r < |s.phases| ==> s.phases[r] == Idle
  }

  // ---------------------------------------------------------------------------
  // The two networks in step
  // ---------------------------------------------------------------------------

  function Ids(q: seq<Message>): seq<nat> {
    seq(|q|, i requires 0 <= i < |q| => q[i].id)
  }

  /** The application message of `ch` that its receiver has taken in the receive in progress. */
  function Taken(s: System, ch: Channel): seq<nat> {
    if ch.dst < |s.phases| && s.phases[ch.dst].Receiving? && s.phases[ch.dst].got.Some?
       && s.phases[ch.dst].got.value.0 == ch
    then [s.phases[ch.dst].got.value.1] else []
  }

  function TakenShadow(s: System, ch: Channel): seq<nat> {
    if ch.dst < |s.phases| && s.phases[ch.dst].Receiving? && s.phases[ch.dst].shadow.Some?
       && s.phases[ch.dst].shadow.value.0 == ch
    then [s.phases[ch.dst].shadow.value.1.id] else []
  }

  /** The send on `ch` that is between its shadow and its application message. */
  function InProgress(s: System, ch: Channel): seq<nat> {
    if
      && ch.src < |s.phases| && s.phases[ch.src].Sending?
      && s.phases[ch.src].dst == ch.dst && s.phases[ch.src].tag == ch.tag
    then [s.phases[ch.src].id] else []
  }

  /** One channel: what its receiver has taken, what is under way, and what its sender has begun. */
  datatype Lane = Lane(taken: seq<nat>, app: seq<nat>, begun: seq<nat>, takenShadow: seq<nat>, shadow: seq<nat>)

  function LaneOf(s: System, ch: Channel): Lane {
    Lane(Taken(s, ch), Queue(s.app, ch), InProgress(s, ch), TakenShadow(s, ch), Ids(Queue(s.shadow, ch)))
  }

  /** From the receiver's hands over the network to the sender's, both sides hold the same sends in the same order. */
  predicate Level(l: Lane) {
    l.taken + l.app + l.begun == l.takenShadow + l.shadow
  }

  predicate Aligned(s: System, ch: Channel) {
    Level(LaneOf(s, ch))
  }

  /** Message `m` on `ch` is that of its send. */
  predicate Carries(s: System, ch: Channel, m: Message) {
    m.id < |s.sends| && s.sends[m.id] == Send(ch, m.clock)
  }

  predicate QueueCarries(s: System, ch: Channel) {
    forall i :: 0 <= i < |Queue(s.shadow, ch)| ==> Carries(s, ch, Queue(s.shadow, ch)[i])
  }

  /** A receive in progress holds messages it asked for, and its shadow message comes from the channel it listens to. */
  predicate Proper(s: System, r: nat)
    requires r < |s.phases|
  {
    s.phases[r].Receiving? ==>
      var p := s.phases[r];
      && (p.got.Some? ==>
            p.got.value.0.dst == r && Matches(p.srcSpec, p.got.value.0.src) && Matches(p.tagSpec, p.got.value.0.tag))
      && (p.shadow.Some? ==>
            && Some(p.shadow.value.0) == ShadowChannel(p, r) && p.shadow.value.0.dst == r
            && Carries(s, p.shadow.value.0, p.shadow.value.1))
  }

  ghost predicate Inv(s: System) {
    && WellFormed(s)
    && (forall ch: Channel :: Aligned(s, ch))
    && (forall ch: Channel :: QueueCarries(s, ch))
    && (forall r :: 0 <= r < |s.phases| ==> Proper(s, r))
  }

  lemma InitialInv(s: System)
    requires Initial(s)
    ensures Inv(s)
  {
  }

  lemma IdsTail(q: seq<Message>)
    requires q != []
    ensures Ids(q) == [q[0].id] + Ids(q[1..])
  {
  }

  lemma IdsPush(q: seq<Message>, m: Message)
    ensures Ids(q + [m]) == Ids(q) + [m.id]
  {
  }

  // What the steps do to one channel

  function Begun(l: Lane, id: nat): Lane {
    l.(begun := [id], shadow := l.shadow + [id])
  }

  lemma SendBeginLane(s: System, step: Step, ch: Channel)
    requires WellFormed(s) && Enabled(s, step) && step.SendBegin?
    ensures var l, l' := LaneOf(s, ch), LaneOf(Next(s, step), ch);
      if ch == Channel(step.r, step.dst, step.tag) then l.begun == [] && l' == Begun(l, |s.sends|) else l' == l
  {
    if ch == Channel(step.r, step.dst, step.tag) {
      IdsPush(Queue(s.shadow, ch), Message(|s.sends|, s.clocks[step.r]));
    }
  }

  lemma LevelBegins(l: Lane, id: nat)
    requires Level(l) && l.begun == []
    ensures Level(Begun(l, id))
  {
    assert l.taken + l.app + [id] == l.taken + l.app + [] + [id];
    assert l.takenShadow + (l.shadow + [id]) == l.takenShadow + l.shadow + [id];
  }

  function Sent(l: Lane, id: nat): Lane {
    l.(app := l.app + [id], begun := [])
  }

  lemma SendEndLane(s: System, step: Step, ch: Channel)
    requires WellFormed(s) && Enabled(s, step) && step.SendEnd?
    ensures var l, l', p := LaneOf(s, ch), LaneOf(Next(s, step), ch), s.phases[step.r];
      if ch == Channel(step.r, p.dst, p.tag) then l.begun == [p.id] && l' == Sent(l, p.id) else l' == l
  {
  }

  lemma LevelSent(l: Lane, id: nat)
    requires Level(l) && l.begun == [id]
    ensures Level(Sent(l, id))
  {
    assert l.taken + (l.app + [id]) + [] == l.taken + l.app + [id];
  }

  function Took(l: Lane): Lane
    requires l.app != []
  {
    l.(taken := [l.app[0]], app := l.app[1..])
  }

  lemma AppMatchLane(s: System, step: Step, ch: Channel)
    requires WellFormed(s) && Enabled(s, step) && step.AppMatch?
    ensures var l, l' := LaneOf(s, ch), LaneOf(Next(s, step), ch);
      if ch == Channel(step.src, step.r, step.tag) then l.taken == [] && l.app != [] && l' == Took(l) else l' == l
  {
  }

  lemma LevelTakes(l: Lane)
    requires Level(l) && l.taken == [] && l.app != []
    ensures Level(Took(l))
  {
    assert [l.app[0]] + l.app[1..] == [] + l.app;
  }

  function TookShadow(l: Lane): Lane
    requires l.shadow != []
  {
    l.(takenShadow := [l.shadow[0]], shadow := l.shadow[1..])
  }

  lemma ShadowMatchLane(s: System, step: Step, ch: Channel)
    requires WellFormed(s) && Enabled(s, step) && step.ShadowMatch? && Proper(s, step.r)
    ensures var l, l' := LaneOf(s, ch), LaneOf(Next(s, step), ch);
      if ch == ShadowChannel(s.phases[step.r], step.r).value
      then l.takenShadow == [] && l.shadow != [] && l' == TookShadow(l) else l' == l
  {
    if ch == ShadowChannel(s.phases[step.r], step.r).value {
      IdsTail(Queue(s.shadow, ch));
    }
  }

  lemma LevelTakesShadow(l: Lane)
    requires Level(l) && l.takenShadow == [] && l.shadow != []
    ensures Level(TookShadow(l))
  {
    assert [l.shadow[0]] + l.shadow[1..] == [] + l.shadow;
  }

  function Finished(l: Lane): Lane {
    l.(taken := [], takenShadow := [])
  }

  lemma RecvEndLane(s: System, step: Step, ch: Channel)
    requires WellFormed(s) && Enabled(s, step) && step.RecvEnd? && Proper(s, step.r)
    ensures var l, l' := LaneOf(s, ch), LaneOf(Next(s, step), ch);
      if ch == s.phases[step.r].got.value.0 then |l.taken| == |l.takenShadow| == 1 && l' == Finished(l) else l' == l
  {
  }

  lemma LevelFinishes(l: Lane)
    requires Level(l) && |l.taken| == |l.takenShadow| == 1
    ensures Level(Finished(l))
  {
    assert (l.taken + l.app + l.begun)[1..] == [] + l.app + l.begun;
    assert (l.takenShadow + l.shadow)[1..] == [] + l.shadow;
  }

  lemma OtherLane(s: System, step: Step, ch: Channel)
    requires WellFormed(s) && Enabled(s, step) && (step.Work? || step.RecvBegin?)
    ensures LaneOf(Next(s, step), ch) == LaneOf(s, ch)
  {
  }

  lemma StepKeepsAligned(s: System, step: Step, ch: Channel)
    requires Inv(s) && Enabled(s, step)
    ensures Aligned(Next(s, step), ch)
  {
    assert Aligned(s, ch) && Proper(s, step.r);
    var l, l' := LaneOf(s, ch), LaneOf(Next(s, step), ch);
    match step
    case SendBegin(_, _, _) =>
      SendBeginLane(s, step, ch);
      if l' != l { LevelBegins(l, |s.sends|); }
    case SendEnd(_) =>
      SendEndLane(s, step, ch);
      if l' != l { LevelSent(l, s.phases[step.r].id); }
    case AppMatch(_, _, _) =>
      AppMatchLane(s, step, ch);
      if l' != l { LevelTakes(l); }
    case ShadowMatch(_) =>
      ShadowMatchLane(s, step, ch);
      if l' != l { LevelTakesShadow(l); }
    case RecvEnd(_) =>
      RecvEndLane(s, step, ch);
      if l' != l { LevelFinishes(l); }
    case _ => OtherLane(s, step, ch);
  }

  lemma StepKeepsProper(s: System, step: Step, r: nat)
    requires Inv(s) && Enabled(s, step) && r < |s.phases|
    ensures Proper(Next(s, step), r)
  {
    assert Proper(s, r);
    if step.ShadowMatch? && step.r == r {
      assert QueueCarries(s, ShadowChannel(s.phases[r], r).value);
    }
  }

  lemma StepKeepsCarries(s: System, step: Step, ch: Channel)
    requires Inv(s) && Enabled(s, step)
    ensures QueueCarries(Next(s, step), ch)
  {
    var s' := Next(s, step);
    assert QueueCarries(s, ch);
    forall i | 0 <= i < |Queue(s'.shadow, ch)| ensures Carries(s', ch, Queue(s'.shadow, ch)[i]) {
      if i < |Queue(s.shadow, ch)| { assert Carries(s, ch, Queue(s.shadow, ch)[i]); }
      if i + 1 < |Queue(s.shadow, ch)| { assert Carries(s, ch, Queue(s.shadow, ch)[i + 1]); }
    }
  }

  lemma StepKeepsInv(s: System, step: Step)
    requires Inv(s) && Enabled(s, step)
    ensures Inv(Next(s, step))
  {
    forall ch: Channel ensures Aligned(Next(s, step), ch) { StepKeepsAligned(s, step, ch); }
    forall ch: Channel ensures QueueCarries(Next(s, step), ch) { StepKeepsCarries(s, step, ch); }
    forall r | 0 <= r < |s.phases| ensures Proper(Next(s, step), r) { StepKeepsProper(s, step, r); }
  }

  // ---------------------------------------------------------------------------
  // Whole runs
  // ---------------------------------------------------------------------------

  predicate StepAt(ss: seq<System>, steps: seq<Step>, i: nat)
    requires i < |steps| < |ss|
  {
    WellFormed(ss[i]) && Enabled(ss[i], steps[i]) && ss[i + 1] == Next(ss[i], steps[i])
  }

  predicate IsRun(ss: seq<System>, steps: seq<Step>) {
    && |ss| == |steps| + 1
    && Initial(ss[0])
    && forall i :: 0 <= i < |steps| ==> StepAt(ss, steps, i)
  }

  lemma InvGoesOn(ss: seq<System>, steps: seq<Step>, i: nat)
    requires 0 < i <= |steps| < |ss| && StepAt(ss, steps, i - 1) && Inv(ss[i - 1])
    ensures Inv(ss[i])
  {
    StepKeepsInv(ss[i - 1], steps[i - 1]);
  }

  lemma {:induction false} RunKeepsInv(ss: seq<System>, steps: seq<Step>, i: nat)
    requires IsRun(ss, steps) && i < |ss|
    ensures Inv(ss[i])
  {
    if i == 0 {
      InitialInv(ss[0]);
    } else {
      RunKeepsInv(ss, steps, i - 1);
      InvGoesOn(ss, steps, i);
    }
  }

  /** Send number `id` began at step `b`, on the channel and with the clock of that step. */
  ghost predicate SentAt(ss: seq<System>, steps: seq<Step>, b: nat, id: nat, send: Send)
    requires |ss| == |steps| + 1
  {
    && b < |steps| && steps[b].SendBegin? && |ss[b].sends| == id && steps[b].r < |ss[b].clocks|
    && send == Send(Channel(steps[b].r, steps[b].dst, steps[b].tag), ss[b].clocks[steps[b].r])
  }

  lemma {:induction false} SendOf(ss: seq<System>, steps: seq<Step>, i: nat, id: nat) returns (b: nat)
    requires IsRun(ss, steps) && i < |ss| && id < |ss[i].sends|
    ensures b < i && SentAt(ss, steps, b, id, ss[i].sends[id])
  {
    if i == 0 {
      assert false;
    } else {
      assert StepAt(ss, steps, i - 1);
      if id < |ss[i - 1].sends| {
        b := SendOf(ss, steps, i - 1, id);
      } else {
        b := i - 1;
      }
    }
  }

  /** The two messages that a receive took are of the same send. */
  lemma SameSend(s: System, r: nat)
    requires Inv(s) && r < |s.phases| && s.phases[r].Receiving? && s.phases[r].got.Some? && s.phases[r].shadow.Some?
    ensures var p := s.phases[r];
      && p.got.value.0 == p.shadow.value.0 && p.got.value.1 == p.shadow.value.1.id && p.got.value.0.dst == r
      && Carries(s, p.got.value.0, p.shadow.value.1)
  {
    var p := s.phases[r];
    assert Proper(s, r);
    var ch := p.got.value.0;
    assert Aligned(s, ch);
    assert (Taken(s, ch) + Queue(s.app, ch) + InProgress(s, ch))[0] == p.got.value.1;
    assert (TakenShadow(s, ch) + Ids(Queue(s.shadow, ch)))[0] == p.shadow.value.1.id;
  }

  /** `merged` is the larger of the two values, for each of the three clocks. */
  predicate IsMerge(merged: Payload, own: Payload, received: Payload) {
    forall c :: 0 <= c < 3 ==>
      own[c] <= merged[c] && received[c] <= merged[c] && (merged[c] == own[c] || merged[c] == received[c])
  }

  /** A merge is what MpiHappensAfter does to the critical values of a thread. */
  lemma MergeIsReceived(t: ThreadValue, received: Payload)
    ensures Loaded(Received(true, received, t)) == Merge(Loaded(t), received)
    ensures IsMerge(Merge(Loaded(t), received), Loaded(t), received)
  {
  }

  /**
   In every run, with specific and wildcard receives mixed in any order: the receive of an application
   message merges the clock that the sender of that very message had when it began to send it, and
   changes no other clock.
   */
  lemma ReceiveMergesItsSender(ss: seq<System>, steps: seq<Step>, i: nat) returns (b: nat)
    requires IsRun(ss, steps) && i < |steps| && steps[i].RecvEnd?
    ensures var r := steps[i].r;
      && r < |ss[i].phases| == |ss[i].clocks| == |ss[i + 1].clocks| && r < |ss[i + 1].phases|
      && ss[i].phases[r].Receiving? && ss[i].phases[r].got.Some? && ss[i + 1].phases[r].Idle?
      && var (ch, id) := ss[i].phases[r].got.value;
      && ch.dst == r && b < i && steps[b] == SendBegin(ch.src, r, ch.tag) && |ss[b].sends| == id
      && ch.src < |ss[b].clocks| && IsMerge(ss[i + 1].clocks[r], ss[i].clocks[r], ss[b].clocks[ch.src])
      && forall u :: 0 <= u < |ss[i].clocks| && u != r ==> ss[i + 1].clocks[u] == ss[i].clocks[u]
  {
    RunKeepsInv(ss, steps, i);
    assert StepAt(ss, steps, i);
    SameSend(ss[i], steps[i].r);
    b := SendOf(ss, steps, i, ss[i].phases[steps[i].r].got.value.1);
  }

  /** Nothing but a receive and the rank's own work changes its clock. */
  lemma OnlyReceivesMerge(ss: seq<System>, steps: seq<Step>, i: nat, r: nat)
    requires IsRun(ss, steps) && i < |steps| && r < |ss[i].clocks|
    requires steps[i].r == r ==> !steps[i].Work? && !steps[i].RecvEnd?
    ensures r < |ss[i + 1].clocks| && ss[i + 1].clocks[r] == ss[i].clocks[r]
  {
    assert StepAt(ss, steps, i);
  }

  /** A receiver that holds its application message never waits in vain for the shadow message. */
  lemma ShadowIsThere(ss: seq<System>, steps: seq<Step>, i: nat, r: nat)
    requires IsRun(ss, steps) && i < |ss| && r < |ss[i].phases|
    requires ss[i].phases[r].Receiving? && ss[i].phases[r].got.Some? && ss[i].phases[r].shadow.None?
    ensures WellFormed(ss[i]) && Enabled(ss[i], ShadowMatch(r))
    ensures var q := Queue(ss[i].shadow, ss[i].phases[r].got.value.0); q != [] && q[0].id == ss[i].phases[r].got.value.1
  {
    RunKeepsInv(ss, steps, i);
    var s := ss[i];
    var ch := s.phases[r].got.value.0;
    assert Proper(s, r) && Aligned(s, ch);
    assert (Taken(s, ch) + Queue(s.app, ch) + InProgress(s, ch))[0] == s.phases[r].got.value.1;
    assert TakenShadow(s, ch) + Ids(Queue(s.shadow, ch)) == Ids(Queue(s.shadow, ch));
  }

  /** Between receives, a shadow channel is the application channel plus the send in progress. */
  lemma ShadowChannelIsAppChannel(ss: seq<System>, steps: seq<Step>, i: nat, ch: Channel)
    requires IsRun(ss, steps) && i < |ss| && ch.dst < |ss[i].phases| && !ss[i].phases[ch.dst].Receiving?
    ensures Ids(Queue(ss[i].shadow, ch)) == Queue(ss[i].app, ch) + InProgress(ss[i], ch)
    ensures |InProgress(ss[i], ch)| <= 1
  {
    RunKeepsInv(ss, steps, i);
    var s := ss[i];
    assert Aligned(s, ch);
    assert [] + Queue(s.app, ch) + InProgress(s, ch) == Queue(s.app, ch) + InProgress(s, ch);
    assert [] + Ids(Queue(s.shadow, ch)) == Ids(Queue(s.shadow, ch));
  }
}
