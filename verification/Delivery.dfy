/** Delivery of one auxiliary capture job between the helper and its coordinator:
    capture, acknowledge, deliver and observe, over any number of concurrent
    connections that may drop, with both sides free to crash between any two steps. */
module Delivery {
  import opened Text

  /** An artifact under the binding of its reviewed request. */
  datatype Artifact = Artifact(binding: string, digest: string)

  datatype Slot<+T> = Torn | Whole(value: T)

  /** Where the helper stands in serving one connection. */
  datatype Serving =
    | Opened(binding: string)
    | Checked(binding: string)
    | Intended(binding: string)
    | Captured(artifact: Artifact)
    | Sent(artifact: Artifact)
    | Acknowledged(artifact: Artifact)
    | Recorded(artifact: Artifact)
    | Observing(binding: string)
    | Ended

  /** Where the other end stands. A stranger holds a connection but follows no protocol. */
  datatype Client =
    | Waiting(binding: string)
    | Holding(artifact: Artifact)
    | Attempted(artifact: Artifact)
    | Committed(artifact: Artifact)
    | Asking(binding: string)
    | Observed(artifact: Artifact)
    | Stranger
    | Gone

  datatype Frame = CapturedFrame(artifact: Artifact) | DeliveredFrame(artifact: Artifact)

  /** Both ends of a connection, what is under way between them, and the binding it was opened for. */
  datatype Connection = Connection(
    asked: string, serving: Serving, client: Client, toHelper: seq<Artifact>, toClient: seq<Frame>)

  /** The two exclusive journal names of the job, the connections, and what has
      happened so far: captures made, acknowledgements sent, and who wrote the intent. */
  datatype State = State(
    intent: Option<Slot<string>>, delivered: Option<Slot<Artifact>>, connections: map<nat, Connection>,
    captures: nat, acknowledged: set<Artifact>, author: Option<nat>)

  /** How far a record write came: nothing stayed, a torn or whole record but an error, or success. */
  datatype WriteEnd = Nothing | LeftTorn | LeftWhole | Success

  datatype Action =
    | Connect(binding: string, observe: bool, stranger: bool)
    | CheckAbsent
    | WriteIntent(end: WriteEnd)
    | Capture(digest: string)
    | Send
    | ReceiveAck
    | WriteDelivered(end: WriteEnd)
    | Answer
    | Observe
    | HelperStops
    | ClientReceives
    | ClientCommits
    | ClientConfirms
    | StrangerSends(artifact: Artifact)
    | ClientStops

  predicate Init(s: State) {
    s.intent.None? && s.delivered.None? && s.connections == map[] && s.captures == 0 && s.acknowledged == {}
      && s.author.None?
  }

  function Set(s: State, c: nat, x: Connection): State { s.(connections := s.connections[c := x]) }

  function Serve(s: State, c: nat, x: Serving): State
    requires c in s.connections
  {
    Set(s, c, s.connections[c].(serving := x))
  }

  function Tell(s: State, c: nat, x: Serving, f: Frame): State
    requires c in s.connections
  {
    Set(s, c, s.connections[c].(serving := x, toClient := s.connections[c].toClient + [f]))
  }

  /** Exclusive creation: an existing name, whole or torn, refuses. */
  function Create<T>(held: Option<Slot<T>>, value: T, end: WriteEnd): Option<Slot<T>> {
    if held.Some? then held
    else match end
      case Nothing => None
      case LeftTorn => Some(Torn)
      case _ => Some(Whole(value))
  }

  /** One step on connection c. An action that does not apply leaves the state alone. */
  function Step(s: State, c: nat, a: Action): State {
    if a.Connect? then
      if c in s.connections then s
      else Set(s, c, Connection(a.binding,
        if a.observe then Observing(a.binding) else Opened(a.binding),
        if a.stranger then Stranger else if a.observe then Asking(a.binding) else Waiting(a.binding), [], []))
    else if c !in s.connections then s
    else HelperStep(s, c, a, s.connections[c])
  }

  /** The steps of auxiliaryTransferRuntime.serve. */
  function HelperStep(s: State, c: nat, a: Action, x: Connection): State
    requires c in s.connections && x == s.connections[c]
  {
    match (a, x.serving)
    case (CheckAbsent, Opened(b)) =>
      Serve(s, c, if s.intent.None? && s.delivered.None? then Checked(b) else Ended)
    case (WriteIntent(end), Checked(b)) =>
      var ok := s.intent.None? && end == Success;
      Serve(s, c, if ok then Intended(b) else Ended).(
        intent := Create(s.intent, b, end), author := if ok then Some(c) else s.author)
    case (Capture(digest), Intended(b)) =>
      Serve(s, c, Captured(Artifact(b, digest))).(captures := s.captures + 1)
    case (Send, Captured(artifact)) =>
      Tell(s, c, Sent(artifact), CapturedFrame(artifact))
    case (ReceiveAck, Sent(artifact)) =>
      if x.toHelper == [] then s
      else Set(s, c,
        x.(toHelper := x.toHelper[1..], serving := if x.toHelper[0] == artifact then Acknowledged(artifact) else Ended))
    case (WriteDelivered(end), Acknowledged(artifact)) =>
      var ok := s.delivered.None? && end == Success;
      Serve(s, c, if ok then Recorded(artifact) else Ended).(delivered := Create(s.delivered, artifact, end))
    case (Answer, Recorded(artifact)) =>
      Tell(s, c, Ended, DeliveredFrame(artifact))
    case (Observe, Observing(b)) =>
      if s.intent == Some(Whole(b)) && s.delivered.Some? && s.delivered.value.Whole?
        && s.delivered.value.value.binding == b
      then Tell(s, c, Ended, DeliveredFrame(s.delivered.value.value))
      else Serve(s, c, Ended)
    case (HelperStops, _) => Serve(s, c, Ended)
    case _ => ClientStep(s, c, a, x)
  }

  /** The coordinator's steps: receive and verify, commit once, confirm the same artifact. */
  function ClientStep(s: State, c: nat, a: Action, x: Connection): State
    requires c in s.connections && x == s.connections[c]
  {
    match (a, x.client)
    case (ClientReceives, Waiting(b)) =>
      if x.toClient == [] then s
      else Set(s, c, x.(toClient := x.toClient[1..],
        client := if x.toClient[0].CapturedFrame? && x.toClient[0].artifact.binding == b
          then Holding(x.toClient[0].artifact) else Gone))
    case (ClientReceives, Asking(b)) =>
      if x.toClient == [] then s
      else Set(s, c, x.(toClient := x.toClient[1..],
        client := if x.toClient[0].DeliveredFrame? && x.toClient[0].artifact.binding == b
          then Observed(x.toClient[0].artifact) else Gone))
    case (ClientCommits, Holding(artifact)) =>
      Set(s, c, x.(toHelper := x.toHelper + [artifact], client := Attempted(artifact))).(
        acknowledged := s.acknowledged + {artifact})
    case (ClientConfirms, Attempted(artifact)) =>
      if x.toClient == [] then s
      else Set(s, c, x.(toClient := x.toClient[1..],
        client := if x.toClient[0] == DeliveredFrame(artifact) then Committed(artifact) else Gone))
    case (StrangerSends(artifact), Stranger) =>
      Set(s, c, x.(toHelper := x.toHelper + [artifact])).(acknowledged := s.acknowledged + {artifact})
    case (ClientStops, _) => if x.client.Committed? || x.client.Observed? then s else Set(s, c, x.(client := Gone))
    case _ => s
  }

  /** A run is any sequence of steps; a crash of one side is a stop on each of its connections. */
  function Run(s: State, steps: seq<(nat, Action)>): State
    decreases |steps|
  {
    if steps == [] then s else Run(Step(s, steps[0].0, steps[0].1), steps[1..])
  }

  // The invariant

  /** The artifact a serving state has captured. */
  predicate HasArtifact(x: Serving) { x.Captured? || x.Sent? || x.Acknowledged? || x.Recorded? }

  predicate PastIntent(x: Serving) { x.Intended? || HasArtifact(x) }

  function BindingOf(x: Serving): string
    requires PastIntent(x)
  {
    if x.Intended? then x.binding else x.artifact.binding
  }

  predicate ConnectionOk(s: State, c: nat, x: Connection) {
    && (PastIntent(x.serving) ==> s.author == Some(c) && s.intent == Some(Whole(BindingOf(x.serving))))
    && (x.serving.Intended? ==> s.captures == 0)
    && (x.serving.Acknowledged? ==> x.serving.artifact in s.acknowledged)
    && (x.serving.Recorded? ==> s.delivered == Some(Whole(x.serving.artifact)))
    && (x.client.Committed? || x.client.Observed? ==> s.delivered == Some(Whole(x.client.artifact)))
    && (forall i :: 0 <= i < |x.toHelper| ==> x.toHelper[i] in s.acknowledged)
    && (forall i ::
      0 <= i < |x.toClient| && x.toClient[i].DeliveredFrame? ==> s.delivered == Some(Whole(x.toClient[i].artifact)))
  }

  predicate Durable(s: State) {
    && s.captures <= 1
    && (s.captures > 0 ==> s.author.Some?)
    && (s.author.Some? ==> s.intent.Some? && s.intent.value.Whole? && s.author.value in s.connections)
    && (s.delivered.Some? ==> s.intent.Some? && s.intent.value.Whole?)
    && (s.delivered.Some? && s.delivered.value.Whole? ==>
          s.intent == Some(Whole(s.delivered.value.value.binding)) && s.delivered.value.value in s.acknowledged
            && s.captures == 1)
  }

  predicate Inv(s: State) {
    && Durable(s)
    && (forall c :: c in s.connections ==> ConnectionOk(s, c, s.connections[c]))
    && (forall c :: c in s.connections && HasArtifact(s.connections[c].serving) ==> s.captures == 1)
  }

  lemma InitInv(s: State)
    requires Init(s)
    ensures Inv(s)
  {
  }

  /** Durable facts only accumulate: records and their author never change once there. */
  predicate Extends(s: State, t: State) {
    && (s.intent.Some? ==> t.intent == s.intent)
    && (s.delivered.Some? ==> t.delivered == s.delivered)
    && (s.author.Some? ==> t.author == s.author)
    && s.acknowledged <= t.acknowledged
    && s.connections.Keys <= t.connections.Keys
    && s.captures <= t.captures
  }

  /** A step touches no other connection, and captures only from an intended one. */
  lemma StepFrame(s: State, c: nat, a: Action)
    requires s.author.Some? ==> s.intent.Some?
    ensures Extends(s, Step(s, c, a))
    ensures forall d :: d in s.connections && d != c ==> Step(s, c, a).connections[d] == s.connections[d]
    ensures Step(s, c, a).connections.Keys <= s.connections.Keys + {c}
    ensures Step(s, c, a).captures != s.captures ==>
      && Step(s, c, a).captures == s.captures + 1
      && a.Capture? && c in s.connections && s.connections[c].serving.Intended?
      && Step(s, c, a).connections[c].serving == Captured(Artifact(s.connections[c].serving.binding, a.digest))
  {
  }

  lemma OtherOk(s: State, t: State, d: nat, x: Connection)
    requires ConnectionOk(s, d, x) && Extends(s, t) && (x.serving.Intended? ==> t.captures == 0)
    ensures ConnectionOk(t, d, x)
  {
  }

  predicate Records(a: Action)
  {
    a.CheckAbsent? || a.WriteIntent? || a.Capture? || a.ReceiveAck? || a.WriteDelivered? || a.HelperStops?
  }

  predicate Speaks(a: Action) { a.Send? || a.Answer? || a.Observe? }

  lemma RecordingOk(s: State, c: nat, a: Action)
    requires Inv(s) && c in s.connections && Records(a)
    ensures ConnectionOk(Step(s, c, a), c, Step(s, c, a).connections[c])
  {
    hide ClientStep;
    var x := s.connections[c];
    assert ConnectionOk(s, c, x);
    StepFrame(s, c, a);
    Passes(s, c, a);
    if a.HelperStops? || a.CheckAbsent? || a.Capture? {
    } else if a.ReceiveAck? {
      assert x.toHelper != [] ==> x.toHelper[0] in s.acknowledged;
    } else if a.WriteIntent? && x.serving.Checked? {
      assert s.intent.None? ==> s.author.None? && s.delivered.None? && s.captures == 0;
    }
  }

  lemma SpeakingOk(s: State, c: nat, a: Action)
    requires Inv(s) && c in s.connections && Speaks(a)
    ensures ConnectionOk(Step(s, c, a), c, Step(s, c, a).connections[c])
  {
    hide ClientStep;
    var x, t := s.connections[c], Step(s, c, a);
    assert ConnectionOk(s, c, x);
    match (a, x.serving) {
      case (Send, Captured(artifact)) =>
        assert t.connections[c].toClient == x.toClient + [CapturedFrame(artifact)];
      case (Answer, Recorded(artifact)) =>
        assert t.connections[c].toClient == x.toClient + [DeliveredFrame(artifact)];
      case (Observe, Observing(b)) =>
        assert t.connections[c].toClient == x.toClient
            || (s.delivered.Some? && s.delivered.value.Whole?
              && t.connections[c].toClient == x.toClient + [DeliveredFrame(s.delivered.value.value)]);
      case _ =>
        Passes(s, c, a);
    }
  }

  lemma Passes(s: State, c: nat, a: Action)
    requires c in s.connections && (Records(a) || Speaks(a))
    ensures ClientStep(s, c, a, s.connections[c]) == s
  {
  }

  lemma AnsweringOk(s: State, c: nat, a: Action)
    requires Inv(s) && c in s.connections && !a.Connect? && !Records(a) && !Speaks(a)
    ensures ConnectionOk(Step(s, c, a), c, Step(s, c, a).connections[c])
  {
    var x, t := s.connections[c], Step(s, c, a);
    assert ConnectionOk(s, c, x);
    assert t == ClientStep(s, c, a, x);
    match (a, x.client) {
      case (ClientCommits, Holding(artifact)) =>
        assert t.connections[c].toHelper == x.toHelper + [artifact];
      case (StrangerSends(artifact), Stranger) =>
        assert t.connections[c].toHelper == x.toHelper + [artifact];
      case _ =>
    }
  }

  lemma SameConnectionOk(s: State, c: nat, a: Action)
    requires Inv(s) && c in s.connections && !a.Connect?
    ensures ConnectionOk(Step(s, c, a), c, Step(s, c, a).connections[c])
  {
    hide Step, Inv, ConnectionOk;
    if Records(a) {
      RecordingOk(s, c, a);
    } else if Speaks(a) {
      SpeakingOk(s, c, a);
    } else {
      AnsweringOk(s, c, a);
    }
  }

  lemma DurableOk(s: State, c: nat, a: Action)
    requires Inv(s)
    ensures Durable(Step(s, c, a))
  {
    StepFrame(s, c, a);
    if c in s.connections {
      var x := s.connections[c];
      assert ConnectionOk(s, c, x);
      if a.WriteIntent? || a.WriteDelivered? || a.Capture? {
        hide ClientStep;
        Passes(s, c, a);
      } else {
        SameRecords(s, c, a);
      }
    }
  }

  lemma SameRecords(s: State, c: nat, a: Action)
    requires c in s.connections && !a.WriteIntent? && !a.WriteDelivered? && !a.Capture?
    ensures var t := Step(s, c, a);
      && t.intent == s.intent && t.delivered == s.delivered && t.captures == s.captures && t.author == s.author
      && t.connections.Keys == s.connections.Keys && s.acknowledged <= t.acknowledged
  {
  }

  lemma {:induction false} StepInv(s: State, c: nat, a: Action)
    requires Inv(s)
    ensures Inv(Step(s, c, a))
  {
    var t := Step(s, c, a);
    StepFrame(s, c, a);
    DurableOk(s, c, a);
    hide Step;
    forall d | d in t.connections ensures ConnectionOk(t, d, t.connections[d]) {
      if d in s.connections {
        assert ConnectionOk(s, d, s.connections[d]);
        if d != c {
          OtherOk(s, t, d, s.connections[d]);
        } else if !a.Connect? {
          SameConnectionOk(s, c, a);
        } else {
          ConnectOk(s, c, a);
        }
      } else {
        ConnectOk(s, c, a);
      }
    }
    forall d | d in t.connections && HasArtifact(t.connections[d].serving) ensures t.captures == 1 {
      ArtifactOk(s, c, a, d);
    }
  }

  lemma ConnectOk(s: State, c: nat, a: Action)
    requires Inv(s) && (c !in s.connections || a.Connect?) && c in Step(s, c, a).connections
    ensures ConnectionOk(Step(s, c, a), c, Step(s, c, a).connections[c])
  {
    if c in s.connections { assert ConnectionOk(s, c, s.connections[c]); }
  }

  lemma ArtifactOk(s: State, c: nat, a: Action, d: nat)
    requires Inv(s) && d in Step(s, c, a).connections && HasArtifact(Step(s, c, a).connections[d].serving)
    ensures Step(s, c, a).captures == 1
  {
    if d in s.connections { assert ConnectionOk(s, d, s.connections[d]); }
    if c in s.connections { assert ConnectionOk(s, c, s.connections[c]); }
  }

  // What was asked for

  /** Neither end of a connection, nor anything sent to the client on it, is of another binding than was asked for. */
  predicate AsksFor(x: Connection) {
    && (match x.serving
        case Opened(b) => b == x.asked
        case Checked(b) => b == x.asked
        case Intended(b) => b == x.asked
        case Observing(b) => b == x.asked
        case Ended => true
        case _ => x.serving.artifact.binding == x.asked)
    && (match x.client
        case Waiting(b) => b == x.asked
        case Asking(b) => b == x.asked
        case Stranger => true
        case Gone => true
        case _ => x.client.artifact.binding == x.asked)
    && forall i :: 0 <= i < |x.toClient| ==> x.toClient[i].artifact.binding == x.asked
  }

  predicate AllAsk(s: State) { forall c :: c in s.connections ==> AsksFor(s.connections[c]) }

  lemma AskStep(s: State, c: nat, a: Action)
    requires AllAsk(s)
    ensures AllAsk(Step(s, c, a))
  {
    var t := Step(s, c, a);
    SameOthers(s, c, a);
    if c in t.connections { HereAsks(s, c, a); }
  }

  lemma SameOthers(s: State, c: nat, a: Action)
    ensures forall d :: d in Step(s, c, a).connections && d != c ==>
      d in s.connections && Step(s, c, a).connections[d] == s.connections[d]
  {
  }

  lemma HereAsks(s: State, c: nat, a: Action)
    requires (c in s.connections ==> AsksFor(s.connections[c])) && c in Step(s, c, a).connections
    ensures AsksFor(Step(s, c, a).connections[c])
  {
  }

  lemma {:induction false} RunAsks(s: State, steps: seq<(nat, Action)>)
    requires AllAsk(s)
    ensures AllAsk(Run(s, steps))
    decreases |steps|
  {
    hide AllAsk, Step;
    if steps != [] {
      AskStep(s, steps[0].0, steps[0].1);
      RunAsks(Step(s, steps[0].0, steps[0].1), steps[1..]);
    }
  }

  // The results

  /** Every reachable state satisfies the invariant. */
  lemma {:induction false} RunInv(s: State, steps: seq<(nat, Action)>)
    requires Inv(s)
    ensures Inv(Run(s, steps)) && Extends(s, Run(s, steps))
    decreases |steps|
  {
    if steps != [] {
      StepInv(s, steps[0].0, steps[0].1);
      StepFrame(s, steps[0].0, steps[0].1);
      RunInv(Step(s, steps[0].0, steps[0].1), steps[1..]);
    }
  }

  /** Over every run from the empty journal: at most one capture; a durable delivery has its
      intent and an acknowledgement of that very artifact; a commit that succeeded, and every
      answered observation, is of the artifact durably delivered, under the binding that was asked for. */
  lemma DeliveryIsSafe(s: State, steps: seq<(nat, Action)>)
    requires Init(s)
    ensures var t := Run(s, steps);
      && t.captures <= 1
      && (t.delivered.Some? && t.delivered.value.Whole? ==>
            && t.intent == Some(Whole(t.delivered.value.value.binding))
            && t.delivered.value.value in t.acknowledged)
      && (forall c ::
        c in t.connections && (t.connections[c].client.Committed? || t.connections[c].client.Observed?) ==>
            && t.delivered == Some(Whole(t.connections[c].client.artifact))
            && t.connections[c].client.artifact.binding == t.connections[c].asked)
  {
    InitInv(s);
    RunInv(s, steps);
    RunAsks(s, steps);
    var t := Run(s, steps);
    forall c | c in t.connections && (t.connections[c].client.Committed? || t.connections[c].client.Observed?)
      ensures t.delivered == Some(Whole(t.connections[c].client.artifact))
    {
      assert ConnectionOk(t, c, t.connections[c]);
    }
    forall c | c in t.connections && (t.connections[c].client.Committed? || t.connections[c].client.Observed?)
      ensures t.connections[c].client.artifact.binding == t.connections[c].asked
    {
      assert AsksFor(t.connections[c]);
    }
  }

  /** Nobody serving holds the intent it wrote itself. */
  predicate NobodyIntends(s: State) {
    s.intent.Some? && forall c :: c in s.connections ==> !s.connections[c].serving.Intended?
  }

  /** Once the intent name exists and its author has moved on or died, no run ever captures
      again: neither a retry, nor a crash, nor any observation. */
  lemma {:induction false} NeverCapturesAgain(s: State, steps: seq<(nat, Action)>)
    requires Inv(s) && NobodyIntends(s)
    ensures Run(s, steps).captures == s.captures && NobodyIntends(Run(s, steps))
    decreases |steps|
  {
    hide Step, Inv, Extends;
    if steps != [] {
      var c, a := steps[0].0, steps[0].1;
      var t := Step(s, c, a);
      InvAuthor(s);
      StepInv(s, c, a);
      StepFrame(s, c, a);
      NobodyStarts(s, c, a);
      NeverCapturesAgain(t, steps[1..]);
    }
  }

  lemma InvAuthor(s: State)
    requires Inv(s)
    ensures s.author.Some? ==> s.intent.Some?
  {
  }

  lemma NobodyStarts(s: State, c: nat, a: Action)
    requires Inv(s) && NobodyIntends(s)
    ensures NobodyIntends(Step(s, c, a))
  {
  }

  predicate ObserveOnly(x: Connection) { x.serving.Observing? || x.serving.Ended? }

  /** A connection opened for observation never captures or writes, whatever follows on it. */
  lemma ObservationOnlyReads(s: State, c: nat, a: Action)
    requires c in s.connections && ObserveOnly(s.connections[c])
    ensures var t := Step(s, c, a);
      ObserveOnly(t.connections[c]) && t.intent == s.intent && t.delivered == s.delivered && t.captures == s.captures
  {
  }

  /** Whatever was lost before, an observation of a delivered artifact under its binding shows it. */
  lemma ObservationFindsDelivery(s: State, c: nat, artifact: Artifact)
    requires Inv(s) && s.delivered == Some(Whole(artifact)) && c !in s.connections
    ensures var t := Run(s, [(c, Connect(artifact.binding, true, false)), (c, Observe), (c, ClientReceives)]);
      c in t.connections && t.connections[c].client == Observed(artifact)
  {
    var steps := [(c, Connect(artifact.binding, true, false)), (c, Observe), (c, ClientReceives)];
    var t := Step(s, c, steps[0].1);
    assert t.connections[c] ==
      Connection(artifact.binding, Observing(artifact.binding), Asking(artifact.binding), [], []);
    var u := Step(t, c, steps[1].1);
    assert u.connections[c].toClient == [DeliveredFrame(artifact)];
    RunThen(s, [], c, steps[0].1);
    RunThen(s, [steps[0]], c, steps[1].1);
    RunThen(s, [steps[0], steps[1]], c, steps[2].1);
    assert [] + [steps[0]] == [steps[0]] && [steps[0]] + [steps[1]] == [steps[0], steps[1]];
    assert [steps[0], steps[1]] + [steps[2]] == steps;
  }

  lemma {:induction false} RunThen(s: State, steps: seq<(nat, Action)>, c: nat, a: Action)
    ensures Run(s, steps + [(c, a)]) == Step(Run(s, steps), c, a)
    decreases |steps|
  {
    hide Step;
    var longer := steps + [(c, a)];
    if steps == [] {
      assert longer[1..] == [];
    } else {
      assert longer[1..] == steps[1..] + [(c, a)];
      RunThen(Step(s, steps[0].0, steps[0].1), steps[1..], c, a);
    }
  }

  function Undisturbed(c: nat, actions: seq<Action>): seq<(nat, Action)> {
    if actions == [] then [] else Undisturbed(c, actions[..|actions| - 1]) + [(c, actions[|actions| - 1])]
  }

  lemma NextStep(s: State, c: nat, actions: seq<Action>, a: Action)
    ensures Run(s, Undisturbed(c, actions + [a])) == Step(Run(s, Undisturbed(c, actions)), c, a)
  {
    assert (actions + [a])[..|actions|] == actions;
    RunThen(s, Undisturbed(c, actions), c, a);
  }

  /** The protocol can succeed: an undisturbed exchange on a fresh connection commits its artifact. */
  lemma UndisturbedDeliveryCommits(s: State, c: nat, binding: string, digest: string) returns (actions: seq<Action>)
    requires Inv(s) && s.intent.None? && c !in s.connections
    ensures var t := Run(s, Undisturbed(c, actions));
      && c in t.connections && t.connections[c].client == Committed(Artifact(binding, digest))
      && t.delivered == Some(Whole(Artifact(binding, digest))) && t.captures == 1
  {
    var artifact := Artifact(binding, digest);
    NextStep(s, c, [], Connect(binding, false, false));
    actions := [] + [Connect(binding, false, false)];
    assert Undisturbed(c, []) == [] && Run(s, []) == s;
    var t := Step(s, c, Connect(binding, false, false));
    var more :=
      [CheckAbsent, WriteIntent(Success), Capture(digest), Send, ClientReceives, ClientCommits, ReceiveAck,
        WriteDelivered(Success), Answer, ClientConfirms];
    assert t.connections[c] == Connection(binding, Opened(binding), Waiting(binding), [], []);
    var k := 0;
    while k < 10
      invariant 0 <= k <= 10 && t == Run(s, Undisturbed(c, actions)) && c in t.connections
      invariant t.connections[c] == Exchange(artifact, k)
      invariant t.intent == (if k < 2 then None else Some(Whole(binding))) && t.captures == if k < 3 then 0 else 1
      invariant t.delivered == (if k < 8 then None else Some(Whole(artifact)))
    {
      NextStep(s, c, actions, more[k]);
      actions := actions + [more[k]];
      ExchangeStep(t, c, artifact, k, more[k]);
      t := Step(t, c, more[k]);
      k := k + 1;
    }
  }

  /** The connection after k steps of an undisturbed exchange. */
  function Exchange(artifact: Artifact, k: nat): Connection
    requires k <= 10
  {
    var b := artifact.binding;
    if k == 0 then Connection(b, Opened(b), Waiting(b), [], [])
    else if k == 1 then Connection(b, Checked(b), Waiting(b), [], [])
    else if k == 2 then Connection(b, Intended(b), Waiting(b), [], [])
    else if k == 3 then Connection(b, Captured(artifact), Waiting(b), [], [])
    else if k == 4 then Connection(b, Sent(artifact), Waiting(b), [], [CapturedFrame(artifact)])
    else if k == 5 then Connection(b, Sent(artifact), Holding(artifact), [], [])
    else if k == 6 then Connection(b, Sent(artifact), Attempted(artifact), [artifact], [])
    else if k == 7 then Connection(b, Acknowledged(artifact), Attempted(artifact), [], [])
    else if k == 8 then Connection(b, Recorded(artifact), Attempted(artifact), [], [])
    else if k == 9 then Connection(b, Ended, Attempted(artifact), [], [DeliveredFrame(artifact)])
    else Connection(b, Ended, Committed(artifact), [], [])
  }

  lemma ExchangeStep(t: State, c: nat, artifact: Artifact, k: nat, a: Action)
    requires k < 10 && c in t.connections && t.connections[c] == Exchange(artifact, k)
    requires a ==
      [CheckAbsent, WriteIntent(Success), Capture(artifact.digest), Send, ClientReceives, ClientCommits, ReceiveAck,
        WriteDelivered(Success), Answer, ClientConfirms][k]
    requires t.intent == (if k < 2 then None else Some(Whole(artifact.binding))) && t.captures == if k < 3 then 0 else 1
    requires t.delivered == (if k < 8 then None else Some(Whole(artifact)))
    ensures var u := Step(t, c, a);
      && c in u.connections && u.connections[c] == Exchange(artifact, k + 1)
      && u.intent == (if k + 1 < 2 then None else Some(Whole(artifact.binding)))
        && u.captures == (if k + 1 < 3 then 0 else 1)
      && u.delivered == (if k + 1 < 8 then None else Some(Whole(artifact)))
  {
  }
}
