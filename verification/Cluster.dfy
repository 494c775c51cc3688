/**
 The cluster: workers broadcast to their own connections and to the primary, the primary forwards to
 every other worker.  Channels are reliable and first-in first-out; steps interleave freely.
 */
module Cluster {
  import opened Nostr

  /**
   One broadcast.  Only the event travels; `origin` and `serial` number the broadcasts so that the
   theorems can tell two of them apart, and no step looks at them.
   */
  datatype Message = Message(origin: nat, serial: nat, event: Event)

  /** Per worker: what it applied, what waits on the way to the primary and back, what it broadcast. */
  datatype Net = Net(
    applied: seq<seq<Message>>, up: seq<seq<Message>>, down: seq<seq<Message>>, sent: seq<seq<Message>>)

  predicate Shape(c: Net) {
    |c.applied| == |c.up| == |c.down| == |c.sent|
  }

  function Empties(n: nat): seq<seq<Message>> {
    seq(n, _ => [])
  }

  function Init(n: nat): Net {
    Net(Empties(n), Empties(n), Empties(n), Empties(n))
  }

  datatype Step = Publish(worker: nat, event: Event) | Forward(worker: nat) | Receive(worker: nat)

  /** App.onClusterMessage: the message goes to every worker but its source. */
  function Forwarded(inboxes: seq<seq<Message>>, source: nat, m: Message): seq<seq<Message>> {
    seq(|inboxes|, i requires 0 <= i < |inboxes| => if i == source then inboxes[i] else inboxes[i] + [m])
  }

  function MessageOf(c: Net, w: nat, e: Event): Message
    requires Shape(c) && w < |c.sent|
  {
    Message(w, |c.sent[w]|, e)
  }

  /** A step that cannot happen changes nothing. */
  function Next(c: Net, step: Step): Net
    requires Shape(c)
  {
    match step
    case Publish(w, e) =>
      // WebSocketAdapter.onBroadcast: the worker's own connections first, then process.send
      if w >= |c.sent| then c
      else
        var m := MessageOf(c, w, e);
        c.(applied := c.applied[w := c.applied[w] + [m]], up := c.up[w := c.up[w] + [m]],
           sent := c.sent[w := c.sent[w] + [m]])
    case Forward(w) =>
      if w >= |c.up| || c.up[w] == [] then c
      else c.(up := c.up[w := c.up[w][1..]], down := Forwarded(c.down, w, c.up[w][0]))
    case Receive(w) =>
      // AppWorker.onMessage: applied locally, not sent on
      if w >= |c.down| || c.down[w] == [] then c
      else c.(applied := c.applied[w := c.applied[w] + [c.down[w][0]]], down := c.down[w := c.down[w][1..]])
  }

  function From(s: seq<Message>, w: nat): seq<Message> {
    if s == [] then [] else (if s[0].origin == w then [s[0]] else []) + From(s[1..], w)
  }

  /** Everything worker w broadcast is, in order: applied at v, then on its way down to v, then on its way up. */
  ghost predicate Flows(c: Net, v: nat, w: nat)
    requires Shape(c) && v < |c.sent| && w < |c.sent|
  {
    if v == w then From(c.applied[v], w) == c.sent[w] && From(c.down[v], w) == []
    else From(c.applied[v], w) + From(c.down[v], w) + c.up[w] == c.sent[w]
  }

  ghost predicate Numbered(c: Net, w: nat)
    requires Shape(c) && w < |c.sent|
  {
    && (forall k | 0 <= k < |c.sent[w]| :: c.sent[w][k].origin == w && c.sent[w][k].serial == k)
    && (forall k | 0 <= k < |c.up[w]| :: c.up[w][k].origin == w)
    && (forall k | 0 <= k < |c.down[w]| :: c.down[w][k].origin < |c.sent|)
    && (forall k | 0 <= k < |c.applied[w]| :: c.applied[w][k].origin < |c.sent|)
  }

  ghost predicate Inv(c: Net) {
    && Shape(c)
    && (forall v, w | 0 <= v < |c.sent| && 0 <= w < |c.sent| :: Flows(c, v, w))
    && (forall w | 0 <= w < |c.sent| :: Numbered(c, w))
  }

  lemma {:induction false} FromSnoc(s: seq<Message>, m: Message, w: nat)
    ensures From(s + [m], w) == From(s, w) + if m.origin == w then [m] else []
  {
    if s == [] {
      assert s + [m] == [m] && [m][1..] == [];
    } else {
      var first := if s[0].origin == w then [s[0]] else [];
      assert (s + [m])[1..] == s[1..] + [m];
      assert From(s + [m], w) == first + From(s[1..] + [m], w);
      FromSnoc(s[1..], m, w);
    }
  }

  lemma PublishFlows(c: Net, p: nat, e: Event, v: nat, w: nat)
    requires Inv(c) && p < |c.sent| && v < |c.sent| && w < |c.sent|
    ensures Flows(Next(c, Publish(p, e)), v, w)
  {
    hide From, Numbered;
    assert Flows(c, v, w);
    FromSnoc(c.applied[p], MessageOf(c, p, e), w);
  }

  lemma ForwardFlows(c: Net, p: nat, v: nat, w: nat)
    requires Inv(c) && p < |c.sent| && v < |c.sent| && w < |c.sent|
    ensures Flows(Next(c, Forward(p)), v, w)
  {
    hide From;
    assert Flows(c, v, w) && Numbered(c, p);
    if c.up[p] != [] {
      var m := c.up[p][0];
      assert m.origin == p;
      FromSnoc(c.down[v], m, w);
      if v != w && w == p {
        assert From(c.applied[v], w) + (From(c.down[v], w) + [m]) + c.up[w][1..]
            == From(c.applied[v], w) + From(c.down[v], w) + c.up[w];
      }
    }
  }

  lemma ReceiveFlows(c: Net, p: nat, v: nat, w: nat)
    requires Inv(c) && p < |c.sent| && v < |c.sent| && w < |c.sent|
    ensures Flows(Next(c, Receive(p)), v, w)
  {
    assert Flows(c, v, w);
    if c.down[p] != [] && v == p {
      var m := c.down[p][0];
      FromSnoc(c.applied[p], m, w);
      var first := if m.origin == w then [m] else [];
      assert From(c.down[p], w) == first + From(c.down[p][1..], w);
      assert From(c.applied[v], w) + first + From(c.down[p][1..], w) + c.up[w]
          == From(c.applied[v], w) + (first + From(c.down[p][1..], w)) + c.up[w];
    }
  }

  lemma StepNumbered(c: Net, step: Step, w: nat)
    requires Inv(c) && w < |c.sent|
    ensures Numbered(Next(c, step), w)
  {
    hide From, Flows;
    assert Numbered(c, w);
    if step.worker < |c.sent| {
      assert Numbered(c, step.worker);
    }
  }

  lemma StepKeepsInv(c: Net, step: Step)
    requires Inv(c)
    ensures Inv(Next(c, step)) && |Next(c, step).sent| == |c.sent|
  {
    hide Flows, Numbered;
    var d := Next(c, step);
    forall v, w | 0 <= v < |c.sent| && 0 <= w < |c.sent| ensures Flows(d, v, w) {
      if step.worker < |c.sent| {
        match step {
          case Publish(p, e) => PublishFlows(c, p, e, v, w);
          case Forward(p) => ForwardFlows(c, p, v, w);
          case Receive(p) => ReceiveFlows(c, p, v, w);
        }
      }
    }
    forall w | 0 <= w < |c.sent| ensures Numbered(d, w) {
      StepNumbered(c, step, w);
    }
  }

  /** The network after any sequence of steps. */
  function Run(n: nat, steps: seq<Step>): (c: Net)
    ensures Shape(c)
  {
    if steps == [] then Init(n) else Next(Run(n, steps[..|steps| - 1]), steps[|steps| - 1])
  }

  lemma {:induction false} RunInv(n: nat, steps: seq<Step>)
    ensures Inv(Run(n, steps)) && |Run(n, steps).sent| == n
  {
    hide Flows, Numbered, Next;
    if steps == [] {
      InitInv(n);
    } else {
      RunInv(n, steps[..|steps| - 1]);
      StepKeepsInv(Run(n, steps[..|steps| - 1]), steps[|steps| - 1]);
    }
  }

  lemma InitInv(n: nat)
    ensures Inv(Init(n))
  {
  }

  predicate Drained(c: Net)
    requires Shape(c)
  {
    forall w | 0 <= w < |c.sent| :: c.up[w] == [] && c.down[w] == []
  }

  predicate NoDuplicates(s: seq<Message>) {
    forall i, j | 0 <= i < j < |s| :: s[i] != s[j]
  }

  lemma {:induction false} FromMember(s: seq<Message>, w: nat, i: nat) returns (k: nat)
    requires i < |s| && s[i].origin == w
    ensures k < |From(s, w)| && From(s, w)[k] == s[i]
    ensures k == |From(s[..i], w)|
  {
    if i == 0 {
      k := 0;
    } else {
      var j := FromMember(s[1..], w, i - 1);
      assert s[1..][..i - 1] == s[..i][1..];
      k := if s[0].origin == w then j + 1 else j;
    }
  }

  lemma {:induction false} FromGrows(s: seq<Message>, w: nat, i: nat, j: nat)
    requires i < j <= |s| && s[i].origin == w
    ensures |From(s[..i], w)| < |From(s[..j], w)|
    decreases j
  {
    assert s[..j] == s[..j - 1] + [s[j - 1]];
    FromSnoc(s[..j - 1], s[j - 1], w);
    if i < j - 1 {
      FromGrows(s, w, i, j - 1);
    }
  }

  /** What has arrived anywhere has arrived once. */
  lemma AppliedOnce(c: Net, v: nat)
    requires Inv(c) && v < |c.sent|
    ensures NoDuplicates(c.applied[v])
  {
    hide From;
    var s := c.applied[v];
    forall i, j | 0 <= i < j < |s| ensures s[i] != s[j] {
      assert Numbered(c, v);
      var w := s[i].origin;
      assert Flows(c, v, w) && Numbered(c, w);
      var a := FromMember(s, w, i);
      assert s[i] == c.sent[w][a];
      if s[j].origin == w {
        var b := FromMember(s, w, j);
        FromGrows(s, w, i, j);
        assert s[j] == c.sent[w][b];
      }
    }
  }

  /**
   Fan-out over every run: at any time each worker has applied a prefix of what each other worker
   broadcast, in the order it was broadcast, nothing twice and nothing that nobody sent; and a worker has
   applied all of its own broadcasts.
   */
  lemma FanOut(n: nat, steps: seq<Step>, v: nat, w: nat)
    requires v < n && w < n
    ensures
      var c := Run(n, steps);
      && |c.applied| == |c.sent| == n
      && From(c.applied[v], w) <= c.sent[w]
      && From(c.applied[w], w) == c.sent[w]
      && NoDuplicates(c.applied[v])
      && forall k | 0 <= k < |c.applied[v]| :: c.applied[v][k].origin < n
  {
    hide From;
    RunInv(n, steps);
    var c := Run(n, steps);
    assert Flows(c, v, w) && Flows(c, w, w) && Numbered(c, v);
    AppliedOnce(c, v);
  }

  /** Once the channels are empty every worker has applied every broadcast exactly once, in order. */
  lemma FanOutComplete(n: nat, steps: seq<Step>, v: nat, w: nat)
    requires v < n && w < n && |Run(n, steps).sent| == n && Drained(Run(n, steps))
    ensures From(Run(n, steps).applied[v], w) == Run(n, steps).sent[w]
  {
    RunInv(n, steps);
    assert Flows(Run(n, steps), v, w);
  }

  // ----- channels drain -----

  function Total(boxes: seq<seq<Message>>): nat {
    if boxes == [] then 0 else |boxes[0]| + Total(boxes[1..])
  }

  /** Work left: a message on its way up still has to be forwarded and received by the other workers. */
  function Work(c: Net): nat {
    Total(c.up) * (|c.up| + 1) + Total(c.down)
  }

  lemma {:induction false} TotalUpdate(boxes: seq<seq<Message>>, i: nat, box: seq<Message>)
    requires i < |boxes|
    ensures Total(boxes[i := box]) == Total(boxes) - |boxes[i]| + |box|
  {
    if i == 0 {
      assert boxes[0 := box][1..] == boxes[1..];
    } else {
      assert boxes[i := box][1..] == boxes[1..][i - 1 := box];
      TotalUpdate(boxes[1..], i - 1, box);
    }
  }

  lemma {:induction false} TotalForwarded(boxes: seq<seq<Message>>, after: seq<seq<Message>>)
    requires |after| == |boxes| && forall i | 0 <= i < |boxes| :: |after[i]| <= |boxes[i]| + 1
    ensures Total(after) <= Total(boxes) + |boxes|
  {
    if boxes != [] {
      TotalForwarded(boxes[1..], after[1..]);
    }
  }

  lemma {:induction false} TotalZero(boxes: seq<seq<Message>>)
    ensures Total(boxes) == 0 <==> forall i | 0 <= i < |boxes| :: boxes[i] == []
  {
    if boxes != [] {
      TotalZero(boxes[1..]);
      assert forall i | 0 < i < |boxes| :: boxes[i] == boxes[1..][i - 1];
    }
  }

  /** No work is left exactly when no message waits. */
  lemma WorkIsDone(c: Net)
    requires Shape(c)
    ensures Work(c) == 0 <==> Drained(c)
  {
    TotalZero(c.up);
    TotalZero(c.down);
    if Total(c.up) > 0 {
      assert Total(c.up) * (|c.up| + 1) > 0;
    }
  }

  /** Forwarding or receiving a waiting message always leaves less work, so the channels drain. */
  lemma InternalStepsDrain(c: Net, step: Step)
    requires Shape(c) && !step.Publish? && Next(c, step) != c
    ensures Work(Next(c, step)) < Work(c)
  {
    var w := step.worker;
    match step {
      case Forward(_) =>
        TotalUpdate(c.up, w, c.up[w][1..]);
        TotalForwarded(c.down, Forwarded(c.down, w, c.up[w][0]));
        assert (Total(c.up) - 1) * (|c.up| + 1) == Total(c.up) * (|c.up| + 1) - (|c.up| + 1);
      case Receive(_) =>
        TotalUpdate(c.down, w, c.down[w][1..]);
    }
  }

  /** While a message waits somewhere, some internal step moves it. */
  lemma InternalStepEnabled(c: Net) returns (step: Step)
    requires Shape(c) && !Drained(c)
    ensures !step.Publish? && Next(c, step) != c
  {
    var w :| 0 <= w < |c.sent| && (c.up[w] != [] || c.down[w] != []);
    if c.up[w] != [] {
      step := Forward(w);
      assert |Next(c, step).up[w]| < |c.up[w]|;
    } else {
      step := Receive(w);
      assert |Next(c, step).down[w]| < |c.down[w]|;
    }
  }

  /** The network after some steps from c. */
  function Continue(c: Net, steps: seq<Step>): (d: Net)
    requires Shape(c)
    ensures Shape(d)
    decreases |steps|
  {
    if steps == [] then c else Continue(Next(c, steps[0]), steps[1..])
  }

  /** From every network some internal steps, no more than its work, empty all channels. */
  lemma {:induction false} ChannelsDrain(c: Net) returns (steps: seq<Step>)
    requires Shape(c)
    ensures Drained(Continue(c, steps)) && |steps| <= Work(c)
    ensures forall i | 0 <= i < |steps| :: !steps[i].Publish?
    decreases Work(c)
  {
    hide Next, Work;
    steps := [];
    if !Drained(c) {
      var step := InternalStepEnabled(c);
      InternalStepsDrain(c, step);
      NextShape(c, step);
      var rest := ChannelsDrain(Next(c, step));
      steps := [step] + rest;
      assert steps[1..] == rest;
    }
  }

  lemma NextShape(c: Net, step: Step)
    requires Shape(c)
    ensures Shape(Next(c, step))
  {
  }
}
