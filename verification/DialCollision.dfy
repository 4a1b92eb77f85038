/**
 Two nodes dial each other at about the same time. Each settles the pair of
 connections on its own, with the registry's tie-break; closing a connection at
 one end reaches the other end later. The surviving connection must be the same
 at both ends.
 */
module DialCollision {
  import opened Common
  import R = Registry

  datatype Side = High | Low

  /** X was dialled by the node with the higher identifier, Y by the other. */
  const X: nat := 0
  const Y: nat := 1

  /** A node: its registry, the connections its engine has handled, and its clock. */
  datatype Node = Node(reg: R.State, handled: set<nat>, clock: int)

  datatype World = World(high: Node, low: Node)

  datatype Step =
    | Handle(side: Side, conn: nat, now: int)   // a node's engine receives its end of a connection
    | Notice(side: Side, conn: nat)             // the close made at the other end arrives
    | End(side: Side, conn: nat)                // runSession returns on a dead connection

  function Start(highId: string, lowId: string, clock: int): World {
    World(Node(R.Empty(highId), {}, clock), Node(R.Empty(lowId), {}, clock))
  }

  function At(w: World, side: Side): Node { if side.High? then w.high else w.low }

  function Set(w: World, side: Side, n: Node): World {
    if side.High? then w.(high := n) else w.(low := n)
  }

  function Other(side: Side): Side { if side.High? then Low else High }

  /** One end of a connection, as the node on that side sees it. */
  function EndOf(side: Side, conn: nat, peer: string): R.Session {
    R.Session(conn, peer, side.High? <==> conn == X, 0)
  }

  predicate Enabled(w: World, step: Step) {
    var n := At(w, step.side);
    step.conn in {X, Y} &&
    match step
    case Handle(_, conn, now) => conn !in n.handled && n.clock <= now
    case Notice(side, conn) => conn in At(w, Other(side)).reg.dead
    case End(_, conn) => conn in n.handled && conn in n.reg.dead
  }

  /** A step changes one node only; the other one lends its identifier. */
  function NextNode(n: Node, step: Step, peer: string): Node {
    match step
    case Handle(side, conn, now) =>
      Node(R.Connected(n.reg, EndOf(side, conn, peer), now, true), n.handled + {conn}, now)
    case Notice(_, conn) => n.(reg := n.reg.(dead := n.reg.dead + {conn}))
    case End(side, conn) => n.(reg := R.Removed(n.reg, EndOf(side, conn, peer)))
  }

  function Next(w: World, step: Step): World {
    Set(w, step.side, NextNode(At(w, step.side), step, At(w, Other(step.side)).reg.localId))
  }

  predicate Legal(w: World, run: seq<Step>)
    decreases |run|
  {
    run == [] || (Enabled(w, run[0]) && Legal(Next(w, run[0]), run[1..]))
  }

  function After(w: World, run: seq<Step>): World
    decreases |run|
  {
    if run == [] then w else After(Next(w, run[0]), run[1..])
  }

  /** The higher node meets its second connection when the first is alive and no longer inside the window. */
  predicate Late(n: Node, step: Step, peer: string) {
    && step.Handle? && step.side.High?
    && R.LiveRival(n.reg, EndOf(High, step.conn, peer))
    && step.now - n.reg.sessions[peer].addedAt >= R.COLLISION_WINDOW
  }

  predicate LateAtHigh(w: World, step: Step) { Late(w.high, step, w.low.reg.localId) }

  /** The times at which the higher node has met connections, read off the steps of the run. */
  function MetBy(met: map<nat, int>, step: Step): map<nat, int> {
    if step.Handle? && step.side.High? then met[step.conn := step.now] else met
  }

  /** The higher node meets a connection ten seconds or more after another one that is still alive there. */
  predicate TooLate(w: World, met: map<nat, int>, step: Step) {
    && step.Handle? && step.side.High?
    && exists c | c in met :: c !in w.high.reg.dead && step.now - met[c] >= 10_000_000_000
  }

  predicate EverLate(w: World, met: map<nat, int>, run: seq<Step>)
    decreases |run|
  {
    run != [] && (TooLate(w, met, run[0]) || EverLate(Next(w, run[0]), MetBy(met, run[0]), run[1..]))
  }

  /** The registry of the higher node has the times of the run. */
  ghost predicate Timed(w: World, met: map<nat, int>) {
    && met.Keys == w.high.handled
    && forall p | p in w.high.reg.sessions ::
         w.high.reg.sessions[p].id in met && w.high.reg.sessions[p].addedAt == met[w.high.reg.sessions[p].id]
  }

  predicate Closed(w: World, conn: nat) { conn in w.high.reg.dead || conn in w.low.reg.dead }

  /** What one node's registry holds about the other while X is alive. */
  ghost predicate NodeInv(side: Side, n: Node, peer: string) {
    && !n.reg.closed
    && n.reg.sessions.Keys <= {peer}
    && X !in n.reg.dead
    && n.handled <= {X, Y}
    && (peer in n.reg.sessions ==>
          var s := n.reg.sessions[peer];
          s.id in n.handled && (s.initiator <==> (side.High? <==> s.id == X)))
    && (X in n.handled ==> peer in n.reg.sessions && n.reg.sessions[peer].id == X)
    && (Y in n.handled ==> Y in n.reg.dead || (peer in n.reg.sessions && n.reg.sessions[peer].id == Y))
  }

  ghost predicate Inv(w: World) {
    && w.low.reg.localId != "" && Less(w.low.reg.localId, w.high.reg.localId)
    && NodeInv(High, w.high, w.low.reg.localId)
    && NodeInv(Low, w.low, w.high.reg.localId)
  }

  lemma HandleKeepsNodeInv(side: Side, n: Node, peer: string, conn: nat, now: int)
    requires NodeInv(side, n, peer) && conn in {X, Y} && conn !in n.handled
    requires peer != "" && peer != n.reg.localId && (side.High? <==> Less(peer, n.reg.localId))
    ensures var step := Handle(side, conn, now);
            if Late(n, step, peer) then X in NextNode(n, step, peer).reg.dead
            else NodeInv(side, NextNode(n, step, peer), peer)
  {}

  /** Every step keeps the invariant unless it is late at the higher node, and then it closes X. */
  lemma StepKeepsInv(w: World, step: Step)
    requires Inv(w) && Enabled(w, step)
    ensures !LateAtHigh(w, step) ==> Inv(Next(w, step))
    ensures LateAtHigh(w, step) ==> Closed(Next(w, step), X)
  {
    LessIsAsymmetric(w.low.reg.localId, w.high.reg.localId);
    if step.Handle? {
      HandleKeepsNodeInv(step.side, At(w, step.side), At(w, Other(step.side)).reg.localId, step.conn, step.now);
    }
  }

  lemma StepKeepsClosed(w: World, step: Step, conn: nat)
    requires Closed(w, conn)
    ensures Closed(Next(w, step), conn)
  {}

  lemma {:induction false} RunKeepsClosed(w: World, run: seq<Step>, conn: nat)
    requires Closed(w, conn)
    ensures Closed(After(w, run), conn)
    decreases |run|
  {
    if run != [] {
      StepKeepsClosed(w, run[0], conn);
      RunKeepsClosed(Next(w, run[0]), run[1..], conn);
    }
  }

  lemma StepKeepsTimes(w: World, met: map<nat, int>, step: Step)
    requires Timed(w, met) && Enabled(w, step)
    ensures Timed(Next(w, step), MetBy(met, step))
  {}

  /** What the registry calls late is what the times of the run say. */
  lemma LateByTheClock(w: World, met: map<nat, int>, step: Step)
    requires Inv(w) && Timed(w, met) && Enabled(w, step)
    ensures LateAtHigh(w, step) <==> TooLate(w, met, step)
  {
    if step.Handle? && step.side.High? {
      var peer := w.low.reg.localId;
      forall c | c in met && c !in w.high.reg.dead
        ensures peer in w.high.reg.sessions && w.high.reg.sessions[peer].id == c
      {}
      if LateAtHigh(w, step) {
        var c := w.high.reg.sessions[peer].id;
        assert c in met && c !in w.high.reg.dead && step.now - met[c] >= 10_000_000_000;
      }
    }
  }

  lemma {:induction false} RunKeepsInv(w: World, met: map<nat, int>, run: seq<Step>)
    requires Inv(w) && Timed(w, met) && Legal(w, run)
    ensures !EverLate(w, met, run) ==> Inv(After(w, run))
    ensures EverLate(w, met, run) ==> Closed(After(w, run), X)
    decreases |run|
  {
    if run != [] {
      LateByTheClock(w, met, run[0]);
      StepKeepsInv(w, run[0]);
      StepKeepsTimes(w, met, run[0]);
      if LateAtHigh(w, run[0]) {
        RunKeepsClosed(Next(w, run[0]), run[1..], X);
      } else {
        RunKeepsInv(Next(w, run[0]), MetBy(met, run[0]), run[1..]);
      }
    }
  }

  /**
   In every interleaving, the connection dialled by the higher node is closed exactly when that node
   met its second connection too late. Lateness at the lower node is harmless.
   */
  lemma HigherDialSurvives(highId: string, lowId: string, clock: int, run: seq<Step>)
    requires lowId != "" && Less(lowId, highId)
    requires Legal(Start(highId, lowId, clock), run)
    ensures Closed(After(Start(highId, lowId, clock), run), X) <==> EverLate(Start(highId, lowId, clock), map[], run)
  {
    RunKeepsInv(Start(highId, lowId, clock), map[], run);
  }

  /** Both nodes hold X, alive, and Y is closed at both ends. */
  ghost predicate Agreed(w: World, highId: string, lowId: string) {
    && lowId in w.high.reg.sessions && w.high.reg.sessions[lowId].id == X
    && highId in w.low.reg.sessions && w.low.reg.sessions[highId].id == X
    && X !in w.high.reg.dead && X !in w.low.reg.dead
    && Y in w.high.reg.dead && Y in w.low.reg.dead
  }

  /** Once both nodes have handled both connections they agree, if the higher node was never late. */
  lemma PunctualNodesAgree(highId: string, lowId: string, clock: int, run: seq<Step>)
    requires lowId != "" && Less(lowId, highId)
    requires Legal(Start(highId, lowId, clock), run) && !EverLate(Start(highId, lowId, clock), map[], run)
    ensures var w := After(Start(highId, lowId, clock), run);
            w.high.handled == {X, Y} && w.low.handled == {X, Y} ==> Agreed(w, highId, lowId)
  {
    RunKeepsInv(Start(highId, lowId, clock), map[], run);
    IdsNeverChange(Start(highId, lowId, clock), run);
  }

  /** The higher node meets its connections within ten seconds of each other. */
  ghost predicate WithinWindow(run: seq<Step>, from: int) {
    forall k | 0 <= k < |run| && run[k].Handle? && run[k].side.High? ::
      from <= run[k].now < from + 10_000_000_000
  }

  lemma {:induction false} WithinWindowIsPunctual(w: World, met: map<nat, int>, run: seq<Step>, from: int)
    requires WithinWindow(run, from) && forall c | c in met :: from <= met[c]
    ensures !EverLate(w, met, run)
    decreases |run|
  {
    if run != [] {
      assert !TooLate(w, met, run[0]);
      forall k | 0 <= k < |run[1..]| && run[1..][k].Handle? && run[1..][k].side.High?
        ensures from <= run[1..][k].now < from + 10_000_000_000
      {
        assert run[1..][k] == run[k + 1];
      }
      WithinWindowIsPunctual(Next(w, run[0]), MetBy(met, run[0]), run[1..], from);
    }
  }

  /** In every interleaving of dials met within the window, both nodes end with the connection of the higher one. */
  lemma BothNodesAgree(highId: string, lowId: string, clock: int, run: seq<Step>, from: int)
    requires lowId != "" && Less(lowId, highId)
    requires Legal(Start(highId, lowId, clock), run) && WithinWindow(run, from)
    ensures var w := After(Start(highId, lowId, clock), run);
            w.high.handled == {X, Y} && w.low.handled == {X, Y} ==> Agreed(w, highId, lowId)
  {
    WithinWindowIsPunctual(Start(highId, lowId, clock), map[], run, from);
    PunctualNodesAgree(highId, lowId, clock, run);
  }

  lemma {:induction false} IdsNeverChange(w: World, run: seq<Step>)
    ensures After(w, run).high.reg.localId == w.high.reg.localId
    ensures After(w, run).low.reg.localId == w.low.reg.localId
    decreases |run|
  {
    if run != [] {
      IdsNeverChange(Next(w, run[0]), run[1..]);
    }
  }

  /** One step in front of a run that is late. */
  lemma LateAfter(w: World, met: map<nat, int>, step: Step, rest: seq<Step>)
    ensures Enabled(w, step) && Legal(Next(w, step), rest) ==> Legal(w, [step] + rest)
    ensures After(w, [step] + rest) == After(Next(w, step), rest)
    ensures EverLate(Next(w, step), MetBy(met, step), rest) ==> EverLate(w, met, [step] + rest)
  {
    assert ([step] + rest)[1..] == rest;
  }

  /** With a late second connection at the higher node the pair can lose both connections. */
  lemma LateDialLosesBoth()
    ensures var run := [Handle(High, Y, 0), Handle(Low, X, 0), Handle(Low, Y, 0), Handle(High, X, 10_000_000_000)];
            var w := Start("b", "a", 0);
            Legal(w, run) && EverLate(w, map[], run) && Closed(After(w, run), X) && Closed(After(w, run), Y)
  {
    var w0 := Start("b", "a", 0);
    assert Less("a", "b") && !Less("b", "a");
    var s0, s1, s2, s3 := Handle(High, Y, 0), Handle(Low, X, 0), Handle(Low, Y, 0), Handle(High, X, 10_000_000_000);
    var w1 := Next(w0, s0);
    var w2 := Next(w1, s1);
    var w3 := Next(w2, s2);
    var w4 := Next(w3, s3);
    assert w1.high.reg.sessions == map["a" := R.Session(Y, "a", false, 0)];
    assert w2.low.reg.sessions == map["b" := R.Session(X, "b", false, 0)];
    assert Y in w3.low.reg.dead && Y in w4.low.reg.dead;
    var met := map[Y := 0];
    assert MetBy(map[], s0) == MetBy(met, s1) == MetBy(met, s2) == met && Y in met;
    assert TooLate(w3, met, s3) && X in w4.high.reg.dead;
    LateAfter(w3, met, s3, []);
    LateAfter(w2, met, s2, [s3]);
    LateAfter(w1, met, s1, [s2, s3]);
    LateAfter(w0, map[], s0, [s1, s2, s3]);
    assert [s3] == [s3] + [] && [s2, s3] == [s2] + [s3] && [s1, s2, s3] == [s1] + [s2, s3];
    assert [s0, s1, s2, s3] == [s0] + [s1, s2, s3];
    assert EverLate(w3, met, [s3]);
  }
}
