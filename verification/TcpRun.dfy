/** Building runs of two endpoints step by step. */
module TcpRuns {
  import opened TcpSegments
  import opened TcpConnections
  import opened TcpSystems
  import opened TcpTwoEndpoints

  /** The first `n` steps of a run ending in `x`. */
  datatype Tale = Tale(states: seq<Sys>, acts: seq<(bool, Action)>) {
    ghost predicate Ends(n: nat, x: Sys) {
      SysRun(states, acts) && |acts| == n && states[n] == x
    }
  }

  lemma {:induction false} Extend(t: Tale, n: nat, x: Sys, byA: bool, act: Action, y: Sys) returns (t': Tale)
    requires t.Ends(n, x) && SysStep(x, byA, act, y)
    ensures t'.Ends(n + 1, y) && t'.states == t.states + [y] && t'.acts == t.acts + [(byA, act)]
  {
    t' := Tale(t.states + [y], t.acts + [(byA, act)]);
    forall j: nat | j < |t'.acts|
      ensures StepAt(t'.states, t'.acts, j)
    {
      if j < |t.acts| {
        assert StepAt(t.states, t.acts, j);
      }
    }
  }

  lemma {:induction false} ReceiveStep(x: Sys, seg: Segment, c': Conn)
    requires seg in x.ba && Timely(x.a, x.WorldOfA(), seg)
    requires CanReceive(x.a, seg) && SegmentReceived(x.a, seg, c')
    ensures SysStep(x, true, Perform(ReceiveOp(seg)), x.(a := c'))
  {
  }

  lemma {:induction false} ReceiveStepB(x: Sys, seg: Segment, c': Conn)
    requires seg in x.ab && Timely(x.b, x.Swap().WorldOfA(), seg)
    requires CanReceive(x.b, seg) && SegmentReceived(x.b, seg, c')
    ensures SysStep(x, false, Perform(ReceiveOp(seg)), x.(b := c'))
  {
  }

  lemma {:induction false} TransmitStep(x: Sys, seg: Segment, rest: seq<Segment>)
    requires x.a.out == [seg] + rest
    ensures SysStep(x, true, Transmit, x.(a := x.a.(out := rest), ab := x.ab + {seg}))
  {
  }

  lemma {:induction false} TransmitStepB(x: Sys, seg: Segment, rest: seq<Segment>)
    requires x.b.out == [seg] + rest
    ensures SysStep(x, false, Transmit, x.(b := x.b.(out := rest), ba := x.ba + {seg}))
  {
  }

  // ---- seen from one endpoint

  /** The pair as the endpoint `me` sees it: itself as `a`. */
  function View(x: Sys, me: bool): Sys {
    if me then x else x.Swap()
  }

  /** The run ends, as `me` sees it, in `x`. */
  ghost predicate EndsIn(t: Tale, me: bool, x: Sys) {
    SysRun(t.states, t.acts) && View(t.states[|t.acts|], me) == x
  }

  predicate Continues(t: Tale, t': Tale) {
    t.states <= t'.states && t.acts <= t'.acts
  }

  /** What one endpoint sees the other sees from the other side. */
  lemma {:induction false} OtherSide(t: Tale, me: bool, x: Sys)
    requires EndsIn(t, me, x)
    ensures EndsIn(t, !me, x.Swap())
  {
  }

  lemma {:induction false} EndIsGood(t: Tale, me: bool, x: Sys)
    requires EndsIn(t, me, x)
    ensures SysInv(x)
  {
    SysRunKeeps(t.states, t.acts, |t.acts|);
  }

  lemma {:induction false} Acting(t: Tale, me: bool, x: Sys, act: Action, y: Sys) returns (t': Tale)
    requires EndsIn(t, me, x) && ActsA(x, act, y)
    ensures EndsIn(t', me, y) && Continues(t, t')
  {
    t' := Extend(t, |t.acts|, View(x, me), me, act, View(y, me));
  }

  /** Everything queued goes out. */
  lemma {:induction false} TransmitAll(t: Tale, me: bool, x: Sys) returns (t': Tale)
    requires EndsIn(t, me, x)
    ensures EndsIn(t', me, x.(a := x.a.(out := []), ab := x.ab + Elements(x.a.out))) && Continues(t, t')
    decreases |x.a.out|
  {
    if x.a.out == [] {
      t' := t;
      assert x.(a := x.a.(out := []), ab := x.ab + Elements(x.a.out)) == x;
    } else {
      var rest := x.a.out[1..];
      var y := x.(a := x.a.(out := rest), ab := x.ab + {x.a.out[0]});
      assert x.a.out == [x.a.out[0]] + rest;
      t' := Acting(t, me, x, Transmit, y);
      t' := TransmitAll(t', me, y);
      assert x.ab + Elements(x.a.out) == y.ab + Elements(rest);
    }
  }
}
