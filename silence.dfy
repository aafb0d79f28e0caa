/** The silence gate and segment accumulator of the chain function, as a pure
    state machine over the pending segment and the quiet-buffer counter.
    `Step` is one call of the chain function; `Run` is a stream of them. */
module Silence {
  import opened Buffers
  import opened Energy

  const G_MAXINT: int := 0x7fff_ffff

  /** The element's two segmentation properties. */
  datatype Config = Config(threshold: real, silenceLength: nat)

  /** The ranges the property specifications admit: a threshold in [0, 1]
      and a silence length in [0, G_MAXINT]. */
  predicate ValidConfig(cfg: Config)
  {
    0.0 <= cfg.threshold <= 1.0 && cfg.silenceLength <= G_MAXINT
  }

  /** Strictly above the threshold: the test that opens a segment. */
  predicate Loud(cfg: Config, b: Buffer)
  {
    Ncs(b.data) > cfg.threshold
  }

  /** Strictly below the threshold: the test that counts a quiet buffer. */
  predicate Quiet(cfg: Config, b: Buffer)
  {
    Ncs(b.data) < cfg.threshold
  }

  /** The byte size of the accumulated buffer (`gst_buffer_get_size`). */
  function Size(segment: seq<Buffer>): nat
  {
    if segment == [] then 0 else Size(segment[..|segment| - 1]) + |segment[|segment| - 1].data|
  }

  /** The controller's segmentation state: `quiet_bufs` and the pending segment. */
  datatype Gate = Gate(quietBufs: nat, segment: seq<Buffer>)

  const Initial: Gate := Gate(0, [])

  /** The outcome of one buffer: the next state, whether the buffer joined the
      segment, and the segments submitted for recognition (none or one). */
  datatype Transition = Transition(next: Gate, appended: bool, out: seq<seq<Buffer>>)

  /** One call of the chain function: append, count, then flush. Whatever
      the state it starts from, at most one segment is submitted, and only
      one holding bytes; a submission resets the state; and afterwards the
      counter is within the silence length and positive only while the
      accumulated buffer holds bytes. */
  function Step(cfg: Config, g: Gate, b: Buffer): (t: Transition)
    ensures |t.out| <= 1
    ensures t.out != [] ==> t.next == Initial && Size(t.out[0]) > 0
    ensures t.next.quietBufs <= cfg.silenceLength
    ensures t.next.quietBufs > 0 ==> Size(t.next.segment) > 0
  {
    var appended := Loud(cfg, b) || Size(g.segment) > 0;
    var segment := if appended then g.segment + [b] else g.segment;
    var quiet := if Quiet(cfg, b) && Size(segment) > 0 then g.quietBufs + 1 else 0;
    if quiet > cfg.silenceLength && Size(segment) > 0 then
      Transition(Gate(0, []), appended, [segment])
    else
      Transition(Gate(quiet, segment), appended, [])
  }

  /** The segments submitted at end of stream: the pending one, if it holds bytes. */
  function Drain(g: Gate): (r: seq<seq<Buffer>>)
    ensures |r| <= 1
    ensures r != [] <==> Size(g.segment) > 0
    ensures forall k :: 0 <= k < |r| ==> r[k] == g.segment
  {
    if Size(g.segment) > 0 then [g.segment] else []
  }

  /** The state between buffers: the counter never exceeds the silence
      length, a positive count implies a pending segment, and a pending
      segment starts with a buffer strictly above the threshold. */
  predicate Inv(cfg: Config, g: Gate)
  {
    && g.quietBufs <= cfg.silenceLength
    && (g.quietBufs > 0 ==> g.segment != [])
    && (g.segment != [] ==> Loud(cfg, g.segment[0]))
  }

  /** Every segment is non-empty and opens with a buffer strictly above the threshold. */
  predicate OpenLoud(cfg: Config, segments: seq<seq<Buffer>>)
  {
    forall k :: 0 <= k < |segments| ==> segments[k] != [] && Loud(cfg, segments[k][0])
  }

  /** Concatenation of a sequence of segments. */
  function Flatten(segments: seq<seq<Buffer>>): seq<Buffer>
  {
    if segments == [] then [] else segments[0] + Flatten(segments[1..])
  }

  /** The elements of `s` whose flag in `picks` is set, in order. */
  function Select(s: seq<Buffer>, picks: seq<bool>): seq<Buffer>
    requires |picks| == |s|
  {
    if s == [] then [] else (if picks[0] then [s[0]] else []) + Select(s[1..], picks[1..])
  }

  /** The result of feeding a stream of buffers: the final state, which
      buffers were appended, and every segment submitted along the way. */
  datatype Trace = Trace(final: Gate, picks: seq<bool>, out: seq<seq<Buffer>>)

  /** Feeding a stream of buffers one chain call at a time: at most one
      submission per buffer, every submitted segment holds bytes, and after
      a non-empty stream the counter is within the silence length. */
  function Run(cfg: Config, g: Gate, bufs: seq<Buffer>): (r: Trace)
    ensures |r.picks| == |bufs|
    ensures |r.out| <= |bufs|
    ensures forall k :: 0 <= k < |r.out| ==> Size(r.out[k]) > 0
    ensures bufs != [] ==> r.final.quietBufs <= cfg.silenceLength
    decreases |bufs|
  {
    if bufs == [] then Trace(g, [], [])
    else
      var t := Step(cfg, g, bufs[0]);
      var r := Run(cfg, t.next, bufs[1..]);
      Trace(r.final, [t.appended] + r.picks, t.out + r.out)
  }

  // ---------------------------------------------------------------------
  // Byte size versus emptiness

  lemma SizeSnoc(segment: seq<Buffer>, b: Buffer)
    ensures Size(segment + [b]) == Size(segment) + |b.data|
  {
    assert (segment + [b])[..|segment|] == segment;
  }

  lemma {:induction false} SizeAtLeastFirst(segment: seq<Buffer>)
    requires segment != []
    ensures Size(segment) >= |segment[0].data|
  {
    if |segment| > 1 {
      var init := segment[..|segment| - 1];
      SizeAtLeastFirst(init);
    }
  }

  /** A buffer strictly above a non-negative threshold holds at least one sample. */
  lemma LoudHasSamples(cfg: Config, b: Buffer)
    requires ValidConfig(cfg) && Loud(cfg, b)
    ensures |b.data| >= 2
  {
    NormalisedBounds(b.data);
  }

  /** Under the invariant, the source's byte-size test is the emptiness test. */
  lemma SizeIffNonEmpty(cfg: Config, g: Gate)
    requires ValidConfig(cfg) && Inv(cfg, g)
    ensures Size(g.segment) > 0 <==> g.segment != []
  {
    if g.segment != [] {
      SizeAtLeastFirst(g.segment);
      LoudHasSamples(cfg, g.segment[0]);
    }
  }

  // ---------------------------------------------------------------------
  // One buffer

  /** What one chain call does, in terms of the segment rather than its byte
      size: the buffer is appended iff it is strictly loud or a segment is
      pending; the counter grows iff the buffer is strictly quiet and a
      segment was pending, and is 0 otherwise; the segment is submitted and
      the state reset iff the counter then exceeds the silence length. No
      buffer is lost or duplicated, and the invariant is kept. */
  lemma StepSpec(cfg: Config, g: Gate, b: Buffer)
    requires ValidConfig(cfg) && Inv(cfg, g)
    ensures var t := Step(cfg, g, b);
      var segment := if Loud(cfg, b) || g.segment != [] then g.segment + [b] else g.segment;
      var quiet := if Quiet(cfg, b) && g.segment != [] then g.quietBufs + 1 else 0;
      && t.appended == (Loud(cfg, b) || g.segment != [])
      && t.out == (if quiet > cfg.silenceLength then [segment] else [])
      && t.next == (if quiet > cfg.silenceLength then Gate(0, []) else Gate(quiet, segment))
      && Flatten(t.out) + t.next.segment == g.segment + (if t.appended then [b] else [])
      && Inv(cfg, t.next)
  {
    SizeIffNonEmpty(cfg, g);
    SizeSnoc(g.segment, b);
    var appended := Loud(cfg, b) || g.segment != [];
    var segment := if appended then g.segment + [b] else g.segment;
    if g.segment == [] && Loud(cfg, b) {
      LoudHasSamples(cfg, b);
    }
    assert Size(segment) > 0 <==> segment != [];
    assert segment != [] ==> segment[0] == if g.segment == [] then b else g.segment[0];
    assert Flatten([segment]) == segment + Flatten([]);
  }

  /** One chain call loses and duplicates no buffer: the submitted segment
      (if any) followed by the new pending segment is the old pending
      segment followed by the buffer when it was appended. A submitted
      segment is non-empty and opens strictly above the threshold. */
  lemma StepConserves(cfg: Config, g: Gate, b: Buffer)
    requires ValidConfig(cfg) && Inv(cfg, g)
    ensures var t := Step(cfg, g, b);
      && Flatten(t.out) + t.next.segment == g.segment + (if t.appended then [b] else [])
      && |t.out| <= 1
      && OpenLoud(cfg, t.out)
      && Inv(cfg, t.next)
  {
    StepSpec(cfg, g, b);
    var t := Step(cfg, g, b);
    if t.out != [] {
      assert t.out[0] == g.segment + [b];
      assert t.out[0][0] == if g.segment == [] then b else g.segment[0];
    }
  }

  /** A flush happens exactly on a strictly quiet buffer that meets a pending
      segment whose counter already stands at the silence length. */
  lemma FlushIff(cfg: Config, g: Gate, b: Buffer)
    requires ValidConfig(cfg) && Inv(cfg, g)
    ensures Step(cfg, g, b).out != [] <==> Quiet(cfg, b) && g.segment != [] && g.quietBufs == cfg.silenceLength
  {
    StepSpec(cfg, g, b);
  }

  /** A buffer exactly at the threshold is not appended to an empty segment,
      never flushes, and resets the counter to 0. */
  lemma AtThresholdResets(cfg: Config, g: Gate, b: Buffer)
    requires ValidConfig(cfg) && Inv(cfg, g)
    requires Ncs(b.data) == cfg.threshold
    ensures var t := Step(cfg, g, b);
      && t.appended == (g.segment != [])
      && t.out == []
      && t.next == Gate(0, if g.segment == [] then [] else g.segment + [b])
  {
    StepSpec(cfg, g, b);
  }

  /** End of stream submits the pending segment iff it is non-empty. */
  lemma DrainSpec(cfg: Config, g: Gate)
    requires ValidConfig(cfg) && Inv(cfg, g)
    ensures Drain(g) == if g.segment != [] then [g.segment] else []
  {
    SizeIffNonEmpty(cfg, g);
  }

  // ---------------------------------------------------------------------
  // Streams of buffers

  lemma {:induction false} FlattenAppend(a: seq<seq<Buffer>>, b: seq<seq<Buffer>>)
    ensures Flatten(a + b) == Flatten(a) + Flatten(b)
  {
    if a != [] {
      FlattenAppend(a[1..], b);
      assert (a + b)[0] == a[0];
      assert (a + b)[1..] == a[1..] + b;
      calc {
        Flatten(a + b);
        a[0] + Flatten(a[1..] + b);
        a[0] + (Flatten(a[1..]) + Flatten(b));
      }
    } else {
      assert a + b == b;
    }
  }

  lemma {:induction false} SelectAppend(s: seq<Buffer>, p: seq<bool>, b: Buffer, x: bool)
    requires |p| == |s|
    ensures Select(s + [b], p + [x]) == Select(s, p) + (if x then [b] else [])
  {
    if s != [] {
      SelectAppend(s[1..], p[1..], b, x);
      assert (s + [b])[1..] == s[1..] + [b];
      assert (p + [x])[1..] == p[1..] + [x];
    }
  }

  lemma ConsSplit(segment: seq<Buffer>, bufs: seq<Buffer>)
    requires bufs != []
    ensures segment + [bufs[0]] + bufs[1..] == segment + bufs
  {
    assert [bufs[0]] + bufs[1..] == bufs;
  }

  /** Joins two conservation facts: what the first part emitted plus what it
      left pending, followed by what the second part did with that. */
  lemma Splice(ft: seq<Buffer>, fr: seq<Buffer>, mid: seq<Buffer>, last: seq<Buffer>,
               first: seq<Buffer>, mine: seq<Buffer>, rest: seq<Buffer>)
    requires ft + mid == first + mine
    requires fr + last == mid + rest
    ensures (ft + fr) + last == first + (mine + rest)
  {
    calc {
      (ft + fr) + last;
      ft + (fr + last);
      ft + (mid + rest);
      (ft + mid) + rest;
      (first + mine) + rest;
    }
  }

  /** Extends a conservation fact by what the next part did with the
      pending segment. */
  lemma Extend(done: seq<Buffer>, more: seq<Buffer>, mid: seq<Buffer>, last: seq<Buffer>,
               whole: seq<Buffer>, mine: seq<Buffer>)
    requires done + mid == whole
    requires more + last == mid + mine
    ensures (done + more) + last == whole + mine
  {
    calc {
      (done + more) + last;
      done + (more + last);
      done + (mid + mine);
      (done + mid) + mine;
    }
  }

  lemma OpenLoudAppend(cfg: Config, a: seq<seq<Buffer>>, b: seq<seq<Buffer>>)
    requires OpenLoud(cfg, a) && OpenLoud(cfg, b)
    ensures OpenLoud(cfg, a + b)
  {
    forall k | 0 <= k < |a + b|
      ensures (a + b)[k] != [] && Loud(cfg, (a + b)[k][0])
    {
      if k >= |a| {
        assert (a + b)[k] == b[k - |a|];
      }
    }
  }

  /** Conservation over a stream: the submitted segments followed by the
      pending one are exactly the pending segment at the start followed by
      the appended input buffers, in order, each once; every submitted
      segment is non-empty and starts strictly above the threshold; the
      invariant holds at the end. */
  lemma {:induction false} RunConserves(cfg: Config, g: Gate, bufs: seq<Buffer>)
    requires ValidConfig(cfg) && Inv(cfg, g)
    ensures var r := Run(cfg, g, bufs);
      && |r.picks| == |bufs|
      && Flatten(r.out) + r.final.segment == g.segment + Select(bufs, r.picks)
      && OpenLoud(cfg, r.out)
      && Inv(cfg, r.final)
    decreases |bufs|
  {
    if bufs != [] {
      var b := bufs[0];
      var t := Step(cfg, g, b);
      StepConserves(cfg, g, b);
      RunConserves(cfg, t.next, bufs[1..]);
      var r := Run(cfg, t.next, bufs[1..]);
      var whole := Run(cfg, g, bufs);
      assert whole == Trace(r.final, [t.appended] + r.picks, t.out + r.out);
      FlattenAppend(t.out, r.out);
      var mine := if t.appended then [b] else [];
      assert Select(bufs, whole.picks) == mine + Select(bufs[1..], r.picks);
      Splice(Flatten(t.out), Flatten(r.out), t.next.segment, r.final.segment,
        g.segment, mine, Select(bufs[1..], r.picks));
      OpenLoudAppend(cfg, t.out, r.out);
    }
  }

  /** The whole stream, from the initial state through end of stream: the
      submitted segments concatenate to exactly the appended input buffers,
      in arrival order, and each is non-empty and opens with a buffer
      strictly above the threshold. */
  lemma StreamConserves(cfg: Config, bufs: seq<Buffer>)
    requires ValidConfig(cfg)
    ensures var r := Run(cfg, Initial, bufs);
      var all := r.out + Drain(r.final);
      && Flatten(all) == Select(bufs, r.picks)
      && OpenLoud(cfg, all)
  {
    RunFromInitial(cfg, bufs);
    var r := Run(cfg, Initial, bufs);
    DrainConserves(cfg, r.out, r.final);
  }

  /** The reference machine started from the initial state: the invariant
      holds, every submitted segment opens strictly above the threshold, and
      the submitted segments followed by the pending one are the appended
      buffers in order. */
  lemma RunFromInitial(cfg: Config, bufs: seq<Buffer>)
    requires ValidConfig(cfg)
    ensures var r := Run(cfg, Initial, bufs);
      && Inv(cfg, r.final)
      && OpenLoud(cfg, r.out)
      && Flatten(r.out) + r.final.segment == Select(bufs, r.picks)
  {
    RunConserves(cfg, Initial, bufs);
    var r := Run(cfg, Initial, bufs);
    assert Initial.segment + Select(bufs, r.picks) == Select(bufs, r.picks);
  }

  /** One chain call extends a log that holds the appended buffers in
      order: the log plus the new pending segment is the appended inputs
      including this buffer if it was appended; every logged segment opens
      strictly loud; the invariant is kept. */
  lemma StepKeepsLog(cfg: Config, bufs: seq<Buffer>, picks: seq<bool>, out: seq<seq<Buffer>>, g: Gate, b: Buffer)
    requires ValidConfig(cfg) && Inv(cfg, g) && OpenLoud(cfg, out) && |picks| == |bufs|
    requires Flatten(out) + g.segment == Select(bufs, picks)
    ensures var t := Step(cfg, g, b);
      && Inv(cfg, t.next)
      && OpenLoud(cfg, out + t.out)
      && Flatten(out + t.out) + t.next.segment == Select(bufs + [b], picks + [t.appended])
  {
    var t := Step(cfg, g, b);
    StepConserves(cfg, g, b);
    OpenLoudAppend(cfg, out, t.out);
    FlattenAppend(out, t.out);
    SelectAppend(bufs, picks, b, t.appended);
    var mine := if t.appended then [b] else [];
    Extend(Flatten(out), Flatten(t.out), g.segment, t.next.segment, Select(bufs, picks), mine);
  }

  /** Submitting the end-of-stream drain after earlier segments keeps the
      log made of appended buffers only, each segment opening strictly loud. */
  lemma DrainConserves(cfg: Config, done: seq<seq<Buffer>>, g: Gate)
    requires ValidConfig(cfg) && Inv(cfg, g) && OpenLoud(cfg, done)
    ensures Flatten(done + Drain(g)) == Flatten(done) + g.segment
    ensures OpenLoud(cfg, done + Drain(g))
  {
    DrainSpec(cfg, g);
    FlattenAppend(done, Drain(g));
    assert Flatten(Drain(g)) == g.segment by {
      if g.segment != [] {
        assert Flatten([g.segment]) == g.segment + Flatten([]);
      }
    }
    OpenLoudAppend(cfg, done, Drain(g));
  }

  /** With a zero threshold no buffer is strictly quiet, so nothing is ever
      submitted before end of stream. */
  lemma {:induction false} ZeroThresholdNeverFlushes(cfg: Config, g: Gate, bufs: seq<Buffer>)
    requires ValidConfig(cfg) && Inv(cfg, g) && cfg.threshold == 0.0
    ensures Run(cfg, g, bufs).out == []
    decreases |bufs|
  {
    if bufs != [] {
      var t := Step(cfg, g, bufs[0]);
      NormalisedBounds(bufs[0].data);
      StepSpec(cfg, g, bufs[0]);
      ZeroThresholdNeverFlushes(cfg, t.next, bufs[1..]);
    }
  }

  /** Once a segment is pending, a run of strictly quiet buffers flushes on
      the buffer that takes the counter past the silence length and not
      before: fewer leave the counter at its count and the buffers pending;
      one more than the remaining allowance submits the whole segment and
      resets the state. */
  lemma {:induction false} QuietRunFlushes(cfg: Config, g: Gate, bufs: seq<Buffer>)
    requires ValidConfig(cfg) && Inv(cfg, g) && g.segment != []
    requires forall k :: 0 <= k < |bufs| ==> Quiet(cfg, bufs[k])
    requires g.quietBufs + |bufs| <= cfg.silenceLength + 1
    ensures var r := Run(cfg, g, bufs);
      if g.quietBufs + |bufs| <= cfg.silenceLength then
        r.out == [] && r.final == Gate(g.quietBufs + |bufs|, g.segment + bufs)
      else
        r.out == [g.segment + bufs] && r.final == Gate(0, [])
    decreases |bufs|
  {
    if bufs != [] {
      var b := bufs[0];
      var t := Step(cfg, g, b);
      SizeIffNonEmpty(cfg, g);
      SizeSnoc(g.segment, b);
      assert !Loud(cfg, b);
      var r := Run(cfg, t.next, bufs[1..]);
      assert Run(cfg, g, bufs) == Trace(r.final, [t.appended] + r.picks, t.out + r.out);
      if g.quietBufs + 1 > cfg.silenceLength {
        assert bufs == [b] && bufs[1..] == [];
        assert t.out == [g.segment + [b]] && t.next == Gate(0, []);
      } else {
        assert t.next == Gate(g.quietBufs + 1, g.segment + [b]) && t.out == [];
        QuietRunFlushes(cfg, t.next, bufs[1..]);
        ConsSplit(g.segment, bufs);
      }
    }
  }

  /** From a freshly opened segment (counter 0), exactly `silenceLength + 1`
      consecutive strictly quiet buffers submit it, on the last of them. */
  lemma ExactQuietRun(cfg: Config, g: Gate, bufs: seq<Buffer>)
    requires ValidConfig(cfg) && Inv(cfg, g) && g.segment != [] && g.quietBufs == 0
    requires |bufs| == cfg.silenceLength + 1
    requires forall k :: 0 <= k < |bufs| ==> Quiet(cfg, bufs[k])
    ensures Run(cfg, g, bufs[..|bufs| - 1]).out == []
    ensures Run(cfg, g, bufs).out == [g.segment + bufs]
    ensures Run(cfg, g, bufs).final == Initial
  {
    QuietRunFlushes(cfg, g, bufs[..|bufs| - 1]);
    QuietRunFlushes(cfg, g, bufs);
  }
}
