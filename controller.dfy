/** The element's per-buffer controller: the chain function and the
    end-of-stream branch of the sink event handler, updating the element's
    fields in place. The thread pool is modelled by the log of segments
    pushed to it (`submitted`) and the source pad by the log of buffers
    pushed downstream (`forwarded`). */
module Element {
  import opened Buffers
  import opened Energy
  import opened Silence

  /** The decisions of one chain call on the element's current values:
      measure the buffer, append it when it is strictly loud or a segment is
      pending, count it when it is strictly quiet and the accumulated buffer
      holds bytes, and flush once the count exceeds the silence length. */
  method Decide(cfg: Config, g: Gate, buf: Buffer) returns (t: Transition)
    ensures t == Step(cfg, g, buf)
  {
    var m := Analyze(buf.data);
    SizeSnoc(g.segment, buf);
    var pending, quiet, pushed := g.segment, g.quietBufs, [];
    var appended := m.ncs > cfg.threshold || Size(pending) > 0;
    if appended {
      pending := pending + [buf];
    }
    if m.ncs < cfg.threshold && Size(pending) > 0 {
      quiet := quiet + 1;
    } else {
      quiet := 0;
    }
    if quiet > cfg.silenceLength && Size(pending) > 0 {
      pushed := [pending];
      pending := [];
      quiet := 0;
    }
    t := Transition(Gate(quiet, pending), appended, pushed);
  }

  class Controller {
    /** `silence_threshold` and `silence_length`. */
    const threshold: real
    const silenceLength: nat

    /** `quiet_bufs` and the accumulated buffer `buf`. */
    var quietBufs: nat
    var segment: seq<Buffer>

    /** Segments pushed to the thread pool, in push order. */
    var submitted: seq<seq<Buffer>>
    /** Buffers pushed on the source pad, in push order. */
    var forwarded: seq<Buffer>
    /** False once end of stream has freed the thread pool. */
    var poolLive: bool

    /** For each forwarded buffer, whether it joined a segment. */
    ghost var picks: seq<bool>

    function Cfg(): Config
    {
      Config(threshold, silenceLength)
    }

    function State(): Gate
      reads this
    {
      Gate(quietBufs, segment)
    }

    /** The object invariant: the gate invariant holds; the submitted
        segments (and, while the pool is live, the pending one) are the
        appended buffers in arrival order, each once; and each submitted
        segment opens strictly above the threshold. */
    ghost predicate Valid()
      reads this
    {
      && ValidConfig(Cfg())
      && Inv(Cfg(), State())
      && |picks| == |forwarded|
      && OpenLoud(Cfg(), submitted)
      && Flatten(submitted) + (if poolLive then segment else []) == Select(forwarded, picks)
    }

    /** A fresh element: empty segment, counter 0, live pool. The property
        ranges are those of the element's parameter specifications. */
    constructor (threshold: real, silenceLength: nat)
      requires 0.0 <= threshold <= 1.0 && silenceLength <= G_MAXINT
      ensures Valid() && poolLive
      ensures this.threshold == threshold && this.silenceLength == silenceLength
      ensures State() == Initial && submitted == [] && forwarded == []
    {
      this.threshold := threshold;
      this.silenceLength := silenceLength;
      quietBufs := 0;
      segment := [];
      submitted := [];
      forwarded := [];
      poolLive := true;
      picks := [];
    }

    /** One incoming buffer: measure it, append it when it is strictly loud
        or a segment is pending, count it when it is strictly quiet and a
        segment is pending, submit the segment once the count exceeds the
        silence length, and forward the buffer unchanged. */
    method Chain(buf: Buffer)
      requires Valid() && poolLive
      modifies this
      ensures Valid() && poolLive
      ensures forwarded == old(forwarded) + [buf]
      ensures var t := Step(Cfg(), old(State()), buf);
        State() == t.next && submitted == old(submitted) + t.out
      ensures quietBufs <= silenceLength && (quietBufs > 0 ==> segment != [])
    {
      ghost var before := State();
      var t := Decide(Cfg(), State(), buf);
      segment, quietBufs, submitted := t.next.segment, t.next.quietBufs, submitted + t.out;
      forwarded := forwarded + [buf];
      picks := picks + [t.appended];

      StepKeepsLog(Cfg(), old(forwarded), old(picks), old(submitted), before, buf);
    }

    /** End of stream: push the pending segment iff it holds bytes, then
        free the pool. The accumulated buffer itself is not cleared. */
    method Eos()
      requires Valid() && poolLive
      modifies this
      ensures Valid() && !poolLive
      ensures submitted == old(submitted) + Drain(old(State()))
      ensures submitted == old(submitted) + if old(segment) != [] then [old(segment)] else []
      ensures State() == old(State()) && forwarded == old(forwarded)
    {
      DrainSpec(Cfg(), State());
      if Size(segment) > 0 {
        submitted := submitted + [segment];
      }
      poolLive := false;

      DrainConserves(Cfg(), old(submitted), State());
    }
  }
}
