/**
 * The MCCP codec splice.  While disengaged the codec passes its input on
 * one byte at a time; while engaged it hands the remaining buffer to the
 * transform (zlib in the library), which reports what it produced and
 * returns the suffix it did not consume.  When the transform reports the
 * end of the compressed stream the codec disengages, so the rest of the
 * same buffer goes through untransformed.
 *
 * The zlib back-end is abstract: `Hooks` holds the start, finish and
 * transform hooks as functions of a hook state `S`.  A transform must make
 * progress: consume a byte, or end the stream.
 */
module MccpCodec {
  import opened Protocol

  /** One call of the continuation: a run of bytes and whether the stream ended with it. */
  datatype Emission = Emission(data: Bytes, ended: bool)

  /** What one transform call did: produced `out`, left `rest` unconsumed, or found the stream corrupted. */
  datatype Chunk<S> =
    | Transformed(state: S, out: seq<Emission>, rest: Bytes)
    | Corrupted

  datatype Finished<S> = Finished(state: S, out: Bytes)

  datatype Hooks<!S> = Hooks(
    start: S -> S,
    finish: S -> Finished<S>,
    transform: (S, Bytes) -> Chunk<S>)

  /** Whether the codec is still engaged after the continuation has seen `out`. */
  function EngagedAfter(out: seq<Emission>): bool
  {
    |out| == 0 || !out[|out| - 1].ended
  }

  /** A transform call returns a suffix of its input, and consumes a byte or ends the stream. */
  predicate Progress<S>(c: Chunk<S>, data: Bytes)
  {
    c.Corrupted? ||
    (|c.rest| <= |data| && c.rest == data[|data| - |c.rest|..]
     && (|c.rest| < |data| || !EngagedAfter(c.out)))
  }

  ghost predicate HookProgress<S(!new)>(h: Hooks<S>)
  {
    forall st: S, data: Bytes :: |data| > 0 ==> Progress(h.transform(st, data), data)
  }

  /** The result of running the codec over a buffer. */
  datatype Outcome<S> = Outcome(emitted: seq<Emission>, engaged: bool, state: S, corrupted: bool)

  /** The emissions, engaged flag and hook state after the codec has consumed `data`. */
  function Splice<S(!new)>(h: Hooks<S>, engaged: bool, st: S, data: Bytes): Outcome<S>
    requires HookProgress(h)
    decreases |data|, engaged
  {
    if |data| == 0 then Outcome([], engaged, st, false)
    else if engaged then
      var c := h.transform(st, data);
      assert Progress(c, data);
      if c.Corrupted? then Outcome([], true, st, true)
      else
        var next := Splice(h, EngagedAfter(c.out), c.state, c.rest);
        next.(emitted := c.out + next.emitted)
    else
      var next := Splice(h, false, st, data[1..]);
      next.(emitted := [Emission([data[0]], false)] + next.emitted)
  }

  class Codec<S(!new)> {
    const hooks: Hooks<S>
    var engaged: bool
    var hookState: S

    constructor (hooks: Hooks<S>, initial: S)
      ensures this.hooks == hooks && !engaged && hookState == initial
    {
      this.hooks := hooks;
      engaged := false;
      hookState := initial;
    }

    method Start()
      modifies this`engaged, this`hookState
      ensures engaged && hookState == hooks.start(old(hookState))
    {
      engaged := true;
      hookState := hooks.start(hookState);
    }

    /** Disengages first, then lets the finish hook flush what it holds. */
    method Finish() returns (out: Bytes)
      modifies this`engaged, this`hookState
      ensures !engaged
      ensures Finished(hookState, out) == hooks.finish(old(hookState))
    {
      engaged := false;
      var f := hooks.finish(hookState);
      hookState := f.state;
      out := f.out;
    }

    /** Runs a buffer through the codec (the corrupted outcome stands for the thrown error). */
    method Transform(data: Bytes) returns (emitted: seq<Emission>, corrupted: bool)
      requires HookProgress(hooks)
      modifies this`engaged, this`hookState
      ensures var o := Splice(hooks, old(engaged), old(hookState), data);
              emitted == o.emitted && corrupted == o.corrupted
              && engaged == o.engaged && hookState == o.state
    {
      var h := hooks;
      ghost var whole := Splice(h, engaged, hookState, data);
      var eng, st, rest := engaged, hookState, data;
      emitted := [];
      corrupted := false;
      while |rest| > 0
        invariant whole == Resume(Splice(h, eng, st, rest), emitted)
        decreases |rest|, eng
      {
        if eng {
          var c := h.transform(st, rest);
          assert Progress(c, rest);
          if c.Corrupted? {
            corrupted := true;
            break;
          }
          SpliceEngagedStep(h, st, rest);
          ResumeAppend(Splice(h, EngagedAfter(c.out), c.state, c.rest), emitted, c.out);
          emitted := emitted + c.out;
          eng := EngagedAfter(c.out);
          st := c.state;
          rest := c.rest;
        } else {
          SpliceDisengagedStep(h, st, rest);
          ResumeAppend(Splice(h, false, st, rest[1..]), emitted, [Emission([rest[0]], false)]);
          emitted := emitted + [Emission([rest[0]], false)];
          rest := rest[1..];
        }
      }
      engaged := eng;
      hookState := st;
    }
  }

  /** An outcome with `before` emitted ahead of it. */
  function Resume<S>(o: Outcome<S>, before: seq<Emission>): Outcome<S>
  {
    o.(emitted := before + o.emitted)
  }

  lemma ResumeAppend<S>(o: Outcome<S>, before: seq<Emission>, more: seq<Emission>)
    ensures Resume(o.(emitted := more + o.emitted), before) == Resume(o, before + more)
  {
  }

  lemma SpliceEngagedStep<S(!new)>(h: Hooks<S>, st: S, data: Bytes)
    requires HookProgress(h)
    requires |data| > 0 && h.transform(st, data).Transformed?
    ensures var c := h.transform(st, data);
            var next := Splice(h, EngagedAfter(c.out), c.state, c.rest);
            Splice(h, true, st, data) == next.(emitted := c.out + next.emitted)
  {
  }

  lemma SpliceDisengagedStep<S(!new)>(h: Hooks<S>, st: S, data: Bytes)
    requires HookProgress(h)
    requires |data| > 0
    ensures var next := Splice(h, false, st, data[1..]);
            Splice(h, false, st, data) == next.(emitted := [Emission([data[0]], false)] + next.emitted)
  {
  }

  /** The bytes of a list of emissions, end to end. */
  function Joined(es: seq<Emission>): Bytes
    decreases |es|
  {
    if |es| == 0 then [] else es[0].data + Joined(es[1..])
  }

  /** The one-byte pass-through emissions of `data`. */
  function OneByOne(data: Bytes): seq<Emission>
  {
    seq(|data|, i requires 0 <= i < |data| => Emission([data[i]], false))
  }

  /**
   * While disengaged, every input byte is emitted alone, in order, with
   * "ended" false; the codec stays disengaged and the hooks are not called.
   */
  lemma {:induction false} DisengagedPassesThrough<S(!new)>(h: Hooks<S>, st: S, data: Bytes)
    requires HookProgress(h)
    ensures Splice(h, false, st, data) == Outcome(OneByOne(data), false, st, false)
    decreases |data|
  {
    if |data| > 0 {
      DisengagedPassesThrough(h, st, data[1..]);
      assert OneByOne(data) == [Emission([data[0]], false)] + OneByOne(data[1..]);
    }
  }

  /** Passing bytes through neither loses nor duplicates any. */
  lemma {:induction false} PassThroughKeepsBytes(data: Bytes)
    ensures Joined(OneByOne(data)) == data
    decreases |data|
  {
    if |data| > 0 {
      PassThroughKeepsBytes(data[1..]);
      assert OneByOne(data)[1..] == OneByOne(data[1..]);
    }
  }

  /** Empty input produces no emission and changes nothing. */
  lemma EmptyInputNoCallback<S(!new)>(h: Hooks<S>, engaged: bool, st: S)
    requires HookProgress(h)
    ensures Splice(h, engaged, st, []) == Outcome([], engaged, st, false)
  {
  }

  /**
   * The splice point: when the transform reports the end of the stream,
   * the bytes it left unconsumed follow its output untransformed, one at a
   * time, and the codec ends disengaged.
   */
  lemma SpliceAtStreamEnd<S(!new)>(h: Hooks<S>, st: S, data: Bytes)
    requires HookProgress(h)
    requires |data| > 0
    requires h.transform(st, data).Transformed?
    requires !EngagedAfter(h.transform(st, data).out)
    ensures var c := h.transform(st, data);
            Splice(h, true, st, data) == Outcome(c.out + OneByOne(c.rest), false, c.state, false)
    ensures Joined(OneByOne(h.transform(st, data).rest)) == h.transform(st, data).rest
  {
    var c := h.transform(st, data);
    DisengagedPassesThrough(h, c.state, c.rest);
    PassThroughKeepsBytes(c.rest);
  }

  /** A corrupted stream stops the codec at once, still engaged, with nothing more emitted. */
  lemma CorruptionStops<S(!new)>(h: Hooks<S>, st: S, data: Bytes)
    requires HookProgress(h)
    requires |data| > 0 && h.transform(st, data).Corrupted?
    ensures Splice(h, true, st, data) == Outcome([], true, st, true)
  {
  }

  /**
   * Running two buffers one after the other is running their
   * concatenation, provided nothing is left behind inside the first: the
   * codec keeps no bytes between calls, only its flag and hook state.
   */
  lemma {:induction false} DisengagedSplits<S(!new)>(h: Hooks<S>, st: S, a: Bytes, b: Bytes)
    requires HookProgress(h)
    ensures Splice(h, false, st, a + b).emitted
         == Splice(h, false, st, a).emitted + Splice(h, false, st, b).emitted
  {
    DisengagedPassesThrough(h, st, a + b);
    DisengagedPassesThrough(h, st, a);
    DisengagedPassesThrough(h, st, b);
    assert OneByOne(a + b) == OneByOne(a) + OneByOne(b);
  }
}
