/**
 * The decompressing half of MCCP, in the generation that splices like the
 * codec: `begin_decompression` engages, `end_decompression` disengages,
 * and a buffer is decompressed while engaged and passed through one byte at
 * a time otherwise.  It is specified by the codec's `Splice`; its end hook
 * produces no output.
 */
module MccpDecompressor {
  import opened Protocol
  import opened MccpCodec

  class Decompressor<S(!new)> {
    const hooks: Hooks<S>
    var engaged: bool
    var hookState: S

    constructor (hooks: Hooks<S>, initial: S)
      ensures this.hooks == hooks && !engaged && hookState == initial
    {
      this.hooks := hooks;
      engaged := false;
      hookState := initial;
    }

    method BeginDecompression()
      modifies this`engaged, this`hookState
      ensures engaged && hookState == hooks.start(old(hookState))
    {
      engaged := true;
      hookState := hooks.start(hookState);
    }

    method EndDecompression()
      modifies this`engaged, this`hookState
      ensures !engaged && hookState == hooks.finish(old(hookState)).state
    {
      engaged := false;
      hookState := hooks.finish(hookState).state;
    }

    /** Decompresses a buffer; `corrupted` stands for the thrown error. */
    method Decompress(data: Bytes) returns (emitted: seq<Emission>, corrupted: bool)
      requires HookProgress(hooks)
      modifies this`engaged, this`hookState
      ensures var o := Splice(hooks, old(engaged), old(hookState), data);
              emitted == o.emitted && corrupted == o.corrupted
              && engaged == o.engaged && hookState == o.state
    {
      var h := hooks;
      ghost var whole := Splice(h, engaged, hookState, data);
      var eng, st, rest := engaged, hookState, data;
      emitted := [];
      corrupted := false;
      while |rest| > 0
        invariant whole == Resume(Splice(h, eng, st, rest), emitted)
        decreases |rest|, eng
      {
        if eng {
          var c := h.transform(st, rest);
          assert Progress(c, rest);
          if c.Corrupted? {
            corrupted := true;
            break;
          }
          SpliceEngagedStep(h, st, rest);
          ResumeAppend(Splice(h, EngagedAfter(c.out), c.state, c.rest), emitted, c.out);
          emitted := emitted + c.out;
          eng := EngagedAfter(c.out);
          st := c.state;
          rest := c.rest;
        } else {
          SpliceDisengagedStep(h, st, rest);
          ResumeAppend(Splice(h, false, st, rest[1..]), emitted, [Emission([rest[0]], false)]);
          emitted := emitted + [Emission([rest[0]], false)];
          rest := rest[1..];
        }
      }
      engaged := eng;
      hookState := st;
    }
  }

  /**
   * Bytes that follow an in-stream end are delivered untransformed: after
   * the decompressed output come exactly the unconsumed bytes, in order,
   * none lost and none repeated, and the decompressor ends disengaged.
   */
  lemma TailAfterEndDelivered<S(!new)>(h: Hooks<S>, st: S, data: Bytes)
    requires HookProgress(h)
    requires |data| > 0 && h.transform(st, data).Transformed?
    requires !EngagedAfter(h.transform(st, data).out)
    ensures var c := h.transform(st, data);
            var o := Splice(h, true, st, data);
            && o.emitted[..|c.out|] == c.out
            && Joined(o.emitted[|c.out|..]) == c.rest
            && |o.emitted| == |c.out| + |c.rest|
            && !o.engaged
  {
    var c := h.transform(st, data);
    SpliceAtStreamEnd(h, st, data);
    var o := Splice(h, true, st, data);
    assert o.emitted[|c.out|..] == OneByOne(c.rest);
  }
}
