/** The context id field of drm_i915_gem_execbuffer2. */
module ExecBuffer {
  import opened Bits

  const CONTEXT_ID_MASK: nat := 0xffff_ffff

  class ExecBuffer2 {
    var rsvd1: nat

    /** i915_execbuffer2_set_context_id(eb2, context): the whole field is assigned. */
    method SetContextId(context: nat)
      modifies this
      ensures rsvd1 == Wrap(context, 32)
    {
      MaskIsWrap(context);
      rsvd1 := And(context, CONTEXT_ID_MASK);
    }

    /** i915_execbuffer2_get_context_id(eb2) */
    method GetContextId() returns (context: nat)
      ensures context == Wrap(rsvd1, 32)
    {
      MaskIsWrap(rsvd1);
      context := And(rsvd1, CONTEXT_ID_MASK);
    }
  }

  /** `& 0xffffffff` keeps the low 32 bits. */
  lemma MaskIsWrap(x: nat)
    ensures And(x, CONTEXT_ID_MASK) == Wrap(x, 32)
  {
    hide Bit, And, Wrap, Ones, Pow2;
    assert CONTEXT_ID_MASK == Ones(32) by {
      Pow2Large();
      Pow2Small();
      Pow2Add(28, 4);
    }
    SameBits(And(x, CONTEXT_ID_MASK), Wrap(x, 32));
  }

  /** A set followed by a get returns the context exactly when it fits in 32 bits. */
  method SetThenGet(eb2: ExecBuffer2, context: nat) returns (got: nat)
    modifies eb2
    ensures got == context <==> context < Pow2(32)
  {
    eb2.SetContextId(context);
    got := eb2.GetContextId();
    WrapFits(context, 32);
    WrapFits(Wrap(context, 32), 32);
    assert Wrap(Wrap(context, 32), 32) == Wrap(context, 32) by {
      hide Bit, Wrap;
      SameBits(Wrap(Wrap(context, 32), 32), Wrap(context, 32));
    }
  }
}
