/** Rate control over the header: what variable rate cuts a packet to, the decoder can still read. */
module Shrink {
  import opened RangeCoder
  import H = Header
  import R = Reservoir

  /** The size the header is coded at, and the size that is sent. */
  lemma SentKeepsMargin(vbrRate: int, reservoir: int, f: R.Frame)
    requires vbrRate >= 2 * R.BYTE && 0 <= reservoir <= vbrRate && R.Codable(f) && !f.silence
    ensures var before, after := R.Allowed(vbrRate, reservoir, f), R.Step(vbrRate, reservoir, f).bytes;
            && 2 <= after <= before
            && (after == before || f.minAllowed <= after <==> before <= R.Cap(f.lmDiff) || f.minAllowed <= R.Cap(f.lmDiff))
  {
    R.StepKeeps(vbrRate, reservoir, f);
    hide R.Cap, R.Allowed;
  }

  /** One frame of constrained variable rate: its header, coded at the size the reservoir allows,
      decodes from the packet that rate control settles on, unless the cap of a short frame cuts
      into what the header has used. */
  lemma FrameKeepsLockstep(vbrRate: int, reservoir: int, f: R.Frame, h: H.Frame, ch: H.Choices, e: Coder, other: H.Choices, d: Coder)
    requires vbrRate >= 2 * R.BYTE && 0 <= reservoir <= vbrRate && R.Codable(f) && !f.silence
    requires h.Valid() && ch.For(h) && other.For(h) && h.Monotone() && InStep(e, d)
    requires var before := R.Allowed(vbrRate, reservoir, f);
             && before >= 0 && H.Code(h, before, ch, e).1.Encoding? && H.Code(h, before, ch, e).1.written <= d.stream
             && f.minAllowed == H.MinAllowed(h, H.Code(h, before, ch, e).1.written, H.Code(h, before, ch, e).0.spent)
             && (before <= R.Cap(f.lmDiff) || f.minAllowed <= R.Cap(f.lmDiff))
    ensures var before, after := R.Allowed(vbrRate, reservoir, f), R.Step(vbrRate, reservoir, f).bytes;
            && after >= 0
            && var r := H.Code(h, before, ch, e); var q := H.Code(h, after, other, d);
               r.0 == q.0 && InStep(r.1, q.1)
  {
    hide H.Code, H.MinAllowed, H.Frame.Valid, H.Choices.For, H.Frame.Monotone, R.Allowed, R.Step, R.Cap;
    SentKeepsMargin(vbrRate, reservoir, f);
    H.ShrinkKeepsLockstep(h, R.Allowed(vbrRate, reservoir, f), R.Step(vbrRate, reservoir, f).bytes, ch, e, other, d);
  }

  /** Frames of the longest size are never cut by the cap. */
  lemma LongFramesFit(vbrRate: int, reservoir: int, f: R.Frame)
    requires R.Codable(f) && f.lmDiff == 0
    ensures R.Allowed(vbrRate, reservoir, f) <= R.Cap(f.lmDiff)
  {
  }
}
