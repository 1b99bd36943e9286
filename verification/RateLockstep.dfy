/** The decoder's run of the allocator agrees with the encoder's.

    The skip decision is the one part of the allocation that the bitstream does not fix:
    the encoder chooses, with hysteresis on its own history, and signals.  Whatever it
    chooses, and whatever stale intensity and dual-stereo values the decoder holds, the
    decoder reading those symbols reaches the same allocation and stops where the
    encoder stopped. */
module RateLockstep {
  import opened Rate
  import opened RangeCoder

  /** Coding only appends. */
  lemma {:induction false} SkipAppends(f: Frame, skipStart: int, skipReserve: int, policy: Policy, s: Skipping, e: Coder)
    requires SkipShape(f, skipStart, s) && e.Encoding?
    ensures e.written <= Skip(f, skipStart, skipReserve, policy, s, e).1.written
    decreases s.coded
  {
    hide BandBits, FlagThreshold, SkipBand, Policy.Keeps, Mode.Valid;
    if s.coded - 1 > skipStart {
      var bandBits := BandBits(f, s);
      if bandBits >= FlagThreshold(f, s.coded - 1) {
        var (e', keep) := CodeBit(e, if policy.Keeps(f, s.coded, bandBits) then 1 else 0, 1);
        if keep == 0 {
          SkipAppends(f, skipStart, skipReserve, policy, SkipBand(f, s, bandBits - BIT, true), e');
        }
      } else {
        SkipAppends(f, skipStart, skipReserve, policy, SkipBand(f, s, bandBits, false), e);
      }
    }
  }

  lemma {:induction false} SkipLockstep(f: Frame, skipStart: int, skipReserve: int, s: Skipping,
                                        encoder: Policy, e: Coder, decoder: Policy, d: Coder)
    requires SkipShape(f, skipStart, s) && InStep(e, d)
    requires Skip(f, skipStart, skipReserve, encoder, s, e).1.written <= d.stream
    ensures var (s1, e1) := Skip(f, skipStart, skipReserve, encoder, s, e);
            var (s2, d1) := Skip(f, skipStart, skipReserve, decoder, s, d);
            s1 == s2 && InStep(e1, d1) && d1.stream == d.stream
    decreases s.coded
  {
    hide BandBits, FlagThreshold, SkipBand, Policy.Keeps, Mode.Valid, CodeBit;
    if s.coded - 1 > skipStart {
      var bandBits := BandBits(f, s);
      if bandBits >= FlagThreshold(f, s.coded - 1) {
        var flag := if encoder.Keeps(f, s.coded, bandBits) then 1 else 0;
        var other := if decoder.Keeps(f, s.coded, bandBits) then 1 else 0;
        var (e', keep) := CodeBit(e, flag, 1);
        var t := SkipBand(f, s, bandBits - BIT, true);
        if keep == 0 { SkipAppends(f, skipStart, skipReserve, encoder, t, e'); }
        BitInStep(e, d, flag, other, 1);
        if keep == 0 {
          SkipLockstep(f, skipStart, skipReserve, t, encoder, e', decoder, CodeBit(d, other, 1).0);
        }
      } else {
        SkipLockstep(f, skipStart, skipReserve, SkipBand(f, s, bandBits, false), encoder, e, decoder, d);
      }
    }
  }

  lemma StereoAppends(f: Frame, s: Skipping, dualReserve: int, intensity: int, dual: nat, e: Coder)
    requires SkipShape(f, f.start, s) && dual <= 1 && e.Encoding?
    requires s.reserve > 0 ==> f.start <= intensity
    ensures e.written <= CodeStereo(f, s, dualReserve, intensity, dual, e).1.written
  {
  }

  lemma StereoLockstep(f: Frame, s: Skipping, dualReserve: int, intensity: int, dual: nat, e: Coder,
                       stale: int, staleDual: nat, d: Coder)
    requires SkipShape(f, f.start, s) && dual <= 1 && staleDual <= 1 && InStep(e, d)
    requires s.reserve > 0 ==> f.start <= intensity
    requires CodeStereo(f, s, dualReserve, intensity, dual, e).1.written <= d.stream
    ensures var (t1, e1) := CodeStereo(f, s, dualReserve, intensity, dual, e);
            var (t2, d1) := CodeStereo(f, s, dualReserve, stale, staleDual, d);
            t1 == t2 && InStep(e1, d1) && d1.stream == d.stream
  {
    var e1, d1 := e, d;
    if s.reserve > 0 {
      var v, total := Min(intensity, s.coded) - f.start, s.coded + 1 - f.start;
      UniformAppends(e, v, total);
      e1, d1 := CodeUniform(e, v, total).0, CodeUniform(d, 0, total).0;
      if dualReserve > 0 { BitAppends(e1, dual, 1); }
      UniformInStep(e, d, v, 0, total);
      hide CodeUniform;
      if f.start + v > f.start && dualReserve > 0 { BitInStep(e1, d1, dual, staleDual, 1); }
    }
  }

  lemma BitAppends(e: Coder, value: nat, logp: nat)
    requires e.Encoding? && value <= 1
    ensures e.written <= CodeBit(e, value, logp).0.written
  {
  }

  lemma UniformAppends(e: Coder, value: nat, total: nat)
    requires e.Encoding? && value < total
    ensures e.written <= CodeUniform(e, value, total).0.written
  {
  }

  /** Decoding the flags the encoder emitted gives the same coded bands, intensity,
      dual-stereo flag, pulses, fine bits, priorities and balance. */
  lemma Lockstep(f: Frame, trim: int, offsets: seq<int>, total: int,
                 intensity: int, dual: nat, encoder: Policy, e: Coder,
                 stale: int, staleDual: nat, decoder: Policy, d: Coder)
    requires f.Valid() && |offsets| == f.mode.Bands() && dual <= 1 && staleDual <= 1
    requires f.channels == 2 ==> f.start <= intensity
    requires InStep(e, d)
    requires Allocate(f, trim, offsets, total, intensity, dual, encoder, e).1.written <= d.stream
    ensures var (o1, e1) := Allocate(f, trim, offsets, total, intensity, dual, encoder, e);
            var (o2, d1) := Allocate(f, trim, offsets, total, stale, staleDual, decoder, d);
            o1 == o2 && InStep(e1, d1)
  {
    hide Skip, CodeStereo, Finish, Initial, SkipStart, Mode.Valid;
    var rsv := Reserve(f, total);
    var skipStart := SkipStart(f, offsets, f.end);
    var s0 := Initial(f, trim, offsets, rsv);
    ReserveStaysZero(f, skipStart, rsv.skip, encoder, s0, e);
    ReserveStaysZero(f, skipStart, rsv.skip, decoder, s0, d);
    var (s1, e1) := Skip(f, skipStart, rsv.skip, encoder, s0, e);
    StereoAppends(f, s1, rsv.dual, intensity, dual, e1);
    SkipLockstep(f, skipStart, rsv.skip, s0, encoder, e, decoder, d);
    var d1 := Skip(f, skipStart, rsv.skip, decoder, s0, d).1;
    StereoLockstep(f, s1, rsv.dual, intensity, dual, e1, stale, staleDual, d1);
  }
}
