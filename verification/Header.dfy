/** The flags coded before the packet size is settled, and why it may still shrink
    (tfEncode, the dynalloc and trim code of encodeObserved, and their decoders in
    celt_decoder.go; RFC 6716 section 4.3).

    Every one of these flags is coded only if there is room for it in the packet as it then
    stands.  In VBR the encoder shrinks the packet afterwards, so the decoder makes the same
    tests against a smaller packet.  The source keeps a margin of two bytes over what has
    been used and boosted; here that margin is proved to be enough.

    One function describes both directions: given an encoder it codes the choices, given a
    decoder it reads them.  `tellFrac` is any non-decreasing measure of the symbols coded. */
module Header {
  import opened RangeCoder
  import TfSearch

  const SPREAD_TABLE: nat := 0
  const TRIM_TABLE: nat := 1
  const SPREAD_NORMAL: nat := 2
  const DEFAULT_TRIM: nat := 5

  function Min(a: int, b: int): int { if a < b then a else b }
  function Max(a: int, b: int): int { if a > b then a else b }

  /** What a frame's header depends on apart from the packet. */
  datatype Frame = Frame(start: nat, end: nat, lm: nat, transient: bool, channels: nat,
                         widths: seq<nat>, cap: seq<int>, tellFrac: seq<Symbol> -> nat)
  {
    predicate Valid() {
      && start <= end <= |widths| == |cap| && lm <= 3 && 1 <= channels <= 2
      && forall i | 0 <= i < |widths| :: widths[i] > 0
    }

    /** ec_tell: whole bits, rounded up from the eighths of ec_tell_frac. */
    function Tell(w: seq<Symbol>): nat { (tellFrac(w) + 7) / 8 }

    ghost predicate Monotone() {
      forall a, b | a <= b :: tellFrac(a) <= tellFrac(b)
    }

    /** Coefficients of band i over all channels. */
    function Size(i: nat): nat
      requires i < |widths|
    {
      channels * widths[i] * Power2(lm)
    }

    /** One boost: 6 bits, but at most a bit and at least an eighth of a bit a coefficient. */
    function Quanta(i: nat): int
      requires i < |widths|
    {
      Min(Size(i) * 8, Max(48, Size(i)))
    }
  }

  /** The encoder's choices. */
  datatype Choices = Choices(tf: seq<nat>, tfSelect: nat, spread: nat, offsets: seq<int>, trim: nat) {
    predicate For(f: Frame) {
      && |tf| == |offsets| == |f.widths| && tfSelect <= 1 && spread < 4 && trim < 11
      && forall i | 0 <= i < |tf| :: tf[i] <= 1
    }
  }

  // ---------------------------------------------------------------- time-frequency flags

  function Xor(a: nat, b: nat): (r: nat)
    requires a <= 1 && b <= 1
    ensures r <= 1
  {
    if a == b then 0 else 1
  }

  /** The change flags of bands from i on, while there is room; a band without room repeats
      the flag before it. */
  function TfFlags(f: Frame, budget: int, logp: nat, i: nat, curr: nat, changed: nat, ch: Choices, k: Coder): (r: (seq<nat>, nat, Coder))
    requires f.Valid() && ch.For(f) && f.start <= i <= f.end && curr <= 1 && changed <= 1
    ensures |r.0| == f.end - i && (forall j | 0 <= j < |r.0| :: r.0[j] <= 1) && r.1 <= 1
    ensures k.Encoding? <==> r.2.Encoding?
    decreases f.end - i
  {
    if i == f.end then ([], changed, k)
    else
      var next := if f.transient then 4 else 5;
      if f.Tell(k.Coded()) + logp <= budget then
        var (k', v) := CodeBit(k, Xor(ch.tf[i], curr), logp);
        var c := Xor(curr, v);
        var rest := TfFlags(f, budget, next, i + 1, c, Max(changed, c), ch, k');
        ([c] + rest.0, rest.1, rest.2)
      else
        var rest := TfFlags(f, budget, next, i + 1, curr, changed, ch, k);
        ([curr] + rest.0, rest.1, rest.2)
  }

  function TfEntry(f: Frame, select: nat, flag: nat): int
    requires f.Valid() && select <= 1 && flag <= 1
  {
    TfSearch.TF_SELECT_TABLE[f.lm][4 * (if f.transient then 1 else 0) + 2 * select + flag]
  }

  function FirstLogp(f: Frame): nat { if f.transient then 2 else 4 }

  /** A bit is set aside for the table choice, if the tables can differ at all. */
  function SelectReserve(f: Frame, bytes: nat, k: Coder): nat {
    if f.lm > 0 && f.Tell(k.Coded()) + FirstLogp(f) + 1 <= bytes * 8 then 1 else 0
  }

  /** The resolutions of the bands: flags, then the table choice if it makes a difference. */
  function Tf(f: Frame, bytes: nat, ch: Choices, k: Coder): (r: (seq<int>, Coder))
    requires f.Valid() && ch.For(f)
    ensures |r.0| == f.end - f.start && (k.Encoding? <==> r.1.Encoding?)
  {
    var rsv := SelectReserve(f, bytes, k);
    var (flags, changed, k1) := TfFlags(f, bytes * 8 - rsv, FirstLogp(f), f.start, 0, 0, ch, k);
    var (k2, select) :=
      if rsv != 0 && TfEntry(f, 0, changed) != TfEntry(f, 1, changed) then CodeBit(k1, ch.tfSelect, 1) else (k1, 0);
    (seq(|flags|, j requires 0 <= j < |flags| => TfEntry(f, select, flags[j])), k2)
  }

  // ---------------------------------------------------------------- spread, boosts, trim

  function Spread(f: Frame, bytes: nat, ch: Choices, k: Coder): (r: (nat, Coder))
    requires f.Valid() && ch.For(f)
    ensures k.Encoding? <==> r.1.Encoding?
  {
    if f.Tell(k.Coded()) + 4 <= bytes * 8 then
      var (k', v) := CodeTabled(k, ch.spread, SPREAD_TABLE, 4);
      (v, k')
    else (SPREAD_NORMAL, k)
  }

  /** Boosts of one band: `j` are coded, `boost` is their size and `spent` all boosts so far. */
  function BoostBand(f: Frame, bytes: nat, i: nat, logp: nat, j: nat, boost: int, spent: int, ch: Choices, k: Coder): (r: (int, Coder))
    requires f.Valid() && ch.For(f) && i < |f.widths|
    ensures boost <= r.0 && (k.Encoding? <==> r.1.Encoding?)
    decreases f.cap[i] - boost
  {
    QuantaPositive(f, i);
    if f.tellFrac(k.Coded()) + logp * 8 < bytes * 64 - spent && boost < f.cap[i] then
      var (k', flag) := CodeBit(k, if j < ch.offsets[i] then 1 else 0, logp);
      if flag == 0 then (boost, k')
      else BoostBand(f, bytes, i, 1, j + 1, boost + f.Quanta(i), spent + f.Quanta(i), ch, k')
    else (boost, k)
  }

  lemma QuantaPositive(f: Frame, i: nat)
    requires f.Valid() && i < |f.widths|
    ensures f.Quanta(i) > 0
  {
    assert f.channels * f.widths[i] >= 1;
    assert f.Size(i) >= 1;
  }

  /** Boosts of bands from i on; a boosted band makes the next ones cheaper to boost. */
  function Boosts(f: Frame, bytes: nat, i: nat, logp: nat, spent: int, ch: Choices, k: Coder): (r: (seq<int>, int, Coder))
    requires f.Valid() && ch.For(f) && f.start <= i <= f.end
    ensures |r.0| == f.end - i && spent <= r.1 && (k.Encoding? <==> r.2.Encoding?)
    decreases f.end - i
  {
    if i == f.end then ([], spent, k)
    else
      var (boost, k') := BoostBand(f, bytes, i, logp, 0, 0, spent, ch, k);
      var rest := Boosts(f, bytes, i + 1, if boost > 0 then Max(2, logp - 1) else logp, spent + boost, ch, k');
      ([boost] + rest.0, rest.1, rest.2)
  }

  function Trim(f: Frame, bytes: nat, spent: int, ch: Choices, k: Coder): (r: (nat, Coder))
    requires f.Valid() && ch.For(f)
    ensures k.Encoding? <==> r.1.Encoding?
  {
    if f.tellFrac(k.Coded()) + 48 <= bytes * 64 - spent then
      var (k', v) := CodeTabled(k, ch.trim, TRIM_TABLE, 11);
      (v, k')
    else (DEFAULT_TRIM, k)
  }

  // ---------------------------------------------------------------- the whole header

  datatype Result = Result(tf: seq<int>, spread: nat, boosts: seq<int>, spent: int, trim: nat)

  function Code(f: Frame, bytes: nat, ch: Choices, k: Coder): (r: (Result, Coder))
    requires f.Valid() && ch.For(f)
    ensures k.Encoding? <==> r.1.Encoding?
  {
    var (tf, k1) := Tf(f, bytes, ch, k);
    var (spread, k2) := Spread(f, bytes, ch, k1);
    var (boosts, spent, k3) := Boosts(f, bytes, f.start, 6, 0, ch, k2);
    var (trim, k4) := Trim(f, bytes, spent, ch, k3);
    (Result(tf, spread, boosts, spent, trim), k4)
  }

  /** The smallest size the packet may be cut to: what is used and boosted, and two bytes. */
  function MinAllowed(f: Frame, w: seq<Symbol>, spent: int): int {
    (f.tellFrac(w) + spent + 63) / 64 + 2
  }

  // ---------------------------------------------------------------- coding only appends

  lemma {:induction false} TfFlagsAppend(f: Frame, budget: int, logp: nat, i: nat, curr: nat, changed: nat, ch: Choices, e: Coder)
    requires f.Valid() && ch.For(f) && f.start <= i <= f.end && curr <= 1 && changed <= 1 && e.Encoding?
    ensures e.written <= TfFlags(f, budget, logp, i, curr, changed, ch, e).2.written
    decreases f.end - i
  {
    if i < f.end {
      var next := if f.transient then 4 else 5;
      if f.Tell(e.Coded()) + logp <= budget {
        var (e', v) := CodeBit(e, Xor(ch.tf[i], curr), logp);
        var c := Xor(curr, v);
        TfFlagsAppend(f, budget, next, i + 1, c, Max(changed, c), ch, e');
      } else {
        TfFlagsAppend(f, budget, next, i + 1, curr, changed, ch, e);
      }
    }
  }

  lemma TfAppends(f: Frame, bytes: nat, ch: Choices, e: Coder)
    requires f.Valid() && ch.For(f) && e.Encoding?
    ensures var rsv := SelectReserve(f, bytes, e);
            var k1 := TfFlags(f, bytes * 8 - rsv, FirstLogp(f), f.start, 0, 0, ch, e).2;
            e.written <= k1.written <= Tf(f, bytes, ch, e).1.written
  {
    hide TfFlags;
    TfFlagsAppend(f, bytes * 8 - SelectReserve(f, bytes, e), FirstLogp(f), f.start, 0, 0, ch, e);
  }

  lemma {:induction false} BoostBandAppends(f: Frame, bytes: nat, i: nat, logp: nat, j: nat, boost: int, spent: int, ch: Choices, e: Coder)
    requires f.Valid() && ch.For(f) && i < |f.widths| && e.Encoding?
    ensures e.written <= BoostBand(f, bytes, i, logp, j, boost, spent, ch, e).1.written
    decreases f.cap[i] - boost
  {
    QuantaPositive(f, i);
    if f.tellFrac(e.Coded()) + logp * 8 < bytes * 64 - spent && boost < f.cap[i] {
      var (e', flag) := CodeBit(e, if j < ch.offsets[i] then 1 else 0, logp);
      if flag != 0 {
        BoostBandAppends(f, bytes, i, 1, j + 1, boost + f.Quanta(i), spent + f.Quanta(i), ch, e');
      }
    }
  }

  lemma {:induction false} BoostsAppend(f: Frame, bytes: nat, i: nat, logp: nat, spent: int, ch: Choices, e: Coder)
    requires f.Valid() && ch.For(f) && f.start <= i <= f.end && e.Encoding?
    ensures e.written <= Boosts(f, bytes, i, logp, spent, ch, e).2.written
    decreases f.end - i
  {
    hide BoostBand;
    if i < f.end {
      BoostBandAppends(f, bytes, i, logp, 0, 0, spent, ch, e);
      var (boost, e') := BoostBand(f, bytes, i, logp, 0, 0, spent, ch, e);
      BoostsAppend(f, bytes, i + 1, if boost > 0 then Max(2, logp - 1) else logp, spent + boost, ch, e');
    }
  }

  // ---------------------------------------------------------------- the decoder reads the same header

  lemma {:induction false} TfFlagsLockstep(f: Frame, budget: int, logp: nat, i: nat, curr: nat, changed: nat, ch: Choices, e: Coder, other: Choices, d: Coder)
    requires f.Valid() && ch.For(f) && other.For(f) && f.start <= i <= f.end && curr <= 1 && changed <= 1 && InStep(e, d)
    requires TfFlags(f, budget, logp, i, curr, changed, ch, e).2.written <= d.stream
    ensures var r := TfFlags(f, budget, logp, i, curr, changed, ch, e);
            var q := TfFlags(f, budget, logp, i, curr, changed, other, d);
            r.0 == q.0 && r.1 == q.1 && InStep(r.2, q.2) && q.2.stream == d.stream
    decreases f.end - i
  {
    hide CodeBit;
    if i < f.end {
      var next := if f.transient then 4 else 5;
      InStepCodedSame(e, d);
      if f.Tell(e.Coded()) + logp <= budget {
        var x, y := Xor(ch.tf[i], curr), Xor(other.tf[i], curr);
        var (e', v) := CodeBit(e, x, logp);
        var c := Xor(curr, v);
        TfFlagsAppend(f, budget, next, i + 1, c, Max(changed, c), ch, e');
        BitInStep(e, d, x, y, logp);
        TfFlagsLockstep(f, budget, next, i + 1, c, Max(changed, c), ch, e', other, CodeBit(d, y, logp).0);
      } else {
        TfFlagsLockstep(f, budget, next, i + 1, curr, changed, ch, e, other, d);
      }
    }
  }

  lemma TfLockstep(f: Frame, bytes: nat, ch: Choices, e: Coder, other: Choices, d: Coder)
    requires f.Valid() && ch.For(f) && other.For(f) && InStep(e, d)
    requires Tf(f, bytes, ch, e).1.written <= d.stream
    ensures var r := Tf(f, bytes, ch, e); var q := Tf(f, bytes, other, d);
            r.0 == q.0 && InStep(r.1, q.1) && q.1.stream == d.stream
  {
    hide TfFlags, CodeBit, TfEntry, Frame.Valid, Choices.For;
    SelectIsBit(ch, f);
    SelectIsBit(other, f);
    TfAppends(f, bytes, ch, e);
    InStepCodedSame(e, d);
    var rsv := SelectReserve(f, bytes, e);
    TfFlagsLockstep(f, bytes * 8 - rsv, FirstLogp(f), f.start, 0, 0, ch, e, other, d);
    var (flags, changed, k1) := TfFlags(f, bytes * 8 - rsv, FirstLogp(f), f.start, 0, 0, ch, e);
    var d1 := TfFlags(f, bytes * 8 - rsv, FirstLogp(f), f.start, 0, 0, other, d).2;
    if rsv != 0 && TfEntry(f, 0, changed) != TfEntry(f, 1, changed) {
      BitInStep(k1, d1, ch.tfSelect, other.tfSelect, 1);
    }
  }

  lemma {:induction false} BoostBandLockstep(f: Frame, bytes: nat, i: nat, logp: nat, j: nat, boost: int, spent: int, ch: Choices, e: Coder, other: Choices, d: Coder)
    requires f.Valid() && ch.For(f) && other.For(f) && i < |f.widths| && InStep(e, d)
    requires BoostBand(f, bytes, i, logp, j, boost, spent, ch, e).1.written <= d.stream
    ensures var r := BoostBand(f, bytes, i, logp, j, boost, spent, ch, e);
            var q := BoostBand(f, bytes, i, logp, j, boost, spent, other, d);
            r.0 == q.0 && InStep(r.1, q.1) && q.1.stream == d.stream
    decreases f.cap[i] - boost
  {
    hide CodeBit, Frame.Quanta;
    QuantaPositive(f, i);
    InStepCodedSame(e, d);
    if f.tellFrac(e.Coded()) + logp * 8 < bytes * 64 - spent && boost < f.cap[i] {
      var x, y := if j < ch.offsets[i] then 1 else 0, if j < other.offsets[i] then 1 else 0;
      var (e', flag) := CodeBit(e, x, logp);
      if flag != 0 {
        BoostBandAppends(f, bytes, i, 1, j + 1, boost + f.Quanta(i), spent + f.Quanta(i), ch, e');
      }
      BitInStep(e, d, x, y, logp);
      if flag != 0 {
        BoostBandLockstep(f, bytes, i, 1, j + 1, boost + f.Quanta(i), spent + f.Quanta(i), ch, e', other, CodeBit(d, y, logp).0);
      }
    }
  }

  lemma {:induction false} BoostsLockstep(f: Frame, bytes: nat, i: nat, logp: nat, spent: int, ch: Choices, e: Coder, other: Choices, d: Coder)
    requires f.Valid() && ch.For(f) && other.For(f) && f.start <= i <= f.end && InStep(e, d)
    requires Boosts(f, bytes, i, logp, spent, ch, e).2.written <= d.stream
    ensures var r := Boosts(f, bytes, i, logp, spent, ch, e);
            var q := Boosts(f, bytes, i, logp, spent, other, d);
            r.0 == q.0 && r.1 == q.1 && InStep(r.2, q.2) && q.2.stream == d.stream
    decreases f.end - i
  {
    hide BoostBand;
    if i < f.end {
      var (boost, e') := BoostBand(f, bytes, i, logp, 0, 0, spent, ch, e);
      var next := if boost > 0 then Max(2, logp - 1) else logp;
      BoostsAppend(f, bytes, i + 1, next, spent + boost, ch, e');
      BoostBandLockstep(f, bytes, i, logp, 0, 0, spent, ch, e, other, d);
      var d' := BoostBand(f, bytes, i, logp, 0, 0, spent, other, d).1;
      BoostsLockstep(f, bytes, i + 1, next, spent + boost, ch, e', other, d');
    }
  }

  /** The stages in order, with each stage's stream a prefix of the last. */
  lemma CodeStages(f: Frame, bytes: nat, ch: Choices, e: Coder)
    requires f.Valid() && ch.For(f) && e.Encoding?
    ensures var k1 := Tf(f, bytes, ch, e).1;
            var k2 := Spread(f, bytes, ch, k1).1;
            var k3 := Boosts(f, bytes, f.start, 6, 0, ch, k2).2;
            e.written <= k1.written <= k2.written <= k3.written <= Code(f, bytes, ch, e).1.written
  {
    hide Tf, Boosts;
    TfAppends(f, bytes, ch, e);
    var k1 := Tf(f, bytes, ch, e).1;
    var k2 := Spread(f, bytes, ch, k1).1;
    BoostsAppend(f, bytes, f.start, 6, 0, ch, k2);
  }

  lemma CodeLockstep(f: Frame, bytes: nat, ch: Choices, e: Coder, other: Choices, d: Coder)
    requires f.Valid() && ch.For(f) && other.For(f) && InStep(e, d)
    requires Code(f, bytes, ch, e).1.written <= d.stream
    ensures var r := Code(f, bytes, ch, e); var q := Code(f, bytes, other, d);
            r.0 == q.0 && InStep(r.1, q.1)
  {
    hide Tf, Boosts, CodeTabled;
    CodeStages(f, bytes, ch, e);
    TfLockstep(f, bytes, ch, e, other, d);
    var k1, d1 := Tf(f, bytes, ch, e).1, Tf(f, bytes, other, d).1;
    InStepCodedSame(k1, d1);
    if f.Tell(k1.Coded()) + 4 <= bytes * 8 {
      TabledInStep(k1, d1, ch.spread, other.spread, SPREAD_TABLE, 4);
    }
    var k2, d2 := Spread(f, bytes, ch, k1).1, Spread(f, bytes, other, d1).1;
    BoostsLockstep(f, bytes, f.start, 6, 0, ch, k2, other, d2);
    var (boosts, spent, k3) := Boosts(f, bytes, f.start, 6, 0, ch, k2);
    var d3 := Boosts(f, bytes, f.start, 6, 0, other, d2).2;
    InStepCodedSame(k3, d3);
    if f.tellFrac(k3.Coded()) + 48 <= bytes * 64 - spent {
      TabledInStep(k3, d3, ch.trim, other.trim, TRIM_TABLE, 11);
    }
  }

  // ---------------------------------------------------------------- the margin

  /** A packet of `bytes` keeps the margin over everything coded by `done`. */
  ghost predicate Keeps(f: Frame, bytes: int, done: seq<Symbol>, spent: int) {
    bytes >= MinAllowed(f, done, spent)
  }

  /** Two bytes are room for any test that asks for at most 16 bits, wherever it stood. */
  lemma MarginIsRoom(f: Frame, bytes: int, w: seq<Symbol>, done: seq<Symbol>, part: int, spent: int)
    requires f.Monotone() && w <= done && part <= spent && 0 <= spent && Keeps(f, bytes, done, spent)
    ensures f.Tell(w) + 16 <= bytes * 8
    ensures f.tellFrac(w) + 128 <= bytes * 64 - part
  {
  }

  lemma {:induction false} TfFlagsIgnoreSize(f: Frame, b1: int, b2: int, logp: nat, i: nat, curr: nat, changed: nat, ch: Choices, e: Coder, done: seq<Symbol>)
    requires f.Valid() && ch.For(f) && f.start <= i <= f.end && curr <= 1 && changed <= 1 && e.Encoding? && logp <= 5
    requires forall w | w <= done :: f.Tell(w) + 5 <= b1 && f.Tell(w) + 5 <= b2
    requires TfFlags(f, b1, logp, i, curr, changed, ch, e).2.written <= done
    ensures TfFlags(f, b1, logp, i, curr, changed, ch, e) == TfFlags(f, b2, logp, i, curr, changed, ch, e)
    decreases f.end - i
  {
    if i < f.end {
      TfFlagsAppend(f, b1, logp, i, curr, changed, ch, e);
      assert e.written <= done;
      var next := if f.transient then 4 else 5;
      var (e', v) := CodeBit(e, Xor(ch.tf[i], curr), logp);
      var c := Xor(curr, v);
      TfFlagsIgnoreSize(f, b1, b2, next, i + 1, c, Max(changed, c), ch, e', done);
    }
  }

  lemma {:induction false} BoostBandIgnoresSize(f: Frame, n1: nat, n2: nat, i: nat, logp: nat, j: nat, boost: int, spent: int, ch: Choices, e: Coder, done: seq<Symbol>, total: int)
    requires f.Valid() && ch.For(f) && f.Monotone() && i < |f.widths| && e.Encoding? && logp <= 6
    requires Keeps(f, n1, done, total) && Keeps(f, n2, done, total) && 0 <= total
    requires var r := BoostBand(f, n1, i, logp, j, boost, spent, ch, e);
             r.1.written <= done && spent + r.0 - boost <= total
    ensures BoostBand(f, n1, i, logp, j, boost, spent, ch, e) == BoostBand(f, n2, i, logp, j, boost, spent, ch, e)
    decreases f.cap[i] - boost
  {
    hide Frame.Quanta, Frame.Monotone, Keeps;
    QuantaPositive(f, i);
    BoostBandAppends(f, n1, i, logp, j, boost, spent, ch, e);
    MarginIsRoom(f, n1, e.written, done, spent, total);
    MarginIsRoom(f, n2, e.written, done, spent, total);
    if boost < f.cap[i] {
      var (e', flag) := CodeBit(e, if j < ch.offsets[i] then 1 else 0, logp);
      if flag != 0 {
        BoostBandIgnoresSize(f, n1, n2, i, 1, j + 1, boost + f.Quanta(i), spent + f.Quanta(i), ch, e', done, total);
      }
    }
  }

  lemma {:induction false} BoostsIgnoreSize(f: Frame, n1: nat, n2: nat, i: nat, logp: nat, spent: int, ch: Choices, e: Coder, done: seq<Symbol>, total: int)
    requires f.Valid() && ch.For(f) && f.Monotone() && f.start <= i <= f.end && e.Encoding? && logp <= 6
    requires Keeps(f, n1, done, total) && Keeps(f, n2, done, total) && 0 <= total
    requires var r := Boosts(f, n1, i, logp, spent, ch, e); r.2.written <= done && r.1 <= total
    ensures Boosts(f, n1, i, logp, spent, ch, e) == Boosts(f, n2, i, logp, spent, ch, e)
    decreases f.end - i
  {
    hide BoostBand, Frame.Monotone, Keeps;
    if i < f.end {
      var (boost, e') := BoostBand(f, n1, i, logp, 0, 0, spent, ch, e);
      var next := if boost > 0 then Max(2, logp - 1) else logp;
      BoostsAppend(f, n1, i + 1, next, spent + boost, ch, e');
      BoostBandIgnoresSize(f, n1, n2, i, logp, 0, 0, spent, ch, e, done, total);
      BoostsIgnoreSize(f, n1, n2, i + 1, next, spent + boost, ch, e', done, total);
    }
  }

  lemma TfIgnoresSize(f: Frame, n1: nat, n2: nat, ch: Choices, e: Coder, done: seq<Symbol>)
    requires f.Valid() && ch.For(f) && e.Encoding?
    requires forall w | w <= done :: f.Tell(w) + 16 <= n1 * 8 && f.Tell(w) + 16 <= n2 * 8
    requires Tf(f, n1, ch, e).1.written <= done
    ensures Tf(f, n1, ch, e) == Tf(f, n2, ch, e)
  {
    hide TfFlags, TfEntry, CodeBit, Frame.Valid, Choices.For;
    TfAppends(f, n1, ch, e);
    var k1 := TfFlags(f, n1 * 8 - SelectReserve(f, n1, e), FirstLogp(f), f.start, 0, 0, ch, e).2;
    assert e.written <= done && k1.written <= done;
    var rsv := SelectReserve(f, n1, e);
    assert rsv == SelectReserve(f, n2, e);
    TfFlagsIgnoreSize(f, n1 * 8 - rsv, n2 * 8 - rsv, FirstLogp(f), f.start, 0, 0, ch, e, done);
  }

  /** Any two sizes with the margin give the same header. */
  lemma CodeIgnoresSize(f: Frame, n1: nat, n2: nat, ch: Choices, e: Coder)
    requires f.Valid() && ch.For(f) && f.Monotone() && e.Encoding?
    requires var r := Code(f, n1, ch, e);
             Keeps(f, n1, r.1.written, r.0.spent) && Keeps(f, n2, r.1.written, r.0.spent)
    ensures Code(f, n1, ch, e) == Code(f, n2, ch, e)
  {
    hide Boosts, Tf, Frame.Monotone, Keeps;
    var (res, last) := Code(f, n1, ch, e);
    var done, total := last.written, res.spent;
    CodeStages(f, n1, ch, e);
    forall w | w <= done ensures f.Tell(w) + 16 <= n1 * 8 && f.Tell(w) + 16 <= n2 * 8 {
      MarginIsRoom(f, n1, w, done, 0, total);
      MarginIsRoom(f, n2, w, done, 0, total);
    }
    TfIgnoresSize(f, n1, n2, ch, e, done);
    var k1 := Tf(f, n1, ch, e).1;
    var k2 := Spread(f, n1, ch, k1).1;
    assert Spread(f, n1, ch, k1) == Spread(f, n2, ch, k1);
    BoostsIgnoreSize(f, n1, n2, f.start, 6, 0, ch, k2, done, total);
    var k3 := Boosts(f, n1, f.start, 6, 0, ch, k2).2;
    MarginIsRoom(f, n1, k3.written, done, total, total);
    MarginIsRoom(f, n2, k3.written, done, total, total);
  }

  /** The encoder codes the header into a packet of `before` bytes and the decoder reads it
      from one of `after`: if the packet kept its size, or shrank but kept the margin, the
      resolutions, spread, boosts and trim decode as coded. */
  lemma ShrinkKeepsLockstep(f: Frame, before: nat, after: nat, ch: Choices, e: Coder, other: Choices, d: Coder)
    requires f.Valid() && ch.For(f) && other.For(f) && f.Monotone() && InStep(e, d)
    requires Code(f, before, ch, e).1.written <= d.stream
    requires var r := Code(f, before, ch, e);
             after == before || MinAllowed(f, r.1.written, r.0.spent) <= after <= before
    ensures var r := Code(f, before, ch, e); var q := Code(f, after, other, d);
            r.0 == q.0 && InStep(r.1, q.1)
  {
    hide Code, Frame.Monotone;
    if after != before {
      CodeIgnoresSize(f, before, after, ch, e);
    }
    CodeLockstep(f, after, ch, e, other, d);
  }

  /** Nor does any earlier test for room take another branch at the smaller size: whatever had been
      coded, up to 16 bits more fitted both packets if either. */
  lemma EarlierTests(f: Frame, before: nat, after: nat, ch: Choices, e: Coder, w: seq<Symbol>, need: nat)
    requires f.Valid() && ch.For(f) && f.Monotone() && e.Encoding? && w <= e.written && need <= 16
    requires var r := Code(f, before, ch, e);
             after == before || MinAllowed(f, r.1.written, r.0.spent) <= after <= before
    ensures f.Tell(w) + need <= before * 8 <==> f.Tell(w) + need <= after * 8
    ensures after < before ==> f.Tell(w) + need <= after * 8
  {
    hide Code, Frame.Monotone;
    if after < before {
      Appends(f, before, ch, e);
      var (res, last) := Code(f, before, ch, e);
      MarginIsRoom(f, after, w, last.written, 0, res.spent);
    }
  }

  lemma Appends(f: Frame, bytes: nat, ch: Choices, e: Coder)
    requires f.Valid() && ch.For(f) && e.Encoding?
    ensures e.written <= Code(f, bytes, ch, e).1.written && 0 <= Code(f, bytes, ch, e).0.spent
  {
    hide Tf, Boosts;
    CodeStages(f, bytes, ch, e);
    TfAppends(f, bytes, ch, e);
  }

  // ---------------------------------------------------------------- the encoder's choices come out

  /** `n` boost flags that say yes: the first at the band's cost, the others a bit each. */
  function Ones(n: nat, logp: nat): (w: seq<Symbol>) {
    if n == 0 then [] else Ones(n - 1, logp) + [Bit(1, LogpAt(n - 1, logp))]
  }

  function LogpAt(n: nat, logp: nat): (l: nat) { if n == 0 then logp else 1 }

  function Scaled(n: nat, q: int): (b: int) { n * q }

  lemma ScaledMore(n: nat, q: int)
    ensures Scaled(n + 1, q) == Scaled(n, q) + q && Scaled(0, q) == 0
  {
    assert (n + 1) * q == n * q + q;
  }

  lemma {:induction false} ScaledGrows(m: nat, n: nat, q: int)
    requires m <= n && q > 0
    ensures Scaled(m, q) <= Scaled(n, q) && (m < n ==> Scaled(m, q) < Scaled(n, q))
    decreases n
  {
    hide Scaled;
    if m < n {
      ScaledMore(n - 1, q);
      ScaledGrows(m, n - 1, q);
    }
  }

  /** Another boost of band i may be coded behind `n`: there is room for its flag, and the cap is not reached. */
  predicate MayBoost(f: Frame, bytes: nat, i: nat, logp: nat, spent: int, w: seq<Symbol>, n: nat)
    requires f.Valid() && i < |f.widths|
  {
    && f.tellFrac(w + Ones(n, logp)) + LogpAt(n, logp) * 8 < bytes * 64 - (spent + Scaled(n, f.Quanta(i)))
    && Scaled(n, f.Quanta(i)) < f.cap[i]
  }

  /** What an encoder makes of a wanted number of boosts of band i: as many as wanted while they may be
      coded, each said yes to, and a no behind them if one more might be. */
  ghost predicate BoostedTo(f: Frame, bytes: nat, i: nat, logp: nat, spent: int, wanted: int, e: Coder, boost: int, e': Coder, n: nat)
    requires f.Valid() && i < |f.widths| && e.Encoding?
  {
    && n <= Max(wanted, 0) && boost == Scaled(n, f.Quanta(i))
    && (forall m: nat | m < n :: MayBoost(f, bytes, i, logp, spent, e.written, m))
    && (n == Max(wanted, 0) || !MayBoost(f, bytes, i, logp, spent, e.written, n))
    && e' == Encoding(e.written + Ones(n, logp) + if MayBoost(f, bytes, i, logp, spent, e.written, n) then [Bit(0, LogpAt(n, logp))] else [])
  }

  lemma {:induction false} BoostBandTold(f: Frame, bytes: nat, i: nat, logp: nat, j: nat, boost: int, spent: int, ch: Choices, e: Coder,
                                         e0: Coder, logp0: nat, spent0: int) returns (n: nat)
    requires f.Valid() && ch.For(f) && i < |f.widths| && e.Encoding? && e0.Encoding?
    requires e.written == e0.written + Ones(j, logp0) && boost == Scaled(j, f.Quanta(i)) && spent == spent0 + boost && logp == LogpAt(j, logp0)
    requires j <= Max(ch.offsets[i], 0) && forall m: nat | m < j :: MayBoost(f, bytes, i, logp0, spent0, e0.written, m)
    ensures BoostedTo(f, bytes, i, logp0, spent0, ch.offsets[i], e0, BoostBand(f, bytes, i, logp, j, boost, spent, ch, e).0,
                      BoostBand(f, bytes, i, logp, j, boost, spent, ch, e).1, n)
    decreases f.cap[i] - boost
  {
    hide Frame.Quanta, Scaled;
    QuantaPositive(f, i);
    ScaledMore(j, f.Quanta(i));
    n := j;
    if MayBoost(f, bytes, i, logp0, spent0, e0.written, j) {
      if j < ch.offsets[i] {
        var e' := CodeBit(e, 1, logp).0;
        assert e'.written == e0.written + Ones(j + 1, logp0);
        n := BoostBandTold(f, bytes, i, 1, j + 1, boost + f.Quanta(i), spent + f.Quanta(i), ch, e', e0, logp0, spent0);
      }
    } else {
      assert e.written + [] == e.written;
    }
  }

  /** Where the boosts stand on reaching band j: what a first boost of it costs, the boosts so far, the coder. */
  function BoostsReach(f: Frame, bytes: nat, i: nat, logp: nat, spent: int, ch: Choices, k: Coder, j: nat): (r: (nat, int, Coder))
    requires f.Valid() && ch.For(f) && f.start <= i <= j <= f.end
    ensures k.Encoding? <==> r.2.Encoding?
    decreases j - i
  {
    if i == j then (logp, spent, k)
    else
      var (boost, k') := BoostBand(f, bytes, i, logp, 0, 0, spent, ch, k);
      BoostsReach(f, bytes, i + 1, if boost > 0 then Max(2, logp - 1) else logp, spent + boost, ch, k', j)
  }

  /** Band j of an encoder's boosts. */
  ghost predicate BoostTold(f: Frame, bytes: nat, i: nat, logp: nat, spent: int, ch: Choices, e: Coder, boosts: seq<int>, j: nat)
    requires f.Valid() && ch.For(f) && f.start <= i <= j < f.end && e.Encoding? && |boosts| == f.end - i
  {
    var (l, s, k) := BoostsReach(f, bytes, i, logp, spent, ch, e, j);
    var k' := BoostsReach(f, bytes, i, logp, spent, ch, e, j + 1).2;
    var wanted, boost := ch.offsets[j], boosts[j - i];
    exists n: nat :: BoostedTo(f, bytes, j, l, s, wanted, k, boost, k', n)
  }

  lemma ReachOne(f: Frame, bytes: nat, i: nat, logp: nat, spent: int, ch: Choices, k: Coder, j: nat)
    requires f.Valid() && ch.For(f) && f.start <= i < j <= f.end
    ensures var (boost, k') := BoostBand(f, bytes, i, logp, 0, 0, spent, ch, k);
            && BoostsReach(f, bytes, i, logp, spent, ch, k, j)
               == BoostsReach(f, bytes, i + 1, if boost > 0 then Max(2, logp - 1) else logp, spent + boost, ch, k', j)
            && BoostsReach(f, bytes, i, logp, spent, ch, k, i) == (logp, spent, k) && BoostsReach(f, bytes, i, logp, spent, ch, k, i + 1).2 == k'
  {
    hide BoostBand;
  }

  lemma {:induction false} BoostsTold(f: Frame, bytes: nat, i: nat, logp: nat, spent: int, ch: Choices, e: Coder)
    requires f.Valid() && ch.For(f) && f.start <= i <= f.end && e.Encoding?
    ensures forall j | i <= j < f.end :: BoostTold(f, bytes, i, logp, spent, ch, e, Boosts(f, bytes, i, logp, spent, ch, e).0, j)
    decreases f.end - i
  {
    hide BoostBand, BoostedTo, BoostsReach;
    if i < f.end {
      var (boost, e') := BoostBand(f, bytes, i, logp, 0, 0, spent, ch, e);
      var next := if boost > 0 then Max(2, logp - 1) else logp;
      var all, rest := Boosts(f, bytes, i, logp, spent, ch, e).0, Boosts(f, bytes, i + 1, next, spent + boost, ch, e').0;
      BoostsTold(f, bytes, i + 1, next, spent + boost, ch, e');
      ReachOne(f, bytes, i, logp, spent, ch, e, i + 1);
      NoneYet(f, i, logp, e);
      var n := BoostBandTold(f, bytes, i, logp, 0, 0, spent, ch, e, e, logp, spent);
      forall j | i <= j < f.end ensures BoostTold(f, bytes, i, logp, spent, ch, e, all, j) {
        if j == i {
          assert BoostedTo(f, bytes, i, logp, spent, ch.offsets[i], e, all[0], e', n);
        } else {
          ReachOne(f, bytes, i, logp, spent, ch, e, j);
          ReachOne(f, bytes, i, logp, spent, ch, e, j + 1);
          assert BoostTold(f, bytes, i + 1, next, spent + boost, ch, e', rest, j);
          assert all[j - i] == rest[j - (i + 1)];
        }
      }
    }
  }

  lemma NoneYet(f: Frame, i: nat, logp: nat, e: Coder)
    requires f.Valid() && i < |f.widths| && e.Encoding?
    ensures e.written == e.written + Ones(0, logp) && Scaled(0, f.Quanta(i)) == 0 && LogpAt(0, logp) == logp
  {
  }

  function Sum(s: seq<int>): (n: int) { if s == [] then 0 else Sum(s[..|s| - 1]) + s[|s| - 1] }

  function Positives(s: seq<int>): (n: nat) { if s == [] then 0 else Positives(s[..|s| - 1]) + if s[|s| - 1] > 0 then 1 else 0 }

  /** What a band's first boost costs goes down by a bit for every band boosted before it, to two at
      the least; the boosts so far are those of the bands before. */
  lemma {:induction false} ReachIs(f: Frame, bytes: nat, ch: Choices, e: Coder, j: nat)
    requires f.Valid() && ch.For(f) && f.start <= j <= f.end
    ensures var (l, s, _) := BoostsReach(f, bytes, f.start, 6, 0, ch, e, j); var before := Boosts(f, bytes, f.start, 6, 0, ch, e).0[..j - f.start];
            l == Max(2, 6 - Positives(before)) && s == Sum(before)
    decreases j
  {
    hide BoostBand, Boosts, BoostsReach;
    if j == f.start {
      ReachStarts(f, bytes, ch, e);
    } else {
      ReachIs(f, bytes, ch, e, j - 1);
      ReachNext(f, bytes, f.start, 6, 0, ch, e, j - 1);
      var all := Boosts(f, bytes, f.start, 6, 0, ch, e).0;
      assert all[..j - f.start][..j - f.start - 1] == all[..j - 1 - f.start];
    }
  }

  lemma ReachStarts(f: Frame, bytes: nat, ch: Choices, e: Coder)
    requires f.Valid() && ch.For(f)
    ensures BoostsReach(f, bytes, f.start, 6, 0, ch, e, f.start) == (6, 0, e)
  {
  }

  /** From band to band. */
  lemma {:induction false} ReachNext(f: Frame, bytes: nat, i: nat, logp: nat, spent: int, ch: Choices, k: Coder, j: nat)
    requires f.Valid() && ch.For(f) && f.start <= i <= j < f.end
    ensures var (l, s, _) := BoostsReach(f, bytes, i, logp, spent, ch, k, j); var (l', s', _) := BoostsReach(f, bytes, i, logp, spent, ch, k, j + 1);
            var boost := Boosts(f, bytes, i, logp, spent, ch, k).0[j - i];
            s' == s + boost && boost >= 0 && l' == (if boost > 0 then Max(2, l - 1) else l)
    decreases j - i
  {
    hide BoostBand;
    var (boost, k') := BoostBand(f, bytes, i, logp, 0, 0, spent, ch, k);
    if i < j { ReachNext(f, bytes, i + 1, if boost > 0 then Max(2, logp - 1) else logp, spent + boost, ch, k', j); }
  }

  lemma {:induction false} ReachWithin(f: Frame, bytes: nat, i: nat, logp: nat, spent: int, ch: Choices, e: Coder, j: nat)
    requires f.Valid() && ch.For(f) && f.start <= i <= j <= f.end && e.Encoding? && logp <= 6
    ensures var (l, s, k) := BoostsReach(f, bytes, i, logp, spent, ch, e, j); var all := Boosts(f, bytes, i, logp, spent, ch, e);
            k.written <= all.2.written && s <= all.1 && l <= 6 && spent <= s
    decreases j - i
  {
    hide BoostBand;
    if i < j {
      var (boost, e') := BoostBand(f, bytes, i, logp, 0, 0, spent, ch, e);
      ReachWithin(f, bytes, i + 1, if boost > 0 then Max(2, logp - 1) else logp, spent + boost, ch, e', j);
    } else {
      BoostsAppend(f, bytes, i, logp, spent, ch, e);
    }
  }

  /** With the margin only the cap keeps a band from its boosts. */
  ghost predicate BoostGiven(f: Frame, i: nat, wanted: int, boost: int, n: nat)
    requires f.Valid() && i < |f.widths|
  {
    && boost == Scaled(n, f.Quanta(i)) && n <= Max(wanted, 0) && (n == Max(wanted, 0) || boost >= f.cap[i])
    && (n > 0 ==> Scaled(n - 1, f.Quanta(i)) < f.cap[i])
  }

  lemma GivenWithRoom(f: Frame, bytes: nat, ch: Choices, e: Coder, j: nat, done: seq<Symbol>, total: int) returns (n: nat)
    requires f.Valid() && ch.For(f) && f.Monotone() && e.Encoding? && f.start <= j < f.end
    requires var r := Boosts(f, bytes, f.start, 6, 0, ch, e); r.2.written <= done && r.1 == total && Keeps(f, bytes, done, total)
    ensures BoostGiven(f, j, ch.offsets[j], Boosts(f, bytes, f.start, 6, 0, ch, e).0[j - f.start], n)
  {
    hide Boosts, BoostsReach, Frame.Monotone, Keeps, Frame.Quanta, Scaled, BoostBand;
    BoostsTold(f, bytes, f.start, 6, 0, ch, e);
    var all := Boosts(f, bytes, f.start, 6, 0, ch, e).0;
    assert BoostTold(f, bytes, f.start, 6, 0, ch, e, all, j);
    ReachWithin(f, bytes, f.start, 6, 0, ch, e, j);
    ReachWithin(f, bytes, f.start, 6, 0, ch, e, j + 1);
    ReachNext(f, bytes, f.start, 6, 0, ch, e, j);
    var (l, s, k) := BoostsReach(f, bytes, f.start, 6, 0, ch, e, j);
    var k' := BoostsReach(f, bytes, f.start, 6, 0, ch, e, j + 1).2;
    var wanted, boost := ch.offsets[j], all[j - f.start];
    n :| BoostedTo(f, bytes, j, l, s, wanted, k, boost, k', n);
    if n < Max(wanted, 0) {
      assert k'.written == k.written + Ones(n, l) by { assert k.written + Ones(n, l) + [] == k.written + Ones(n, l); }
      MarginIsRoom(f, bytes, k'.written, done, s + boost, total);
    }
    if n > 0 { assert MayBoost(f, bytes, j, l, s, k.written, n - 1); }
  }

  lemma {:induction false} TfFlagsChosen(f: Frame, budget: int, logp: nat, i: nat, curr: nat, changed: nat, ch: Choices, e: Coder, done: seq<Symbol>)
    requires f.Valid() && ch.For(f) && f.start <= i <= f.end && curr <= 1 && changed <= 1 && e.Encoding? && logp <= 5
    requires forall w | w <= done :: f.Tell(w) + 5 <= budget
    requires TfFlags(f, budget, logp, i, curr, changed, ch, e).2.written <= done
    ensures TfFlags(f, budget, logp, i, curr, changed, ch, e).0 == ch.tf[i..f.end]
    ensures TfFlags(f, budget, logp, i, curr, changed, ch, e).1 == if changed == 1 || 1 in ch.tf[i..f.end] then 1 else 0
    decreases f.end - i
  {
    if i < f.end {
      TfFlagsAppend(f, budget, logp, i, curr, changed, ch, e);
      assert e.written <= done;
      var next := if f.transient then 4 else 5;
      var e' := CodeBit(e, Xor(ch.tf[i], curr), logp).0;
      TfFlagsChosen(f, budget, next, i + 1, ch.tf[i], Max(changed, ch.tf[i]), ch, e', done);
      assert ch.tf[i..f.end] == [ch.tf[i]] + ch.tf[i + 1..f.end];
    }
  }

  /** What is coded for the flag of band j: whether it differs from the one before, at 1 in 4 or 1 in 16
      for the first band and 1 in 16 or 1 in 32 for the others, transient or not. */
  function FlagBit(f: Frame, ch: Choices, j: nat): (b: Symbol)
    requires f.Valid() && ch.For(f) && f.start <= j < f.end
  {
    if j == f.start then Bit(ch.tf[j], if f.transient then 2 else 4)
    else Bit(if ch.tf[j] == ch.tf[j - 1] then 0 else 1, if f.transient then 4 else 5)
  }

  function FlagBits(f: Frame, ch: Choices, i: nat): (bits: seq<Symbol>)
    requires f.Valid() && ch.For(f) && f.start <= i <= f.end
    decreases f.end - i
  {
    if i == f.end then [] else [FlagBit(f, ch, i)] + FlagBits(f, ch, i + 1)
  }

  lemma {:induction false} TfFlagsWritten(f: Frame, budget: int, logp: nat, i: nat, curr: nat, changed: nat, ch: Choices, e: Coder, done: seq<Symbol>)
    requires f.Valid() && ch.For(f) && f.start <= i <= f.end && changed <= 1 && e.Encoding?
    requires if i == f.start then logp == FirstLogp(f) && curr == 0 else logp == (if f.transient then 4 else 5) && curr == ch.tf[i - 1]
    requires forall w | w <= done :: f.Tell(w) + 5 <= budget
    requires TfFlags(f, budget, logp, i, curr, changed, ch, e).2.written <= done
    ensures TfFlags(f, budget, logp, i, curr, changed, ch, e).2 == Encoding(e.written + FlagBits(f, ch, i))
    decreases f.end - i
  {
    if i < f.end {
      TfFlagsAppend(f, budget, logp, i, curr, changed, ch, e);
      assert e.written <= done;
      var next := if f.transient then 4 else 5;
      var e' := CodeBit(e, Xor(ch.tf[i], curr), logp).0;
      assert e' == Encoding(e.written + [FlagBit(f, ch, i)]);
      TfFlagsWritten(f, budget, next, i + 1, ch.tf[i], Max(changed, ch.tf[i]), ch, e', done);
      assert e.written + [FlagBit(f, ch, i)] + FlagBits(f, ch, i + 1) == e.written + FlagBits(f, ch, i);
    } else {
      assert e.written + [] == e.written;
    }
  }

  /** All that is coded for the resolutions: the flags, and the table chosen if it makes a difference. */
  function TfBits(f: Frame, ch: Choices): (bits: seq<Symbol>)
    requires f.Valid() && ch.For(f)
  {
    var changed := if 1 in ch.tf[f.start..f.end] then 1 else 0;
    FlagBits(f, ch, f.start) + if f.lm > 0 && TfEntry(f, 0, changed) != TfEntry(f, 1, changed) then [Bit(ch.tfSelect, 1)] else []
  }

  /** The table that resolves the flags: the one chosen, if it makes a difference to the highest flag. */
  function Selected(f: Frame, ch: Choices): (select: nat)
    requires f.Valid() && ch.For(f)
    ensures select <= 1
  {
    var changed := if 1 in ch.tf[f.start..f.end] then 1 else 0;
    if f.lm > 0 && TfEntry(f, 0, changed) != TfEntry(f, 1, changed) then ch.tfSelect else 0
  }

  lemma TfChosen(f: Frame, bytes: nat, ch: Choices, e: Coder, done: seq<Symbol>)
    requires f.Valid() && ch.For(f) && e.Encoding? && Tf(f, bytes, ch, e).1.written <= done
    requires forall w | w <= done :: f.Tell(w) + 16 <= bytes * 8
    ensures forall j | 0 <= j < f.end - f.start :: Tf(f, bytes, ch, e).0[j] == TfEntry(f, Selected(f, ch), ch.tf[f.start + j])
    ensures Tf(f, bytes, ch, e).1 == Encoding(e.written + TfBits(f, ch))
  {
    hide TfFlags, TfEntry, CodeBit, FlagBits;
    TfAppends(f, bytes, ch, e);
    assert e.written <= done;
    var rsv := SelectReserve(f, bytes, e);
    var k1 := TfFlags(f, bytes * 8 - rsv, FirstLogp(f), f.start, 0, 0, ch, e).2;
    assert k1.written <= done;
    TfFlagsChosen(f, bytes * 8 - rsv, FirstLogp(f), f.start, 0, 0, ch, e, done);
    TfFlagsWritten(f, bytes * 8 - rsv, FirstLogp(f), f.start, 0, 0, ch, e, done);
    BitAsCoded(k1, ch.tfSelect, 1);
    assert e.written + FlagBits(f, ch, f.start) + [] == e.written + FlagBits(f, ch, f.start);
    assert e.written + FlagBits(f, ch, f.start) + [Bit(ch.tfSelect, 1)] == e.written + (FlagBits(f, ch, f.start) + [Bit(ch.tfSelect, 1)]);
  }

  lemma BitAsCoded(e: Coder, value: nat, logp: nat)
    requires e.Encoding? && value <= 1
    ensures CodeBit(e, value, logp) == (Encoding(e.written + [Bit(value, logp)]), value)
  {
  }

  /** A packet that keeps the margin holds the header as it was chosen: every resolution is the table
      entry of the flag wanted, spread and trim are those wanted, and every band has the boosts
      wanted, or as many as reach its cap. What is coded begins with the flags and the spread and ends
      with the trim. */
  lemma AsChosen(f: Frame, bytes: nat, ch: Choices, e: Coder)
    requires f.Valid() && ch.For(f) && f.Monotone() && e.Encoding?
    requires var r := Code(f, bytes, ch, e); Keeps(f, bytes, r.1.written, r.0.spent)
    ensures var r := Code(f, bytes, ch, e).0;
            && r.spread == ch.spread && r.trim == ch.trim && |r.tf| == |r.boosts| == f.end - f.start
            && (forall j | 0 <= j < f.end - f.start :: r.tf[j] == TfEntry(f, Selected(f, ch), ch.tf[f.start + j]))
            && (forall j | f.start <= j < f.end :: Given(f, j, ch.offsets[j], r.boosts, j - f.start))
    ensures var w := Code(f, bytes, ch, e).1.written;
            && e.written + TfBits(f, ch) + [Tabled(ch.spread, 0)] <= w && w != [] && w[|w| - 1] == Tabled(ch.trim, 1)
  {
    hide Boosts, Tf, Frame.Monotone, Keeps, TfEntry, Selected, BoostGiven, TfBits;
    CodeStages(f, bytes, ch, e);
    var (res, last) := Code(f, bytes, ch, e);
    var done, total := last.written, res.spent;
    forall w | w <= done ensures f.Tell(w) + 16 <= bytes * 8 { MarginIsRoom(f, bytes, w, done, 0, total); }
    TfChosen(f, bytes, ch, e, done);
    var k1 := Tf(f, bytes, ch, e).1;
    var k2 := Spread(f, bytes, ch, k1).1;
    var k3 := Boosts(f, bytes, f.start, 6, 0, ch, k2).2;
    MarginIsRoom(f, bytes, k3.written, done, total, total);
    forall j | f.start <= j < f.end ensures Given(f, j, ch.offsets[j], res.boosts, j - f.start) {
      var n := GivenWithRoom(f, bytes, ch, k2, j, done, total);
    }
  }

  /** At any size spread and trim are as chosen where there is room for 4 bits or 6, otherwise the
      normal spread and the middle of the trims. */
  lemma SpreadAndTrim(f: Frame, bytes: nat, ch: Choices, e: Coder)
    requires f.Valid() && ch.For(f) && e.Encoding?
    ensures var r := Code(f, bytes, ch, e).0;
            var k1 := Tf(f, bytes, ch, e).1;
            var k2 := Spread(f, bytes, ch, k1).1;
            var k3 := Boosts(f, bytes, f.start, 6, 0, ch, k2).2;
            && r.spread == (if f.Tell(k1.written) <= 8 * bytes - 4 then ch.spread else 2)
            && r.trim == (if f.tellFrac(k3.written) <= 64 * bytes - r.spent - 48 then ch.trim else 5)
  {
    hide Boosts, Tf;
  }

  /** So the decoder of a packet cut to no less than the least size has the encoder's choices. */
  lemma ShrinkKeepsChoices(f: Frame, before: nat, after: nat, ch: Choices, e: Coder, other: Choices, d: Coder)
    requires f.Valid() && ch.For(f) && other.For(f) && f.Monotone() && InStep(e, d)
    requires Code(f, before, ch, e).1.written <= d.stream
    requires var r := Code(f, before, ch, e); MinAllowed(f, r.1.written, r.0.spent) <= after <= before
    ensures var q := Code(f, after, other, d).0;
            && q.spread == ch.spread && q.trim == ch.trim && |q.tf| == |q.boosts| == f.end - f.start
            && (forall j | 0 <= j < f.end - f.start :: q.tf[j] == TfEntry(f, Selected(f, ch), ch.tf[f.start + j]))
            && (forall j | f.start <= j < f.end :: Given(f, j, ch.offsets[j], q.boosts, j - f.start))
  {
    hide Code, Frame.Monotone, TfEntry, Selected, Given, Frame.Valid;
    ShrinkKeepsLockstep(f, before, after, ch, e, other, d);
    AsChosen(f, before, ch, e);
  }

  /** A boost is six bits, but no more than a bit and no less than an eighth for each coefficient. */
  lemma BoostSize(f: Frame, i: nat)
    requires f.Valid() && i < |f.widths|
    ensures var n := f.channels * f.widths[i] * Power2(f.lm); var q := f.Quanta(i);
            n <= q <= 8 * n && (n <= 48 <= 8 * n ==> q == 48) && (q > 48 ==> q == n) && (q < 48 ==> q == 8 * n)
  {
    QuantaPositive(f, i);
  }

  ghost predicate Given(f: Frame, i: nat, wanted: int, boosts: seq<int>, at: int)
    requires f.Valid() && i < |f.widths| && 0 <= at < |boosts|
  {
    var boost := boosts[at];
    exists n: nat :: BoostGiven(f, i, wanted, boost, n)
  }

  // ---------------------------------------------------------------- the loops

  /** What is left of a walk over the bands, `n` bands in. */
  ghost predicate Left<T, U, V>(all: (seq<T>, U, V), n: nat, rest: (seq<T>, U, V)) {
    n <= |all.0| && all.0[n..] == rest.0 && all.1 == rest.1 && all.2 == rest.2
  }

  lemma LeftAll<T, U, V>(all: (seq<T>, U, V))
    ensures Left(all, 0, all)
  {
  }

  lemma LeftNext<T, U, V>(all: (seq<T>, U, V), n: nat, rest: (seq<T>, U, V), head: T, next: (seq<T>, U, V))
    requires Left(all, n, rest) && rest.0 == [head] + next.0 && rest.1 == next.1 && rest.2 == next.2
    ensures n < |all.0| && all.0[n] == head && Left(all, n + 1, next)
  {
    assert all.0[n..][1..] == all.0[n + 1..];
  }

  lemma LeftNone<T, U, V>(all: (seq<T>, U, V), n: nat, u: U, v: V)
    requires Left(all, n, ([], u, v))
    ensures |all.0| == n && all.1 == u && all.2 == v
  {
  }

  lemma SelectIsBit(ch: Choices, f: Frame)
    requires ch.For(f)
    ensures ch.tfSelect <= 1
  {
  }

  lemma Bounds(f: Frame, ch: Choices)
    requires f.Valid() && ch.For(f)
    ensures f.start <= f.end <= |f.widths| == |ch.tf| == |ch.offsets| && |f.cap| == |f.widths|
  {
  }

  lemma TfIs(f: Frame, bytes: nat, ch: Choices, k: Coder, flags: seq<nat>, changed: nat, k1: Coder, select: nat, k2: Coder)
    requires f.Valid() && ch.For(f)
    requires var rsv := SelectReserve(f, bytes, k);
             && (flags, changed, k1) == TfFlags(f, bytes * 8 - rsv, FirstLogp(f), f.start, 0, 0, ch, k)
             && (k2, select) == if rsv != 0 && TfEntry(f, 0, changed) != TfEntry(f, 1, changed) then CodeBit(k1, ch.tfSelect, 1) else (k1, 0)
    ensures select <= 1 && Tf(f, bytes, ch, k).1 == k2
    ensures forall j | 0 <= j < |flags| :: Tf(f, bytes, ch, k).0[j] == TfEntry(f, select, flags[j])
  {
    hide TfFlags, TfEntry, CodeBit, SelectReserve;
  }

  /** tfEncode.  tfRes is rewritten twice: a flag there was no room for is forced to the one
      before, then every flag becomes the resolution it selects. */
  method TfEncode(f: Frame, bytes: nat, ghost ch: Choices, tfSelect0: nat, tfRes: array<int>, e: Coder) returns (k: Coder)
    requires f.Valid() && ch.For(f) && e.Encoding? && tfRes.Length == |f.widths|
    requires ch.tfSelect == tfSelect0 && forall i | f.start <= i < f.end :: tfRes[i] == ch.tf[i]
    modifies tfRes
    ensures var (res, k') := Tf(f, bytes, ch, e);
            k == k' && forall j | f.start <= j < f.end :: tfRes[j] == res[j - f.start]
  {
    hide TfEntry, TfFlags, Tf, Frame.Valid, Choices.For;
    SelectIsBit(ch, f);
    var rsv := SelectReserve(f, bytes, e);
    var changed: nat;
    ghost var flags;
    changed, k, flags := EncodeFlags(f, bytes * 8 - rsv, ch, tfRes, e);
    ghost var k1 := k;
    var tfSelect := tfSelect0;
    if rsv != 0 && TfEntry(f, 0, changed) != TfEntry(f, 1, changed) {
      var r := CodeBit(k, tfSelect, 1);
      k := r.0;
    } else {
      tfSelect := 0;
    }
    TfIs(f, bytes, ch, e, flags, changed, k1, tfSelect, k);
    Bounds(f, ch);
    Resolve(f, tfSelect, flags, tfRes);
  }

  lemma TfFlagsDone(f: Frame, budget: int, logp: nat, curr: nat, changed: nat, ch: Choices, k: Coder)
    requires f.Valid() && ch.For(f) && curr <= 1 && changed <= 1
    ensures TfFlags(f, budget, logp, f.end, curr, changed, ch, k) == ([], changed, k)
  {
  }

  method EncodeFlags(f: Frame, budget: int, ghost ch: Choices, tfRes: array<int>, e: Coder)
    returns (changed: nat, k: Coder, ghost flags: seq<nat>)
    requires f.Valid() && ch.For(f) && e.Encoding? && tfRes.Length == |f.widths|
    requires forall i | f.start <= i < f.end :: tfRes[i] == ch.tf[i]
    modifies tfRes
    ensures (flags, changed, k) == TfFlags(f, budget, FirstLogp(f), f.start, 0, 0, ch, e) && k.Encoding?
    ensures forall j | f.start <= j < f.end :: tfRes[j] == flags[j - f.start]
  {
    hide TfFlags, TfEntry, Left, Frame.Valid, Choices.For;
    Bounds(f, ch);
    k, changed := e, 0;
    var logp: nat, curr: nat := FirstLogp(f), 0;
    ghost var all := TfFlags(f, budget, logp, f.start, 0, 0, ch, e);
    LeftAll(all);
    var i := f.start;
    while i < f.end
      invariant f.start <= i <= f.end && curr <= 1 && changed <= 1 && k.Encoding?
      invariant Left(all, i - f.start, TfFlags(f, budget, logp, i, curr, changed, ch, k))
      invariant forall j | f.start <= j < i :: tfRes[j] == all.0[j - f.start]
      invariant forall j | i <= j < f.end :: tfRes[j] == ch.tf[j]
    {
      var next;
      ghost var rest := TfFlags(f, budget, logp, i, curr, changed, ch, k);
      curr, changed, k, next := EncodeFlag(f, budget, ch, logp, i, tfRes[i], curr, changed, k);
      tfRes[i] := curr;
      LeftNext(all, i - f.start, rest, curr, TfFlags(f, budget, next, i + 1, curr, changed, ch, k));
      logp := next;
      i := i + 1;
    }
    TfFlagsDone(f, budget, logp, curr, changed, ch, k);
    LeftNone(all, i - f.start, changed, k);
    flags := all.0;
  }

  /** One turn: codes the change of flag if there is room, else keeps the current flag. */
  method EncodeFlag(f: Frame, budget: int, ghost ch: Choices, logp: nat, i: nat, flag: int, curr0: nat, changed0: nat, e: Coder)
    returns (curr: nat, changed: nat, k: Coder, next: nat)
    requires f.Valid() && ch.For(f) && e.Encoding? && f.start <= i < f.end && curr0 <= 1 && changed0 <= 1 && flag == ch.tf[i]
    ensures curr <= 1 && changed <= 1 && k.Encoding?
    ensures var q := TfFlags(f, budget, next, i + 1, curr, changed, ch, k);
            var r := TfFlags(f, budget, logp, i, curr0, changed0, ch, e);
            r.0 == [curr] + q.0 && r.1 == q.1 && r.2 == q.2
  {
    curr, changed, k := curr0, changed0, e;
    if f.Tell(k.Coded()) + logp <= budget {
      var r := CodeBit(k, Xor(flag, curr), logp);
      k := r.0;
      curr := flag;
      changed := Max(changed, curr);
    }
    next := if f.transient then 4 else 5;
  }

  /** tfDecode. */
  method TfDecode(f: Frame, bytes: nat, ghost ch: Choices, tfRes: array<int>, d: Coder) returns (k: Coder)
    requires f.Valid() && ch.For(f) && d.Decoding? && tfRes.Length == |f.widths|
    modifies tfRes
    ensures var (res, k') := Tf(f, bytes, ch, d);
            k == k' && forall j | f.start <= j < f.end :: tfRes[j] == res[j - f.start]
  {
    hide TfEntry, TfFlags, Tf, Frame.Valid, Choices.For, CodeBit;
    Bounds(f, ch);
    SelectIsBit(ch, f);
    var rsv := SelectReserve(f, bytes, d);
    var changed: nat;
    ghost var flags;
    changed, k, flags := DecodeFlags(f, bytes * 8 - rsv, ch, tfRes, d);
    ghost var k1 := k;
    var tfSelect: nat := 0;
    if rsv != 0 && TfEntry(f, 0, changed) != TfEntry(f, 1, changed) {
      DecodedBitIgnoresValue(k, ch.tfSelect, 0, 1);
      var r := CodeBit(k, 0, 1);
      k, tfSelect := r.0, r.1;
    }
    TfIs(f, bytes, ch, d, flags, changed, k1, tfSelect, k);
    Resolve(f, tfSelect, flags, tfRes);
  }

  method DecodeFlags(f: Frame, budget: int, ghost ch: Choices, tfRes: array<int>, d: Coder)
    returns (changed: nat, k: Coder, ghost flags: seq<nat>)
    requires f.Valid() && ch.For(f) && d.Decoding? && tfRes.Length == |f.widths|
    modifies tfRes
    ensures (flags, changed, k) == TfFlags(f, budget, FirstLogp(f), f.start, 0, 0, ch, d) && k.Decoding?
    ensures forall j | f.start <= j < f.end :: tfRes[j] == flags[j - f.start]
  {
    hide TfFlags, TfEntry, Left, Frame.Valid, Choices.For;
    Bounds(f, ch);
    k, changed := d, 0;
    var logp: nat, curr: nat := FirstLogp(f), 0;
    ghost var all := TfFlags(f, budget, logp, f.start, 0, 0, ch, d);
    LeftAll(all);
    var i := f.start;
    while i < f.end
      invariant f.start <= i <= f.end && curr <= 1 && changed <= 1 && k.Decoding?
      invariant Left(all, i - f.start, TfFlags(f, budget, logp, i, curr, changed, ch, k))
      invariant forall j | f.start <= j < i :: tfRes[j] == all.0[j - f.start]
    {
      var next;
      ghost var rest := TfFlags(f, budget, logp, i, curr, changed, ch, k);
      curr, changed, k, next := DecodeFlag(f, budget, ch, logp, i, curr, changed, k);
      tfRes[i] := curr;
      LeftNext(all, i - f.start, rest, curr, TfFlags(f, budget, next, i + 1, curr, changed, ch, k));
      logp := next;
      i := i + 1;
    }
    TfFlagsDone(f, budget, logp, curr, changed, ch, k);
    LeftNone(all, i - f.start, changed, k);
    flags := all.0;
  }

  method DecodeFlag(f: Frame, budget: int, ghost ch: Choices, logp: nat, i: nat, curr0: nat, changed0: nat, d: Coder)
    returns (curr: nat, changed: nat, k: Coder, next: nat)
    requires f.Valid() && ch.For(f) && d.Decoding? && f.start <= i < f.end && curr0 <= 1 && changed0 <= 1
    ensures curr <= 1 && changed <= 1 && k.Decoding?
    ensures var q := TfFlags(f, budget, next, i + 1, curr, changed, ch, k);
            var r := TfFlags(f, budget, logp, i, curr0, changed0, ch, d);
            r.0 == [curr] + q.0 && r.1 == q.1 && r.2 == q.2
  {
    curr, changed, k := curr0, changed0, d;
    if f.Tell(k.Coded()) + logp <= budget {
      DecodedBitIgnoresValue(k, Xor(ch.tf[i], curr), 0, logp);
      var r := CodeBit(k, 0, logp);
      k := r.0;
      curr := Xor(curr, r.1);
      changed := Max(changed, curr);
    }
    next := if f.transient then 4 else 5;
  }

  lemma DecodedBitIgnoresValue(d: Coder, a: nat, b: nat, logp: nat)
    requires d.Decoding? && a <= 1 && b <= 1
    ensures CodeBit(d, a, logp) == CodeBit(d, b, logp)
  {
  }

  method Resolve(f: Frame, tfSelect: nat, ghost flags: seq<nat>, tfRes: array<int>)
    requires f.Valid() && tfSelect <= 1 && |flags| == f.end - f.start && tfRes.Length == |f.widths|
    requires forall j | 0 <= j < |flags| :: flags[j] <= 1
    requires forall j | f.start <= j < f.end :: tfRes[j] == flags[j - f.start]
    modifies tfRes
    ensures forall j | f.start <= j < f.end :: tfRes[j] == TfEntry(f, tfSelect, flags[j - f.start])
  {
    hide TfEntry;
    for i := f.start to f.end
      invariant forall j | f.start <= j < f.end ::
        tfRes[j] == if j < i then TfEntry(f, tfSelect, flags[j - f.start]) else flags[j - f.start]
    {
      tfRes[i] := TfEntry(f, tfSelect, tfRes[i]);
    }
  }

  lemma BoostsStep(f: Frame, bytes: nat, i: nat, logp: nat, spent: int, ch: Choices, k: Coder)
    requires f.Valid() && ch.For(f) && f.start <= i < f.end
    ensures var (boost, k') := BoostBand(f, bytes, i, logp, 0, 0, spent, ch, k);
            var q := Boosts(f, bytes, i + 1, if boost > 0 then Max(2, logp - 1) else logp, spent + boost, ch, k');
            Boosts(f, bytes, i, logp, spent, ch, k) == ([boost] + q.0, q.1, q.2)
  {
    hide BoostBand;
  }

  lemma BoostsDone(f: Frame, bytes: nat, logp: nat, spent: int, ch: Choices, k: Coder)
    requires f.Valid() && ch.For(f)
    ensures Boosts(f, bytes, f.end, logp, spent, ch, k) == ([], spent, k)
  {
  }

  /** The encoder's dynalloc loops: `offsets` goes in as wanted boosts and comes out as the
      boosts coded. */
  method CodeBoosts(f: Frame, bytes: nat, ghost ch: Choices, offsets: array<int>, e: Coder)
    returns (totalBoost: int, k: Coder)
    requires f.Valid() && ch.For(f) && e.Encoding? && offsets.Length == |f.widths|
    requires forall i | f.start <= i < f.end :: offsets[i] == ch.offsets[i]
    modifies offsets
    ensures var r := Boosts(f, bytes, f.start, 6, 0, ch, e);
            totalBoost == r.1 && k == r.2 && forall j | f.start <= j < f.end :: offsets[j] == r.0[j - f.start]
    ensures forall j | f.start <= j < f.end :: BoostTold(f, bytes, f.start, 6, 0, ch, e, Boosts(f, bytes, f.start, 6, 0, ch, e).0, j)
  {
    hide BoostBand, Boosts, BoostTold, Left, Frame.Valid, Choices.For;
    Bounds(f, ch);
    BoostsTold(f, bytes, f.start, 6, 0, ch, e);
    k, totalBoost := e, 0;
    var logp: nat := 6;
    ghost var all := Boosts(f, bytes, f.start, 6, 0, ch, e);
    LeftAll(all);
    var i := f.start;
    while i < f.end
      invariant f.start <= i <= f.end && k.Encoding?
      invariant Left(all, i - f.start, Boosts(f, bytes, i, logp, totalBoost, ch, k))
      invariant forall j | f.start <= j < i :: offsets[j] == all.0[j - f.start]
      invariant forall j | i <= j < f.end :: offsets[j] == ch.offsets[j]
    {
      var boost, flags;
      ghost var rest := Boosts(f, bytes, i, logp, totalBoost, ch, k);
      BoostsStep(f, bytes, i, logp, totalBoost, ch, k);
      boost, flags, totalBoost, k := CodeBoostsOfBand(f, bytes, ch, i, logp, offsets[i], totalBoost, k);
      if flags != 0 { logp := Max(2, logp - 1); }
      offsets[i] := boost;
      LeftNext(all, i - f.start, rest, boost, Boosts(f, bytes, i + 1, logp, totalBoost, ch, k));
      i := i + 1;
    }
    BoostsDone(f, bytes, logp, totalBoost, ch, k);
    LeftNone(all, i - f.start, totalBoost, k);
  }

  method CodeBoostsOfBand(f: Frame, bytes: nat, ghost ch: Choices, i: nat, logp0: nat, wanted: int, spent0: int, e: Coder)
    returns (boost: int, j: nat, spent: int, k: Coder)
    requires f.Valid() && ch.For(f) && i < |f.widths| && e.Encoding? && wanted == ch.offsets[i]
    ensures (boost, k) == BoostBand(f, bytes, i, logp0, 0, 0, spent0, ch, e)
    ensures spent == spent0 + boost && k.Encoding? && (j != 0 <==> boost > 0)
  {
    hide CodeBit, Frame.Quanta;
    QuantaPositive(f, i);
    var logp: nat := logp0;
    boost, j, spent, k := 0, 0, spent0, e;
    while f.tellFrac(k.Coded()) + logp * 8 < bytes * 64 - spent && boost < f.cap[i]
      invariant k.Encoding? && boost >= 0 && spent == spent0 + boost && (j != 0 <==> boost > 0)
      invariant BoostBand(f, bytes, i, logp, j, boost, spent, ch, k) == BoostBand(f, bytes, i, logp0, 0, 0, spent0, ch, e)
      decreases f.cap[i] - boost
    {
      var r := CodeBit(k, if j < wanted then 1 else 0, logp);
      k := r.0;
      if r.1 == 0 { return; }
      boost, spent := boost + f.Quanta(i), spent + f.Quanta(i);
      logp, j := 1, j + 1;
    }
  }

  /** The decoder's, which takes each boost off the bits it has instead. */
  method DecodeBoosts(f: Frame, bytes: nat, ghost ch: Choices, offsets: array<int>, d: Coder)
    returns (totalBits: int, k: Coder)
    requires f.Valid() && ch.For(f) && d.Decoding? && offsets.Length == |f.widths|
    modifies offsets
    ensures var r := Boosts(f, bytes, f.start, 6, 0, ch, d);
            totalBits == bytes * 64 - r.1 && k == r.2 && forall j | f.start <= j < f.end :: offsets[j] == r.0[j - f.start]
  {
    hide BoostBand, Boosts, Left, Frame.Valid, Choices.For;
    Bounds(f, ch);
    k, totalBits := d, bytes * 64;
    var logp: nat := 6;
    ghost var all := Boosts(f, bytes, f.start, 6, 0, ch, d);
    LeftAll(all);
    var i := f.start;
    while i < f.end
      invariant f.start <= i <= f.end && k.Decoding?
      invariant Left(all, i - f.start, Boosts(f, bytes, i, logp, bytes * 64 - totalBits, ch, k))
      invariant forall j | f.start <= j < i :: offsets[j] == all.0[j - f.start]
    {
      var boost;
      ghost var rest := Boosts(f, bytes, i, logp, bytes * 64 - totalBits, ch, k);
      BoostsStep(f, bytes, i, logp, bytes * 64 - totalBits, ch, k);
      boost, totalBits, k := DecodeBoostsOfBand(f, bytes, ch, i, logp, totalBits, k);
      if boost > 0 { logp := Max(2, logp - 1); }
      offsets[i] := boost;
      LeftNext(all, i - f.start, rest, boost, Boosts(f, bytes, i + 1, logp, bytes * 64 - totalBits, ch, k));
      i := i + 1;
    }
    BoostsDone(f, bytes, logp, bytes * 64 - totalBits, ch, k);
    LeftNone(all, i - f.start, bytes * 64 - totalBits, k);
  }

  method DecodeBoostsOfBand(f: Frame, bytes: nat, ghost ch: Choices, i: nat, logp0: nat, bits0: int, d: Coder)
    returns (boost: int, totalBits: int, k: Coder)
    requires f.Valid() && ch.For(f) && i < |f.widths| && d.Decoding?
    ensures (boost, k) == BoostBand(f, bytes, i, logp0, 0, 0, bytes * 64 - bits0, ch, d)
    ensures totalBits == bits0 - boost && k.Decoding?
  {
    hide CodeBit, Frame.Quanta;
    QuantaPositive(f, i);
    var logp: nat := logp0;
    boost, totalBits, k := 0, bits0, d;
    ghost var j: nat := 0;
    while f.tellFrac(k.Coded()) + logp * 8 < totalBits && boost < f.cap[i]
      invariant k.Decoding? && totalBits == bits0 - boost
      invariant BoostBand(f, bytes, i, logp, j, boost, bytes * 64 - totalBits, ch, k)
             == BoostBand(f, bytes, i, logp0, 0, 0, bytes * 64 - bits0, ch, d)
      decreases f.cap[i] - boost
    {
      DecodedBitIgnoresValue(k, if j < ch.offsets[i] then 1 else 0, 0, logp);
      var r := CodeBit(k, 0, logp);
      k := r.0;
      if r.1 == 0 { break; }
      boost, totalBits := boost + f.Quanta(i), totalBits - f.Quanta(i);
      logp, j := 1, j + 1;
    }
  }
}
