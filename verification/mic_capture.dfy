/** Digital microphone capture of stm32n6570_discovery_audio.c: the two MDF callbacks that convert
    one half of the DMA buffer, and the cyclic DMA that fills the other half meanwhile. */
module MicCapture {
  import opened Arithmetic
  import opened Words

  type Int32 = x: int | -0x8000_0000 <= x < 0x8000_0000
  type Octet = x: int | 0 <= x < 256

  // ---- sample conversion ----

  /** C division, which truncates toward zero. */
  function TruncDiv(x: int, d: nat): int
    requires d != 0
  {
    if x < 0 then -((-x) / d) else x / d
  }

  function SaturaLH(n: int, low: int, high: int): int {
    if n < low then low else if n > high then high else n
  }

  function Sample(x: Int32): int { SaturaLH(TruncDiv(x, 256), -32768, 32767) }

  function LowByte(v: int): Octet { v % 256 }
  function HighByte(v: int): Octet { (v % U32) / 256 % 256 }

  /** The little-endian 16-bit sample a listener reads back. */
  function AsInt16(low: Octet, high: Octet): int {
    var u := low + 256 * high;
    if u < 32768 then u else u - 65536
  }

  /** v is x over 256, its fraction cut off, or the nearer end of the 16-bit range for words outside 24 bits. */
  predicate Samples(x: Int32, v: int) {
    if x >= 0x80_0000 then v == 32767
    else if x < -0x80_0000 then v == -32768
    else -256 < x - 256 * v < 256 && (x - 256 * v) * x >= 0
  }

  lemma {:induction false} SampleExactly(x: Int32, v: int)
    ensures Samples(x, v) <==> v == Sample(x)
  {
    var y: int := x;
    var q, n := y / 256, (-y) / 256;
    assert 256 * q <= y < 256 * q + 256 && 256 * n <= -y < 256 * n + 256;
    if -0x80_0000 <= x < 0x80_0000 {
      SignOf(x, x - 256 * v);
      SignOf(x, x - 256 * Sample(x));
    }
  }

  lemma SignOf(x: int, r: int)
    ensures r * x >= 0 <==> x == 0 || r == 0 || (x > 0 <==> r > 0)
  {
  }

  /** Conversion to two bytes loses nothing: the listener reads the saturated sample. */
  lemma BytesHoldSample(x: Int32)
    ensures Samples(x, AsInt16(LowByte(Sample(x)), HighByte(Sample(x))))
  {
    SampleRange(x);
    SampleExactly(x, Sample(x));
    hide Samples;
    hide Sample, LowByte, HighByte, AsInt16;
    TwoBytes(Sample(x));
  }

  lemma TwoBytes(v: int)
    requires -32768 <= v <= 32767
    ensures AsInt16(LowByte(v), HighByte(v)) == v
  {
    var q, r := v / 256, v % 256;
    HighByteOf(v);
    hide HighByte;
  }

  lemma HighByteOf(v: int)
    requires -32768 <= v <= 32767
    ensures HighByte(v) == if v < 0 then v / 256 + 256 else v / 256
  {
    if v < 0 {
      AsUnsigned(v);
      HighBlock(v);
      HighBits(v / 256);
    } else {
      DivMod(v, 0, v, U32);
      DivMod(v / 256, 0, v / 256, 256);
    }
  }

  lemma AsUnsigned(v: int)
    requires -32768 <= v < 0
    ensures v % U32 == v + U32
  {
    DivMod(v + U32, 0, v + U32, U32);
  }

  lemma HighBlock(v: int)
    requires -32768 <= v < 0
    ensures (v + U32) / 256 == v / 256 + 0x100_0000 && -128 <= v / 256 < 0
  {
  }

  lemma HighBits(q: int)
    requires -128 <= q < 0
    ensures (q + 0x100_0000) % 256 == q + 256
  {
    DivMod(q + 0x100_0000, 0xFFFF, q + 256, 256);
  }

  lemma SampleRange(x: Int32)
    ensures -32768 <= Sample(x) <= 32767
  {
    hide TruncDiv;
  }

  /** The byte stream of a sequence of microphone words. */
  function Stream(xs: seq<Int32>): (r: seq<Octet>)
    ensures |r| == 2 * |xs|
  {
    if xs == [] then [] else
      var v := Sample(xs[|xs| - 1]);
      Stream(xs[..|xs| - 1]) + [LowByte(v), HighByte(v)]
  }

  lemma {:induction false} StreamAt(xs: seq<Int32>, i: nat)
    requires i < |xs|
    ensures Stream(xs)[2 * i] == LowByte(Sample(xs[i])) && Stream(xs)[2 * i + 1] == HighByte(Sample(xs[i]))
  {
    if i < |xs| - 1 {
      StreamAt(xs[..|xs| - 1], i);
    }
  }

  // ---- the callbacks ----

  /** Bytes 2 lo to 2 hi of `now` are the words lo to hi converted, the others are those of `was`. */
  ghost predicate Converted(rec: seq<Int32>, was: seq<Octet>, now: seq<Octet>, lo: nat, hi: nat) {
    && |now| == |was| && lo <= hi <= |rec| && 2 * hi <= |now|
    && (forall i :: lo <= i < hi ==>
          now[2 * i] == LowByte(Sample(rec[i])) && now[2 * i + 1] == HighByte(Sample(rec[i])))
    && (forall k :: 0 <= k < 2 * lo || 2 * hi <= k < |now| ==> now[k] == was[k])
  }

  class MdfCapture {
    const digMicRecBuff: array<Int32>
    var pBuff: array<Octet>
    var size: nat

    /** What BSP_AUDIO_IN_Record checks, and a client buffer of the announced size. */
    ghost predicate Valid()
      reads this
    {
      size / 2 <= digMicRecBuff.Length && size <= pBuff.Length
    }

    constructor (bufferSize: nat, pBuff: array<Octet>, size: nat)
      requires size / 2 <= bufferSize && size <= pBuff.Length
      ensures Valid() && this.pBuff == pBuff && this.size == size && fresh(digMicRecBuff)
    {
      digMicRecBuff := new Int32[bufferSize](_ => 0);
      this.pBuff, this.size := pBuff, size;
    }

    method ConvertWord(index: nat)
      requires Valid() && index < size / 2
      modifies pBuff
      ensures pBuff[..] == old(pBuff[..])[2 * index := LowByte(Sample(digMicRecBuff[index]))]
                                         [2 * index + 1 := HighByte(Sample(digMicRecBuff[index]))]
    {
      var tmp := TruncDiv(digMicRecBuff[index], 256);
      tmp := SaturaLH(tmp, -32768, 32767);
      pBuff[2 * index] := LowByte(tmp);
      pBuff[2 * index + 1] := HighByte(tmp);
    }

    method AcqHalfCpltCallback()
      requires Valid()
      modifies pBuff
      ensures Converted(digMicRecBuff[..], old(pBuff[..]), pBuff[..], 0, size / 2 / 2)
    {
      hide Sample, LowByte, HighByte;
      var recbufsize := size / 2;
      var index := 0;
      while index < recbufsize / 2
        invariant index <= recbufsize / 2
        invariant Converted(digMicRecBuff[..], old(pBuff[..]), pBuff[..], 0, index)
      {
        ConvertWord(index);
        index := index + 1;
      }
    }

    method AcqCpltCallback()
      requires Valid()
      modifies pBuff
      ensures Converted(digMicRecBuff[..], old(pBuff[..]), pBuff[..], size / 2 / 2, size / 2)
    {
      hide Sample, LowByte, HighByte;
      var recbufsize := size / 2;
      var index := recbufsize / 2;
      while index < recbufsize
        invariant recbufsize / 2 <= index <= recbufsize
        invariant Converted(digMicRecBuff[..], old(pBuff[..]), pBuff[..], recbufsize / 2, index)
      {
        ConvertWord(index);
        index := index + 1;
      }
    }
  }

  // ---- the DMA and the interrupts, one word at a time ----

  /** Idle, or inside a callback whose loop index is `next`. */
  datatype Isr = Idle | Busy(next: nat)

  /** A capture in progress.  The record buffer has two halves of `half` words (a record size of 4 half
      bytes); `input` is every word the microphone has produced, `served` counts the halves whose
      callback has finished, and `delivered` is what the client has been handed. */
  datatype Capture = Capture(half: nat, input: seq<Int32>, rec: seq<Int32>, out: seq<Octet>,
                             served: nat, isr: Isr, delivered: seq<Octet>)
  {
    /** Where the half being served starts: half-transfer and transfer-complete interrupts alternate. */
    function Start(): nat { if served % 2 == 0 then 0 else half }
    /** The index in `input` of the first word not served. */
    function Base(): nat { served * half }
  }

  ghost predicate Initial(s: Capture) {
    && s.half > 0 && |s.rec| == 2 * s.half && |s.out| == 4 * s.half
    && s.input == [] && s.served == 0 && s.isr == Idle && s.delivered == []
  }

  /** DMA stores the next word cyclically.  It has not come back to the half that is still unserved. */
  ghost predicate DmaWord(s: Capture, s': Capture, x: Int32) {
    && s.half > 0 && |s.rec| == 2 * s.half
    && |s.input| < s.Base() + 2 * s.half
    && s' == s.(input := s.input + [x], rec := s.rec[|s.input| % (2 * s.half) := x])
  }

  ghost predicate IsrEnter(s: Capture, s': Capture) {
    s.isr == Idle && |s.input| >= s.Base() + s.half && s' == s.(isr := Busy(s.Start()))
  }

  /** One iteration of the callback's loop. */
  ghost predicate IsrConvert(s: Capture, s': Capture) {
    && s.isr.Busy? && s.isr.next < s.Start() + s.half && |s.rec| == 2 * s.half && |s.out| == 4 * s.half
    && var i := s.isr.next;
    && var v := Sample(s.rec[i]);
    && s' == s.(out := s.out[2 * i := LowByte(v)][2 * i + 1 := HighByte(v)], isr := Busy(i + 1))
  }

  /** The loop is done and the client takes the half that has been converted. */
  ghost predicate IsrExit(s: Capture, s': Capture) {
    && s.isr == Busy(s.Start() + s.half) && |s.out| == 4 * s.half
    && s' == s.(isr := Idle, served := s.served + 1,
                delivered := s.delivered + s.out[2 * s.Start()..2 * (s.Start() + s.half)])
  }

  ghost predicate Next(s: Capture, s': Capture) {
    (exists x :: DmaWord(s, s', x)) || IsrEnter(s, s') || IsrConvert(s, s') || IsrExit(s, s')
  }

  ghost predicate Run(t: seq<Capture>) {
    t != [] && Initial(t[0]) && forall i :: 0 < i < |t| ==> Next(t[i - 1], t[i])
  }

  /** Words not yet served are intact in the buffer, and word k of the half being served is at Start() + k. */
  ghost predicate Intact(s: Capture) {
    && s.half > 0 && |s.rec| == 2 * s.half && |s.out| == 4 * s.half
    && s.Base() <= |s.input| <= s.Base() + 2 * s.half
    && forall j :: s.Base() <= j < |s.input| ==> s.rec[j % (2 * s.half)] == s.input[j]
  }

  /** The callback's loop has converted the first words of the half it serves. */
  ghost predicate Progress(s: Capture) {
    s.isr.Busy? ==>
      && s.Base() + s.half <= |s.input|
      && s.Start() <= s.isr.next <= s.Start() + s.half && |s.out| == 4 * s.half
      && forall i :: s.Start() <= i < s.isr.next ==> WordConverted(s, i)
  }

  ghost predicate WordConverted(s: Capture, i: nat) {
    && var j := s.Base() + (i - s.Start());
    && 0 <= j < |s.input| && 2 * i + 1 < |s.out|
    && s.out[2 * i] == LowByte(Sample(s.input[j])) && s.out[2 * i + 1] == HighByte(Sample(s.input[j]))
  }

  ghost predicate Inv(s: Capture) {
    && Intact(s) && Progress(s)
    && s.delivered == Stream(s.input[..s.Base()])
  }

  // ---- every step keeps the invariant ----

  lemma BlockIndex(served: nat, half: nat, k: nat)
    requires half > 0 && k < half
    ensures (served * half + k) % (2 * half) == (if served % 2 == 0 then 0 else half) + k
  {
    var q, n := served / 2, 2 * half;
    var r := (if served % 2 == 0 then 0 else half) + k;
    assert served * half + k == q * n + r by {
      assert served == 2 * q + served % 2;
      assert (2 * q) * half == q * n;
      if served % 2 == 1 {
        assert (2 * q + 1) * half == (2 * q) * half + half;
      }
    }
    DivMod(served * half + k, q, r, n);
  }

  lemma DmaKeepsInv(s: Capture, s': Capture, x: Int32)
    requires Inv(s) && DmaWord(s, s', x)
    ensures Inv(s')
  {
    DmaKeepsIntact(s, s', x);
    DmaKeepsProgress(s, s', x);
    assert s'.input[..s.Base()] == s.input[..s.Base()];
  }

  lemma DmaKeepsIntact(s: Capture, s': Capture, x: Int32)
    requires Intact(s) && DmaWord(s, s', x)
    ensures Intact(s')
  {
    var n := 2 * s.half;
    forall j | s.Base() <= j < |s'.input| ensures s'.rec[j % n] == s'.input[j] {
      if j < |s.input| {
        DistinctMod(j, |s.input|, n);
      }
    }
  }

  lemma DmaKeepsProgress(s: Capture, s': Capture, x: Int32)
    requires Progress(s) && DmaWord(s, s', x)
    ensures Progress(s')
  {
    if s.isr.Busy? {
      forall i | s.Start() <= i < s.isr.next ensures WordConverted(s', i) {
        assert WordConverted(s, i);
      }
    }
  }

  /** The callback reads words that DMA has finished and not touched since. */
  lemma ReadsInput(s: Capture, i: nat)
    requires Intact(s) && s.Base() + s.half <= |s.input| && s.Start() <= i < s.Start() + s.half
    ensures s.rec[i] == s.input[s.Base() + (i - s.Start())]
  {
    var j := s.Base() + (i - s.Start());
    BlockIndex(s.served, s.half, i - s.Start());
    assert s.rec[j % (2 * s.half)] == s.input[j];
  }

  lemma ConvertKeepsInv(s: Capture, s': Capture)
    requires Inv(s) && IsrConvert(s, s')
    ensures Inv(s')
  {
    hide Sample, LowByte, HighByte;
    ReadsInput(s, s.isr.next);
    assert s'.Start() == s.Start() && s'.Base() == s.Base();
    ConvertKeepsProgress(s, s');
  }

  lemma ConvertKeepsProgress(s: Capture, s': Capture)
    requires Intact(s) && Progress(s) && IsrConvert(s, s') && s'.Start() == s.Start() && s'.Base() == s.Base()
    requires s.rec[s.isr.next] == s.input[s.Base() + (s.isr.next - s.Start())]
    ensures Progress(s')
  {
    hide Sample, LowByte, HighByte;
    forall m | s'.Start() <= m < s'.isr.next ensures WordConverted(s', m) {
      if m < s.isr.next {
        assert WordConverted(s, m);
      }
    }
  }

  lemma ExitKeepsInv(s: Capture, s': Capture)
    requires Inv(s) && IsrExit(s, s')
    ensures Inv(s')
  {
    ExitMovesBase(s, s');
    ExitKeepsIntact(s, s');
    ExitDelivers(s, s');
    hide Intact, Stream;
  }

  lemma ExitMovesBase(s: Capture, s': Capture)
    requires IsrExit(s, s')
    ensures s'.Base() == s.Base() + s.half
  {
  }

  lemma ExitDelivers(s: Capture, s': Capture)
    requires Inv(s) && IsrExit(s, s') && s'.Base() == s.Base() + s.half <= |s.input|
    ensures s'.delivered == Stream(s'.input[..s'.Base()])
  {
    ConvertedHalf(s);
    var before, block := s.input[..s.Base()], s.input[s.Base()..s.Base() + s.half];
    var taken := s.out[2 * s.Start()..2 * (s.Start() + s.half)];
    assert s'.input == s.input && s'.delivered == s.delivered + taken;
    assert s.delivered == Stream(before);
    hide Inv, IsrExit, Stream;
    assert before + block == s'.input[..s'.Base()];
    StreamSplit(before, block);
  }

  lemma ExitKeepsIntact(s: Capture, s': Capture)
    requires Intact(s) && Progress(s) && IsrExit(s, s') && s'.Base() == s.Base() + s.half
    ensures Intact(s')
  {
  }

  lemma BytesOfBlock(taken: seq<Octet>, block: seq<Int32>)
    requires |taken| == 2 * |block|
    requires forall k :: 0 <= k < |block| ==>
               taken[2 * k] == LowByte(Sample(block[k])) && taken[2 * k + 1] == HighByte(Sample(block[k]))
    ensures taken == Stream(block)
  {
    hide Sample, LowByte, HighByte;
    forall m | 0 <= m < |taken| ensures taken[m] == Stream(block)[m] {
      StreamAt(block, m / 2);
      assert m == 2 * (m / 2) || m == 2 * (m / 2) + 1;
    }
  }

  /** The half the client takes is the converted block of input. */
  lemma ConvertedHalf(s: Capture)
    requires Progress(s) && s.isr == Busy(s.Start() + s.half)
    ensures s.Base() + s.half <= |s.input| && 2 * (s.Start() + s.half) <= |s.out|
    ensures s.out[2 * s.Start()..2 * (s.Start() + s.half)] == Stream(s.input[s.Base()..s.Base() + s.half])
  {
    hide Sample, LowByte, HighByte, Stream;
    OutLength(s);
    var taken, block := s.out[2 * s.Start()..2 * (s.Start() + s.half)], s.input[s.Base()..s.Base() + s.half];
    forall k | 0 <= k < |block|
      ensures taken[2 * k] == LowByte(Sample(block[k])) && taken[2 * k + 1] == HighByte(Sample(block[k]))
    {
      assert WordConverted(s, s.Start() + k);
    }
    BytesOfBlock(taken, block);
  }

  lemma OutLength(s: Capture)
    requires Progress(s) && s.isr.Busy?
    ensures 2 * (s.Start() + s.half) <= |s.out|
  {
  }

  lemma {:induction false} StreamSplit(a: seq<Int32>, b: seq<Int32>)
    ensures Stream(a + b) == Stream(a) + Stream(b)
  {
    if b == [] {
      assert a + b == a;
    } else {
      StreamSplit(a, b[..|b| - 1]);
      assert (a + b)[..|a + b| - 1] == a + b[..|b| - 1];
    }
  }

  lemma NextKeepsInv(s: Capture, s': Capture)
    requires Inv(s) && Next(s, s')
    ensures Inv(s')
  {
    if x :| DmaWord(s, s', x) {
      DmaKeepsInv(s, s', x);
    } else if IsrEnter(s, s') {
    } else if IsrConvert(s, s') {
      ConvertKeepsInv(s, s');
    } else {
      ExitKeepsInv(s, s');
    }
  }

  lemma {:induction false} RunKeepsInv(t: seq<Capture>, n: nat)
    requires Run(t) && n < |t|
    ensures Inv(t[n])
  {
    if n > 0 {
      RunKeepsInv(t, n - 1);
      NextKeepsInv(t[n - 1], t[n]);
    }
  }

  /** The loop steps of one interrupt, undisturbed, do what the callback methods above are proved to do. */
  lemma {:induction false} LoopIsCallback(t: seq<Capture>, n: nat)
    requires n < |t| && t[0].isr == Busy(t[0].Start()) && |t[0].rec| == 2 * t[0].half && |t[0].out| == 4 * t[0].half
    requires forall i :: 0 < i <= n ==> IsrConvert(t[i - 1], t[i])
    ensures t[n].rec == t[0].rec && t[n].Start() == t[0].Start() && t[n].half == t[0].half
    ensures t[n].isr == Busy(t[0].Start() + n)
    ensures Converted(t[0].rec, t[0].out, t[n].out, t[0].Start(), t[0].Start() + n)
  {
    hide Sample, LowByte, HighByte;
    if n > 0 {
      LoopIsCallback(t, n - 1);
      assert IsrConvert(t[n - 1], t[n]);
    }
  }

  /** Over every run: what the client has been handed is the stream of exactly the first `served` halves of
      the input, each sample once and in order, and all but at most two halves has been handed over. */
  lemma DeliveredStream(t: seq<Capture>, n: nat)
    requires Run(t) && n < |t|
    ensures t[n].Base() <= |t[n].input| <= t[n].Base() + 2 * t[n].half
    ensures t[n].delivered == Stream(t[n].input[..t[n].Base()])
  {
    RunKeepsInv(t, n);
  }

  /** Hence sample i of the delivered stream is word i of the input, divided by 256 and saturated. */
  lemma DeliveredSample(t: seq<Capture>, n: nat, i: nat)
    requires Run(t) && n < |t| && 2 * i + 1 < |t[n].delivered|
    ensures i < |t[n].input|
    ensures Samples(t[n].input[i], AsInt16(t[n].delivered[2 * i], t[n].delivered[2 * i + 1]))
  {
    hide Sample, Samples, AsInt16, LowByte, HighByte, Stream;
    DeliveredStream(t, n);
    var xs := t[n].input[..t[n].Base()];
    StreamAt(xs, i);
    BytesHoldSample(xs[i]);
  }
}
