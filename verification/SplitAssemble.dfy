/** Fading loud part tails and padding joins with silence (`lora_split_assemble.py`). */
module SplitAssemble {
  import opened Numbers
  import opened Sequences

  // ---------------------------------------------------------------- fade_tail

  /** Where the fade starts and how many frames it has. */
  datatype Fade = Fade(start: nat, channels: nat, frames: nat) {
    ghost predicate Valid() { channels >= 1 && frames >= 1 }
  }

  function SamplesIn(rate: nat, ms: real): real { rate as real * ms / 1000.0 }

  function FadeFrames(frameRate: nat, fadeMs: real): (n: nat)
    ensures n >= 1
  {
    Max(1, Trunc(SamplesIn(frameRate, MaxReal(1.0, fadeMs))))
  }

  function FadeOf(samples: nat, channelCount: nat, frameRate: nat, fadeMs: real): (f: Fade)
    ensures f.Valid() && f.start <= samples
  {
    var channels := Max(1, channelCount);
    var fadeFrames := FadeFrames(frameRate, fadeMs);
    NonNegativeProduct(fadeFrames, channels);
    var fadeSamples := Min(samples, fadeFrames * channels);
    Fade(samples - fadeSamples, channels, Max(1, fadeSamples / channels))
  }

  lemma NonNegativeProduct(a: int, b: int)
    requires a >= 0 && b >= 0
    ensures a * b >= 0
  {
  }

  function Gain(frame: nat, frames: nat): real
    requires frames >= 1
  {
    MaxReal(0.0, 1.0 - (frame + 1) as real / frames as real)
  }

  /** The sample at index `i` after the fade. */
  function FadedSample(x: int, i: nat, f: Fade): int
    requires f.Valid()
  {
    if i < f.start || (i - f.start) / f.channels >= f.frames then x
    else Attenuated(x, Gain((i - f.start) / f.channels, f.frames))
  }

  function Attenuated(x: int, gain: real): int { Trunc(x as real * gain) }

  function Faded(samples: seq<int>, f: Fade): (r: seq<int>)
    requires f.Valid()
    ensures |r| == |samples|
  {
    seq(|samples|, i requires 0 <= i < |samples| => FadedSample(samples[i], i, f))
  }

  lemma FrameOf(frame: nat, channel: nat, channels: nat)
    requires channel < channels
    ensures (frame * channels + channel) / channels == frame
  {
    var i := frame * channels + channel;
    assert i / channels * channels + i % channels == i;
    if i / channels < frame { Below(i / channels, frame, channels); }
    if i / channels > frame { Below(frame, i / channels, channels); }
  }

  lemma Below(a: int, b: int, c: int)
    requires a < b && c >= 0
    ensures a * c + c <= b * c
  {
    NonNegativeProduct(b - a - 1, c);
    assert (b - a - 1) * c == b * c - a * c - c;
  }

  lemma BeyondLastFrame(k: nat, f: Fade)
    requires f.Valid() && k >= f.frames * f.channels
    ensures k / f.channels >= f.frames
  {
    assert k / f.channels * f.channels + k % f.channels == k;
    if k / f.channels < f.frames { Below(k / f.channels, f.frames, f.channels); }
  }

  /** The fade, frame by frame and channel by channel, on the samples themselves. */
  method FadeTail(samples: array<int>, channelCount: nat, frameRate: nat, fadeMs: real)
    modifies samples
    ensures samples[..] == Faded(old(samples[..]), FadeOf(samples.Length, channelCount, frameRate, fadeMs))
  {
    hide Gain, FadedSample, FrameBase, FadeOf, Attenuated;
    ghost var was := samples[..];
    var f := FadeOf(samples.Length, channelCount, frameRate, fadeMs);
    UnfadedPrefix(f);
    FrameBaseNext(f, 0);
    var frame := 0;
    while frame < f.frames
      invariant 0 <= frame <= f.frames
      invariant forall k :: 0 <= k < samples.Length ==>
                  samples[k] == if k < FrameBase(f, frame) then FadedSample(was[k], k, f) else was[k]
    {
      var gain := Gain(frame, f.frames);
      var base := FrameBase(f, frame);
      FrameBaseNext(f, frame);
      var channel := 0;
      while channel < f.channels
        invariant 0 <= channel <= f.channels
        invariant forall k :: 0 <= k < samples.Length ==>
                    samples[k] == if k < base + channel then FadedSample(was[k], k, f) else was[k]
      {
        var idx := base + channel;
        if idx < samples.Length {
          FadedAt(was[idx], frame, channel, f);
          samples[idx] := Attenuated(samples[idx], gain);
        }
        channel := channel + 1;
      }
      frame := frame + 1;
    }
    forall k | 0 <= k < samples.Length ensures samples[k] == FadedSample(was[k], k, f) {
      UnfadedRest(k, f);
    }
  }

  /** Index of the first sample of a frame of the fade. */
  function FrameBase(f: Fade, frame: nat): (base: nat)
    ensures base >= f.start
  {
    NonNegativeProduct(frame, f.channels);
    f.start + frame * f.channels
  }

  lemma FrameBaseNext(f: Fade, frame: nat)
    ensures FrameBase(f, frame + 1) == FrameBase(f, frame) + f.channels
    ensures FrameBase(f, 0) == f.start
  {
    assert (frame + 1) * f.channels == frame * f.channels + f.channels;
  }

  lemma UnfadedPrefix(f: Fade)
    requires f.Valid()
    ensures forall x, k: nat :: k < f.start ==> FadedSample(x, k, f) == x
  {
  }

  lemma FadedAt(x: int, frame: nat, channel: nat, f: Fade)
    requires f.Valid() && frame < f.frames && channel < f.channels
    ensures FadedSample(x, FrameBase(f, frame) + channel, f) == Attenuated(x, Gain(frame, f.frames))
  {
    NonNegativeProduct(frame, f.channels);
    FrameOf(frame, channel, f.channels);
  }

  lemma UnfadedRest(k: nat, f: Fade)
    requires f.Valid()
    ensures FrameBase(f, f.frames) <= k ==> forall x :: FadedSample(x, k, f) == x
  {
    if FrameBase(f, f.frames) <= k { BeyondLastFrame(k - f.start, f); }
  }

  // ---------------------------------------------------------------- what a fade does

  lemma GainRange(frame: nat, frames: nat)
    requires frames >= 1
    ensures 0.0 <= Gain(frame, frames) <= 1.0
    ensures frame + 1 >= frames ==> Gain(frame, frames) == 0.0
  {
    var q := (frame + 1) as real / frames as real;
    assert q * frames as real == (frame + 1) as real;
    assert q >= 0.0;
    assert frame + 1 >= frames ==> q >= 1.0;
  }

  lemma TruncShrinks(x: int, gain: real)
    requires 0.0 <= gain <= 1.0
    ensures x >= 0 ==> 0 <= Trunc(x as real * gain) <= x
    ensures x <= 0 ==> x <= Trunc(x as real * gain) <= 0
  {
    var y := x as real * gain;
    if x >= 0 {
      assert 0.0 <= y <= x as real;
    } else {
      assert x as real <= y <= 0.0;
    }
  }

  /** A fade moves every sample towards zero and never past it; samples before the fade
      are untouched. */
  lemma FadeShrinks(samples: seq<int>, f: Fade, i: nat)
    requires f.Valid() && i < |samples|
    ensures var x, y := samples[i], Faded(samples, f)[i];
            && (x >= 0 ==> 0 <= y <= x) && (x <= 0 ==> x <= y <= 0)
            && (i < f.start ==> y == x)
  {
    if i >= f.start && (i - f.start) / f.channels < f.frames {
      GainRange((i - f.start) / f.channels, f.frames);
      TruncShrinks(samples[i], Gain((i - f.start) / f.channels, f.frames));
    }
  }

  /** y is x * m / n, rounded towards zero. */
  predicate RoundedShare(y: int, x: int, m: int, n: int) {
    && (x >= 0 ==> y * n <= x * m < y * n + n)
    && (x <= 0 ==> y * n - n < x * m <= y * n)
  }

  /** The fade is linear: of n frames, frame j keeps (n - 1 - j) / n of a sample, rounded
      towards zero. */
  lemma FadeIsLinear(samples: seq<int>, f: Fade, j: nat, channel: nat)
    requires f.Valid() && j < f.frames && channel < f.channels
    requires FrameBase(f, j) + channel < |samples|
    ensures var n, x := f.frames, samples[FrameBase(f, j) + channel];
            var y := Faded(samples, f)[FrameBase(f, j) + channel];
            RoundedShare(y, x, n - 1 - j, n)
  {
    hide Gain, FadedSample, Trunc, FrameBase, RoundedShare;
    var n, x := f.frames, samples[FrameBase(f, j) + channel];
    FadedAt(x, j, channel, f);
    GainIs(j, n);
    TruncOfShare(x, Gain(j, n), n, n - 1 - j);
  }

  lemma GainIs(j: nat, n: nat)
    requires j < n
    ensures Gain(j, n) >= 0.0 && Gain(j, n) * n as real == (n - 1 - j) as real
  {
    var q := (j + 1) as real / n as real;
    assert q * n as real == (j + 1) as real;
    assert (1.0 - q) * n as real == n as real - q * n as real;
    assert q <= 1.0;
  }

  lemma TruncOfShare(x: int, gain: real, n: nat, m: nat)
    requires n > 0 && gain >= 0.0 && gain * n as real == m as real
    ensures RoundedShare(Attenuated(x, gain), x, m, n)
  {
    hide Trunc, Mul;
    var v := x as real * gain;
    ShareTimes(x, gain, n, m);
    TruncTowardsZero(v);
    SameSign(x, gain);
    if x >= 0 { FloorOfShare(Trunc(v), v, n, x * m); }
    if x <= 0 { CeilingOfShare(Trunc(v), v, n, x * m); }
  }

  lemma TruncTowardsZero(v: real)
    ensures v >= 0.0 ==> Trunc(v) as real <= v < (Trunc(v) + 1) as real
    ensures v <= 0.0 ==> (Trunc(v) - 1) as real < v <= Trunc(v) as real
  {
  }

  lemma SameSign(x: int, gain: real)
    requires gain >= 0.0
    ensures x >= 0 ==> x as real * gain >= 0.0
    ensures x <= 0 ==> x as real * gain <= 0.0
  {
  }

  lemma ShareTimes(x: int, gain: real, n: nat, m: int)
    requires gain * n as real == m as real
    ensures Mul(x as real * gain, n as real) == (x * m) as real
  {
    var v, p := x as real * gain, x as real * m as real;
    assert v * n as real == x as real * (gain * n as real) == p;
    assert p == (x * m) as real;
  }

  function Mul(a: real, b: real): real { a * b }

  lemma FloorOfShare(y: int, v: real, n: nat, p: int)
    requires n > 0 && y as real <= v < (y + 1) as real && Mul(v, n as real) == p as real
    ensures y * n <= p < y * n + n
  {
    hide Mul;
    MulGrows(y as real, v, n as real);
    MulGrows(v, y as real + 1.0, n as real);
    MulFacts(y as real, n as real);
    IntProduct(y, n);
  }

  lemma CeilingOfShare(y: int, v: real, n: nat, p: int)
    requires n > 0 && (y - 1) as real < v <= y as real && Mul(v, n as real) == p as real
    ensures y * n - n < p <= y * n
  {
    hide Mul;
    MulFacts(v, n as real);
    FloorOfShare(-y, -v, n, -p);
    assert -y * n == -(y * n);
  }

  lemma MulGrows(a: real, b: real, d: real)
    requires d > 0.0
    ensures a <= b ==> Mul(a, d) <= Mul(b, d)
    ensures a < b ==> Mul(a, d) < Mul(b, d)
  {
    var step := b - a;
    assert Mul(b, d) == Mul(a, d) + Mul(step, d);
    assert step > 0.0 ==> Mul(step, d) > 0.0;
  }

  lemma MulFacts(a: real, d: real)
    ensures Mul(a + 1.0, d) == Mul(a, d) + d
    ensures Mul(-a, d) == -Mul(a, d)
  {
  }

  lemma IntProduct(y: int, n: int)
    ensures (y * n) as real == Mul(y as real, n as real)
  {
  }

  /** How far a fade reaches into a file of whole frames: over its own frames or the whole
      file, up to the last sample. */
  lemma FadeExtent(samples: nat, channelCount: nat, frameRate: nat, fadeMs: real)
    requires samples >= 1 && samples % Max(1, channelCount) == 0
    ensures var f := FadeOf(samples, channelCount, frameRate, fadeMs);
            && f.channels == Max(1, channelCount)
            && f.frames == Min(FadeFrames(frameRate, fadeMs), samples / f.channels)
            && f.start + f.frames * f.channels == samples
  {
    hide FadeFrames;
    var c, n := Max(1, channelCount), FadeFrames(frameRate, fadeMs);
    var frames := FadeSpansFrames(samples, channelCount, frameRate, fadeMs);
    assert samples / c * c == samples;
    if samples / c < n { Below(samples / c, n, c); }
    if n < samples / c { Below(n, samples / c, c); }
    FrameOf(n, 0, c);
  }

  /** The last frame is silent after the fade of a file of whole frames. */
  lemma FadeSilencesLastFrame(samples: seq<int>, channelCount: nat, frameRate: nat, fadeMs: real, i: nat)
    requires |samples| % Max(1, channelCount) == 0
    requires |samples| - Max(1, channelCount) <= i < |samples|
    ensures Faded(samples, FadeOf(|samples|, channelCount, frameRate, fadeMs))[i] == 0
  {
    hide FadeFrames;
    var c := Max(1, channelCount);
    var f := FadeOf(|samples|, channelCount, frameRate, fadeMs);
    var frames := FadeSpansFrames(|samples|, channelCount, frameRate, fadeMs);
    var channel := i - (|samples| - c);
    FrameBaseNext(f, frames - 1);
    FadedAt(samples[i], frames - 1, channel, f);
    GainRange(frames - 1, frames);
    ZeroTrunc(samples[i]);
  }

  lemma ZeroTrunc(x: int)
    ensures Trunc(x as real * 0.0) == 0
  {
  }

  /** The fade of a non-empty file of whole frames ends exactly at the end of the file. */
  lemma FadeSpansFrames(samples: nat, channelCount: nat, frameRate: nat, fadeMs: real) returns (frames: nat)
    requires samples % Max(1, channelCount) == 0 && samples >= 1
    ensures var f := FadeOf(samples, channelCount, frameRate, fadeMs);
            frames == f.frames && frames >= 1 && FrameBase(f, frames) == samples
  {
    hide FadeFrames;
    var c := Max(1, channelCount);
    frames := FadeOf(samples, channelCount, frameRate, fadeMs).frames;
    WholeFrames(samples, FadeFrames(frameRate, fadeMs), c);
  }

  /** The shorter of a file of whole frames and a fade of whole frames is whole frames. */
  lemma WholeFrames(samples: nat, fadeFrames: nat, c: nat)
    requires c >= 1 && samples % c == 0 && samples >= 1 && fadeFrames >= 1
    ensures var n := Min(samples, fadeFrames * c); n >= 1 && n / c >= 1 && n / c * c == n
  {
    if samples <= fadeFrames * c {
      assert samples / c * c == samples;
    } else {
      FrameOf(fadeFrames, 0, c);
      Below(0, fadeFrames, c);
    }
  }

  function Energy(samples: seq<int>): nat {
    if samples == [] then 0 else Energy(Init(samples)) + Square(Last(samples))
  }

  function Square(x: int): nat
  {
    assert x * x >= 0;
    x * x
  }

  /** Energy is the sum of the squares. */
  lemma {:induction false} EnergyConcat(a: seq<int>, b: seq<int>)
    ensures Energy(a + b) == Energy(a) + Energy(b)
    ensures |b| == 1 ==> Energy(b) == b[0] * b[0]
  {
    if b == [] {
      assert a + b == a;
    } else {
      EnergyConcat(a, Init(b));
      assert Init(a + b) == a + Init(b) && Last(a + b) == Last(b);
    }
  }

  lemma SmallerSquare(x: int, y: int)
    requires (x >= 0 ==> 0 <= y <= x) && (x <= 0 ==> x <= y <= 0)
    ensures Square(y) <= Square(x)
  {
    var a, b := if x >= 0 then x else -x, if y >= 0 then y else -y;
    Scaled(b, a, a);
    Scaled(b, a, b);
    assert Square(x) == a * a && Square(y) == b * b;
  }

  lemma Scaled(a: int, b: int, c: int)
    requires a <= b && c >= 0
    ensures a * c <= b * c && c * a <= c * b
  {
    assert b * c - a * c == (b - a) * c;
    NonNegativeProduct(b - a, c);
  }

  /** The energy of any stretch of samples does not rise under a fade. */
  lemma {:induction false} FadeEnergy(samples: seq<int>, f: Fade, a: nat, b: nat)
    requires f.Valid() && a <= b <= |samples|
    ensures Energy(Faded(samples, f)[a..b]) <= Energy(samples[a..b])
    decreases b
  {
    if a < b {
      FadeEnergy(samples, f, a, b - 1);
      FadeShrinks(samples, f, b - 1);
      SmallerSquare(samples[b - 1], Faded(samples, f)[b - 1]);
      assert Init(samples[a..b]) == samples[a..b - 1];
      assert Init(Faded(samples, f)[a..b]) == Faded(samples, f)[a..b - 1];
    }
  }

  // ---------------------------------------------------------------- repair_loud_boundary_tails

  datatype Wav = Wav(samples: seq<int>, channels: nat, frameRate: nat)

  datatype RepairArgs = RepairArgs(
    enabled: bool,
    joinWindowMs: real,
    maxTailDbfs: real,
    fadeMs: real)

  /** Loudness of a stretch as a function of its energy and length (`rms_dbfs`):
      with the same length, more energy is not quieter. */
  ghost predicate IsLoudness(dbfs: (nat, nat) -> real) {
    forall e, e', n :: e <= e' ==> dbfs(e, n) <= dbfs(e', n)
  }

  function WindowSize(wav: Wav, windowMs: real): nat {
    Max(1, Trunc(SamplesIn(wav.frameRate, MaxReal(windowMs, 1.0))))
  }

  /** `samples[-window:]`. */
  function TailOf(wav: Wav, windowMs: real): seq<int> {
    var n := WindowSize(wav, windowMs);
    if |wav.samples| <= n then wav.samples else wav.samples[|wav.samples| - n..]
  }

  function TailDbfs(wav: Wav, windowMs: real, dbfs: (nat, nat) -> real): real {
    dbfs(Energy(TailOf(wav, windowMs)), |TailOf(wav, windowMs)|)
  }

  function FadedWav(wav: Wav, fadeMs: real): Wav {
    wav.(samples := Faded(wav.samples, FadeOf(|wav.samples|, wav.channels, wav.frameRate, fadeMs)))
  }

  predicate RepairRuns(parts: seq<Wav>, args: RepairArgs) {
    args.enabled && |parts| >= 2 && args.fadeMs > 0.0
  }

  predicate LoudTail(wav: Wav, args: RepairArgs, dbfs: (nat, nat) -> real) {
    TailDbfs(wav, args.joinWindowMs, dbfs) > args.maxTailDbfs
  }

  /** Every part but the last is faded when its tail is too loud. */
  function Repaired(parts: seq<Wav>, args: RepairArgs, dbfs: (nat, nat) -> real): (r: seq<Wav>)
    ensures |r| == |parts|
  {
    if !RepairRuns(parts, args) then parts
    else
      seq(|parts|, i requires 0 <= i < |parts| =>
        if i < |parts| - 1 && LoudTail(parts[i], args, dbfs) then FadedWav(parts[i], args.fadeMs) else parts[i])
  }

  method FadeWav(wav: Wav, fadeMs: real) returns (faded: Wav)
    ensures faded == FadedWav(wav, fadeMs)
  {
    var samples := new int[|wav.samples|](i requires 0 <= i < |wav.samples| => wav.samples[i]);
    assert samples[..] == wav.samples;
    FadeTail(samples, wav.channels, wav.frameRate, fadeMs);
    faded := wav.(samples := samples[..]);
  }

  method RepairLoudBoundaryTails(parts: seq<Wav>, args: RepairArgs, dbfs: (nat, nat) -> real)
    returns (repaired: seq<Wav>, indices: seq<nat>)
    ensures repaired == Repaired(parts, args, dbfs)
    ensures forall i :: i in indices <==>
              RepairRuns(parts, args) && 1 <= i < |parts| && LoudTail(parts[i - 1], args, dbfs)
  {
    hide LoudTail, FadedWav;
    repaired, indices := parts, [];
    if !args.enabled || |parts| < 2 || args.fadeMs <= 0.0 { return; }
    for index := 0 to |parts| - 1
      invariant |repaired| == |parts|
      invariant forall k :: 0 <= k < |parts| ==>
                  repaired[k] == if k < index && LoudTail(parts[k], args, dbfs)
                                 then FadedWav(parts[k], args.fadeMs) else parts[k]
      invariant forall i :: i in indices <==> 1 <= i <= index && LoudTail(parts[i - 1], args, dbfs)
    {
      if !LoudTail(parts[index], args, dbfs) { continue; }
      var faded := FadeWav(parts[index], args.fadeMs);
      repaired := repaired[index := faded];
      indices := indices + [index + 1];
    }
  }

  /** Frames of all parts together; the join pauses are planned with this number. */
  function TotalSamples(parts: seq<Wav>): nat {
    if parts == [] then 0 else TotalSamples(Init(parts)) + |Last(parts).samples|
  }

  lemma {:induction false} TotalSamplesConcat(a: seq<Wav>, b: seq<Wav>)
    ensures TotalSamples(a + b) == TotalSamples(a) + TotalSamples(b)
    ensures |b| == 1 ==> TotalSamples(b) == |b[0].samples|
  {
    if b == [] {
      assert a + b == a;
    } else {
      TotalSamplesConcat(a, Init(b));
      assert Init(a + b) == a + Init(b) && Last(a + b) == Last(b);
    }
  }

  lemma {:induction false} SameLengthsSameTotal(a: seq<Wav>, b: seq<Wav>)
    requires |a| == |b| && forall i :: 0 <= i < |a| ==> |a[i].samples| == |b[i].samples|
    ensures TotalSamples(a) == TotalSamples(b)
  {
    if a != [] {
      assert |a[|a| - 1].samples| == |b[|b| - 1].samples|;
      SameLengthsSameTotal(Init(a), Init(b));
    }
  }

  lemma TailNotLouder(wav: Wav, args: RepairArgs, dbfs: (nat, nat) -> real)
    requires IsLoudness(dbfs)
    ensures TailDbfs(FadedWav(wav, args.fadeMs), args.joinWindowMs, dbfs) <= TailDbfs(wav, args.joinWindowMs, dbfs)
  {
    hide Trunc, Energy, FadeOf, FadedSample;
    var faded := FadedWav(wav, args.fadeMs);
    var f := FadeOf(|wav.samples|, wav.channels, wav.frameRate, args.fadeMs);
    var n := |wav.samples|;
    var from := if n <= WindowSize(wav, args.joinWindowMs) then 0 else n - WindowSize(wav, args.joinWindowMs);
    FadeEnergy(wav.samples, f, from, n);
    assert TailOf(wav, args.joinWindowMs) == wav.samples[from..n];
    assert TailOf(faded, args.joinWindowMs) == faded.samples[from..n];
  }

  /** The repair keeps every part's length, the last part, and every part with a quiet
      tail as they are, and makes no tail louder: durations measured before the repair
      stay valid. */
  lemma RepairSoftensTails(parts: seq<Wav>, args: RepairArgs, dbfs: (nat, nat) -> real)
    requires IsLoudness(dbfs)
    ensures var r := Repaired(parts, args, dbfs);
            && TotalSamples(r) == TotalSamples(parts)
            && (parts != [] ==> Last(r) == Last(parts))
            && (forall i :: 0 <= i < |parts| ==>
                  && |r[i].samples| == |parts[i].samples|
                  && TailDbfs(r[i], args.joinWindowMs, dbfs) <= TailDbfs(parts[i], args.joinWindowMs, dbfs)
                  && (LoudTail(r[i], args, dbfs) ==> LoudTail(parts[i], args, dbfs))
                  && (TailDbfs(parts[i], args.joinWindowMs, dbfs) <= args.maxTailDbfs ==> r[i] == parts[i])
                  && (args.enabled && args.fadeMs > 0.0 && i < |parts| - 1
                      && TailDbfs(parts[i], args.joinWindowMs, dbfs) > args.maxTailDbfs ==>
                        r[i] == FadedWav(parts[i], args.fadeMs)))
            && (!args.enabled || args.fadeMs <= 0.0 ==> r == parts)
  {
    hide TailDbfs, FadedWav;
    var r := Repaired(parts, args, dbfs);
    forall i | 0 <= i < |parts|
      ensures |r[i].samples| == |parts[i].samples|
      ensures TailDbfs(r[i], args.joinWindowMs, dbfs) <= TailDbfs(parts[i], args.joinWindowMs, dbfs)
    {
      TailNotLouder(parts[i], args, dbfs);
      FadedLength(parts[i], args.fadeMs);
    }
    SameLengthsSameTotal(r, parts);
  }

  lemma FadedLength(wav: Wav, fadeMs: real)
    ensures |FadedWav(wav, fadeMs).samples| == |wav.samples|
  {
  }

  // ---------------------------------------------------------------- the join checks

  /** `samples[:window]`. */
  function HeadOf(wav: Wav, windowMs: real): seq<int> {
    wav.samples[..Min(WindowSize(wav, windowMs), |wav.samples|)]
  }

  function HeadDbfs(wav: Wav, windowMs: real, dbfs: (nat, nat) -> real): real {
    dbfs(Energy(HeadOf(wav, windowMs)), |HeadOf(wav, windowMs)|)
  }

  /** n is the number of whole samples in a time, or 1 if there is none. */
  predicate WholeSamples(n: nat, rate: nat, ms: real) {
    var exact := rate as real * ms / 1000.0;
    if exact < 1.0 then n == 1 else n as real <= exact < (n + 1) as real
  }

  lemma SamplesMeasured(rate: nat, ms: real)
    requires ms >= 1.0
    ensures WholeSamples(Max(1, Trunc(SamplesIn(rate, ms))), rate, ms)
  {
    assert SamplesIn(rate, ms) >= 0.0;
  }

  /** A join window has the whole samples of its time, which is at least 1 ms. */
  lemma WindowMeasured(wav: Wav, windowMs: real)
    ensures WholeSamples(WindowSize(wav, windowMs), wav.frameRate, if windowMs < 1.0 then 1.0 else windowMs)
  {
    hide Trunc, SamplesIn, WholeSamples;
    SamplesMeasured(wav.frameRate, if windowMs < 1.0 then 1.0 else windowMs);
  }

  /** And so has a fade. */
  lemma FadeMeasured(frameRate: nat, fadeMs: real)
    ensures WholeSamples(FadeFrames(frameRate, fadeMs), frameRate, if fadeMs < 1.0 then 1.0 else fadeMs)
  {
    hide Trunc, SamplesIn, WholeSamples;
    SamplesMeasured(frameRate, if fadeMs < 1.0 then 1.0 else fadeMs);
  }

  /** Tail and head are the last and the first samples of the join window. */
  lemma TailAndHead(wav: Wav, windowMs: real) returns (n: nat)
    ensures WholeSamples(n, wav.frameRate, if windowMs < 1.0 then 1.0 else windowMs)
    ensures |TailOf(wav, windowMs)| == |HeadOf(wav, windowMs)| == Min(n, |wav.samples|)
    ensures HeadOf(wav, windowMs) <= wav.samples
    ensures TailOf(wav, windowMs) == wav.samples[|wav.samples| - |TailOf(wav, windowMs)|..]
  {
    hide WindowSize, WholeSamples;
    n := WindowSize(wav, windowMs);
    WindowMeasured(wav, windowMs);
  }

  /** `edge_rms_jump_db` of a join: the level difference between its two sides. */
  function Jump(before: Wav, after: Wav, windowMs: real, dbfs: (nat, nat) -> real): real {
    var d := TailDbfs(before, windowMs, dbfs) - HeadDbfs(after, windowMs, dbfs);
    if d < 0.0 then -d else d
  }

  /** The sides of join j differ by more than the limit. */
  predicate JumpsFar(parts: seq<Wav>, j: nat, maxJump: real, args: RepairArgs, dbfs: (nat, nat) -> real)
    requires j + 1 < |parts|
  {
    Jump(parts[j], parts[j + 1], args.joinWindowMs, dbfs) > maxJump
  }

  /** `large_edge_rms_jump`: some join has next to no pause and some join jumps too far. */
  ghost predicate LargeJump(parts: seq<Wav>, pauses: seq<real>, maxJump: real, args: RepairArgs,
                            dbfs: (nat, nat) -> real) {
    && (exists i :: 0 <= i < |pauses| && pauses[i] <= 0.02)
    && (exists j :: 0 <= j < |parts| - 1 && JumpsFar(parts, j, maxJump, args, dbfs))
  }

  /** `loud_pre_join_tail`: some part before a join ends too loud. */
  ghost predicate LoudJoin(parts: seq<Wav>, args: RepairArgs, dbfs: (nat, nat) -> real) {
    exists i :: 0 <= i < |parts| - 1 && LoudTail(parts[i], args, dbfs)
  }

  function FadeStart(wav: Wav, args: RepairArgs): nat {
    FadeOf(|wav.samples|, wav.channels, wav.frameRate, args.fadeMs).start
  }

  /** The fade of a part reaches into the window its head is measured in. */
  predicate FadeReachesHead(wav: Wav, args: RepairArgs) {
    WindowSize(wav, args.joinWindowMs) > FadeStart(wav, args)
  }

  lemma HeadAfterFade(wav: Wav, args: RepairArgs, dbfs: (nat, nat) -> real)
    requires IsLoudness(dbfs)
    ensures HeadDbfs(FadedWav(wav, args.fadeMs), args.joinWindowMs, dbfs) <= HeadDbfs(wav, args.joinWindowMs, dbfs)
    ensures !FadeReachesHead(wav, args) ==>
              HeadDbfs(FadedWav(wav, args.fadeMs), args.joinWindowMs, dbfs) == HeadDbfs(wav, args.joinWindowMs, dbfs)
  {
    hide Trunc, Energy, FadeOf, FadedSample;
    var faded := FadedWav(wav, args.fadeMs);
    var f := FadeOf(|wav.samples|, wav.channels, wav.frameRate, args.fadeMs);
    var n := Min(WindowSize(wav, args.joinWindowMs), |wav.samples|);
    FadeEnergy(wav.samples, f, 0, n);
    assert HeadOf(wav, args.joinWindowMs) == wav.samples[0..n];
    assert HeadOf(faded, args.joinWindowMs) == faded.samples[0..n];
    if !FadeReachesHead(wav, args) {
      forall i | 0 <= i < n ensures faded.samples[i] == wav.samples[i] { FadeShrinks(wav.samples, f, i); }
      assert faded.samples[0..n] == wav.samples[0..n];
    }
  }

  /** Join j jumps too far because fading made the tail before it too quiet. */
  ghost predicate TailTooQuiet(parts: seq<Wav>, j: nat, maxJump: real, args: RepairArgs, dbfs: (nat, nat) -> real)
    requires j + 1 < |parts|
  {
    && LoudTail(parts[j], args, dbfs)
    && HeadDbfs(Repaired(parts, args, dbfs)[j + 1], args.joinWindowMs, dbfs)
       - TailDbfs(FadedWav(parts[j], args.fadeMs), args.joinWindowMs, dbfs) > maxJump
  }

  /** It does because fading reached and softened the head after it. */
  ghost predicate HeadTooQuiet(parts: seq<Wav>, j: nat, maxJump: real, args: RepairArgs, dbfs: (nat, nat) -> real)
    requires j + 1 < |parts|
  {
    && j + 2 < |parts| && LoudTail(parts[j + 1], args, dbfs) && FadeReachesHead(parts[j + 1], args)
    && TailDbfs(Repaired(parts, args, dbfs)[j], args.joinWindowMs, dbfs)
       - HeadDbfs(FadedWav(parts[j + 1], args.fadeMs), args.joinWindowMs, dbfs) > maxJump
  }

  /** One join: if it passed, it fails after the repair in just these two ways. */
  lemma JumpAfterRepair(parts: seq<Wav>, j: nat, maxJump: real, args: RepairArgs, dbfs: (nat, nat) -> real)
    requires IsLoudness(dbfs) && RepairRuns(parts, args) && j + 1 < |parts|
    requires !JumpsFar(parts, j, maxJump, args, dbfs)
    ensures var r := Repaired(parts, args, dbfs);
            JumpsFar(r, j, maxJump, args, dbfs) <==>
              TailTooQuiet(parts, j, maxJump, args, dbfs) || HeadTooQuiet(parts, j, maxJump, args, dbfs)
  {
    hide TailDbfs, HeadDbfs, FadedWav, LoudTail, FadeReachesHead;
    TailNotLouder(parts[j], args, dbfs);
    HeadAfterFade(parts[j + 1], args, dbfs);
  }

  /** What the repair does to the join checks. Parts whose tail is quiet are not touched,
      so the loud-tail check never newly fails. The jump check, if it passed, fails
      afterwards if and only if some pause is at most 20 ms and some loud tail was faded to
      more than the limit below the head after it, or the fade of a part reached its own
      head and left it that far below the tail before. */
  lemma JoinChecksAfterRepair(parts: seq<Wav>, pauses: seq<real>, maxJump: real, args: RepairArgs,
                              dbfs: (nat, nat) -> real)
    requires IsLoudness(dbfs)
    ensures var r := Repaired(parts, args, dbfs);
            && (LoudJoin(r, args, dbfs) ==> LoudJoin(parts, args, dbfs))
            && (!LoudJoin(parts, args, dbfs) ==> r == parts)
            && (!LargeJump(parts, pauses, maxJump, args, dbfs) ==>
                  (LargeJump(r, pauses, maxJump, args, dbfs) <==>
                     && RepairRuns(parts, args)
                     && (exists i :: 0 <= i < |pauses| && pauses[i] <= 0.02)
                     && exists j :: 0 <= j < |parts| - 1
                          && (TailTooQuiet(parts, j, maxJump, args, dbfs)
                              || HeadTooQuiet(parts, j, maxJump, args, dbfs))))
  {
    hide TailDbfs, FadedWav, Jump, LoudTail, TailTooQuiet, HeadTooQuiet;
    var r := Repaired(parts, args, dbfs);
    RepairSoftensTails(parts, args, dbfs);
    if RepairRuns(parts, args) && !LargeJump(parts, pauses, maxJump, args, dbfs)
       && exists i :: 0 <= i < |pauses| && pauses[i] <= 0.02 {
      forall j | 0 <= j < |parts| - 1
        ensures JumpsFar(r, j, maxJump, args, dbfs) <==>
                  TailTooQuiet(parts, j, maxJump, args, dbfs) || HeadTooQuiet(parts, j, maxJump, args, dbfs)
      {
        assert !JumpsFar(parts, j, maxJump, args, dbfs);
        JumpAfterRepair(parts, j, maxJump, args, dbfs);
      }
    }
  }

  /** When no fade reaches a head, as in parts at least as long as fade and window together,
      a jump can open in one way only: a loud tail is faded too far below the next head. */
  lemma OnlyTailsOpenJumps(parts: seq<Wav>, pauses: seq<real>, maxJump: real, args: RepairArgs,
                           dbfs: (nat, nat) -> real)
    requires IsLoudness(dbfs) && RepairRuns(parts, args)
    requires forall i :: 0 <= i < |parts| ==> !FadeReachesHead(parts[i], args)
    requires !LargeJump(parts, pauses, maxJump, args, dbfs)
    ensures LargeJump(Repaired(parts, args, dbfs), pauses, maxJump, args, dbfs) <==>
              && (exists i :: 0 <= i < |pauses| && pauses[i] <= 0.02)
              && exists j :: 0 <= j < |parts| - 1 && FadesBelow(parts[j], parts[j + 1], maxJump, args, dbfs)
  {
    hide TailDbfs, HeadDbfs, FadedWav, LoudTail, LargeJump, FadeReachesHead, TailTooQuiet, HeadTooQuiet, FadesBelow;
    JoinChecksAfterRepair(parts, pauses, maxJump, args, dbfs);
    forall j | 0 <= j < |parts| - 1
      ensures !HeadTooQuiet(parts, j, maxJump, args, dbfs)
      ensures TailTooQuiet(parts, j, maxJump, args, dbfs)
              <==> FadesBelow(parts[j], parts[j + 1], maxJump, args, dbfs)
    {
      HeadsStay(parts, j, maxJump, args, dbfs);
    }
    if j :| 0 <= j < |parts| - 1 && FadesBelow(parts[j], parts[j + 1], maxJump, args, dbfs) {
      assert TailTooQuiet(parts, j, maxJump, args, dbfs);
    }
    if j :| 0 <= j < |parts| - 1
            && (TailTooQuiet(parts, j, maxJump, args, dbfs) || HeadTooQuiet(parts, j, maxJump, args, dbfs)) {
      assert FadesBelow(parts[j], parts[j + 1], maxJump, args, dbfs);
    }
  }

  /** A loud tail that its fade takes more than the limit below the head of the next part. */
  ghost predicate FadesBelow(part: Wav, next: Wav, maxJump: real, args: RepairArgs, dbfs: (nat, nat) -> real) {
    && LoudTail(part, args, dbfs)
    && HeadDbfs(next, args.joinWindowMs, dbfs)
       - TailDbfs(FadedWav(part, args.fadeMs), args.joinWindowMs, dbfs) > maxJump
  }

  lemma HeadsStay(parts: seq<Wav>, j: nat, maxJump: real, args: RepairArgs, dbfs: (nat, nat) -> real)
    requires IsLoudness(dbfs) && RepairRuns(parts, args) && j + 1 < |parts|
    requires !FadeReachesHead(parts[j + 1], args)
    ensures !HeadTooQuiet(parts, j, maxJump, args, dbfs)
    ensures TailTooQuiet(parts, j, maxJump, args, dbfs)
            <==> FadesBelow(parts[j], parts[j + 1], maxJump, args, dbfs)
  {
    hide TailDbfs, HeadDbfs, FadedWav, LoudTail, FadeReachesHead;
    HeadAfterFade(parts[j + 1], args, dbfs);
  }

  /** Two equally loud parts without a pause: fading the tail of the first opens a gap of
      more than the default 16 dB to the second. One sample of 100 is at about -50 dB of
      the full scale of 16 bits, and silence counts as -120 dB. */
  lemma RepairCanOpenJump(dbfs: (nat, nat) -> real)
    requires IsLoudness(dbfs) && dbfs(0, 1) == -120.0 && -51.0 <= dbfs(10000, 1) <= -50.0
    ensures var args := RepairArgs(true, 1.0, -60.0, 1.0);
            var part := Wav([100], 1, 1000);
            && !LargeJump([part, part], [0.0], 16.0, args, dbfs)
            && LargeJump(Repaired([part, part], args, dbfs), [0.0], 16.0, args, dbfs)
  {
    var args := RepairArgs(true, 1.0, -60.0, 1.0);
    var part := Wav([100], 1, 1000);
    assert FadeFrames(1000, 1.0) == 1 && WindowSize(part, 1.0) == 1;
    EnergyOfOne(100);
    EnergyOfOne(0);
    var faded := FadedWav(part, 1.0);
    assert faded.samples[0] == FadedSample(100, 0, Fade(0, 1, 1)) == 0;
    assert faded.samples == [0];
    assert TailOf(part, 1.0) == HeadOf(part, 1.0) == [100] && TailOf(faded, 1.0) == [0];
    var repaired := Repaired([part, part], args, dbfs);
    assert LoudTail(part, args, dbfs);
    assert repaired == [faded, part];
    assert Jump(part, part, 1.0, dbfs) == 0.0;
    assert Jump(repaired[0], repaired[1], 1.0, dbfs) >= 69.0;
    assert JumpsFar(repaired, 0, 16.0, args, dbfs);
    assert [0.0][0] <= 0.02;
  }

  lemma EnergyOfOne(x: int)
    ensures Energy([x]) == x * x
  {
    assert Init([x]) == [];
  }

  // ---------------------------------------------------------------- distributing silence

  function SumReal(xs: seq<real>): real {
    if xs == [] then 0.0 else SumReal(Init(xs)) + Last(xs)
  }

  lemma {:induction false} SumOfEqual(xs: seq<real>, x: real)
    requires forall i :: 0 <= i < |xs| ==> xs[i] == x
    ensures SumReal(xs) == |xs| as real * x
  {
    if xs != [] {
      assert xs[|xs| - 1] == x;
      SumOfEqual(Init(xs), x);
      assert (|xs| - 1) as real * x + x == |xs| as real * x;
    }
  }

  datatype PaddingArgs = PaddingArgs(distribute: bool, maxExtraSec: real)

  datatype Padding = Padding(pauses: seq<real>, extra: real, unapplied: real)

  /** The pause part of `assemble_row`. Padding happens when it is asked for, there is a join,
      and the result is too short. Then the assembled duration plus what could not be
      applied is the target; pauses stay within the allowed extra; something is left
      unapplied exactly when the missing time exceeds what all joins together may take,
      and then every join is at its maximum. */
  method DistributeSilence(joins: nat, pauseSec: real, partsSec: real, targetSec: real, args: PaddingArgs)
    returns (p: Padding)
    ensures |p.pauses| == joins
    ensures !(args.distribute && joins > 0 && args.maxExtraSec > 0.0
              && targetSec > partsSec + joins as real * pauseSec) ==>
              p.extra == 0.0 && p.unapplied == 0.0 && forall i :: 0 <= i < joins ==> p.pauses[i] == pauseSec
    ensures args.distribute && joins > 0 && args.maxExtraSec > 0.0
            && targetSec > partsSec + joins as real * pauseSec ==>
              && partsSec + SumReal(p.pauses) + p.unapplied == targetSec
              && partsSec + joins as real * pauseSec + p.extra + p.unapplied == targetSec
              && p.extra > 0.0 && p.unapplied >= 0.0
              && (forall i :: 0 <= i < joins ==> pauseSec < p.pauses[i] <= pauseSec + args.maxExtraSec)
              && (p.unapplied > 0.0 <==>
                    targetSec - (partsSec + joins as real * pauseSec) > joins as real * args.maxExtraSec)
              && (p.unapplied > 0.0 ==> forall i :: 0 <= i < joins ==> p.pauses[i] == pauseSec + args.maxExtraSec)
  {
    hide MinReal, SumReal;
    var base := seq(joins, _ => pauseSec);
    SumOfEqual(base, pauseSec);
    var fixedSec := partsSec + SumReal(base);
    p := Padding(base, 0.0, 0.0);
    if args.distribute && base != [] && args.maxExtraSec > 0.0 && targetSec > fixedSec {
      var missing := targetSec - fixedSec;
      var perJoin := MinReal(args.maxExtraSec, missing / |base| as real);
      ShareOf(missing, joins, args.maxExtraSec);
      var pauses := seq(joins, i requires 0 <= i < joins => base[i] + perJoin);
      SumOfEqual(pauses, pauseSec + perJoin);
      RealDistribute(joins as real, pauseSec, perJoin);
      var extra := perJoin * |pauses| as real;
      p := Padding(pauses, extra, MaxReal(0.0, missing - extra));
    }
  }

  lemma RealDistribute(j: real, a: real, b: real)
    ensures j * (a + b) == j * a + j * b && b * j == j * b
  {
  }

  lemma ShareOf(missing: real, joins: nat, most: real)
    requires missing > 0.0 && joins > 0 && most > 0.0
    ensures var share := MinReal(most, missing / joins as real);
            && 0.0 < share <= most
            && 0.0 < share * joins as real <= missing
            && (share * joins as real < missing <==> missing > joins as real * most)
            && (share * joins as real < missing ==> share == most)
  {
  }
}
