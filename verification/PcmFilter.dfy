/** Fast-forward by sub-sampling: one sample of `align` bytes is kept, the next `gap` bytes are dropped,
    and so on, over a stream that arrives in pieces. */
module PcmFilter {
  import opened Common

  /** What is carried from one audio buffer to the next: the size of a partly copied sample, and the
      number of bytes still to be dropped. */
  datatype Phase = Phase(npartial: nat, skip: nat)

  predicate Proper(p: Phase, align: nat) {
    p.npartial < align && (p.npartial > 0 ==> p.skip == 0)
  }

  /** The bytes to drop between samples; the field that holds it has eight bits. */
  function Gap(align: nat, rate: nat): nat
    requires rate > 0
  {
    align * (rate - 1) % 0x100
  }

  /** A sample that is just as long as what was copied of it is complete: samples were longer before. */
  function Settle(p: Phase, align: nat, gap: nat): Phase {
    if 0 < p.npartial == align then Phase(0, gap) else p
  }

  predicate Keeps(p: Phase) { p.skip == 0 }

  function Next(p: Phase, align: nat, gap: nat): Phase {
    if p.skip > 0 then p.(skip := p.skip - 1)
    else if p.npartial + 1 == align then Phase(0, gap)
    else p.(npartial := p.npartial + 1)
  }

  /** The reference: one byte at a time. */
  function Feed(p: Phase, align: nat, gap: nat, s: seq<byte>): (r: (Phase, seq<byte>))
    requires Proper(p, align)
    ensures Proper(r.0, align) && |r.1| <= |s|
    decreases |s|
  {
    if s == [] then (p, [])
    else
      var r := Feed(Next(p, align, gap), align, gap, s[1..]);
      (r.0, (if Keeps(p) then [s[0]] else []) + r.1)
  }

  lemma {:induction false} FeedConcat(p: Phase, align: nat, gap: nat, s: seq<byte>, t: seq<byte>)
    requires Proper(p, align)
    ensures var a := Feed(p, align, gap, s);
            var b := Feed(a.0, align, gap, t);
            Feed(p, align, gap, s + t) == (b.0, a.1 + b.1)
    decreases |s|
  {
    if s == [] {
      assert s + t == t;
      assert [] + Feed(p, align, gap, t).1 == Feed(p, align, gap, t).1;
    } else {
      assert (s + t)[1..] == s[1..] + t;
      FeedConcat(Next(p, align, gap), align, gap, s[1..], t);
      var head := if Keeps(p) then [s[0]] else [];
      var a := Feed(Next(p, align, gap), align, gap, s[1..]);
      var b := Feed(a.0, align, gap, t);
      assert head + (a.1 + b.1) == head + a.1 + b.1;
    }
  }

  // ----- runs of bytes that are treated alike -----

  lemma {:induction false} FeedDropped(p: Phase, align: nat, gap: nat, s: seq<byte>)
    requires Proper(p, align) && |s| <= p.skip
    ensures Feed(p, align, gap, s) == (p.(skip := p.skip - |s|), [])
    decreases |s|
  {
    if s != [] {
      FeedDropped(Next(p, align, gap), align, gap, s[1..]);
    }
  }

  /** Part or rest of a sample. */
  lemma {:induction false} FeedKept(p: Phase, align: nat, gap: nat, s: seq<byte>)
    requires Proper(p, align) && p.skip == 0 && p.npartial + |s| <= align
    ensures Feed(p, align, gap, s) ==
            (if p.npartial + |s| < align then p.(npartial := p.npartial + |s|) else Phase(0, gap), s)
    decreases |s|
  {
    if s != [] {
      if |s| > 1 {
        FeedKept(Next(p, align, gap), align, gap, s[1..]);
      }
      assert [s[0]] + s[1..] == s;
    }
  }

  // ----- streams cut into buffers -----

  /** The buffers one after the other. */
  function FeedAll(p: Phase, align: nat, gap: nat, bufs: seq<seq<byte>>): (r: (Phase, seq<byte>))
    requires Proper(p, align)
    ensures Proper(r.0, align)
    decreases |bufs|
  {
    if bufs == [] then (p, [])
    else
      var a := Feed(p, align, gap, bufs[0]);
      var b := FeedAll(a.0, align, gap, bufs[1..]);
      (b.0, a.1 + b.1)
  }

  function Flatten(bufs: seq<seq<byte>>): seq<byte> {
    if bufs == [] then [] else bufs[0] + Flatten(bufs[1..])
  }

  /** It does not matter how the stream is cut. */
  lemma {:induction false} CutAnywhere(p: Phase, align: nat, gap: nat, bufs: seq<seq<byte>>)
    requires Proper(p, align)
    ensures FeedAll(p, align, gap, bufs) == Feed(p, align, gap, Flatten(bufs))
    decreases |bufs|
  {
    if bufs != [] {
      FeedConcat(p, align, gap, bufs[0], Flatten(bufs[1..]));
      CutAnywhere(Feed(p, align, gap, bufs[0]).0, align, gap, bufs[1..]);
    }
  }

  // ----- which bytes of the stream come out -----

  /** Number of bytes kept of the first `n`. */
  function KeptOf(n: nat, align: nat, period: nat): nat
    requires 0 < align <= period
  {
    n / period * align + if n % period < align then n % period else align
  }

  /** The place in the stream of byte `k` of the output. */
  function Place(k: nat, align: nat, period: nat): nat
    requires 0 < align <= period
  {
    k / align * period + k % align
  }

  /** The phase after `n` bytes. */
  function PhaseAt(n: nat, align: nat, gap: nat): Phase
    requires align > 0
  {
    var i := n % (align + gap);
    if i < align then Phase(i, 0) else Phase(0, align + gap - i)
  }

  lemma DivMod(q: nat, r: nat, d: nat)
    requires r < d
    ensures (q * d + r) / d == q && (q * d + r) % d == r
  {
    var n := q * d + r;
    var p := n / d;
    assert n == p * d + n % d;
    Apart(p, q, d);
    Apart(q, p, d);
  }

  lemma Apart(a: nat, b: nat, d: nat)
    ensures a < b ==> a * d + d <= b * d
  {
    if a < b {
      var e := b - a - 1;
      assert e * d >= 0;
      assert b * d == (a + 1 + e) * d == a * d + d + e * d;
    }
  }

  /** One more byte. */
  lemma Successor(n: nat, d: nat)
    requires d > 0
    ensures if n % d + 1 < d then (n + 1) / d == n / d && (n + 1) % d == n % d + 1
            else (n + 1) / d == n / d + 1 && (n + 1) % d == 0
  {
    SuccessorOf(n, d, n / d, n % d);
  }

  lemma SuccessorOf(n: nat, d: nat, q: nat, r: nat)
    requires n == q * d + r && r < d
    ensures if r + 1 < d then (n + 1) / d == q && (n + 1) % d == r + 1 else (n + 1) / d == q + 1 && (n + 1) % d == 0
  {
    if r + 1 < d {
      DivMod(q, r + 1, d);
    } else {
      assert (q + 1) * d == q * d + d;
      DivMod(q + 1, 0, d);
    }
  }

  lemma FeedLast(p: Phase, align: nat, gap: nat, s: seq<byte>, b: byte)
    requires Proper(p, align)
    ensures var a := Feed(p, align, gap, s);
            Feed(p, align, gap, s + [b]) == (Next(a.0, align, gap), if Keeps(a.0) then a.1 + [b] else a.1)
  {
    FeedConcat(p, align, gap, s, [b]);
    var a := Feed(p, align, gap, s);
    FeedOne(a.0, align, gap, b);
    assert a.1 + [] == a.1;
  }

  lemma FeedOne(p: Phase, align: nat, gap: nat, b: byte)
    requires Proper(p, align)
    ensures Feed(p, align, gap, [b]) == (Next(p, align, gap), if Keeps(p) then [b] else [])
  {
    assert [b][1..] == [];
    assert [b] + [] == [b];
  }

  /** The phases follow each other. */
  lemma NextPhase(n: nat, align: nat, gap: nat)
    requires align > 0
    ensures Next(PhaseAt(n, align, gap), align, gap) == PhaseAt(n + 1, align, gap)
    ensures Keeps(PhaseAt(n, align, gap)) <==> n % (align + gap) < align
  {
    Successor(n, align + gap);
  }

  lemma KeptNext(n: nat, align: nat, period: nat)
    requires 0 < align <= period
    ensures KeptOf(n + 1, align, period) == KeptOf(n, align, period) + if n % period < align then 1 else 0
    ensures n % period < align ==> Place(KeptOf(n, align, period), align, period) == n
  {
    var q := n / period;
    assert (q + 1) * align == q * align + align;
    Successor(n, period);
    if n % period < align {
      PlaceOfKept(n, align, period);
    }
  }

  lemma PlaceOfKept(n: nat, align: nat, period: nat)
    requires 0 < align <= period && n % period < align
    ensures Place(KeptOf(n, align, period), align, period) == n
  {
    DivMod(n / period, n % period, align);
  }

  /** Which bytes come out of a stream, in closed form: byte `k` of the output is the byte of the stream at
      `Place(k)`, and after `n` bytes `KeptOf(n)` bytes have come out. */
  lemma {:induction false} Selected(align: nat, gap: nat, s: seq<byte>)
    requires align > 0
    ensures var period := align + gap;
            var r := Feed(Phase(0, 0), align, gap, s);
            && r.0 == PhaseAt(|s|, align, gap) && |r.1| == KeptOf(|s|, align, period)
            && forall k :: 0 <= k < |r.1| ==> Place(k, align, period) < |s| && r.1[k] == s[Place(k, align, period)]
    decreases |s|
  {
    hide Place, KeptOf, PhaseAt;
    if s == [] {
      NothingYet(align, gap);
    } else {
      var n := |s| - 1;
      var t := s[..n];
      assert t + [s[n]] == s;
      Selected(align, gap, t);
      FeedLast(Phase(0, 0), align, gap, t, s[n]);
      NextPhase(n, align, gap);
      KeptNext(n, align, align + gap);
    }
  }

  lemma NothingYet(align: nat, gap: nat)
    requires align > 0
    ensures PhaseAt(0, align, gap) == Phase(0, 0) && KeptOf(0, align, align + gap) == 0
  {}

  /** The places are the indices `i` with `i % period < align`, in order and without a gap. */
  lemma PlacesAreKept(n: nat, align: nat, period: nat, i: nat)
    requires 0 < align <= period && i < n
    ensures i % period < align <==> exists k: nat :: k < KeptOf(n, align, period) && Place(k, align, period) == i
  {
    hide Place, KeptOf;
    if i % period < align {
      KeptNext(i, align, period);
      KeptGrows(i + 1, n, align, period);
      assert KeptOf(i, align, period) < KeptOf(n, align, period);
    }
    if k: nat :| k < KeptOf(n, align, period) && Place(k, align, period) == i {
      PlaceKept(k, align, period);
    }
  }

  lemma PlaceKept(k: nat, align: nat, period: nat)
    requires 0 < align <= period
    ensures Place(k, align, period) % period < align
  {
    DivMod(k / align, k % align, period);
  }

  lemma {:induction false} KeptGrows(m: nat, n: nat, align: nat, period: nat)
    requires m <= n && 0 < align <= period
    ensures KeptOf(m, align, period) <= KeptOf(n, align, period)
    decreases n - m
  {
    hide KeptOf, Place;
    if m < n {
      KeptNext(n - 1, align, period);
      KeptGrows(m, n - 1, align, period);
    }
  }

  /** The period is that of one sample in `rate` exactly if the bytes to drop fit eight bits. */
  lemma PeriodExact(align: nat, rate: nat)
    requires align > 0 && rate > 0
    ensures align + Gap(align, rate) == align * rate <==> align * (rate - 1) < 0x100
  {
    assert align * rate == align * (rate - 1) + align;
  }

  /** The bytes of a stream whose index `i` has `i % period < align`. */
  function OneIn(s: seq<byte>, align: nat, period: nat): seq<byte>
    requires period > 0
  {
    if |s| == 0 then []
    else
      var n := |s| - 1;
      OneIn(s[..n], align, period) + if n % period < align then [s[n]] else []
  }

  lemma {:induction false} FedIsOneIn(align: nat, gap: nat, s: seq<byte>)
    requires align > 0
    ensures Feed(Phase(0, 0), align, gap, s) == (PhaseAt(|s|, align, gap), OneIn(s, align, align + gap))
    decreases |s|
  {
    hide PhaseAt, Keeps, Next, Feed;
    if |s| == 0 {
      NothingYet(align, gap);
      NothingFed(align, gap);
      assert s == [];
    } else {
      var n := |s| - 1;
      var t := s[..n];
      assert t + [s[n]] == s;
      FedIsOneIn(align, gap, t);
      FeedLast(Phase(0, 0), align, gap, t, s[n]);
      NextPhase(n, align, gap);
      var kept := OneIn(t, align, align + gap);
      assert OneIn(s, align, align + gap) == if n % (align + gap) < align then kept + [s[n]] else kept + [];
      assert kept + [] == kept;
    }
  }

  lemma NothingFed(align: nat, gap: nat)
    requires align > 0
    ensures Feed(Phase(0, 0), align, gap, []) == (Phase(0, 0), [])
  {}

  lemma FedAtRate(align: nat, rate: nat, s: seq<byte>)
    requires align > 0 && rate > 0 && align * (rate - 1) < 0x100
    ensures align * rate > 0
    ensures Feed(Phase(0, 0), align, Gap(align, rate), s).1 == OneIn(s, align, align * rate)
  {
    hide Feed;
    FedIsOneIn(align, Gap(align, rate), s);
    PeriodExact(align, rate);
  }

  /** At a fixed rate, and as long as the bytes to drop fit eight bits, what comes out of a stream cut into buffers
      anywhere is one sample in `rate`. */
  lemma OneSampleInRate(align: nat, rate: nat, bufs: seq<seq<byte>>)
    requires align > 0 && rate > 0 && align * (rate - 1) < 0x100
    ensures align * rate > 0
    ensures FeedAll(Phase(0, 0), align, Gap(align, rate), bufs).1 == OneIn(Flatten(bufs), align, align * rate)
  {
    CutAnywhere(Phase(0, 0), align, Gap(align, rate), bufs);
    FedAtRate(align, rate, Flatten(bufs));
  }

  /** The decoder keeps one sample in `rate` of every stream, as it should, exactly if the bytes to drop fit eight
      bits. */
  lemma RateExact(align: nat, rate: nat)
    requires align > 0 && rate > 0
    ensures align * rate > 0
    ensures (forall s :: Feed(Phase(0, 0), align, Gap(align, rate), s).1 == OneIn(s, align, align * rate))
       <==> align * (rate - 1) < 0x100
  {
    hide Feed, OneIn, Gap;
    var drop := align * (rate - 1);
    assert align * rate == drop + align;
    if drop < 0x100 {
      forall s ensures Feed(Phase(0, 0), align, Gap(align, rate), s).1 == OneIn(s, align, align * rate) {
        FedAtRate(align, rate, s);
      }
    } else {
      var s := DropsTooFew(align, rate);
    }
  }

  /** Otherwise a sample comes out that should have been dropped. */
  lemma DropsTooFew(align: nat, rate: nat) returns (s: seq<byte>)
    requires align > 0 && rate > 0 && align * (rate - 1) >= 0x100
    ensures align * rate > 0
    ensures |Feed(Phase(0, 0), align, Gap(align, rate), s).1| == |OneIn(s, align, align * rate)| + 1
  {
    hide Feed, OneIn;
    assert align * rate == align * (rate - 1) + align;
    s := TellsPeriods(align, Gap(align, rate), align * rate);
  }

  /** A stream that ends with the first byte of that sample. */
  lemma TellsPeriods(align: nat, gap: nat, meant: nat) returns (s: seq<byte>)
    requires 0 < align && align + gap < meant
    ensures |Feed(Phase(0, 0), align, gap, s).1| == |OneIn(s, align, meant)| + 1
  {
    hide Feed, OneIn;
    var n := align + gap;
    var t := seq(n, _ => 0);
    s := t + [0];
    FedIsOneIn(align, gap, s);
    SamePrefix(t, align, n, meant);
    OneInLast(t, 0, align, n);
    OneInLast(t, 0, align, meant);
    SmallRemainder(n, meant);
  }

  lemma {:induction false} SamePrefix(s: seq<byte>, align: nat, a: nat, b: nat)
    requires |s| <= a && |s| <= b && 0 < a && 0 < b
    ensures OneIn(s, align, a) == OneIn(s, align, b)
    decreases |s|
  {
    hide OneIn;
    if |s| == 0 {
      NothingIn(align, a);
      NothingIn(align, b);
    } else {
      var n := |s| - 1;
      SamePrefix(s[..n], align, a, b);
      assert s[..n] + [s[n]] == s;
      OneInLast(s[..n], s[n], align, a);
      OneInLast(s[..n], s[n], align, b);
      SmallRemainder(n, a);
      SmallRemainder(n, b);
    }
  }

  lemma NothingIn(align: nat, period: nat)
    requires period > 0
    ensures OneIn([], align, period) == []
  {}

  lemma SmallRemainder(n: nat, d: nat)
    requires n < d
    ensures n % d == n
  {}

  lemma OneInLast(s: seq<byte>, b: byte, align: nat, period: nat)
    requires period > 0
    ensures OneIn(s + [b], align, period) == OneIn(s, align, period) + if |s| % period < align then [b] else []
  {
    assert (s + [b])[..|s|] == s;
  }

  // ----- what is carried from one stream to the next -----

  lemma {:induction false} KeepsAll(p: Phase, align: nat, s: seq<byte>)
    requires Proper(p, align) && p.skip == 0
    ensures Feed(p, align, 0, s).1 == s
    decreases |s|
  {
    if s != [] {
      KeepsAll(Next(p, align, 0), align, s[1..]);
      assert [s[0]] + s[1..] == s;
    }
  }

  lemma SameAsFresh(p: Phase, align: nat, gap: nat, s: seq<byte>)
    requires Proper(p, align) && p.skip == 0 && (p.npartial == 0 || gap == 0)
    ensures Feed(p, align, gap, s).1 == Feed(Phase(0, 0), align, gap, s).1
  {
    if gap == 0 {
      KeepsAll(p, align, s);
      KeepsAll(Phase(0, 0), align, s);
    }
  }

  /** A sub-sampler that was left in the middle of a sample or of a gap does as a fresh one for every stream exactly if
      it was not, or if there are no gaps. */
  lemma FreshExact(p: Phase, align: nat, gap: nat)
    requires Proper(p, align)
    ensures (forall s :: Feed(p, align, gap, s).1 == Feed(Phase(0, 0), align, gap, s).1)
       <==> p == Phase(0, 0) || (p.skip == 0 && gap == 0)
  {
    hide Feed;
    if p.skip == 0 && (p.npartial == 0 || gap == 0) {
      forall s ensures Feed(p, align, gap, s).1 == Feed(Phase(0, 0), align, gap, s).1 {
        SameAsFresh(p, align, gap, s);
      }
    } else {
      var s := Telling(p, align, gap);
    }
  }

  /** A stream that tells a used sub-sampler from a fresh one: the rest of the sample, and one more byte. */
  lemma Telling(p: Phase, align: nat, gap: nat) returns (s: seq<byte>)
    requires Proper(p, align) && p != Phase(0, 0) && (p.skip > 0 || gap > 0)
    ensures |Feed(p, align, gap, s).1| < |Feed(Phase(0, 0), align, gap, s).1|
  {
    if p.skip > 0 {
      s := [0];
      FeedDropped(p, align, gap, s);
      FeedKept(Phase(0, 0), align, gap, s);
    } else {
      var rest := seq(align - p.npartial, _ => 0);
      s := rest + [0];
      FeedLast(p, align, gap, rest, 0);
      FeedKept(p, align, gap, rest);
      FeedKept(Phase(0, 0), align, gap, s);
    }
  }
}
