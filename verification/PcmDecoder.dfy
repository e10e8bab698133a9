/** The PCM decoder as it is: audio buffers are sub-sampled in place, a partial sample and a skip count
    are carried in eight-bit fields, and the lower driver is called on the way. */
module PcmDecoder {
  import opened Common
  import opened PcmFilter
  import opened PcmWav
  import S = PcmStream
  import opened PcmStream

  /** struct ap_buffer_s; `samp.Length` is nmaxbytes. */
  class ApBuffer {
    const samp: array<byte>
    var curbyte: nat
    var nbytes: nat
    const final: bool

    ghost predicate Valid()
      reads this
    {
      curbyte <= nbytes <= samp.Length
    }

    ghost function Data(): seq<byte>
      requires Valid()
      reads this, samp
    {
      samp[curbyte..nbytes]
    }

    constructor (bytes: array<byte>, curbyte: nat, nbytes: nat, final: bool)
      requires curbyte <= nbytes <= bytes.Length
      ensures Valid() && samp == bytes && this.curbyte == curbyte && this.nbytes == nbytes && this.final == final
    {
      samp := bytes;
      this.curbyte := curbyte;
      this.nbytes := nbytes;
      this.final := final;
    }
  }

  /** Copy `n` bytes down within the buffer, first byte first.  What is read has not been overwritten. */
  method CopyDown(samp: array<byte>, dest: nat, src: nat, n: nat)
    requires dest <= src && src + n <= samp.Length
    modifies samp
    ensures samp[..dest] == old(samp[..dest])
    ensures samp[dest..dest + n] == old(samp[src..src + n])
    ensures samp[src + n..] == old(samp[src + n..])
  {
    for i := 0 to n
      invariant samp[..dest] == old(samp[..dest])
      invariant samp[dest..dest + i] == old(samp[src..src + i])
      invariant samp[src + i..] == old(samp[src + i..])
    {
      assert samp[src + i] == samp[src + i..][0] == old(samp[src + i..])[0];
      samp[dest + i] := samp[src + i];
      assert samp[dest..dest + i + 1] == samp[dest..dest + i] + [samp[dest + i]];
      assert old(samp[src..src + i + 1]) == old(samp[src..src + i]) + [old(samp[src + i])];
      assert samp[src + i + 1..] == samp[src + i..][1..] == old(samp[src + i..])[1..];
    }
  }

  class Decoder {
    var format: Format
    var streaming: bool
    var subsample: nat
    var skip: nat
    var npartial: nat
    /** The calls made to the drivers below and above. */
    var calls: seq<Call>

    ghost function State(): S.State
      reads this
    {
      S.State(format, streaming, subsample, Phase(npartial, skip))
    }

    constructor ()
      ensures State() == S.State(Format(0, 0, 0, 0, 0), false, 0, Phase(0, 0)) && calls == []
    {
      format := Format(0, 0, 0, 0, 0);
      streaming, subsample, skip, npartial, calls := false, 0, 0, 0, [];
    }

    /** pcm_subsample_configure. */
    method SetRate(rate: nat)
      modifies this
      ensures State() == S.SetRate(old(State()), rate) && calls == old(calls)
    {
      if subsample == 0 {
        if rate != 0 {
          npartial, skip, subsample := 0, 0, rate;
        }
      } else if rate != 0 {
        subsample := rate;
      }
    }

    /** Complete the sample that the last buffer left unfinished. */
    method CompleteSample(samp: array<byte>, src: nat) returns (n: nat)
      requires 0 < npartial <= format.align && skip == 0 && subsample > 0
      requires src + (format.align - npartial) <= samp.Length
      modifies this`skip, this`npartial, samp
      ensures n == format.align - old(npartial)
      ensures Proper(Phase(npartial, skip), format.align) && npartial == 0
      ensures (Phase(npartial, skip), samp[..n]) ==
              Feed(Settle(old(Phase(npartial, skip)), format.align, Gap(format.align, subsample)),
                   format.align, Gap(format.align, subsample), old(samp[src..src + n]))
      ensures samp[src + n..] == old(samp[src + n..])
    {
      n := format.align - npartial;
      if npartial < format.align {
        FeedKept(Phase(npartial, skip), format.align, Gap(format.align, subsample), samp[src..src + n]);
      }
      CopyDown(samp, 0, src, n);
      npartial := 0;
      skip := format.align * (subsample - 1) % 0x100;
    }

    /** Drop bytes, or copy a sample or the first part of one. */
    method TakeSome(samp: array<byte>, dest: nat, src: nat, end: nat) returns (copied: nat, n: nat)
      requires dest <= src < end <= samp.Length && subsample > 0 && npartial == 0 < format.align
      modifies this`skip, this`npartial, samp
      ensures 0 < n <= end - src && copied <= n && (npartial > 0 ==> n == end - src)
      ensures Proper(Phase(npartial, skip), format.align)
      ensures samp[..dest] == old(samp[..dest]) && samp[src + n..] == old(samp[src + n..])
      ensures (Phase(npartial, skip), samp[dest..dest + copied]) ==
              Feed(old(Phase(npartial, skip)), format.align, Gap(format.align, subsample), old(samp[src..src + n]))
    {
      ghost var p, gap := Phase(npartial, skip), Gap(format.align, subsample);
      if skip > 0 {
        n := if skip < end - src then skip else end - src;
        FeedDropped(p, format.align, gap, samp[src..src + n]);
        skip := skip - n;
        copied := 0;
        assert samp[dest..dest] == [];
      } else {
        if end - src < format.align {
          n := end - src;
          npartial := end - src;
        } else {
          n := format.align;
          skip := format.align * (subsample - 1) % 0x100;
        }
        FeedKept(p, format.align, gap, samp[src..src + n]);
        CopyDown(samp, dest, src, n);
        copied := n;
      }
    }

    /** Filter the bytes from `src` to `end`, in place, to `dest`. */
    method FilterDown(samp: array<byte>, dest: nat, src: nat, end: nat) returns (to: nat)
      requires dest <= src <= end <= samp.Length && subsample > 0 && npartial == 0 < format.align
      modifies this`skip, this`npartial, samp
      ensures dest <= to <= end && samp[..dest] == old(samp[..dest])
      ensures Proper(Phase(npartial, skip), format.align)
      ensures (Phase(npartial, skip), samp[dest..to]) ==
              Feed(old(Phase(npartial, skip)), format.align, Gap(format.align, subsample), old(samp[src..end]))
    {
      hide Gap, Feed;
      ghost var p0, gap, data := Phase(npartial, skip), Gap(format.align, subsample), samp[src..end];
      var from := src;
      to := dest;
      assert samp[dest..dest] == [] && data[..0] == [] && data[0..] == data;
      FeedNothing(p0, format.align, gap);
      while from < end
        invariant src <= from <= end && dest <= to <= from
        invariant npartial > 0 ==> from == end
        invariant Proper(Phase(npartial, skip), format.align) && samp[..dest] == old(samp[..dest])
        invariant (Phase(npartial, skip), samp[dest..to]) == Feed(p0, format.align, gap, data[..from - src])
        invariant samp[from..end] == data[from - src..]
        decreases end - from
      {
        ghost var before := samp[..];
        var copied, n := TakeSome(samp, to, from, end);
        FilteredMore(p0, format.align, gap, data, from - src, n);
        Moved(before, samp[..], dest, to, copied, from, n, end);
        from, to := from + n, to + copied;
      }
      assert data[..from - src] == data;
    }

    /** pcm_subsample: the buffer comes out holding exactly what the byte-by-byte filter lets through. */
    method Subsample(apb: ApBuffer)
      requires apb.Valid() && Feedable(State())
      modifies this`skip, this`npartial, apb, apb.samp
      ensures apb.Valid()
      ensures (State(), apb.Data()) == S.Subsample(old(State()), old(apb.Data()))
    {
      hide Gap, Feed;
      if subsample == 0 {
        return;
      }
      ghost var p0, gap, data := Phase(npartial, skip), Gap(format.align, subsample), apb.Data();
      var src, end := apb.curbyte, apb.nbytes;
      if npartial > 0 {
        if npartial + (end - src) < format.align {
          FeedKept(p0, format.align, gap, data);
          npartial := npartial + (end - src);
        } else {
          SubsampleRest(apb);
        }
      } else {
        var to := FilterDown(apb.samp, 0, src, end);
        apb.curbyte, apb.nbytes := 0, to;
      }
    }

    /** pcm_enqueuebuffer; `configured` and `enqueued` are the answers of the lower driver. */
    method Enqueue(apb: ApBuffer, configured: bool, enqueued: bool) returns (ok: bool)
      requires apb.Valid() && CanEnqueue(State(), apb.Data())
      modifies this, apb, apb.samp
      ensures apb.Valid()
      ensures var o := S.Enqueue(old(State()), old(apb.Data()), apb.final, configured, enqueued);
              State() == o.state && calls == old(calls) + o.calls && ok == o.ok
    {
      hide S.Subsample, ValidWav;
      if streaming {
        if apb.final {
          streaming := false;
        }
        Subsample(apb);
        calls := calls + [Deliver(apb.samp[apb.curbyte..apb.nbytes], enqueued)];
        return enqueued;
      }
      if apb.nbytes - apb.curbyte >= HEADER {
        var h := ReadHeader(apb);
        if Accepted(h) {
          format := FormatOf(h);
          calls := calls + [Configure(format.nchannels, format.samprate % 0x1_0000, format.bpsamp, configured)];
          if !configured {
            return false;
          }
          ghost var data := apb.Data();
          apb.curbyte := apb.curbyte + HEADER;
          assert apb.Data() == data[HEADER..];
          Subsample(apb);
          calls := calls + [Deliver(apb.samp[apb.curbyte..apb.nbytes], enqueued)];
          if enqueued {
            streaming := !apb.final;
            return true;
          }
        }
        calls := calls + [Complete];
      }
      ok := false;
    }

    /** pcm_stop, and what pcm_shutdown does here. */
    method Halt()
      modifies this
      ensures State() == S.Step(old(State()), Stop).state && calls == old(calls)
    {
      streaming := false;
    }

    /** The case that the buffer completes the sample left unfinished. */
    method SubsampleRest(apb: ApBuffer)
      requires apb.Valid() && 0 < npartial <= format.align && skip == 0 && subsample > 0
      requires apb.curbyte + (format.align - npartial) <= apb.nbytes
      modifies this`skip, this`npartial, apb, apb.samp
      ensures apb.Valid() && Proper(Phase(npartial, skip), format.align)
      ensures (Phase(npartial, skip), apb.Data()) ==
              Feed(Settle(old(Phase(npartial, skip)), format.align, Gap(format.align, subsample)),
                   format.align, Gap(format.align, subsample), old(apb.Data()))
    {
      hide Gap, Feed;
      ghost var gap, data := Gap(format.align, subsample), apb.Data();
      ghost var p0 := Settle(Phase(npartial, skip), format.align, gap);
      ghost var m0 := apb.samp[..];
      var src, end := apb.curbyte, apb.nbytes;
      var n := CompleteSample(apb.samp, src);
      ghost var m1 := apb.samp[..];
      var to := FilterDown(apb.samp, n, src + n, end);
      FeedConcat(p0, format.align, gap, data[..n], data[n..]);
      TwoParts(m0, m1, apb.samp[..], data, src, n, end, to);
      apb.curbyte, apb.nbytes := 0, to;
    }
  }

  /** The header bytes of a buffer. */
  method ReadHeader(apb: ApBuffer) returns (h: seq<byte>)
    requires apb.Valid() && apb.nbytes - apb.curbyte >= HEADER
    ensures h == apb.Data()[..HEADER]
  {
    h := apb.samp[apb.curbyte..apb.curbyte + HEADER];
  }

  lemma TwoParts(m0: seq<byte>, m1: seq<byte>, m2: seq<byte>, data: seq<byte>, src: nat, n: nat, end: nat, to: nat)
    requires |m0| == |m1| == |m2| && src + n <= end <= |m0| && n <= to <= end && data == m0[src..end]
    requires m1[src + n..] == m0[src + n..] && m2[..n] == m1[..n]
    ensures m0[src..src + n] == data[..n] && m1[src + n..end] == data[n..] && data == data[..n] + data[n..]
    ensures m2[0..to] == m1[..n] + m2[n..to]
  {
    assert m1[src + n..end] == m1[src + n..][..end - (src + n)];
    assert m0[src + n..end] == m0[src + n..][..end - (src + n)];
    assert m0[src + n..end] == data[n..];
    assert m2[0..to] == m2[..n] + m2[n..to];
  }

  /** `copied` bytes have been written at `to`, and nothing from `from + n` on. */
  lemma Moved(a: seq<byte>, b: seq<byte>, dest: nat, to: nat, copied: nat, from: nat, n: nat, end: nat)
    requires dest <= to <= from && copied <= n && from + n <= end <= |a| == |b|
    requires b[..to] == a[..to] && b[from + n..] == a[from + n..]
    ensures b[dest..to + copied] == a[dest..to] + b[to..to + copied]
    ensures b[from + n..end] == a[from..end][n..] && a[from..from + n] == a[from..end][..n]
  {
    assert b[dest..to] == b[..to][dest..] == a[..to][dest..];
    assert b[from + n..end] == b[from + n..][..end - (from + n)] == a[from + n..][..end - (from + n)];
  }

  lemma FeedNothing(p: Phase, align: nat, gap: nat)
    requires Proper(p, align)
    ensures Feed(p, align, gap, []) == (p, [])
  {}

  lemma FilteredMore(p: Phase, align: nat, gap: nat, data: seq<byte>, done: nat, n: nat)
    requires Proper(p, align) && done + n <= |data|
    ensures var a := Feed(p, align, gap, data[..done]);
            var b := Feed(a.0, align, gap, data[done..][..n]);
            Feed(p, align, gap, data[..done + n]) == (b.0, a.1 + b.1)
  {
    FeedConcat(p, align, gap, data[..done], data[done..][..n]);
    assert data[..done + n] == data[..done] + data[done..][..n];
  }
}
