/** The PCM decoder as a state machine: WAV header, fast-forward rate, and what reaches the lower driver. */
module PcmStream {
  import opened Common
  import opened PcmFilter
  import opened PcmWav

  // ----- state and steps -----

  datatype State = State(format: Format, streaming: bool, subsample: nat, phase: Phase)

  /** What the decoder calls: configure, with channels, rate and bits, and enqueuebuffer of the lower driver, or the
      completion callback of the upper one. */
  datatype Call = Configure(channels: nat, rate: nat, bits: nat, ok: bool)
                | Deliver(data: seq<byte>, ok: bool)
                | Complete

  /** The rate is handed on in sixteen bits. */
  function ConfigureFor(f: Format, ok: bool): Call {
    Configure(f.nchannels, f.samprate % 0x1_0000, f.bpsamp, ok)
  }

  datatype Outcome = Outcome(state: State, calls: seq<Call>, ok: bool)

  /** The sub-sampler can work with the current sample size, which need not be the one of the last stream: there is
      not more of a sample than fits. */
  predicate Feedable(st: State) {
    st.subsample > 0 ==>
      0 < st.format.align && st.phase.npartial <= st.format.align && (st.phase.npartial > 0 ==> st.phase.skip == 0)
  }

  /** The same within a stream. */
  predicate Feeding(st: State) {
    st.subsample > 0 ==> Proper(st.phase, st.format.align)
  }

  function Settled(st: State): (r: State)
    requires Feedable(st)
    ensures Feeding(r)
  {
    if st.subsample == 0 then st
    else st.(phase := Settle(st.phase, st.format.align, Gap(st.format.align, st.subsample)))
  }

  /** pcm_subsample. */
  function Subsample(st: State, data: seq<byte>): (r: (State, seq<byte>))
    requires Feedable(st)
    ensures Feeding(r.0) && r.0 == st.(phase := r.0.phase)
  {
    if st.subsample == 0 then (st, data)
    else
      var r := Feed(Settled(st).phase, st.format.align, Gap(st.format.align, st.subsample), data);
      (st.(phase := r.0), r.1)
  }

  /** The buffer is the first of a stream and holds a header. */
  predicate Opens(st: State, data: seq<byte>) {
    !st.streaming && |data| >= HEADER && Accepted(data[..HEADER])
  }

  /** The sample size that will be in force is one the sub-sampler can work with. */
  predicate CanEnqueue(st: State, data: seq<byte>) {
    if st.streaming then Feedable(st)
    else Opens(st, data) ==> Feedable(st.(format := FormatOf(data[..HEADER])))
  }

  /** pcm_enqueuebuffer; `configured` and `enqueued` are the answers of the lower driver. */
  function Enqueue(st: State, data: seq<byte>, final: bool, configured: bool, enqueued: bool): Outcome
    requires CanEnqueue(st, data)
  {
    if st.streaming then
      var r := Subsample(st.(streaming := !final), data);
      Outcome(r.0, [Deliver(r.1, enqueued)], enqueued)
    else if Opens(st, data) then
      var st1 := st.(format := FormatOf(data[..HEADER]));
      if !configured then Outcome(st1, [ConfigureFor(st1.format, false)], false)
      else
        var r := Subsample(st1, data[HEADER..]);
        var configure := ConfigureFor(st1.format, true);
        if enqueued then Outcome(r.0.(streaming := !final), [configure, Deliver(r.1, true)], true)
        else Outcome(r.0, [configure, Deliver(r.1, false), Complete], false)
    else
      Outcome(st, if |data| >= HEADER then [Complete] else [], false)
  }

  /** pcm_subsample_configure.  Its branch for leaving fast forward comes after one with the same condition, so it is
      never taken. */
  function SetRate(st: State, rate: nat): State {
    if rate == 0 then st
    else if st.subsample == 0 then st.(phase := Phase(0, 0), subsample := rate)
    else st.(subsample := rate)
  }

  // ----- runs -----

  datatype Op =
    | Buffer(data: seq<byte>, final: bool, configured: bool, enqueued: bool)
    | Rate(rate: nat)
    | Stop
    | Shutdown

  predicate CanStep(st: State, op: Op) {
    op.Buffer? ==> CanEnqueue(st, op.data)
  }

  function Step(st: State, op: Op): Outcome
    requires CanStep(st, op)
  {
    match op
    case Buffer(data, final, configured, enqueued) => Enqueue(st, data, final, configured, enqueued)
    case Rate(rate) => Outcome(SetRate(st, rate), [], true)
    case Stop => Outcome(st.(streaming := false), [], true)
    case Shutdown => Outcome(st.(streaming := false), [], true)
  }

  ghost predicate CanRun(st: State, ops: seq<Op>)
    decreases |ops|
  {
    ops == [] || (CanStep(st, ops[0]) && CanRun(Step(st, ops[0]).state, ops[1..]))
  }

  /** The state after a run and all calls made on the way. */
  function Run(st: State, ops: seq<Op>): (State, seq<Call>)
    requires CanRun(st, ops)
    decreases |ops|
  {
    if ops == [] then (st, [])
    else
      var a := Step(st, ops[0]);
      var b := Run(a.state, ops[1..]);
      (b.0, a.calls + b.1)
  }

  // ----- fast-forward is never left -----

  lemma {:induction false} FastForwardForever(st: State, ops: seq<Op>)
    requires CanRun(st, ops) && st.subsample > 0
    ensures Run(st, ops).0.subsample > 0
    decreases |ops|
  {
    if ops != [] {
      FastForwardForever(Step(st, ops[0]).state, ops[1..]);
    }
  }

  // ----- when the decoder streams -----

  /** The state before operation `i` of a run. */
  function Before(st: State, ops: seq<Op>, i: nat): (r: State)
    requires CanRun(st, ops) && i <= |ops|
    ensures i < |ops| ==> CanStep(r, ops[i])
    decreases i
  {
    if i == 0 then st else Before(Step(st, ops[0]).state, ops[1..], i - 1)
  }

  /** A first buffer that both drivers accept, and that is not also the last. */
  predicate Starts(st: State, op: Op) {
    op.Buffer? && Opens(st, op.data) && op.configured && op.enqueued && !op.final
  }

  predicate Ends(op: Op) {
    op.Stop? || op.Shutdown? || (op.Buffer? && op.final)
  }

  ghost predicate StartedAt(st: State, ops: seq<Op>, i: nat)
    requires CanRun(st, ops) && i < |ops|
  {
    Starts(Before(st, ops, i), ops[i]) && forall j :: i < j < |ops| ==> !Ends(ops[j])
  }

  /** After a run from an idle decoder, it streams exactly if an accepted first buffer has not been followed
      by a final buffer, a stop or a shutdown. */
  lemma {:induction false} StreamsIffStarted(st: State, ops: seq<Op>)
    requires CanRun(st, ops)
    ensures Run(st, ops).0.streaming <==>
            || (st.streaming && forall j :: 0 <= j < |ops| ==> !Ends(ops[j]))
            || exists i: nat :: i < |ops| && StartedAt(st, ops, i)
    decreases |ops|
  {
    if ops != [] {
      var st1, rest := Step(st, ops[0]).state, ops[1..];
      StreamsIffStarted(st1, rest);
      StepStreams(st, ops[0]);
      assert (forall j :: 0 <= j < |rest| ==> !Ends(rest[j])) <==> forall j :: 1 <= j < |ops| ==> !Ends(ops[j]) by {
        assert forall j :: 0 <= j < |rest| ==> rest[j] == ops[j + 1];
        assert forall j :: 1 <= j < |ops| ==> ops[j] == rest[j - 1];
      }
      forall i: nat | i < |rest| ensures StartedAt(st1, rest, i) <==> StartedAt(st, ops, i + 1) {
        ShiftStart(st, ops, i);
      }
      if i: nat :| i < |ops| && StartedAt(st, ops, i) {
        assert i > 0 ==> StartedAt(st1, rest, i - 1);
      }
      if i: nat :| i < |rest| && StartedAt(st1, rest, i) {
        assert StartedAt(st, ops, i + 1);
      }
      assert StartedAt(st, ops, 0) <==> Starts(st, ops[0]) && forall j :: 1 <= j < |ops| ==> !Ends(ops[j]);
    }
  }

  lemma StepStreams(st: State, op: Op)
    requires CanStep(st, op)
    ensures Step(st, op).state.streaming <==> (st.streaming && !Ends(op)) || Starts(st, op)
  {}

  lemma ShiftStart(st: State, ops: seq<Op>, i: nat)
    requires CanRun(st, ops) && i + 1 < |ops|
    ensures StartedAt(Step(st, ops[0]).state, ops[1..], i) <==> StartedAt(st, ops, i + 1)
  {
    var rest := ops[1..];
    assert forall j :: 0 <= j < |rest| ==> rest[j] == ops[j + 1];
    assert forall j :: 1 <= j < |ops| ==> ops[j] == rest[j - 1];
  }

  // ----- no buffer without a configuration -----

  predicate Configured(call: Call) { call.Configure? && call.ok }

  /** Every buffer handed down comes right after a successful configure, or while the decoder streams. */
  lemma DeliversConfigured(st: State, op: Op, i: nat)
    requires CanStep(st, op) && i < |Step(st, op).calls| && Step(st, op).calls[i].Deliver?
    ensures st.streaming || (i > 0 && Configured(Step(st, op).calls[i - 1]))
  {
    var calls := Step(st, op).calls;
    if !st.streaming {
      assert Configured(calls[0]);
      assert i == 1;
    }
  }

  /** Over every run from an idle decoder: a buffer is handed down only right after a successful
      configure, or after an accepted first buffer and before the end of that stream. */
  lemma NeverUnconfigured(st: State, ops: seq<Op>, n: nat, i: nat)
    requires CanRun(st, ops) && !st.streaming && n < |ops|
    requires var calls := Step(Before(st, ops, n), ops[n]).calls; i < |calls| && calls[i].Deliver?
    ensures var calls := Step(Before(st, ops, n), ops[n]).calls;
            || (i > 0 && Configured(calls[i - 1]))
            || (exists k: nat :: k < n && Starts(Before(st, ops, k), ops[k]) && forall j :: k < j < n ==> !Ends(ops[j]))
  {
    DeliversConfigured(Before(st, ops, n), ops[n], i);
    if Before(st, ops, n).streaming {
      var k := StreamOrigin(st, ops, n);
    }
  }

  lemma {:induction false} StreamOrigin(st: State, ops: seq<Op>, n: nat) returns (k: nat)
    requires CanRun(st, ops) && !st.streaming && n <= |ops| && Before(st, ops, n).streaming
    ensures k < n && Starts(Before(st, ops, k), ops[k]) && forall j :: k < j < n ==> !Ends(ops[j])
    decreases n
  {
    if n == 0 {
      assert false;
    } else {
      BeforeNext(st, ops, n - 1);
      StepStreams(Before(st, ops, n - 1), ops[n - 1]);
      if Starts(Before(st, ops, n - 1), ops[n - 1]) {
        k := n - 1;
      } else {
        k := StreamOrigin(st, ops, n - 1);
      }
    }
  }

  lemma {:induction false} BeforeNext(st: State, ops: seq<Op>, i: nat)
    requires CanRun(st, ops) && i < |ops|
    ensures Before(st, ops, i + 1) == Step(Before(st, ops, i), ops[i]).state
    decreases i
  {
    if i > 0 {
      BeforeNext(Step(st, ops[0]).state, ops[1..], i - 1);
    }
  }

  // ----- what comes out of a stream -----

  /** The bytes handed to the lower driver. */
  function Delivered(calls: seq<Call>): seq<byte> {
    if calls == [] then []
    else (if calls[0].Deliver? then calls[0].data else []) + Delivered(calls[1..])
  }

  lemma {:induction false} DeliveredConcat(a: seq<Call>, b: seq<Call>)
    ensures Delivered(a + b) == Delivered(a) + Delivered(b)
    decreases |a|
  {
    if a == [] {
      assert a + b == b;
    } else {
      assert (a + b)[1..] == a[1..] + b;
      DeliveredConcat(a[1..], b);
    }
  }

  /** A stream as one sequence: its bytes, and changes of rate between them. */
  datatype Input = Byte(b: byte) | NewRate(rate: nat)

  /** The reference: the stream goes through the decoder input by input. */
  function Transduce(st: State, ins: seq<Input>): seq<byte>
    requires Feeding(st) && st.format.align > 0
    decreases |ins|
  {
    if ins == [] then []
    else
      match ins[0]
      case NewRate(rate) => Transduce(SetRate(st, rate), ins[1..])
      case Byte(b) =>
        if st.subsample == 0 then [b] + Transduce(st, ins[1..])
        else
          var gap := Gap(st.format.align, st.subsample);
          (if Keeps(st.phase) then [b] else [])
          + Transduce(st.(phase := Next(st.phase, st.format.align, gap)), ins[1..])
  }

  function Bytes(s: seq<byte>): (ins: seq<Input>)
    ensures |ins| == |s| && forall i :: 0 <= i < |s| ==> ins[i] == Byte(s[i])
  {
    seq(|s|, i requires 0 <= i < |s| => Byte(s[i]))
  }

  lemma {:induction false} TransduceBytes(st: State, s: seq<byte>, ins: seq<Input>)
    requires Feeding(st) && st.format.align > 0
    ensures Transduce(st, Bytes(s) + ins) == Subsample(st, s).1 + Transduce(Subsample(st, s).0, ins)
    decreases |s|
  {
    if s == [] {
      assert Bytes(s) + ins == ins;
      assert [] + Transduce(st, ins) == Transduce(st, ins);
    } else {
      hide Transduce, Subsample, Passes, ByteTaken;
      assert Bytes(s) + ins == [Byte(s[0])] + (Bytes(s[1..]) + ins);
      ByteTransduced(st, s[0], Bytes(s[1..]) + ins);
      ByteSubsampled(st, s);
      var st1 := ByteTaken(st);
      TransduceBytes(st1, s[1..], ins);
      var head, tail, rest := Passes(st, s[0]), Subsample(st1, s[1..]).1, Transduce(Subsample(st1, s[1..]).0, ins);
      assert head + (tail + rest) == head + tail + rest;
    }
  }

  /** What becomes of one byte, and of the decoder. */
  function Passes(st: State, b: byte): seq<byte> {
    if st.subsample == 0 || Keeps(st.phase) then [b] else []
  }

  function ByteTaken(st: State): (r: State)
    requires Feeding(st)
    ensures Feeding(r) && r.format == st.format
  {
    if st.subsample == 0 then st
    else st.(phase := Next(st.phase, st.format.align, Gap(st.format.align, st.subsample)))
  }

  lemma ByteTransduced(st: State, b: byte, ins: seq<Input>)
    requires Feeding(st) && st.format.align > 0
    ensures Transduce(st, [Byte(b)] + ins) == Passes(st, b) + Transduce(ByteTaken(st), ins)
  {
    assert ([Byte(b)] + ins)[1..] == ins;
  }

  lemma ByteSubsampled(st: State, s: seq<byte>)
    requires Feeding(st) && s != []
    ensures var rest := Subsample(ByteTaken(st), s[1..]);
            Subsample(st, s) == (rest.0, Passes(st, s[0]) + rest.1)
  {
    hide Gap;
    assert s == [s[0]] + s[1..];
  }

  /** Buffers and changes of rate within one stream; only the last buffer may be final. */
  predicate InStream(ops: seq<Op>) {
    forall i :: 0 <= i < |ops| ==>
      ops[i].Rate? || (ops[i].Buffer? && (ops[i].final ==> i == |ops| - 1))
  }

  function Inputs(ops: seq<Op>): seq<Input>
    requires InStream(ops)
    decreases |ops|
  {
    if ops == [] then []
    else if ops[0].Rate? then [NewRate(ops[0].rate)] + Inputs(ops[1..])
    else Bytes(ops[0].data) + Inputs(ops[1..])
  }

  /** While the decoder streams, what it hands down is the stream sent through it input by input, however
      it is cut into buffers. */
  lemma {:induction false} StreamTransduced(st: State, ops: seq<Op>)
    requires st.streaming && Feeding(st) && st.format.align > 0 && InStream(ops) && CanRun(st, ops)
    ensures Delivered(Run(st, ops).1) == Transduce(st, Inputs(ops))
    decreases |ops|
  {
    if ops != [] {
      var op, rest := ops[0], ops[1..];
      var a := Step(st, op);
      assert InStream(rest);
      if op.Rate? {
        StreamTransduced(a.state, rest);
        assert a.calls + Run(a.state, rest).1 == Run(a.state, rest).1;
        assert Inputs(ops)[1..] == Inputs(rest);
      } else {
        TransduceBytes(st, op.data, Inputs(rest));
        DeliveredConcat(a.calls, Run(a.state, rest).1);
        assert Delivered(a.calls) == Subsample(st, op.data).1;
        if op.final {
          assert rest == [];
        } else {
          StreamTransduced(a.state, rest);
        }
      }
    }
  }

  /** Both drivers accept the first buffer of a stream. */
  predicate Begins(st: State, op: Op) {
    op.Buffer? && Opens(st, op.data) && op.configured && op.enqueued
  }

  /** The state in which the sub-sampler comes to the first sample. */
  function Begun(st: State, op: Op): (r: State)
    requires Begins(st, op) && CanStep(st, op)
    ensures Feeding(r)
  {
    Settled(st.(format := FormatOf(op.data[..HEADER])))
  }

  /** One whole stream: what is handed down is the transduced stream with the WAV header of its first
      buffer removed. */
  lemma WholeStream(st: State, ops: seq<Op>)
    requires ops != [] && InStream(ops) && CanRun(st, ops)
    requires Begins(st, ops[0]) && FormatOf(ops[0].data[..HEADER]).align > 0
    ensures Delivered(Run(st, ops).1) ==
            Transduce(Begun(st, ops[0]), Bytes(ops[0].data[HEADER..]) + Inputs(ops[1..]))
  {
    hide Feed, Gap, Transduce;
    var op, rest := ops[0], ops[1..];
    var a := Step(st, op);
    var st1 := Begun(st, op);
    var first := Subsample(st1, op.data[HEADER..]);
    assert first.1 == Subsample(st.(format := FormatOf(op.data[..HEADER])), op.data[HEADER..]).1;
    var configure := ConfigureFor(st1.format, true);
    assert a.calls == [configure, Deliver(first.1, true)];
    assert InStream(rest);
    DeliveredConcat(a.calls, Run(a.state, rest).1);
    assert Delivered(a.calls) == first.1 by {
      assert a.calls[1..] == [Deliver(first.1, true)];
      assert a.calls[1..][1..] == [];
      assert first.1 + [] == first.1 && [] + first.1 == first.1;
    }
    TransduceBytes(st1, op.data[HEADER..], Inputs(rest));
    if op.final {
      assert rest == [];
      NothingTransduced(first.0);
    } else {
      assert a.state == first.0.(streaming := true);
      StreamTransduced(a.state, rest);
      SameTransducer(a.state, first.0, Inputs(rest));
    }
  }

  lemma NothingTransduced(st: State)
    requires Feeding(st) && st.format.align > 0
    ensures Transduce(st, []) == []
  {}

  /** The streaming flag does not matter to what comes out. */
  lemma {:induction false} SameTransducer(a: State, b: State, ins: seq<Input>)
    requires Feeding(a) && a.format.align > 0 && b == a.(streaming := b.streaming)
    ensures Transduce(a, ins) == Transduce(b, ins)
    decreases |ins|
  {
    if ins != [] {
      if ins[0].NewRate? {
        SameTransducer(SetRate(a, ins[0].rate), SetRate(b, ins[0].rate), ins[1..]);
      } else if a.subsample == 0 {
        SameTransducer(a, b, ins[1..]);
      } else {
        var p := Next(a.phase, a.format.align, Gap(a.format.align, a.subsample));
        SameTransducer(a.(phase := p), b.(phase := p), ins[1..]);
      }
    }
  }

  /** At a fixed rate, from the start of fast-forward: byte `k` of the output is byte `Place(k)` of the
      stream, and there are `KeptOf(n)` of them. */
  lemma FixedRateStream(st: State, s: seq<byte>)
    requires st.subsample > 0 && st.phase == Phase(0, 0) && st.format.align > 0
    ensures var align := st.format.align;
            var period := align + Gap(align, st.subsample);
            var out := Transduce(st, Bytes(s));
            && |out| == KeptOf(|s|, align, period)
            && forall k :: 0 <= k < |out| ==> Place(k, align, period) < |s| && out[k] == s[Place(k, align, period)]
  {
    hide KeptOf, Place;
    var align := st.format.align;
    assert Bytes(s) + [] == Bytes(s);
    TransduceBytes(st, s, []);
    Selected(align, Gap(align, st.subsample), s);
    assert Subsample(st, s).1 + [] == Subsample(st, s).1;
  }

  // ----- whole streams at a fixed rate -----

  /** The buffers of one stream. */
  predicate OneStream(st: State, ops: seq<Op>) {
    && ops != [] && InStream(ops) && (forall i :: 0 <= i < |ops| ==> ops[i].Buffer?)
    && Begins(st, ops[0]) && FormatOf(ops[0].data[..HEADER]).align > 0
  }

  function Data(ops: seq<Op>): seq<byte>
    requires forall i :: 0 <= i < |ops| ==> ops[i].Buffer?
  {
    if ops == [] then [] else ops[0].data + Data(ops[1..])
  }

  /** The samples of a stream, without its header. */
  function Samples(st: State, ops: seq<Op>): seq<byte>
    requires OneStream(st, ops)
  {
    ops[0].data[HEADER..] + Data(ops[1..])
  }

  lemma {:induction false} InputsAreData(ops: seq<Op>)
    requires InStream(ops) && forall i :: 0 <= i < |ops| ==> ops[i].Buffer?
    ensures Inputs(ops) == Bytes(Data(ops))
    decreases |ops|
  {
    if ops != [] {
      InputsAreData(ops[1..]);
      assert Bytes(ops[0].data) + Bytes(Data(ops[1..])) == Bytes(ops[0].data + Data(ops[1..]));
    }
  }

  /** What is handed down of a stream is its samples, sub-sampled at once. */
  lemma StreamSubsampled(st: State, ops: seq<Op>)
    requires CanRun(st, ops) && OneStream(st, ops)
    ensures Delivered(Run(st, ops).1) == Subsample(Begun(st, ops[0]), Samples(st, ops)).1
  {
    hide Feed, Gap, Transduce;
    var st1, s := Begun(st, ops[0]), Samples(st, ops);
    WholeStream(st, ops);
    InputsAreData(ops[1..]);
    assert Bytes(ops[0].data[HEADER..]) + Bytes(Data(ops[1..])) == Bytes(s) == Bytes(s) + [];
    TransduceBytes(st1, s, []);
    NothingTransduced(Subsample(st1, s).0);
    assert Subsample(st1, s).1 + [] == Subsample(st1, s).1;
  }

  /** Without fast forward the samples are handed down as they are, whatever their size. */
  lemma {:induction false} PassedOn(st: State, ops: seq<Op>)
    requires CanRun(st, ops) && st.subsample == 0 && st.streaming && InStream(ops)
    requires forall i :: 0 <= i < |ops| ==> ops[i].Buffer?
    ensures Delivered(Run(st, ops).1) == Data(ops)
    decreases |ops|
  {
    if ops != [] {
      var a := Step(st, ops[0]);
      DeliveredConcat(a.calls, Run(a.state, ops[1..]).1);
      OneDelivered(ops[0].data, ops[0].enqueued);
      if ops[0].final {
        assert ops[1..] == [];
      } else {
        PassedOn(a.state, ops[1..]);
      }
    }
  }

  lemma OneDelivered(data: seq<byte>, ok: bool)
    ensures Delivered([Deliver(data, ok)]) == data
    ensures forall c: Call :: c.Configure? ==> Delivered([c, Deliver(data, ok)]) == data
  {
    assert forall c: Call :: [c, Deliver(data, ok)][1..] == [Deliver(data, ok)];
    assert Delivered([Deliver(data, ok)][1..]) == [];
  }

  lemma WholeStreamPassedOn(st: State, ops: seq<Op>)
    requires ops != [] && InStream(ops) && CanRun(st, ops) && st.subsample == 0 && Begins(st, ops[0])
    requires forall i :: 0 <= i < |ops| ==> ops[i].Buffer?
    ensures Delivered(Run(st, ops).1) == ops[0].data[HEADER..] + Data(ops[1..])
  {
    var a := Step(st, ops[0]);
    var first := ops[0].data[HEADER..];
    DeliveredConcat(a.calls, Run(a.state, ops[1..]).1);
    OneDelivered(first, true);
    assert a.calls == [ConfigureFor(FormatOf(ops[0].data[..HEADER]), true), Deliver(first, true)];
    if ops[0].final {
      assert ops[1..] == [];
    } else {
      PassedOn(a.state, ops[1..]);
    }
  }

  /** The buffers of one stream that starts with the header of `f`, in the first of them; both drivers accept it. */
  predicate StreamOf(st: State, ops: seq<Op>, f: Format, riff: nat, data: nat)
    requires Fits(f) && riff < 0x1_0000_0000 && data < 0x1_0000_0000
  {
    && ops != [] && InStream(ops) && (forall i :: 0 <= i < |ops| ==> ops[i].Buffer?)
    && !st.streaming && ops[0].configured && ops[0].enqueued && Header(f, riff, data) <= ops[0].data
  }

  lemma StreamOfFormat(st: State, ops: seq<Op>, f: Format, riff: nat, data: nat)
    requires Fits(f) && riff < 0x1_0000_0000 && data < 0x1_0000_0000 && StreamOf(st, ops, f, riff, data)
    ensures Begins(st, ops[0]) && FormatOf(ops[0].data[..HEADER]) == f
  {
    hide ValidWav, FormatOf;
    var h := Header(f, riff, data);
    assert ops[0].data[..HEADER] == h;
    HeaderIsParsed(f, riff, data);
    FormatNeverRejected(h);
  }

  /** A stream that is fast-forwarded from its start at a fixed rate, however it is cut into buffers: as long as the
      bytes to drop fit eight bits, one sample in `rate` is handed down, samples having the size that the header
      says. */
  lemma OneSampleInRateDelivered(st: State, ops: seq<Op>, f: Format, riff: nat, data: nat)
    requires Fits(f) && riff < 0x1_0000_0000 && data < 0x1_0000_0000 && StreamOf(st, ops, f, riff, data)
    requires CanRun(st, ops) && st.subsample > 0 && st.phase == Phase(0, 0)
    requires 0 < f.align && f.align * (st.subsample - 1) < 0x100
    ensures f.align * st.subsample > 0
    ensures Delivered(Run(st, ops).1) == OneIn(ops[0].data[44..] + Data(ops[1..]), f.align, f.align * st.subsample)
  {
    hide Feed, Gap, FormatOf, Run, CanRun, Delivered, OneIn, Accepted, Header;
    StreamOfFormat(st, ops, f, riff, data);
    StreamSubsampled(st, ops);
    FedAtRate(f.align, st.subsample, Samples(st, ops));
  }

  /** The lower driver is configured for what the header says, in this order: channels, rate, bits; and the stream is
      open afterwards exactly if the driver agrees and takes the buffer, and it is not the last one. */
  lemma ConfiguresFormat(st: State, op: Op, f: Format, riff: nat, data: nat)
    requires Fits(f) && riff < 0x1_0000_0000 && data < 0x1_0000_0000
    requires op.Buffer? && !st.streaming && Header(f, riff, data) <= op.data && CanStep(st, op)
    ensures var calls := Step(st, op).calls;
            calls != [] && calls[0] == Configure(f.nchannels, f.samprate % 0x1_0000, f.bpsamp, op.configured)
    ensures var o := Step(st, op);
            && o.ok == (op.configured && op.enqueued) && o.state.format == f
            && o.state.streaming == (o.ok && !op.final) && o.state.subsample == st.subsample
  {
    hide ValidWav, FormatOf, Feed;
    var h := Header(f, riff, data);
    assert op.data[..HEADER] == h;
    HeaderIsParsed(f, riff, data);
    FormatNeverRejected(h);
  }

  /** A first buffer that holds no header, or that the lower driver does not take after it was configured, ends with the
      completion callback; no other buffer does. */
  lemma CompletesExact(st: State, op: Op)
    requires CanStep(st, op)
    ensures Complete in Step(st, op).calls
       <==> op.Buffer? && !st.streaming && |op.data| >= 44
            && (!ValidWav(op.data[..44]) || (op.configured && !op.enqueued))
  {
    hide ValidWav, FormatOf, Feed;
    if op.Buffer? && |op.data| >= 44 {
      FormatNeverRejected(op.data[..44]);
    }
  }

  // ----- changes of rate -----

  /** The rate in force after some inputs. */
  function RateAfter(rate: nat, ins: seq<Input>): nat
    decreases |ins|
  {
    if ins == [] then rate
    else RateAfter(if ins[0].NewRate? && ins[0].rate > 0 then ins[0].rate else rate, ins[1..])
  }

  /** To set the rate that is in force, or none, changes nothing, wherever in a sample or in a gap the stream is. */
  lemma {:induction false} SameRateAgain(st: State, a: seq<Input>, rate: nat, b: seq<Input>)
    requires Feeding(st) && st.format.align > 0 && rate in {0, RateAfter(st.subsample, a)}
    ensures Transduce(st, a + ([NewRate(rate)] + b)) == Transduce(st, a + b)
    decreases |a|
  {
    hide Next, Gap;
    if a == [] {
      assert a + ([NewRate(rate)] + b) == [NewRate(rate)] + b && a + b == b;
      assert ([NewRate(rate)] + b)[1..] == b;
    } else {
      var all := a + ([NewRate(rate)] + b);
      assert all[0] == a[0] == (a + b)[0];
      assert all[1..] == a[1..] + ([NewRate(rate)] + b) && (a + b)[1..] == a[1..] + b;
      var st1 := if a[0].NewRate? then SetRate(st, a[0].rate) else ByteTaken(st);
      SameRateAgain(st1, a[1..], rate, b);
    }
  }

  /** A new rate takes over from the next sample on: what is left of a gap is dropped, and then comes one sample in so
      many, counted modulo 256 bytes of gap.  The same where fast forward is turned on. */
  lemma NewRateTakesOver(st: State, rate: nat, s: seq<byte>)
    requires Feeding(st) && st.format.align > 0 && rate > 0 && (st.subsample > 0 ==> st.phase.npartial == 0)
    ensures var left := if st.subsample == 0 then 0 else st.phase.skip;
            var align := st.format.align;
            Transduce(st, [NewRate(rate)] + Bytes(s))
            == OneIn(if left <= |s| then s[left..] else [], align, align + align * (rate - 1) % 0x100)
  {
    hide Feed, OneIn;
    var st1 := SetRate(st, rate);
    var align, gap, left := st.format.align, Gap(st.format.align, rate), st1.phase.skip;
    assert ([NewRate(rate)] + Bytes(s))[1..] == Bytes(s) == Bytes(s) + [];
    TransduceBytes(st1, s, []);
    assert Subsample(st1, s).1 + [] == Subsample(st1, s).1;
    if left <= |s| {
      assert s == s[..left] + s[left..];
      FeedConcat(st1.phase, align, gap, s[..left], s[left..]);
      FeedDropped(st1.phase, align, gap, s[..left]);
      FedIsOneIn(align, gap, s[left..]);
    } else {
      FeedDropped(st1.phase, align, gap, s);
      FedIsOneIn(align, gap, []);
      NothingFed(align, gap);
    }
  }

  // ----- what is carried from one stream to the next -----

  lemma SubsampleTwice(st: State, s: seq<byte>, t: seq<byte>)
    requires Feeding(st)
    ensures Subsample(st, s + t).0 == Subsample(Subsample(st, s).0, t).0
  {
    hide Feed, Gap;
    if st.subsample > 0 {
      FeedConcat(st.phase, st.format.align, Gap(st.format.align, st.subsample), s, t);
    }
  }

  lemma {:induction false} StreamState(st: State, ops: seq<Op>)
    requires CanRun(st, ops) && InStream(ops) && st.streaming && Feeding(st)
    requires forall i :: 0 <= i < |ops| ==> ops[i].Buffer?
    ensures Run(st, ops).0 == Subsample(st, Data(ops)).0.(streaming := Run(st, ops).0.streaming)
    decreases |ops|
  {
    hide Feed, Gap, Bytes;
    if ops == [] {
      StaysPut(st);
    } else {
      var op, rest := ops[0], ops[1..];
      var a := Step(st, op).state;
      SubsampleTwice(st, op.data, Data(rest));
      if op.final {
        assert rest == [];
        StaysPut(a);
      } else {
        StreamState(a, rest);
      }
    }
  }

  lemma StaysPut(st: State)
    requires Feeding(st)
    ensures Subsample(st, []).0 == st
  {}

  /** The phase after a stream that was fast-forwarded from its start at a fixed rate. */
  lemma PhaseAfterStream(st: State, ops: seq<Op>)
    requires CanRun(st, ops) && OneStream(st, ops) && st.subsample > 0 && st.phase == Phase(0, 0)
    ensures var align := FormatOf(ops[0].data[..HEADER]).align;
            var after := Run(st, ops).0;
            && after.subsample == st.subsample
            && after.phase == PhaseAt(|Samples(st, ops)|, align, Gap(align, st.subsample))
  {
    hide Feed, Gap, PhaseAt;
    var op, rest := ops[0], ops[1..];
    var st1, s := Begun(st, op), op.data[HEADER..];
    var a := Step(st, op).state;
    assert a == Subsample(st1, s).0.(streaming := !op.final);
    if op.final {
      assert rest == [];
      assert Samples(st, ops) == s;
    } else {
      SubsampleTwice(st1, s, Data(rest));
      StreamState(a, rest);
    }
    FedIsOneIn(st1.format.align, Gap(st1.format.align, st.subsample), Samples(st, ops));
  }

  /** What is left of `n` bytes matters to a stream with other samples: the sub-sampler can work on it exactly if the
      unfinished sample is not longer than one of the new samples; otherwise the number of bytes to complete it is
      computed as negative.  And it then does as from the start exactly if no sample and no gap was left unfinished, or
      there are no gaps. */
  lemma CarriedExact(st: State, n: nat, align: nat, gap: nat)
    requires st.subsample > 0 && align > 0 && st.phase == PhaseAt(n, align, gap)
    ensures var left := n % (align + gap);
            && (Feedable(st) <==> st.format.align > 0 && (left < align ==> left <= st.format.align))
            && (Feedable(st) ==>
                 ((forall s :: Subsample(st, s).1 == Subsample(st.(phase := Phase(0, 0)), s).1)
                   <==> left == 0 || (left < align && Gap(st.format.align, st.subsample) == 0)))
  {
    hide Feed, Gap;
    if Feedable(st) {
      AsFreshExact(st);
    }
  }

  lemma AsFreshExact(st: State)
    requires st.subsample > 0 && Feedable(st)
    ensures (forall s :: Subsample(st, s).1 == Subsample(st.(phase := Phase(0, 0)), s).1)
       <==> st.phase == Phase(0, 0) || (st.phase.skip == 0 && Gap(st.format.align, st.subsample) == 0)
  {
    hide Feed, Gap;
    var align, gap, p := st.format.align, Gap(st.format.align, st.subsample), Settled(st).phase;
    FreshExact(p, align, gap);
    forall s
      ensures Subsample(st, s).1 == Feed(p, align, gap, s).1
      ensures Subsample(st.(phase := Phase(0, 0)), s).1 == Feed(Phase(0, 0), align, gap, s).1
    {}
    if forall s :: Subsample(st, s).1 == Subsample(st.(phase := Phase(0, 0)), s).1 {
      forall s ensures Feed(p, align, gap, s).1 == Feed(Phase(0, 0), align, gap, s).1 {
        assert Subsample(st, s).1 == Subsample(st.(phase := Phase(0, 0)), s).1;
      }
    } else {
      var s :| Subsample(st, s).1 != Subsample(st.(phase := Phase(0, 0)), s).1;
      assert Feed(p, align, gap, s).1 != Feed(Phase(0, 0), align, gap, s).1;
      if p.skip == 0 && (p.npartial == 0 || gap == 0) {
        SameAsFresh(p, align, gap, s);
      }
    }
  }

  /** Two streams in a row, the first fast-forwarded at a fixed rate: the second can be worked on, and is then
      sub-sampled as from the start whatever its samples, exactly under these conditions. */
  lemma NextStreamExact(st: State, ops: seq<Op>, format: Format)
    requires CanRun(st, ops) && OneStream(st, ops) && st.subsample > 0 && st.phase == Phase(0, 0)
    ensures var align := FormatOf(ops[0].data[..HEADER]).align;
            var left := |Samples(st, ops)| % (align + Gap(align, st.subsample));
            var next := Run(st, ops).0.(format := format);
            && (Feedable(next) <==> format.align > 0 && (left < align ==> left <= format.align))
            && (Feedable(next) ==>
                 ((forall s :: Subsample(next, s).1 == Subsample(next.(phase := Phase(0, 0)), s).1)
                   <==> left == 0 || (left < align && Gap(format.align, st.subsample) == 0)))
  {
    hide Feed, Gap, PhaseAt, Subsample, Run, Samples;
    var align := FormatOf(ops[0].data[..HEADER]).align;
    PhaseAfterStream(st, ops);
    CarriedExact(Run(st, ops).0.(format := format), |Samples(st, ops)|, align, Gap(align, st.subsample));
  }
}
