/** The Si4713 driver: powering the chip, and the entry points for controls, modulator, frequency and the private
    ioctl, with chip commands and regulators that may fail at any time. */
module Si4713Device {
  import opened Common
  import opened Si4713Controls
  import opened Si4713Fields

  const DEFAULT_FREQUENCY: nat := 8800
  const FREQ_RANGE_LOW: nat := 7600
  const FREQ_RANGE_HIGH: nat := 10800
  const DEFAULT_TUNE_RNL: nat := 0xFF
  const EINVAL: int := 22
  const ENOIOCTLCMD: int := 515
  const PS_NAME_BLOCKS: nat := 24

  datatype Command = PowerUp | PowerDown | TuneFreq(frequency: nat) | TunePower | TuneMeasure | TuneStatus
                   | SetProperty(property: Property, value: bv16) | GetProperty(property: Property)
                   | RdsBuff | RdsPs | GetIntStatus

  /** A command that was sent, and whether the driver took the chip to be on. */
  datatype Sent = Sent(command: Command, on: bool)

  /** POWER_UP is sent while the chip is off, and everything else while it is on. */
  ghost predicate Disciplined(trace: seq<Sent>) {
    forall i :: 0 <= i < |trace| ==> (trace[i].command.PowerUp? <==> !trace[i].on)
  }

  /** A command was sent, with the chip on, after the first `n` ones. */
  ghost predicate SentSince(trace: seq<Sent>, n: nat, command: Command) {
    exists k :: n <= k < |trace| && trace[k] == Sent(command, true)
  }

  lemma StaysSent(trace: seq<Sent>, later: seq<Sent>, n: nat, command: Command)
    requires SentSince(trace, n, command) && trace <= later
    ensures SentSince(later, n, command)
  {
    var k :| n <= k < |trace| && trace[k] == Sent(command, true);
    assert later[k] == trace[k];
  }

  /** The output power is not set after the first `n` commands, or just once. */
  ghost predicate PowerNever(trace: seq<Sent>, n: nat) {
    forall k :: n <= k < |trace| ==> !trace[k].command.TunePower?
  }

  ghost predicate PowerOnce(trace: seq<Sent>, n: nat) {
    exists k :: n <= k < |trace| && trace[k].command.TunePower?
                && forall j :: n <= j < |trace| && j != k ==> !trace[j].command.TunePower?
  }

  lemma PowerThen(trace: seq<Sent>, later: seq<Sent>, n: nat)
    requires n <= |trace| && trace <= later
    ensures PowerNever(trace, n) && PowerNever(later, |trace|) ==> PowerNever(later, n)
    ensures PowerOnce(trace, n) && PowerNever(later, |trace|) ==> PowerOnce(later, n)
    ensures PowerNever(trace, n) && PowerOnce(later, |trace|) ==> PowerOnce(later, n)
  {
    assert forall k :: 0 <= k < |trace| ==> later[k] == trace[k];
    if PowerOnce(trace, n) && PowerNever(later, |trace|) {
      var k :| n <= k < |trace| && trace[k].command.TunePower?
               && forall j :: n <= j < |trace| && j != k ==> !trace[j].command.TunePower?;
      assert later[k].command.TunePower?;
      assert forall j :: n <= j < |later| && j != k ==> !later[j].command.TunePower?;
    } else if PowerNever(trace, n) && PowerOnce(later, |trace|) {
      var k :| |trace| <= k < |later| && later[k].command.TunePower?
               && forall j :: |trace| <= j < |later| && j != k ==> !later[j].command.TunePower?;
      assert forall j :: n <= j < |later| && j != k ==> !later[j].command.TunePower?;
    }
  }

  function Count(present: bool, on: bool): int {
    if present && on then 1 else 0
  }

  /** A control of the cluster. */
  datatype Control = Control(id: Id, val: U32, isNew: bool)

  /** The control framework keeps the values of controls in their ranges. */
  predicate Ranged(c: Control) {
    Masked(c.id) ==> Bits(c.val) <= PlaceOf(OfControl(c.id)).largest
  }

  predicate AllRanged(cs: seq<Control>) {
    forall i :: 0 <= i < |cs| ==> Ranged(cs[i])
  }

  /** The first control asks for muting. */
  predicate Mutes(cs: seq<Control>)
    requires |cs| > 0
  {
    cs[0].id.Mute? && cs[0].isNew && cs[0].val != 0
  }

  predicate Tunes(id: Id) {
    id.AntennaCapacitor? || id.PowerLevel?
  }

  /** The controls once the output power is set: it is not to be set twice. */
  function Settled(cs: seq<Control>): (r: seq<Control>)
    ensures |r| == |cs|
    ensures forall i :: 0 <= i < |cs| ==>
              r[i].id == cs[i].id && r[i].val == cs[i].val && r[i].isNew == (cs[i].isNew && !Tunes(cs[i].id))
  {
    seq(|cs|, i requires 0 <= i < |cs| => cs[i].(isNew := cs[i].isNew && !Tunes(cs[i].id)))
  }

  predicate Special(id: Id) {
    id.PsName? || id.RadioText? || Tunes(id) || id.AltFreqsEnable? || id.AltFreqs?
  }

  /** The control is one for which the output power is set; the antenna capacitor is left to the power level when
      all controls are written. */
  predicate SetsPower(id: Id, force: bool) {
    id.PowerLevel? || (id.AntennaCapacitor? && !force)
  }

  /** From `k` on there is such a control that is to be written. */
  ghost predicate PowerWanted(cs: seq<Control>, k: nat, force: bool) {
    exists i :: k <= i < |cs| && (force || cs[i].isNew) && SetsPower(cs[i].id, force)
  }

  /** The controls of a cluster have different ids. */
  predicate Distinct(cs: seq<Control>) {
    forall i, j :: 0 <= i < j < |cs| ==> cs[i].id != cs[j].id
  }

  /** Once the output power is set, no later control sets it. */
  lemma NoMorePower(cs: seq<Control>, k: nat, force: bool)
    requires k < |cs| && (force || cs[k].isNew) && SetsPower(cs[k].id, force) && Distinct(cs)
    ensures PowerWanted(cs, k, force) && !PowerWanted(Settled(cs), k + 1, force)
  {
  }

  lemma NextPower(cs: seq<Control>, k: nat, force: bool)
    requires k < |cs| && !((force || cs[k].isNew) && SetsPower(cs[k].id, force))
    ensures PowerWanted(cs, k, force) <==> PowerWanted(cs, k + 1, force)
  {
  }

  /** The scaled, masked and tabled controls from `k` on that are to be written, in order. */
  function Wanted(cs: seq<Control>, k: nat, force: bool): seq<(Id, U32)>
    decreases |cs| - k
  {
    if k >= |cs| then []
    else
      (if (force || cs[k].isNew) && General(cs[k].id) then [(cs[k].id, cs[k].val)] else [])
      + Wanted(cs, k + 1, force)
  }

  lemma {:induction false} SettledWanted(cs: seq<Control>, k: nat, force: bool)
    ensures Wanted(Settled(cs), k, force) == Wanted(cs, k, force)
    decreases |cs| - k
  {
    if k < |cs| {
      SettledWanted(cs, k + 1, force);
    }
  }

  /** The controls that were written. */
  function Pairs(ws: seq<Write>): seq<(Id, U32)> {
    if ws == [] then []
    else Pairs(ws[..|ws| - 1]) + match ws[|ws| - 1] case Control(_, id, val) => [(id, val)] case _ => []
  }

  /** Every write is one of a control, after the controls that were written before it in the call. */
  ghost predicate InOrder(ws: seq<Write>) {
    && (forall i :: 0 <= i < |ws| ==> ws[i].Control?)
    && forall i :: 0 <= i < |ws| ==> |ws[i].before| == i && forall j :: 0 <= j < i ==> ws[i].before[j] == ws[j].id
  }

  // ----- frequencies -----

  /** From units of 62.5 Hz to units of 10 kHz, in 32 bits, cut to 16. */
  function FromV4l2(f: U32): nat {
    ((f * 625) % 0x1_0000_0000) / 100000 % 0x1_0000
  }

  function ToV4l2(f: nat): U32
    requires f < 0x1_0000
  {
    ((f * 100000) % 0x1_0000_0000) / 625
  }

  /** A frequency in the range of the transmitter survives the conversion. */
  lemma FrequencyRoundTrip(f: nat)
    requires f <= 10800
    ensures ToV4l2(f) == 160 * f && FromV4l2(ToV4l2(f)) == f
  {
    assert f * 100000 < 0x1_0000_0000;
    assert f * 100000 == (f * 160) * 625;
    assert ToV4l2(f) == f * 160;
    assert (f * 160) * 625 == f * 100000;
  }

  /** There are 160 units of 62.5 Hz in 10 kHz; what is left over is dropped. */
  lemma FromUnits(f: U32)
    requires f * 625 < 0x1_0000_0000
    ensures FromV4l2(f) == f / 160
  {
    assert f == 160 * (f / 160) + f % 160;
    assert f * 625 == 100000 * (f / 160) + 625 * (f % 160);
  }

  /** The frequency in the range that is nearest. */
  function Clamp(f: nat): (r: nat)
    ensures 7600 <= f <= 10800 ==> r == f
    ensures f < 7600 ==> r == 7600
    ensures f > 10800 ==> r == 10800
  {
    if f < FREQ_RANGE_LOW then FREQ_RANGE_LOW else if f > FREQ_RANGE_HIGH then FREQ_RANGE_HIGH else f
  }

  class Device {
    const hasVdd: bool
    const hasVio: bool
    const irq: bool
    var power: bool
    var vdd: int
    var vio: int
    var frequency: nat
    var stereo: bool
    var rds: bool
    var rnl: nat
    var props: Props
    ghost var trace: seq<Sent>
    ghost var regulatorsOk: bool

    /** What every entry point keeps.  The regulators are enabled once while the chip is on and not while it is off,
        as long as no call of theirs has failed. */
    ghost predicate Valid()
      reads this
    {
      && Disciplined(trace) && frequency < 0x1_0000
      && (regulatorsOk ==> vdd == Count(hasVdd, power) && vio == Count(hasVio, power))
    }

    constructor (hasVdd: bool, hasVio: bool, irq: bool)
      ensures Valid() && !power && trace == [] && regulatorsOk && vdd == 0 && vio == 0
    {
      this.hasVdd, this.hasVio, this.irq := hasVdd, hasVio, irq;
      this.power, this.vdd, this.vio := false, 0, 0;
      this.frequency, this.stereo, this.rds, this.rnl := DEFAULT_FREQUENCY, true, false, DEFAULT_TUNE_RNL;
      this.props := _ => 0;
      this.trace, this.regulatorsOk := [], true;
    }

    /** si4713_send_command: it works, or fails with a negative code. */
    method Send(command: Command) returns (err: int)
      requires Disciplined(trace) && (command.PowerUp? <==> !power)
      modifies `trace
      ensures Disciplined(trace) && trace == old(trace) + [Sent(command, power)] && err <= 0
    {
      trace := trace + [Sent(command, power)];
      err :| err <= 0;
    }

    method EnableVdd() returns (err: int)
      modifies `vdd, `regulatorsOk
      ensures err <= 0 && regulatorsOk == (old(regulatorsOk) && err == 0)
      ensures vdd == old(vdd) + (if err == 0 then 1 else 0)
    {
      err :| err <= 0;
      if err == 0 { vdd := vdd + 1; } else { regulatorsOk := false; }
    }

    method EnableVio() returns (err: int)
      modifies `vio, `regulatorsOk
      ensures err <= 0 && regulatorsOk == (old(regulatorsOk) && err == 0)
      ensures vio == old(vio) + (if err == 0 then 1 else 0)
    {
      err :| err <= 0;
      if err == 0 { vio := vio + 1; } else { regulatorsOk := false; }
    }

    method DisableVdd() returns (err: int)
      modifies `vdd, `regulatorsOk
      ensures err <= 0 && regulatorsOk == (old(regulatorsOk) && err == 0)
      ensures vdd == old(vdd) - (if err == 0 then 1 else 0)
    {
      err :| err <= 0;
      if err == 0 { vdd := vdd - 1; } else { regulatorsOk := false; }
    }

    method DisableVio() returns (err: int)
      modifies `vio, `regulatorsOk
      ensures err <= 0 && regulatorsOk == (old(regulatorsOk) && err == 0)
      ensures vio == old(vio) - (if err == 0 then 1 else 0)
    {
      err :| err <= 0;
      if err == 0 { vio := vio - 1; } else { regulatorsOk := false; }
    }

    /** si4713_read_property. */
    method ReadProperty(p: Property) returns (err: int, value: bv16)
      requires Valid() && power
      modifies `trace
      ensures Valid() && err <= 0 && value == props(p)
      ensures trace == old(trace) + [Sent(GetProperty(p), true)]
    {
      err := Send(GetProperty(p));
      value := props(p);
    }

    /** si4713_write_property; after an error the chip may or may not have taken the value. */
    method WriteProperty(p: Property, value: bv16) returns (err: int)
      requires Valid() && power
      modifies `trace, `props
      ensures Valid() && err <= 0
      ensures trace == old(trace) + [Sent(SetProperty(p, value), true)]
      ensures err == 0 ==> props == Update(old(props), p, value)
      ensures props == old(props) || props == Update(old(props), p, value)
    {
      err := Send(SetProperty(p, value));
      var taken: bool := *;
      if err == 0 || taken {
        props := Update(props, p, value);
      }
    }

    /** si4713_powerup; `refused` says whether the chip refused to power up. */
    method PowerUpChip() returns (err: int, ghost refused: bool)
      requires Valid()
      modifies this
      ensures Valid() && err <= 0 && frequency == old(frequency) && stereo == old(stereo) && rds == old(rds)
      ensures old(trace) <= trace
      ensures old(power) ==> power && err == 0 && props == old(props)
      ensures !old(power) && power ==> |trace| > |old(trace)| && trace[|old(trace)|] == Sent(PowerUp, false)
      ensures !old(power) && power && irq && err == 0 ==> props(GpoIen) == 0x81
      ensures refused ==> !power
      ensures !refused && regulatorsOk ==> power
      ensures refused && regulatorsOk ==> (err == 0 <==> hasVdd || hasVio)
    {
      refused := false;
      if power {
        return 0, refused;
      }
      if hasVdd {
        err := EnableVdd();
        if err != 0 {
          return err, refused;
        }
      }
      if hasVio {
        err := EnableVio();
        if err != 0 {
          return err, refused;
        }
      }
      err := Send(PowerUp);
      if err == 0 {
        power := true;
        props := *;
        if irq {
          err := WriteProperty(GpoIen, 0x81);
        }
        return err, refused;
      }
      refused := true;
      if hasVdd {
        err := DisableVdd();
      }
      if hasVio {
        err := DisableVio();
      }
      return err, refused;
    }

    /** si4713_powerdown. */
    method PowerDownChip() returns (err: int)
      requires Valid()
      modifies this
      ensures Valid() && err <= 0 && props == old(props)
      ensures old(trace) <= trace
      ensures frequency == old(frequency) && stereo == old(stereo) && rds == old(rds)
      ensures err == 0 ==> !power
      ensures !old(power) ==> !power && err == 0 && trace == old(trace)
      ensures old(power) ==> trace == old(trace) + [Sent(PowerDown, true)]
    {
      if !power {
        return 0;
      }
      err := Send(PowerDown);
      if err == 0 {
        if hasVdd {
          err := DisableVdd();
        }
        if hasVio {
          err := DisableVio();
        }
        power := false;
      }
    }

    /** si4713_set_mute. */
    method SetMute(mute: bool) returns (err: int)
      requires Valid()
      modifies `trace, `props
      ensures Valid() && err <= 0
      ensures trace == old(trace) + if !power then []
                                    else [Sent(SetProperty(LineInputMute, if mute then 3 else 0), true)]
      ensures SameControlled(props, old(props))
      ensures err == 0 ==>
                props == if power then Update(old(props), LineInputMute, if mute then 3 else 0) else old(props)
    {
      err := 0;
      if power {
        err := WriteProperty(LineInputMute, if mute then 3 else 0);
      }
    }

    /** si4713_wait_stc: the status is asked for until the bit is set or the time is over. */
    method WaitStc() returns (err: int)
      requires Valid() && power
      modifies `trace
      ensures Valid() && err <= 0
      ensures old(trace) <= trace && PowerNever(trace, |old(trace)|)
    {
      var polls: nat :| true;
      while true
        invariant Valid()
        invariant old(trace) <= trace && PowerNever(trace, |old(trace)|)
        decreases polls
      {
        err := Send(GetIntStatus);
        var isSet, over: bool := *, *;
        if err == 0 && isSet {
          return 0;
        }
        if over || polls == 0 {
          return if err < 0 then err else -5;
        }
        polls := polls - 1;
      }
    }

    /** si4713_tx_tune_freq. */
    method TuneTo(f: nat) returns (r: int)
      requires Valid() && power && f < 0x1_0000
      modifies `trace
      ensures Valid() && (r < 0 || r == f)
      ensures old(trace) + [Sent(TuneFreq(f), true)] <= trace
    {
      r := Send(TuneFreq(f));
      if r < 0 {
        return r;
      }
      r := WaitStc();
      if r < 0 {
        return r;
      }
      return f;
    }

    /** si4713_tx_tune_power. */
    method SetPower() returns (err: int)
      requires Valid() && power
      modifies `trace
      ensures Valid() && err <= 0
      ensures old(trace) <= trace && PowerOnce(trace, |old(trace)|)
    {
      err := Send(TunePower);
      ghost var sent := trace;
      assert PowerOnce(sent, |old(trace)|) by {
        assert sent[|old(trace)|].command.TunePower?;
      }
      if err < 0 {
        return err;
      }
      err := WaitStc();
      PowerThen(sent, trace, |old(trace)|);
    }

    /** si4713_tx_tune_measure, for an antenna capacitance in range. */
    method Measure() returns (err: int)
      requires Valid() && power
      modifies `trace, `rnl
      ensures Valid() && err <= 0
      ensures old(trace) + [Sent(TuneMeasure, true)] <= trace && rnl == DEFAULT_TUNE_RNL
    {
      rnl := DEFAULT_TUNE_RNL;
      err := Send(TuneMeasure);
      if err < 0 {
        return err;
      }
      err := WaitStc();
    }

    /** si4713_tx_tune_status: `f` is the frequency that the chip answers. */
    method Status(f: nat) returns (err: int)
      requires Valid() && power && f < 0x1_0000
      modifies `trace, `frequency
      ensures Valid() && err <= 0 && frequency == if err == 0 then f else old(frequency)
      ensures trace == old(trace) + [Sent(TuneStatus, true)]
    {
      err := Send(TuneStatus);
      if err == 0 {
        frequency := f;
      }
    }

    /** si4713_set_rds_ps_name. */
    method SetPsName() returns (err: int)
      requires Valid()
      modifies `trace, `props
      ensures Valid() && err <= 0 && SameControlled(props, old(props))
      ensures old(trace) <= trace && PowerNever(trace, |old(trace)|)
      ensures power && err == 0 ==>
                && |trace| == |old(trace)| + 26 && props(RdsPsRepeatCount) == 6
                && forall k :: |old(trace)| <= k < |old(trace)| + 24 ==> trace[k] == Sent(RdsPs, true)
    {
      err := 0;
      if !power {
        return 0;
      }
      for i := 0 to PS_NAME_BLOCKS
        invariant Valid() && props == old(props)
        invariant old(trace) <= trace && |trace| == |old(trace)| + i
        invariant forall k :: |old(trace)| <= k < |trace| ==> trace[k] == Sent(RdsPs, true)
      {
        err := Send(RdsPs);
        if err < 0 {
          return err;
        }
      }
      var blocks: bv16 := *;
      err := WriteProperty(RdsPsMessageCount, blocks);
      if err < 0 {
        return err;
      }
      err := WriteProperty(RdsPsRepeatCount, 6);
    }

    /** si4713_set_rds_radio_text: the buffer is cleared and then loaded block by block. */
    method SetRadioText() returns (err: int)
      requires Valid()
      modifies `trace
      ensures Valid() && err <= 0
      ensures old(trace) <= trace && PowerNever(trace, |old(trace)|)
      ensures power ==> |trace| > |old(trace)| && trace[|old(trace)|] == Sent(RdsBuff, true)
    {
      err := 0;
      if !power {
        return 0;
      }
      err := Send(RdsBuff);
      var blocks: nat :| true;
      for i := 0 to blocks
        invariant Valid() && err <= 0
        invariant old(trace) + [Sent(RdsBuff, true)] <= trace && PowerNever(trace, |old(trace)|)
      {
        if err < 0 {
          return err;
        }
        err := Send(RdsBuff);
      }
    }

    /** si4713_s_frequency. */
    method SFrequency(tuner: nat, f: U32) returns (ret: int)
      requires Valid()
      modifies `trace, `frequency
      ensures Valid() && ret <= 0
      ensures old(trace) <= trace
      ensures ret == 0 ==> frequency == Clamp(FromV4l2(f))
      ensures ret < 0 ==> frequency == old(frequency)
      ensures tuner == 0 && !power ==> ret == 0
      ensures tuner == 0 && power ==> SentSince(trace, |old(trace)|, TuneFreq(Clamp(FromV4l2(f))))
      ensures tuner != 0 || !power ==> trace == old(trace)
    {
      if tuner != 0 {
        return -EINVAL;
      }
      var wanted := Clamp(FromV4l2(f));
      ret := 0;
      if power {
        ret := TuneTo(wanted);
        assert trace[|old(trace)|] == Sent(TuneFreq(wanted), true);
        if ret < 0 {
          return ret;
        }
        wanted := ret;
        ret := 0;
      }
      frequency := wanted;
    }

    /** si4713_g_frequency; `answer` is the frequency that the chip says. */
    method GFrequency(tuner: nat, answer: nat) returns (ret: int, f: U32)
      requires Valid() && answer < 0x1_0000
      modifies `trace, `frequency
      ensures Valid() && ret <= 0
      ensures ret == 0 ==> f == ToV4l2(frequency) && frequency == if power then answer else old(frequency)
      ensures ret < 0 ==> frequency == old(frequency)
      ensures tuner != 0 ==> ret == -EINVAL
      ensures tuner == 0 && !power ==> ret == 0
      ensures trace == old(trace) + if tuner == 0 && power then [Sent(TuneStatus, true)] else []
    {
      f := 0;
      if tuner != 0 {
        return -EINVAL, f;
      }
      ret := 0;
      if power {
        ret := Status(answer);
        if ret < 0 {
          return ret, f;
        }
      }
      f := ToV4l2(frequency);
    }

    /** si4713_s_modulator. */
    method SModulator(index: nat, wantStereo: bool, wantMono: bool, wantRds: bool) returns (ret: int)
      requires Valid()
      modifies `trace, `props, `stereo, `rds
      ensures Valid() && ret <= 0
      ensures old(trace) <= trace
      ensures ret == 0 ==> stereo == wantStereo && rds == wantRds
      ensures ret < 0 ==> stereo == old(stereo) && rds == old(rds)
      ensures ret == 0 ==>
                props == if power then Apply(old(props), Modulator(stereo, rds)).value else old(props)
      ensures props == old(props) || props == Apply(old(props), Modulator(wantStereo, wantRds)).value
      ensures index == 0 && (wantStereo || wantMono) && !power ==> ret == 0
      ensures index == 0 && (wantStereo || wantMono) && power ==>
                SentSince(trace, |old(trace)|, GetProperty(ComponentEnable))
      ensures ret == 0 && power ==>
                SentSince(trace, |old(trace)|, SetProperty(ComponentEnable, props(ComponentEnable)))
      ensures index != 0 || !(wantStereo || wantMono) ==> ret == -EINVAL && trace == old(trace)
    {
      if index > 0 {
        return -EINVAL;
      }
      if !wantStereo && !wantMono {
        return -EINVAL;
      }
      ret := 0;
      if power {
        var p;
        ret, p := ReadProperty(ComponentEnable);
        assert trace[|old(trace)|] == Sent(GetProperty(ComponentEnable), true);
        if ret < 0 {
          return ret;
        }
        p := SetBits(p, One(wantStereo), 1, 0x2);
        p := SetBits(p, One(wantRds), 2, 0x4);
        ret := WriteProperty(ComponentEnable, p);
        assert trace[|old(trace)|] == Sent(GetProperty(ComponentEnable), true);
        assert trace[|old(trace)| + 1] == Sent(SetProperty(ComponentEnable, p), true);
        if ret < 0 {
          return ret;
        }
      }
      stereo, rds := wantStereo, wantRds;
    }

    /** si4713_g_modulator. */
    method GModulator(index: nat) returns (ret: int, isStereo: bool, isRds: bool)
      requires Valid()
      modifies `trace, `stereo
      ensures Valid() && ret <= 0
      ensures old(trace) <= trace
      ensures index > 0 ==> ret == -EINVAL && trace == old(trace)
      ensures ret < 0 || !power ==> stereo == old(stereo)
      ensures ret == 0 ==> isStereo == stereo && isRds == rds
      ensures ret == 0 && power ==> (stereo <==> Get(props(ComponentEnable), StereoField) == 1)
    {
      isStereo, isRds := false, false;
      if index > 0 {
        return -EINVAL, isStereo, isRds;
      }
      ret := 0;
      if power {
        var p;
        ret, p := ReadProperty(ComponentEnable);
        if ret < 0 {
          return ret, isStereo, isRds;
        }
        stereo := (p & 0x2) >> 1 != 0;
        StereoBit(p);
      }
      isStereo, isRds := stereo, rds;
    }

    /** si4713_ioctl; `f` and `noise` are what the chip answers. */
    method Ioctl(measure: bool, f: nat, noise: nat) returns (ret: int)
      requires Valid() && f < 0x1_0000
      modifies `trace, `frequency, `rnl
      ensures Valid() && ret <= 0
      ensures old(trace) <= trace
      ensures !measure ==> ret == -ENOIOCTLCMD && frequency == old(frequency) && trace == old(trace)
      ensures !power && measure ==> ret == 0 && rnl == old(rnl) && trace == old(trace)
      ensures power && measure ==>
                && |trace| > |old(trace)| && trace[|old(trace)|] == Sent(TuneMeasure, true)
                && (if ret == 0 then rnl == noise && frequency == f && trace[|trace| - 1] == Sent(TuneStatus, true)
                    else rnl == 0xFF && frequency == old(frequency))
    {
      if !measure {
        return -ENOIOCTLCMD;
      }
      ret := 0;
      if power {
        ret := Measure();
        if ret < 0 {
          return ret;
        }
        ret := Status(f);
        if ret < 0 {
          return ret;
        }
        rnl := noise;
      }
    }

    /** The value of a control is scaled or looked up. */
    method Convert(vars: Vars, val: U32) returns (r: Option<U32>)
      ensures r == Converted(vars, val)
    {
      if vars.mul != 0 {
        return Some(val / vars.mul);
      }
      if vars.table != [] {
        r := UsecsToDev(val, vars.table);
        return;
      }
      return Some(val);
    }

    /** The part of si4713_s_ctrl for a control of the general kind: the variables `vars` were left by the controls
        `before` of the call. */
    method WriteControl(c: Control, vars: Vars, ghost before: seq<Id>) returns (ret: int, left: Vars)
      requires Valid() && power && Accepted(before) && vars == Left(before) && Ranged(c)
      modifies `trace, `props
      ensures Valid() && ret <= 0
      ensures old(trace) <= trace
      ensures PowerNever(trace, |old(trace)|)
      ensures !General(c.id) ==> ret == -EINVAL && props == old(props) && trace == old(trace)
      ensures ret == 0 ==> Accepted(before + [c.id]) && left == Left(before + [c.id])
      ensures ret == 0 ==>
                var w := Write.Control(before, c.id, c.val);
                InRange(w) && Apply(old(props), w).Some? && props == Apply(old(props), w).value
      ensures ret == 0 && !Masked(c.id) && Unspoilt(before, c.id) ==>
                && Stores(c.id, c.val, props(TargetOf(c.id)))
                && props == Update(old(props), TargetOf(c.id), props(TargetOf(c.id)))
    {
      hide Masked, Choose, SetBits, Bits, PlaceOf, Converted, Left, Accepted, Disciplined, TargetOf, Stores, Unspoilt,
        General;
      Kinds(vars, c.id);
      ghost var w := Write.Control(before, c.id, c.val);
      var chosen := Choose(vars, c.id);
      if chosen.None? {
        IsGeneral(c.id);
        return -EINVAL, vars;
      }
      left := chosen.value;
      Chosen(before, c.id);
      IsGeneral(c.id);
      ChosenTarget(vars, c.id);
      var converted := Convert(left, c.val);
      if converted.None? {
        return -EINVAL, left;
      }
      var bits := Bits(converted.value);
      if left.mask != 0 {
        var p;
        ret, p := ReadProperty(left.property);
        if ret < 0 {
          return ret, left;
        }
        bits := SetBits(p, Bits(c.val), left.bit, left.mask);
      }
      ret := WriteProperty(left.property, bits);
      assert NewValue(left, c.val, old(props)(left.property)) == Some(bits);
      if ret == 0 && !Masked(c.id) && Unspoilt(before, c.id) {
        UnspoiltValue(before, c.id, c.val, old(props)(left.property));
      }
    }

    /** The alternative frequencies are written as one property. */
    method SetAltFreqs() returns (ret: int)
      requires Valid() && power
      modifies `trace, `props
      ensures Valid() && ret <= 0 && SameControlled(props, old(props))
      ensures old(trace) <= trace && PowerNever(trace, |old(trace)|)
      ensures && |trace| == |old(trace)| + 1 && trace[|old(trace)|].command.SetProperty?
              && trace[|old(trace)|].command.property == RdsPsAf
    {
      var af: bv16 := *;
      ret := WriteProperty(RdsPsAf, af);
    }

    /** The controls that the loop of si4713_s_ctrl handles one by one. */
    method HandleSpecial(id: Id, force: bool) returns (ret: int)
      requires Valid() && power && Special(id)
      modifies `trace, `props
      ensures Valid() && ret <= 0 && SameControlled(props, old(props))
      ensures old(trace) <= trace
      ensures if SetsPower(id, force) then PowerOnce(trace, |old(trace)|) else PowerNever(trace, |old(trace)|)
      ensures id.PsName? && ret == 0 ==> |trace| == |old(trace)| + 26 && trace[|old(trace)|] == Sent(RdsPs, true)
      ensures id.RadioText? ==> |trace| > |old(trace)| && trace[|old(trace)|] == Sent(RdsBuff, true)
      ensures id.AltFreqs? || id.AltFreqsEnable? ==>
                && |trace| == |old(trace)| + 1 && trace[|old(trace)|].command.SetProperty?
                && trace[|old(trace)|].command.property == RdsPsAf
    {
      hide Disciplined, Count, PowerOnce, PowerNever, SameControlled;
      NothingSent(trace);
      SameSelf(props);
      ret := 0;
      if id.PsName? {
        ret := SetPsName();
      } else if id.RadioText? {
        ret := SetRadioText();
      } else if id.AntennaCapacitor? {
        if !force {
          ret := SetPower();
        }
      } else if id.PowerLevel? {
        ret := SetPower();
      } else {
        ret := SetAltFreqs();
      }
    }

    /** The body of the loop of si4713_s_ctrl. */
    method HandleControl(c: Control, vars: Vars, ghost before: seq<Id>, force: bool)
      returns (ret: int, left: Vars, ghost after: seq<Id>)
      requires Valid() && power && Accepted(before) && vars == Left(before) && Ranged(c)
      modifies `trace, `props
      ensures Valid() && ret <= 0
      ensures old(trace) <= trace
      ensures if SetsPower(c.id, force) then PowerOnce(trace, |old(trace)|) else PowerNever(trace, |old(trace)|)
      ensures ret == 0 ==> Accepted(after) && left == Left(after)
      ensures ret == 0 ==> after == before + if General(c.id) then [c.id] else []
      ensures ret == 0 && !General(c.id) ==> Special(c.id) && SameControlled(props, old(props))
      ensures ret == 0 && General(c.id) ==>
                var w := Write.Control(before, c.id, c.val);
                InRange(w) && Apply(old(props), w).Some? && props == Apply(old(props), w).value
    {
      hide Apply, PlaceOf, Accepted, Left, General, Ranged, Disciplined, Count, InRange, PowerOnce, PowerNever,
        SameControlled;
      SpecialIds(c.id);
      ret, left, after := 0, vars, before;
      if Special(c.id) {
        ret := HandleSpecial(c.id, force);
      } else {
        ret, left := WriteControl(c, vars, before);
        after := before + [c.id];
      }
    }

    /** The loop of si4713_s_ctrl over the controls of the cluster; `ws` are the writes of its
        scaled, masked and tabled controls. */
    method HandleControls(controls: seq<Control>, force: bool) returns (ret: int, ghost ws: seq<Write>)
      requires Valid() && power && |controls| > 0 && AllRanged(controls)
      modifies `trace, `props
      ensures Valid() && ret <= 0 && AllInRange(ws)
      ensures old(trace) <= trace
      ensures ret == 0 ==> InOrder(ws) && Pairs(ws) == Wanted(controls, 1, force)
      ensures ret == 0 && Distinct(controls) ==>
                if PowerWanted(controls, 1, force) then PowerOnce(trace, |old(trace)|)
                else PowerNever(trace, |old(trace)|)
      ensures ret == 0 ==> Run(old(props), ws).Some? && SameControlled(props, Run(old(props), ws).value)
    {
      hide Apply, Run, InRange, Masked, General, Ranged, Choose, Left, Accepted, SameControlled, Tunes, Wanted, Pairs,
        Disciplined, Count, SetsPower, PowerWanted, PowerOnce, PowerNever, Distinct;
      var cs := controls;
      var vars := FRESH;
      ghost var before: seq<Id> := [];
      NothingLeft();
      ws, ret := [], 0;
      ghost var packed := props;
      NothingRun(props);
      NoPairs();
      NothingSent(trace);
      ghost var start := props;
      var k := 1;
      while ret == 0 && k < |cs|
        invariant Valid() && ret <= 0 && 1 <= k <= |cs| == |controls| && AllRanged(cs)
        invariant old(trace) <= trace
        invariant AllInRange(ws)
        invariant ret == 0 ==> Accepted(before) && vars == Left(before)
        invariant ret == 0 ==> InOrder(ws) && |before| == |ws| && forall i :: 0 <= i < |ws| ==> before[i] == ws[i].id
        invariant Distinct(controls) ==> Distinct(cs)
        invariant ret == 0 && Distinct(controls) ==>
                    if PowerWanted(controls, 1, force) <==> PowerWanted(cs, k, force)
                    then PowerNever(trace, |old(trace)|)
                    else PowerOnce(trace, |old(trace)|) && PowerWanted(controls, 1, force)
        invariant ret == 0 ==> Pairs(ws) + Wanted(cs, k, force) == Wanted(controls, 1, force)
        invariant ret == 0 ==> Run(start, ws) == Some(packed) && SameControlled(props, packed)
        decreases |cs| - k
      {
        var c := cs[k];
        assert Ranged(c);
        if force || c.isNew {
          ghost var was := props;
          ghost var earlier := before;
          ghost var sent := trace;
          ret, vars, before := HandleControl(c, vars, before, force);
          PowerThen(sent, trace, |old(trace)|);
          if ret == 0 {
            if SetsPower(c.id, force) && Distinct(controls) {
              NoMorePower(cs, k, force);
            } else if !SetsPower(c.id, force) {
              NextPower(cs, k, force);
            }
          }
          if ret == 0 {
            if General(c.id) {
              ghost var w := Write.Control(earlier, c.id, c.val);
              SameApply(was, packed, w);
              RunLast(start, ws, w);
              packed := Apply(packed, w).value;
              PairsLast(ws, w);
              ws := ws + [w];
            } else {
              SameTrans(props, was, packed);
            }
            Next(cs, k, force);
            if SetsPower(c.id, force) {
              SettledWanted(cs, k + 1, force);
              SettledRanged(cs);
              SettledDistinct(cs);
              cs := Settled(cs);
            }
          }
        } else {
          Next(cs, k, force);
          NextPower(cs, k, force);
        }
        k := k + 1;
      }
      NoMore(cs, k, force);
    }

    /** si4713_s_ctrl; `start` is what the chip holds when the controls come to be written. */
    method SCtrl(controls: seq<Control>) returns (ret: int, ghost ws: seq<Write>, ghost start: Props)
      requires Valid() && |controls| > 0 && AllRanged(controls)
      modifies this
      ensures Valid() && ret <= 0 && AllInRange(ws)
      ensures old(trace) <= trace
      ensures !controls[0].id.Mute? ==>
                ret == -EINVAL && power == old(power) && props == old(props) && trace == old(trace)
      ensures controls[0].id.Mute? && !controls[0].isNew ==> power == old(power)
      ensures Mutes(controls) && ret == 0 ==>
                && !power
                && trace == old(trace) + if !old(power) then []
                                         else [Sent(SetProperty(LineInputMute, 3), true), Sent(PowerDown, true)]
      ensures controls[0].id.Mute? && !controls[0].isNew && !old(power) ==>
                ret == 0 && props == old(props) && trace == old(trace)
      ensures controls[0].id.Mute? && !controls[0].isNew && old(power) && ret == 0 && Distinct(controls) ==>
                if PowerWanted(controls, 1, false) then PowerOnce(trace, |old(trace)|)
                else PowerNever(trace, |old(trace)|)
      ensures controls[0].id.Mute? && !Mutes(controls) && power && ret == 0 ==>
                && InOrder(ws) && Pairs(ws) == Wanted(controls, 1, controls[0].isNew)
                && Run(start, ws).Some? && SameControlled(props, Run(start, ws).value)
      ensures !controls[0].isNew ==> start == old(props)
      ensures controls[0].id.Mute? && controls[0].isNew && !Mutes(controls) && power && ret == 0 ==>
                && SentSince(trace, |old(trace)|, SetProperty(LineInputMute, 0))
                && SentSince(trace, |old(trace)|, TuneFreq(frequency))
                && SentSince(trace, |old(trace)|, GetProperty(ComponentEnable))
      ensures old(power) && !Mutes(controls) ==>
                || SameControlled(start, old(props))
                || SameControlled(start, Apply(old(props), Modulator(stereo, rds)).value)
    {
      hide Wanted, Run, InRange, Apply, SameControlled, PowerWanted, PowerOnce, PowerNever, Distinct;
      ws, ret, start := [], 0, props;
      SameSelf(props);
      var force := false;
      if !controls[0].id.Mute? {
        return -EINVAL, ws, start;
      }
      if controls[0].isNew {
        if controls[0].val != 0 {
          ret := SetMute(true);
          if ret == 0 {
            ret := PowerDownChip();
          }
          return ret, ws, start;
        }
        ret := Unmute();
        start := props;
        if ret != 0 {
          return ret, ws, start;
        }
        force := true;
      }
      if !power {
        return 0, ws, start;
      }
      ghost var sent := trace;
      ret, ws := HandleControls(controls, force);
      if force {
        StaysSent(sent, trace, |old(trace)|, SetProperty(LineInputMute, 0));
        StaysSent(sent, trace, |old(trace)|, TuneFreq(frequency));
        StaysSent(sent, trace, |old(trace)|, GetProperty(ComponentEnable));
      }
    }

    /** What si4713_s_ctrl does first when the mute is taken off. */
    method Unmute() returns (ret: int)
      requires Valid()
      modifies this
      ensures Valid() && ret <= 0 && stereo == old(stereo) && rds == old(rds) && (old(power) ==> power)
      ensures old(trace) <= trace
      ensures ret == 0 && power ==>
                && SentSince(trace, |old(trace)|, SetProperty(LineInputMute, 0))
                && SentSince(trace, |old(trace)|, TuneFreq(frequency))
                && SentSince(trace, |old(trace)|, GetProperty(ComponentEnable))
      ensures old(power) ==>
                || SameControlled(props, old(props))
                || SameControlled(props, Apply(old(props), Modulator(stereo, rds)).value)
    {
      hide Apply, SameControlled;
      SameSelf(props);
      ghost var refused;
      ret, refused := PowerUpChip();
      if ret != 0 {
        return;
      }
      ghost var n := |trace|;
      ret := SetMute(false);
      if ret != 0 {
        return;
      }
      assert power ==> trace[n] == Sent(SetProperty(LineInputMute, 0), true);
      ghost var unmuted := props;
      ghost var sent := trace;
      ret := Setup();
      if power {
        StaysSent(sent, trace, |old(trace)|, SetProperty(LineInputMute, 0));
      }
      if old(power) {
        SameModulator(unmuted, old(props), stereo, rds);
      }
    }

    /** si4713_setup. */
    method Setup() returns (ret: int)
      requires Valid()
      modifies `trace, `props, `stereo, `rds, `frequency
      ensures Valid() && ret <= 0 && stereo == old(stereo) && rds == old(rds)
      ensures old(trace) <= trace
      ensures 7600 <= old(frequency) <= 10800 ==> frequency == old(frequency)
      ensures ret == 0 && power ==> SentSince(trace, |old(trace)|, TuneFreq(frequency))
      ensures power ==> SentSince(trace, |old(trace)|, GetProperty(ComponentEnable))
      ensures props == old(props) || props == Apply(old(props), Modulator(stereo, rds)).value
    {
      var f := ToV4l2(if frequency != 0 then frequency else DEFAULT_FREQUENCY);
      if FREQ_RANGE_LOW <= frequency <= FREQ_RANGE_HIGH {
        FrequencyRoundTrip(frequency);
      }
      ret := SFrequency(0, f);
      ghost var tuned := trace;
      var ignored := SModulator(0, stereo, !stereo, rds);
      if ret == 0 && power {
        StaysSent(tuned, trace, |old(trace)|, TuneFreq(frequency));
      }
    }

    /** Any calls of the entry points, one after the other: every one keeps the discipline and the regulators. */
    method RunAll(calls: seq<EntryPoint>)
      requires Valid() && forall i :: 0 <= i < |calls| && calls[i].SetControls? ==>
                                        |calls[i].controls| > 0 && AllRanged(calls[i].controls)
      modifies this
      ensures Valid()
      ensures old(trace) <= trace
    {
      for i := 0 to |calls|
        invariant Valid()
        invariant old(trace) <= trace
      {
        match calls[i] {
          case SetControls(controls) =>
            var ret, ws, start := SCtrl(controls);
          case PrivateIoctl(measure, f, noise) =>
            var ret := Ioctl(measure, f % 0x1_0000, noise);
          case GetModulator(index) =>
            var ret, a, b := GModulator(index);
          case SetModulator(index, a, b, c) =>
            var ret := SModulator(index, a, b, c);
          case GetFrequency(tuner, answer) =>
            var ret, f := GFrequency(tuner, answer % 0x1_0000);
          case SetFrequency(tuner, f) =>
            var ret := SFrequency(tuner, f);
        }
      }
    }
  }

  /** A call of one of the entry points, with what the chip answers about frequency and noise, where it is asked. */
  datatype EntryPoint = SetControls(controls: seq<Control>) | PrivateIoctl(measure: bool, answer: nat, noise: nat)
                      | GetModulator(index: nat) | SetModulator(index: nat, stereo: bool, mono: bool, rds: bool)
                      | GetFrequency(tuner: nat, answer: nat) | SetFrequency(tuner: nat, frequency: U32)

  lemma NothingLeft()
    ensures Accepted([]) && Left([]) == FRESH
  {
  }

  lemma NoPairs()
    ensures Pairs([]) == []
  {
  }

  lemma PairsLast(ws: seq<Write>, w: Write)
    requires w.Control?
    ensures Pairs(ws + [w]) == Pairs(ws) + [(w.id, w.val)]
  {
    assert (ws + [w])[..|ws|] == ws;
  }

  lemma NoMore(cs: seq<Control>, k: nat, force: bool)
    ensures k >= |cs| ==> Wanted(cs, k, force) == [] && !PowerWanted(cs, k, force)
  {
  }

  lemma NothingRun(props: Props)
    ensures AllInRange([]) && Run(props, []) == Some(props) && SameControlled(props, props)
  {
  }

  lemma SameSelf(a: Props)
    ensures SameControlled(a, a)
  {}

  lemma SameModulator(a: Props, b: Props, stereo: bool, rds: bool)
    requires SameControlled(a, b)
    ensures SameControlled(Apply(a, Modulator(stereo, rds)).value, Apply(b, Modulator(stereo, rds)).value)
  {
    SameApply(a, b, Modulator(stereo, rds));
  }

  lemma SameTrans(a: Props, b: Props, c: Props)
    requires SameControlled(a, b) && SameControlled(b, c)
    ensures SameControlled(a, c)
  {
  }

  lemma Next(cs: seq<Control>, k: nat, force: bool)
    requires k < |cs|
    ensures Wanted(cs, k, force)
            == (if (force || cs[k].isNew) && General(cs[k].id) then [(cs[k].id, cs[k].val)] else [])
               + Wanted(cs, k + 1, force)
  {
  }

  lemma SettledDistinct(cs: seq<Control>)
    ensures Distinct(cs) ==> Distinct(Settled(cs))
  {
  }

  lemma NothingSent(trace: seq<Sent>)
    ensures PowerNever(trace, |trace|)
  {
  }

  lemma SettledRanged(cs: seq<Control>)
    requires AllRanged(cs)
    ensures AllRanged(Settled(cs))
  {
    hide PlaceOf, Masked, Bits;
    forall i | 0 <= i < |cs| ensures Ranged(Settled(cs)[i]) {
      assert Ranged(cs[i]);
    }
  }

  lemma SpecialIds(id: Id)
    ensures Special(id) ==> !General(id)
  {
  }

  lemma IsGeneral(id: Id)
    ensures General(id) <==> Scaled(id) || Masked(id) || Tabled(id)
  {
  }

  /** The control adds itself to those that leave something behind. */
  lemma Chosen(before: seq<Id>, id: Id)
    requires Accepted(before) && Choose(Left(before), id).Some?
    ensures Accepted(before + [id]) && Left(before + [id]) == Choose(Left(before), id).value
    ensures Choose(Left(before), id).value.bit < 16
  {
    hide Masked;
    Kinds(Left(before), id);
    Kinds(FRESH, id);
    assert (before + [id])[..|before|] == before;
  }

  lemma StereoBit(p: bv16)
    ensures (p & 0x2) >> 1 != 0 <==> Get(p, StereoField) == 1
  {
    assert FieldMask(StereoField) == 0x2;
  }
}
