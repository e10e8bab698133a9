/** The controls of the Si4713 FM transmitter: which property of the chip a control is written to, and the value
    that is written, given what the earlier controls of the same call left in the local variables. */
module Si4713Controls {
  import opened Common

  datatype Property =
    | RdsPi | AcompThreshold | AcompGain | PilotFrequency | AcompAttackTime | PilotDeviation | AudioDeviation
    | RdsDeviation | RdsPsMisc | AcompEnable | ComponentEnable | LimiterReleaseTime | AcompReleaseTime | Preemphasis
    | LineInputMute | RdsPsAf | RdsPsMessageCount | RdsPsRepeatCount | GpoIen

  /** The controls.  The first eight are scaled, the next eleven are fields of a packed property, the next three
      go through a table, and the rest are handled one by one. */
  datatype Id =
    | Pi | CompressionThreshold | CompressionGain | PilotToneFrequency | CompressionAttackTime | PilotToneDeviation
    | LimiterDeviation | RdsTxDeviation
    | Pty | DynamicPty | Compressed | ArtificialHead | MonoStereo | TrafficProgram | TrafficAnnouncement | MusicSpeech
    | LimiterEnabled | CompressionEnabled | PilotToneEnabled
    | LimiterRelease | CompressionRelease | TunePreemphasis
    | Mute | PsName | RadioText | AntennaCapacitor | PowerLevel | AltFreqsEnable | AltFreqs | Unknown

  predicate Scaled(id: Id) {
    id.Pi? || id.CompressionThreshold? || id.CompressionGain? || id.PilotToneFrequency? || id.CompressionAttackTime? ||
    id.PilotToneDeviation? || id.LimiterDeviation? || id.RdsTxDeviation?
  }

  predicate Masked(id: Id) {
    id.Pty? || id.DynamicPty? || id.Compressed? || id.ArtificialHead? || id.MonoStereo? || id.TrafficProgram? ||
    id.TrafficAnnouncement? || id.MusicSpeech? || id.LimiterEnabled? || id.CompressionEnabled? ||
    id.PilotToneEnabled?
  }

  predicate Tabled(id: Id) {
    id.LimiterRelease? || id.CompressionRelease? || id.TunePreemphasis?
  }

  /** A control that is written to a property by the general rule. */
  predicate General(id: Id) {
    Scaled(id) || Masked(id) || Tabled(id)
  }

  /** The value of a control, as the unsigned 32-bit number that it is converted to. */
  type U32 = x: int | 0 <= x < 0x1_0000_0000

  /** A table of device values and times, sorted by time. */
  type Table = seq<(U32, U32)>

  const LIMITER_TIMES: Table :=
    [(2000, 250), (1000, 500), (510, 1000), (255, 2000), (170, 3000), (127, 4020), (102, 5010), (85, 6020), (73, 7010),
     (64, 7990), (57, 8970), (51, 10030), (25, 20470), (17, 30110), (13, 39380), (10, 51190), (8, 63690), (7, 73140),
     (6, 85330), (5, 102390)]
  const ACOMP_RTIMES: Table := [(0, 100000), (1, 200000), (2, 350000), (3, 525000), (4, 1000000)]
  const PREEMPHASIS_VALUES: Table := [(2, 0), (1, 1), (0, 2)]

  // ----- what a control means -----

  /** The property that a control is for. */
  function TargetOf(id: Id): Property
    requires General(id)
  {
    match id
    case Pi => RdsPi
    case CompressionThreshold => AcompThreshold
    case CompressionGain => AcompGain
    case PilotToneFrequency => PilotFrequency
    case CompressionAttackTime => AcompAttackTime
    case PilotToneDeviation => PilotDeviation
    case LimiterDeviation => AudioDeviation
    case RdsTxDeviation => RdsDeviation
    case Pty | DynamicPty | Compressed | ArtificialHead | MonoStereo | TrafficProgram | TrafficAnnouncement
    | MusicSpeech => RdsPsMisc
    case LimiterEnabled | CompressionEnabled => AcompEnable
    case PilotToneEnabled => ComponentEnable
    case LimiterRelease => LimiterReleaseTime
    case CompressionRelease => AcompReleaseTime
    case TunePreemphasis => Preemphasis
  }

  /** How much of a scaled control makes one unit of its property. */
  function UnitOf(id: Id): U32
    requires Scaled(id)
  {
    if id.CompressionAttackTime? then 500
    else if id.PilotToneDeviation? || id.LimiterDeviation? then 10
    else 1
  }

  function TimesOf(id: Id): Table
    requires Tabled(id)
  {
    if id.LimiterRelease? then LIMITER_TIMES else if id.CompressionRelease? then ACOMP_RTIMES else PREEMPHASIS_VALUES
  }

  /** The entry of the shortest time in the table that is not less than `usecs`. */
  ghost predicate Nearest(table: Table, usecs: U32, i: nat) {
    && i < |table| && usecs <= table[i].1
    && forall j :: 0 <= j < |table| && usecs <= table[j].1 ==> table[i].1 <= table[j].1
  }

  /** `x` stands for the value `val` of a scaled or tabled control. */
  ghost predicate Stores(id: Id, val: U32, x: bv16)
    requires Scaled(id) || Tabled(id)
  {
    if Scaled(id) then x == Bits(val / UnitOf(id))
    else exists i: nat :: Nearest(TimesOf(id), val, i) && x == Bits(TimesOf(id)[i].0)
  }

  ghost predicate Sorted(table: Table) {
    forall i, j :: 0 <= i < j < |table| ==> table[i].1 < table[j].1
  }

  /** The release time of the limiter is about 512 ms divided by the device value. */
  lemma LimiterContents()
    ensures Sorted(LIMITER_TIMES)
    ensures forall i :: 0 <= i < |LIMITER_TIMES| ==> 500000 <= LIMITER_TIMES[i].0 * LIMITER_TIMES[i].1 <= 512000
  {
  }

  /** The device values for compression number the entries, and those for pre-emphasis do so backwards. */
  lemma OtherContents()
    ensures Sorted(ACOMP_RTIMES) && Sorted(PREEMPHASIS_VALUES)
    ensures forall i :: 0 <= i < |ACOMP_RTIMES| ==> ACOMP_RTIMES[i].0 == i
    ensures |PREEMPHASIS_VALUES| == 3
            && forall i :: 0 <= i < 3 ==> PREEMPHASIS_VALUES[i].0 == 2 - i && PREEMPHASIS_VALUES[i].1 == i
  {
  }

  /** The local variables of si4713_s_ctrl that stay from one control of a call to the next; an empty table is a
      null pointer. */
  datatype Vars = Vars(bit: bv16, mask: bv16, property: Property, mul: U32, table: Table)

  const FRESH := Vars(0, 0, RdsPi, 0, [])

  /** si4713_choose_econtrol_action; none is -EINVAL. */
  function Choose(v: Vars, id: Id): Option<Vars> {
    match id
    case Pi => Some(v.(property := RdsPi, mul := 1))
    case CompressionThreshold => Some(v.(property := AcompThreshold, mul := 1))
    case CompressionGain => Some(v.(property := AcompGain, mul := 1))
    case PilotToneFrequency => Some(v.(property := PilotFrequency, mul := 1))
    case CompressionAttackTime => Some(v.(property := AcompAttackTime, mul := 500))
    case PilotToneDeviation => Some(v.(property := PilotDeviation, mul := 10))
    case LimiterDeviation => Some(v.(property := AudioDeviation, mul := 10))
    case RdsTxDeviation => Some(v.(property := RdsDeviation, mul := 1))
    case Pty => Some(v.(property := RdsPsMisc, bit := 5, mask := 0x3E0))
    case DynamicPty => Some(v.(property := RdsPsMisc, bit := 15, mask := 0x8000))
    case Compressed => Some(v.(property := RdsPsMisc, bit := 14, mask := 0x4000))
    case ArtificialHead => Some(v.(property := RdsPsMisc, bit := 13, mask := 0x2000))
    case MonoStereo => Some(v.(property := RdsPsMisc, bit := 12, mask := 0x1000))
    case TrafficProgram => Some(v.(property := RdsPsMisc, bit := 10, mask := 0x400))
    case TrafficAnnouncement => Some(v.(property := RdsPsMisc, bit := 4, mask := 0x10))
    case MusicSpeech => Some(v.(property := RdsPsMisc, bit := 3, mask := 0x8))
    case LimiterEnabled => Some(v.(property := AcompEnable, bit := 1, mask := 0x2))
    case CompressionEnabled => Some(v.(property := AcompEnable, bit := 0, mask := 0x1))
    case PilotToneEnabled => Some(v.(property := ComponentEnable, bit := 0, mask := 0x1))
    case LimiterRelease => Some(v.(property := LimiterReleaseTime, table := LIMITER_TIMES))
    case CompressionRelease => Some(v.(property := AcompReleaseTime, table := ACOMP_RTIMES))
    case TunePreemphasis => Some(v.(property := Preemphasis, table := PREEMPHASIS_VALUES))
    case _ => None
  }

  /** The first entry whose time is not less; none is -EINVAL. */
  function DeviceValue(table: Table, usecs: U32): Option<U32> {
    if table == [] then None
    else if table[0].1 >= usecs then Some(table[0].0)
    else DeviceValue(table[1..], usecs)
  }

  /** usecs_to_dev. */
  method UsecsToDev(usecs: U32, table: Table) returns (r: Option<U32>)
    ensures r == DeviceValue(table, usecs)
  {
    r := None;
    var i := 0;
    while i < |table|
      invariant 0 <= i <= |table|
      invariant DeviceValue(table[i..], usecs) == DeviceValue(table, usecs)
    {
      assert table[i..][0] == table[i] && table[i..][1..] == table[i + 1..];
      if table[i].1 >= usecs {
        return Some(table[i].0);
      }
      i := i + 1;
    }
  }

  /** A property is written as 16 bits, so these are the bits of a number that matter. */
  function Bits(x: U32): bv16 {
    (x % 0x1_0000) as bv16
  }

  function SetBits(p: bv16, v: bv16, b: bv16, m: bv16): bv16
    requires b < 16
  {
    (p & !m) | (v << b)
  }

  /** The value that a control is turned into before the mask is looked at; none is an error. */
  function Converted(v: Vars, val: U32): Option<U32> {
    if v.mul != 0 then Some(val / v.mul)
    else if v.table != [] then DeviceValue(v.table, val)
    else Some(val)
  }

  /** What is written to the property, which holds `current`; none if the control is refused before that. */
  function NewValue(v: Vars, val: U32, current: bv16): Option<bv16>
    requires v.bit < 16
  {
    match Converted(v, val)
    case None => None
    case Some(x) => Some(if v.mask != 0 then SetBits(current, Bits(val), v.bit, v.mask) else Bits(x))
  }

  // ----- what earlier controls of a call leave behind -----

  predicate Accepted(ids: seq<Id>) {
    forall i :: 0 <= i < |ids| ==> Choose(FRESH, ids[i]).Some?
  }

  predicate AnyMasked(ids: seq<Id>) {
    exists i :: 0 <= i < |ids| && Masked(ids[i])
  }

  predicate AnyScaled(ids: seq<Id>) {
    exists i :: 0 <= i < |ids| && Scaled(ids[i])
  }

  predicate AnyTabled(ids: seq<Id>) {
    exists i :: 0 <= i < |ids| && Tabled(ids[i])
  }

  lemma Kinds(v: Vars, id: Id)
    ensures Choose(v, id).Some? <==> Scaled(id) || Masked(id) || Tabled(id)
    ensures Choose(v, id).Some? ==>
              var w := Choose(v, id).value;
              && (if Masked(id) then w.mask != 0 && w.mask != 0xFFFF && w.bit < 16
                  else w.mask == v.mask && w.bit == v.bit)
  {
    hide LIMITER_TIMES, ACOMP_RTIMES, PREEMPHASIS_VALUES;
  }

  lemma KindOfScale(v: Vars, id: Id)
    requires Choose(v, id).Some?
    ensures var w := Choose(v, id).value;
            if Scaled(id) then w.mul != 0 else w.mul == v.mul
  {
    hide LIMITER_TIMES, ACOMP_RTIMES, PREEMPHASIS_VALUES;
  }

  lemma KindOfTable(v: Vars, id: Id)
    requires Choose(v, id).Some?
    ensures var w := Choose(v, id).value;
            && (if Tabled(id) then w.table != [] else w.table == v.table)
            && (Tabled(id) ==> Choose(FRESH, id).Some? && w.table == Choose(FRESH, id).value.table
                               && DeviceValue(w.table, 0xFFFF_FFFF).None?)
  {
    hide DeviceValue, LIMITER_TIMES, ACOMP_RTIMES, PREEMPHASIS_VALUES;
    TablesEnd();
  }

  /** Each table has entries, and all of them are shorter than the longest time there is. */
  lemma TablesEnd()
    ensures LIMITER_TIMES != [] && DeviceValue(LIMITER_TIMES, 0xFFFF_FFFF).None?
    ensures ACOMP_RTIMES != [] && DeviceValue(ACOMP_RTIMES, 0xFFFF_FFFF).None?
    ensures PREEMPHASIS_VALUES != [] && DeviceValue(PREEMPHASIS_VALUES, 0xFFFF_FFFF).None?
  {
    hide DeviceValue;
    TooLong(LIMITER_TIMES, 0xFFFF_FFFF);
    TooLong(ACOMP_RTIMES, 0xFFFF_FFFF);
    TooLong(PREEMPHASIS_VALUES, 0xFFFF_FFFF);
  }

  lemma {:induction false} TooLong(table: Table, usecs: U32)
    ensures DeviceValue(table, usecs).None? <==> forall i :: 0 <= i < |table| ==> table[i].1 < usecs
    decreases |table|
  {
    if table != [] {
      TooLong(table[1..], usecs);
      assert table == [table[0]] + table[1..];
    }
  }

  /** The variables after the controls `ids` of the call. */
  function Left(ids: seq<Id>): (v: Vars)
    requires Accepted(ids)
    ensures v.bit < 16 && v.mask != 0xFFFF
  {
    if |ids| == 0 then FRESH
    else
      var n := |ids| - 1;
      var before := Left(ids[..n]);
      assert Choose(FRESH, ids[n]).Some?;
      Kinds(FRESH, ids[n]);
      Kinds(before, ids[n]);
      Choose(before, ids[n]).value
  }

  /** What is left tells which kinds of control the call has been through. */
  lemma {:induction false} LeftTells(ids: seq<Id>)
    requires Accepted(ids)
    ensures Left(ids).mask != 0 <==> AnyMasked(ids)
    ensures Left(ids).mul != 0 <==> AnyScaled(ids)
    ensures Left(ids).table != [] <==> AnyTabled(ids)
    decreases |ids|
  {
    hide Choose, Masked, Scaled, Tabled;
    if |ids| > 0 {
      var n := |ids| - 1;
      var before := ids[..n];
      LeftTells(before);
      Kinds(FRESH, ids[n]);
      Kinds(Left(before), ids[n]);
      KindOfScale(Left(before), ids[n]);
      KindOfTable(Left(before), ids[n]);
      assert forall i :: 0 <= i < n ==> before[i] == ids[i];
      assert AnyMasked(ids) <==> AnyMasked(before) || Masked(ids[n]);
      assert AnyScaled(ids) <==> AnyScaled(before) || Scaled(ids[n]);
      assert AnyTabled(ids) <==> AnyTabled(before) || Tabled(ids[n]);
    }
  }

  /** The control is written as it would be if it were the first of the call. */
  ghost predicate AsIfFirst(ids: seq<Id>, id: Id)
    requires Accepted(ids) && Choose(FRESH, id).Some? && Choose(Left(ids), id).Some?
    requires Choose(FRESH, id).value.bit < 16 && Choose(Left(ids), id).value.bit < 16
  {
    forall val, current ::
      NewValue(Choose(Left(ids), id).value, val, current) == NewValue(Choose(FRESH, id).value, val, current)
  }

  /** Masking keeps something of the property, so the outcome depends on what that holds. */
  lemma MaskedDepends(v: Vars, val: U32)
    requires v.bit < 16 && v.mask != 0 && v.mask != 0xFFFF && Converted(v, val).Some? && Bits(val) == 0
    ensures NewValue(v, val, 0) != NewValue(v, val, !v.mask)
  {
    hide SetBits;
    SetNothing(v.bit, v.mask);
  }

  lemma SetNothing(b: bv16, m: bv16)
    requires b < 16 && m != 0xFFFF
    ensures SetBits(0, 0, b, m) != SetBits(!m, 0, b, m)
  {
    ShiftZero(b);
    MaskBits(m);
  }

  lemma MaskBits(m: bv16)
    requires m != 0xFFFF
    ensures 0 & !m == 0 && !m & !m == !m && !m != 0
  {
  }

  lemma ShiftZero(b: bv16)
    requires b < 16
    ensures (0 as bv16) << b == 0
  {
  }

  /** A scaled or tabled control that is not the first of its call is written as it should be exactly if no masked
      control came before it, and for a tabled one no scaled control either. */
  lemma UnmaskedExact(ids: seq<Id>, id: Id)
    requires Accepted(ids) && (Scaled(id) || Tabled(id))
    ensures Choose(FRESH, id).Some? && Choose(FRESH, id).value.bit < 16
    ensures Choose(Left(ids), id).Some? && Choose(Left(ids), id).value.bit < 16
    ensures AsIfFirst(ids, id) <==> !AnyMasked(ids) && (Tabled(id) ==> !AnyScaled(ids))
  {
    hide Choose, Masked, NewValue, Bits, Left, AnyMasked, AnyScaled;
    var left := Left(ids);
    LeftTells(ids);
    NotTwo(id);
    Kinds(FRESH, id);
    Kinds(left, id);
    KindOfScale(FRESH, id);
    KindOfScale(left, id);
    KindOfTable(FRESH, id);
    KindOfTable(left, id);
    var v := Choose(left, id).value;
    var w := Choose(FRESH, id).value;
    if AnyMasked(ids) {
      ZeroBits();
      ZeroConverts(ids, id);
      MaskedDepends(v, 0);
      Unmasked(w, 0, 0);
      Unmasked(w, 0, !v.mask);
      assert NewValue(v, 0, 0) != NewValue(w, 0, 0) || NewValue(v, 0, !v.mask) != NewValue(w, 0, !v.mask);
    } else if Tabled(id) && AnyScaled(ids) {
      Unmasked(w, 0xFFFF_FFFF, 0);
      Unmasked(v, 0xFFFF_FFFF, 0);
      assert NewValue(v, 0xFFFF_FFFF, 0) != NewValue(w, 0xFFFF_FFFF, 0);
    } else {
      if Scaled(id) {
        ScaledMul(left, id);
      }
      forall val, current ensures NewValue(v, val, current) == NewValue(w, val, current) {
        Unmasked(v, val, current);
        Unmasked(w, val, current);
      }
    }
  }

  lemma NotTwo(id: Id)
    ensures Masked(id) ==> !Scaled(id) && !Tabled(id)
    ensures Tabled(id) ==> !Scaled(id)
  {
  }

  lemma ZeroBits()
    ensures Bits(0) == 0
  {
  }

  lemma ScaledMul(v: Vars, id: Id)
    requires Scaled(id)
    ensures Choose(v, id).Some? && Choose(v, id).value.mul == Choose(FRESH, id).value.mul
  {
    hide LIMITER_TIMES, ACOMP_RTIMES, PREEMPHASIS_VALUES;
  }

  lemma Unmasked(v: Vars, val: U32, current: bv16)
    requires v.bit < 16 && v.mask == 0
    ensures NewValue(v, val, current)
            == match Converted(v, val) case None => None case Some(x) => Some(Bits(x))
  {
  }

  /** Zero is never too long for a table. */
  lemma ZeroConverts(ids: seq<Id>, id: Id)
    requires Accepted(ids) && Choose(Left(ids), id).Some?
    ensures Converted(Choose(Left(ids), id).value, 0).Some?
  {
    var v := Choose(Left(ids), id).value;
    if v.mul == 0 && v.table != [] {
      TooLong(v.table, 0);
      assert v.table[0].1 >= 0;
    }
  }

  /** A masked control is refused exactly if no scaled control came before it in its call but a tabled one did whose
      table ends before its value; otherwise its bits are set and no others change, whatever came before it. */
  lemma MaskedExact(ids: seq<Id>, id: Id, val: U32, current: bv16)
    requires Accepted(ids) && Masked(id)
    ensures var first := Choose(FRESH, id); var now := Choose(Left(ids), id);
            && first.Some? && now.Some? && first.value.bit < 16 && now.value.bit < 16
            && NewValue(now.value, val, current)
               == if !AnyScaled(ids) && AnyTabled(ids)
                     && (forall i :: 0 <= i < |Left(ids).table| ==> Left(ids).table[i].1 < val)
                  then None
                  else Some(SetBits(current, Bits(val), first.value.bit, first.value.mask))
  {
    hide AnyScaled, AnyTabled, Left, Bits, SetBits, Choose, Scaled, Tabled, Masked;
    var left := Left(ids);
    LeftTells(ids);
    TooLong(left.table, val);
    SameMask(left, id);
    Kinds(left, id);
    NotTwo(id);
    KindOfScale(left, id);
    KindOfTable(left, id);
  }

  /** What a masked control sets does not depend on what was left. */
  lemma SameMask(v: Vars, id: Id)
    requires Masked(id)
    ensures Choose(v, id).Some? && Choose(FRESH, id).Some?
    ensures Choose(v, id).value.bit == Choose(FRESH, id).value.bit
    ensures Choose(v, id).value.mask == Choose(FRESH, id).value.mask
  {
    hide LIMITER_TIMES, ACOMP_RTIMES, PREEMPHASIS_VALUES;
  }

  lemma ChosenTarget(v: Vars, id: Id)
    requires General(id)
    ensures Choose(v, id).Some? && Choose(v, id).value.property == TargetOf(id)
  {
    hide LIMITER_TIMES, ACOMP_RTIMES, PREEMPHASIS_VALUES;
  }

  lemma ChosenFits(ids: seq<Id>, id: Id)
    requires Accepted(ids) && General(id)
    ensures Choose(Left(ids), id).Some? && Choose(Left(ids), id).value.bit < 16
  {
    hide Choose, Left;
    Kinds(Left(ids), id);
  }

  // ----- the value that is written where nothing is left behind -----

  /** In a sorted table the first entry that is not too short is the nearest one. */
  lemma {:induction false} FirstIsNearest(table: Table, usecs: U32)
    requires Sorted(table)
    ensures DeviceValue(table, usecs).None? ==> forall i: nat :: !Nearest(table, usecs, i)
    ensures DeviceValue(table, usecs).Some? ==>
              exists i: nat :: Nearest(table, usecs, i) && DeviceValue(table, usecs).value == table[i].0
    decreases |table|
  {
    if table == [] {
    } else if table[0].1 >= usecs {
      assert Nearest(table, usecs, 0);
    } else {
      var rest := table[1..];
      FirstIsNearest(rest, usecs);
      forall i: nat | Nearest(table, usecs, i) ensures i > 0 && Nearest(rest, usecs, i - 1) {
      }
      if DeviceValue(rest, usecs).Some? {
        var i: nat :| Nearest(rest, usecs, i) && DeviceValue(rest, usecs).value == rest[i].0;
        assert Nearest(table, usecs, i + 1);
      }
    }
  }

  lemma SortedTimes(id: Id)
    requires Tabled(id)
    ensures Sorted(TimesOf(id))
  {
    hide LIMITER_TIMES, ACOMP_RTIMES, PREEMPHASIS_VALUES, Sorted;
    LimiterContents();
    OtherContents();
  }

  lemma ChosenUnit(v: Vars, id: Id)
    requires Scaled(id)
    ensures Choose(v, id).Some? && Choose(v, id).value.mul == UnitOf(id)
  {
    hide LIMITER_TIMES, ACOMP_RTIMES, PREEMPHASIS_VALUES;
  }

  lemma ChosenTimes(v: Vars, id: Id)
    requires Tabled(id)
    ensures Choose(v, id).Some? && Choose(v, id).value.table == TimesOf(id)
  {
    hide LIMITER_TIMES, ACOMP_RTIMES, PREEMPHASIS_VALUES;
  }

  /** Nothing that earlier controls of a call left gets into the value of a control. */
  predicate Unspoilt(ids: seq<Id>, id: Id) {
    !AnyMasked(ids) && (Tabled(id) ==> !AnyScaled(ids))
  }

  /** An unspoilt control is written as the number of its units, or as the device value of the nearest time that is
      not shorter; it is refused exactly if there is no such time. */
  lemma UnspoiltValue(ids: seq<Id>, id: Id, val: U32, current: bv16)
    requires Accepted(ids) && (Scaled(id) || Tabled(id)) && Unspoilt(ids, id)
    ensures Choose(Left(ids), id).Some? && Choose(Left(ids), id).value.bit < 16
    ensures var r := NewValue(Choose(Left(ids), id).value, val, current);
            if r.Some? then Stores(id, val, r.value)
            else Tabled(id) && forall i: nat :: !Nearest(TimesOf(id), val, i)
  {
    hide Choose, Masked, Scaled, Tabled, NewValue, Bits, Left, AnyMasked, AnyScaled, TimesOf, Sorted, DeviceValue,
      UnitOf, Nearest;
    var v := Left(ids);
    LeftTells(ids);
    NotTwo(id);
    ChosenFits(ids, id);
    Kinds(v, id);
    KindOfScale(v, id);
    Unmasked(Choose(v, id).value, val, current);
    if Scaled(id) {
      ChosenUnit(v, id);
    } else {
      ChosenTimes(v, id);
      KindOfTable(v, id);
      SortedTimes(id);
      FirstIsNearest(TimesOf(id), val);
    }
  }
}
