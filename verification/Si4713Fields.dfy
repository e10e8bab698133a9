/** The packed properties of the Si4713 as independent fields: what controls and the modulator write to them, bit by
    bit, is what a map from fields to values would hold. */
module Si4713Fields {
  import opened Common
  import opened Si4713Controls

  /** A field: that of a masked control, or one of the two that the modulator sets. */
  datatype Field = OfControl(id: Id) | StereoField | RdsField

  predicate IsField(f: Field) {
    f.OfControl? ==> Masked(f.id)
  }

  /** Where a field is: its property, its lowest bit, and its largest value. */
  datatype Place = Place(property: Property, bit: bv16, largest: bv16)

  function PlaceOf(f: Field): Place
    requires IsField(f)
  {
    match f
    case StereoField => Place(ComponentEnable, 1, 1)
    case RdsField => Place(ComponentEnable, 2, 1)
    case OfControl(id) =>
      match id
      case Pty => Place(RdsPsMisc, 5, 31)
      case DynamicPty => Place(RdsPsMisc, 15, 1)
      case Compressed => Place(RdsPsMisc, 14, 1)
      case ArtificialHead => Place(RdsPsMisc, 13, 1)
      case MonoStereo => Place(RdsPsMisc, 12, 1)
      case TrafficProgram => Place(RdsPsMisc, 10, 1)
      case TrafficAnnouncement => Place(RdsPsMisc, 4, 1)
      case MusicSpeech => Place(RdsPsMisc, 3, 1)
      case LimiterEnabled => Place(AcompEnable, 1, 1)
      case CompressionEnabled => Place(AcompEnable, 0, 1)
      case PilotToneEnabled => Place(ComponentEnable, 0, 1)
  }

  function MaskAt(p: Place): bv16
    requires p.bit < 16
  {
    p.largest << p.bit
  }

  lemma PlaceFits(f: Field)
    requires IsField(f)
    ensures PlaceOf(f).bit < 16
  {
  }

  function FieldMask(f: Field): bv16
    requires IsField(f)
  {
    PlaceFits(f);
    MaskAt(PlaceOf(f))
  }

  /** The bits of a property that belong to some field. */
  function Used(p: Property): bv16 {
    match p
    case RdsPsMisc => 0xF7F8
    case AcompEnable => 0x3
    case ComponentEnable => 0x7
    case _ => 0
  }

  /** What the properties of the chip hold. */
  type Props = Property -> bv16

  function Update(props: Props, p: Property, x: bv16): Props {
    q => if q == p then x else props(q)
  }

  /** The bits of `x` under a mask. */
  function Part(x: bv16, m: bv16): bv16 {
    x & m
  }

  /** The value of a field in place, and back. */
  function Up(v: bv16, f: Field): bv16
    requires IsField(f)
  {
    PlaceFits(f);
    v << PlaceOf(f).bit
  }

  function Down(x: bv16, f: Field): bv16
    requires IsField(f)
  {
    PlaceFits(f);
    x >> PlaceOf(f).bit
  }

  function Get(x: bv16, f: Field): bv16
    requires IsField(f)
  {
    Down(Part(x, FieldMask(f)), f)
  }

  /** The bits that belong to no field. */
  function Rest(x: bv16, p: Property): bv16 {
    Part(x, !Used(p))
  }

  /** What set_bits makes of a property for a field. */
  function Put(x: bv16, f: Field, v: bv16): bv16
    requires IsField(f)
  {
    PlaceFits(f);
    SetBits(x, v, PlaceOf(f).bit, FieldMask(f))
  }

  // ----- the layout -----

  /** The bit and the mask that the driver chooses for a control are those of its field. */
  lemma ChosenPlace(id: Id)
    requires Masked(id)
    ensures var c := Choose(FRESH, id); var p := PlaceOf(OfControl(id));
            c.Some? && c.value.bit == p.bit < 16
  {
    hide LIMITER_TIMES, ACOMP_RTIMES, PREEMPHASIS_VALUES;
  }

  lemma TargetIsPlace(id: Id)
    requires Masked(id)
    ensures TargetOf(id) == PlaceOf(OfControl(id)).property
  {
  }

  lemma ChosenMask(id: Id)
    requires Masked(id)
    ensures Choose(FRESH, id).Some? && Choose(FRESH, id).value.mask == FieldMask(OfControl(id))
  {
    hide LIMITER_TIMES, ACOMP_RTIMES, PREEMPHASIS_VALUES;
  }

  /** The bits of a field. */
  function MaskTable(f: Field): bv16
    requires IsField(f)
  {
    match f
    case StereoField => 0x2
    case RdsField => 0x4
    case OfControl(id) =>
      match id
      case Pty => 0x3E0
      case DynamicPty => 0x8000
      case Compressed => 0x4000
      case ArtificialHead => 0x2000
      case MonoStereo => 0x1000
      case TrafficProgram => 0x400
      case TrafficAnnouncement => 0x10
      case MusicSpeech => 0x8
      case LimiterEnabled => 0x2
      case CompressionEnabled => 0x1
      case PilotToneEnabled => 0x1
  }

  lemma MaskIs(f: Field)
    requires IsField(f)
    ensures FieldMask(f) == MaskTable(f)
  {
  }

  /** Fields do not overlap. */
  lemma Apart(f: Field, g: Field)
    requires IsField(f) && IsField(g) && f != g && PlaceOf(f).property == PlaceOf(g).property
    ensures Part(FieldMask(f), FieldMask(g)) == 0
  {
    hide FieldMask;
    MaskIs(f);
    MaskIs(g);
  }

  lemma MaskIsUsed(f: Field)
    requires IsField(f)
    ensures Part(FieldMask(f), !Used(PlaceOf(f).property)) == 0
  {
  }

  /** A value that is not too large stays within its field, and can be read back from it. */
  lemma Fits(f: Field, v: bv16)
    requires IsField(f) && v <= PlaceOf(f).largest
    ensures Part(Up(v, f), FieldMask(f)) == Up(v, f) && Down(Up(v, f), f) == v
  {
    if f == OfControl(Pty) {
      FitsPty(v);
    } else if v == 0 {
      FitsZero(f);
    } else {
      FitsOne(f);
    }
  }

  lemma FitsPty(v: bv16)
    requires v <= 31
    ensures var f := OfControl(Pty);
            Part(Up(v, f), FieldMask(f)) == Up(v, f) && Down(Up(v, f), f) == v
  {
  }

  lemma FitsZero(f: Field)
    requires IsField(f)
    ensures Part(Up(0, f), FieldMask(f)) == Up(0, f) && Down(Up(0, f), f) == 0
  {
  }

  lemma FitsOne(f: Field)
    requires IsField(f)
    ensures Part(Up(1, f), FieldMask(f)) == Up(1, f) && Down(Up(1, f), f) == 1
  {
  }

  /** The bits of `w` in place of those under a mask. */
  function Merge(x: bv16, w: bv16, m: bv16): bv16 {
    (x & !m) | w
  }

  lemma MergeWithin(x: bv16, w: bv16, m: bv16)
    requires Part(w, m) == w
    ensures Part(Merge(x, w, m), m) == w
  {
  }

  lemma MergeOutside(x: bv16, w: bv16, m: bv16, other: bv16)
    requires Part(w, m) == w && Part(m, other) == 0
    ensures Part(Merge(x, w, m), other) == Part(x, other)
  {
  }

  lemma PutMerges(x: bv16, f: Field, v: bv16)
    requires IsField(f)
    ensures Put(x, f, v) == Merge(x, Up(v, f), FieldMask(f))
  {
    hide PlaceOf, FieldMask;
  }

  /** Setting the bits of one field. */
  lemma SetField(x: bv16, f: Field, v: bv16)
    requires IsField(f) && v <= PlaceOf(f).largest
    ensures Get(Put(x, f, v), f) == v
    ensures Rest(Put(x, f, v), PlaceOf(f).property) == Rest(x, PlaceOf(f).property)
    ensures forall g :: IsField(g) && g != f && PlaceOf(g).property == PlaceOf(f).property ==>
                          Get(Put(x, f, v), g) == Get(x, g)
  {
    hide PlaceOf, FieldMask, Used, IsField, Part, Up, Down, Put, Merge;
    Fits(f, v);
    MaskIsUsed(f);
    PutMerges(x, f, v);
    MergeWithin(x, Up(v, f), FieldMask(f));
    MergeOutside(x, Up(v, f), FieldMask(f), !Used(PlaceOf(f).property));
    forall g | IsField(g) && g != f && PlaceOf(g).property == PlaceOf(f).property
      ensures Get(Put(x, f, v), g) == Get(x, g)
    {
      Apart(f, g);
      MergeOutside(x, Up(v, f), FieldMask(f), FieldMask(g));
    }
  }

  // ----- writes -----

  /** A control, `before` being the controls written before it in the same call; or a call of s_modulator. */
  datatype Write = Control(before: seq<Id>, id: Id, val: U32) | Modulator(stereo: bool, rds: bool)

  /** The value of a control is within its range. */
  predicate InRange(w: Write) {
    w.Control? ==>
      && Accepted(w.before) && General(w.id)
      && (Masked(w.id) ==> Bits(w.val) <= PlaceOf(OfControl(w.id)).largest)
  }

  function One(b: bool): bv16 {
    if b then 1 else 0
  }

  /** What is written to the property of a control; none if the control is refused. */
  function ControlValue(w: Write, x: bv16): Option<bv16>
    requires w.Control? && InRange(w)
  {
    ChosenFits(w.before, w.id);
    NewValue(Choose(Left(w.before), w.id).value, w.val, x)
  }

  function ModulatorValue(w: Write, x: bv16): bv16
    requires w.Modulator?
  {
    SetBits(SetBits(x, One(w.stereo), 1, 0x2), One(w.rds), 2, 0x4)
  }

  function PropertyOf(w: Write): Property
    requires InRange(w)
  {
    if w.Control? then TargetOf(w.id) else ComponentEnable
  }

  /** The properties after a write that succeeds. */
  function Apply(props: Props, w: Write): Option<Props>
    requires InRange(w)
  {
    var p := PropertyOf(w);
    match w
    case Modulator(_, _) => Some(Update(props, p, ModulatorValue(w, props(p))))
    case Control(_, _, _) =>
      match ControlValue(w, props(p))
      case None => None
      case Some(y) => Some(Update(props, p, y))
  }

  /** The fields after it. */
  function ApplyFields(m: map<Field, bv16>, w: Write): map<Field, bv16> {
    match w
    case Control(_, id, val) => if Masked(id) then m[OfControl(id) := Bits(val)] else m
    case Modulator(stereo, rds) => m[StereoField := One(stereo)][RdsField := One(rds)]
  }

  ghost predicate Agrees(props: Props, m: map<Field, bv16>) {
    forall f :: IsField(f) ==> f in m && Get(props(PlaceOf(f).property), f) == m[f]
  }

  /** The property that a scaled or tabled control takes as a whole. */
  function TakenBy(w: Write): set<Property> {
    if w.Control? && General(w.id) && !Masked(w.id) then {TargetOf(w.id)} else {}
  }

  function Taken(ws: seq<Write>): set<Property> {
    if ws == [] then {} else TakenBy(ws[0]) + Taken(ws[1..])
  }

  /** Nothing but fields changes in the properties that are not among `taken`. */
  ghost predicate RestKept(props: Props, after: Props, taken: set<Property>) {
    forall p: Property :: p !in taken ==> Rest(after(p), p) == Rest(props(p), p)
  }

  lemma ControlSets(w: Write, x: bv16)
    requires w.Control? && Masked(w.id) && InRange(w) && ControlValue(w, x).Some?
    ensures ControlValue(w, x).value == Put(x, OfControl(w.id), Bits(w.val))
  {
    hide PlaceOf, Bits, SetBits, Choose, Masked, AnyScaled, AnyTabled, Left, FieldMask;
    MaskedExact(w.before, w.id, w.val, x);
    ChosenPlace(w.id);
    ChosenMask(w.id);
  }

  lemma ControlAgrees(props: Props, m: map<Field, bv16>, w: Write)
    requires Agrees(props, m) && w.Control? && Masked(w.id) && InRange(w) && Apply(props, w).Some?
    ensures Agrees(Apply(props, w).value, ApplyFields(m, w))
    ensures RestKept(props, Apply(props, w).value, TakenBy(w))
  {
    hide PlaceOf, Bits, Put, Masked, ControlValue, Get, Rest, Accepted;
    var f := OfControl(w.id);
    var x := props(PropertyOf(w));
    ControlSets(w, x);
    TargetIsPlace(w.id);
    SetField(x, f, Bits(w.val));
  }

  /** The properties that are made of fields. */
  predicate Packed(p: Property) {
    p.RdsPsMisc? || p.AcompEnable? || p.ComponentEnable?
  }

  lemma PlaceIsPacked(f: Field)
    requires IsField(f)
    ensures Packed(PlaceOf(f).property)
  {
  }

  /** A control that is not masked has a property of its own. */
  lemma OwnProperty(id: Id)
    requires General(id) && !Masked(id)
    ensures !Packed(TargetOf(id))
  {
  }

  lemma OtherAgrees(props: Props, m: map<Field, bv16>, w: Write)
    requires Agrees(props, m) && w.Control? && !Masked(w.id) && InRange(w) && Apply(props, w).Some?
    ensures Agrees(Apply(props, w).value, ApplyFields(m, w))
    ensures RestKept(props, Apply(props, w).value, TakenBy(w))
  {
    hide PlaceOf, Bits, Put, Masked, ControlValue, Get, Rest, Accepted, TargetOf, General, Packed;
    OwnProperty(w.id);
    forall f | IsField(f) ensures PlaceOf(f).property != TargetOf(w.id) {
      PlaceIsPacked(f);
    }
  }

  lemma ModulatorAgrees(props: Props, m: map<Field, bv16>, w: Write)
    requires Agrees(props, m) && w.Modulator?
    ensures Agrees(Apply(props, w).value, ApplyFields(m, w))
    ensures RestKept(props, Apply(props, w).value, TakenBy(w))
  {
    hide PlaceOf, Put, Masked, Get, Rest, One, ModulatorValue;
    var x := props(ComponentEnable);
    ModulatorSets(w, x);
    SetField(x, StereoField, One(w.stereo));
    SetField(Put(x, StereoField, One(w.stereo)), RdsField, One(w.rds));
  }

  lemma ModulatorSets(w: Write, x: bv16)
    requires w.Modulator?
    ensures PlaceOf(StereoField) == Place(ComponentEnable, 1, 1) && PlaceOf(RdsField) == Place(ComponentEnable, 2, 1)
    ensures One(w.stereo) <= 1 && One(w.rds) <= 1
    ensures ModulatorValue(w, x) == Put(Put(x, StereoField, One(w.stereo)), RdsField, One(w.rds))
  {
    assert FieldMask(StereoField) == 0x2 && FieldMask(RdsField) == 0x4;
    hide SetBits, FieldMask, One;
  }

  // ----- runs -----

  ghost predicate AllInRange(ws: seq<Write>) {
    forall i :: 0 <= i < |ws| ==> InRange(ws[i])
  }

  /** The properties after the writes, if all of them succeed. */
  ghost function Run(props: Props, ws: seq<Write>): Option<Props>
    requires AllInRange(ws)
    decreases |ws|
  {
    if |ws| == 0 then Some(props)
    else
      match Apply(props, ws[0])
      case None => None
      case Some(next) => Run(next, ws[1..])
  }

  function RunFields(m: map<Field, bv16>, ws: seq<Write>): map<Field, bv16>
    decreases |ws|
  {
    if |ws| == 0 then m else RunFields(ApplyFields(m, ws[0]), ws[1..])
  }

  /** After any successful writes the packed properties hold what a map of independent fields would, whatever earlier
      controls left in the driver's variables, and all other bits are what they were, but for the properties that
      scaled and tabled controls take as a whole. */
  lemma {:induction false} FieldsAreIndependent(props: Props, m: map<Field, bv16>, ws: seq<Write>)
    requires AllInRange(ws) && Agrees(props, m) && Run(props, ws).Some?
    ensures var after := Run(props, ws).value;
            Agrees(after, RunFields(m, ws)) && RestKept(props, after, Taken(ws))
    decreases |ws|
  {
    hide Apply, ApplyFields, Agrees, Rest, InRange, TakenBy, Masked;
    if |ws| > 0 {
      var w := ws[0];
      if w.Control? && Masked(w.id) {
        ControlAgrees(props, m, w);
      } else if w.Control? {
        OtherAgrees(props, m, w);
      } else {
        ModulatorAgrees(props, m, w);
      }
      FieldsAreIndependent(Apply(props, w).value, ApplyFields(m, w), ws[1..]);
    }
  }

  lemma {:induction false} RunLast(props: Props, ws: seq<Write>, w: Write)
    requires AllInRange(ws) && InRange(w)
    ensures AllInRange(ws + [w])
    ensures Run(props, ws + [w])
            == match Run(props, ws) case None => None case Some(after) => Apply(after, w)
    decreases |ws|
  {
    hide Apply, InRange;
    if |ws| > 0 {
      assert (ws + [w])[1..] == ws[1..] + [w];
      if Apply(props, ws[0]).Some? {
        RunLast(Apply(props, ws[0]).value, ws[1..], w);
      }
    } else {
      assert ws + [w] == [w];
      assert [w][1..] == [];
    }
  }

  /** A control whose property no later write is for is what the property holds at the end. */
  lemma {:induction false} LastWriteStands(props: Props, ws: seq<Write>, i: nat)
    requires AllInRange(ws) && i < |ws| && ws[i].Control? && Run(props, ws).Some?
    requires forall j :: i < j < |ws| ==> PropertyOf(ws[j]) != PropertyOf(ws[i])
    ensures AllInRange(ws[..i]) && Run(props, ws[..i]).Some?
    ensures var p := PropertyOf(ws[i]);
            ControlValue(ws[i], Run(props, ws[..i]).value(p)) == Some(Run(props, ws).value(p))
    decreases |ws|
  {
    hide Run, ControlValue, InRange, PropertyOf, ModulatorValue;
    var n := |ws| - 1;
    assert ws[..n] + [ws[n]] == ws;
    RunLast(props, ws[..n], ws[n]);
    if i < n {
      LastWriteStands(props, ws[..n], i);
      assert ws[..n][..i] == ws[..i];
    }
  }

  /** So an unspoilt scaled or tabled control that was the last for its property is what the chip holds of it. */
  lemma UnspoiltStands(props: Props, ws: seq<Write>, i: nat)
    requires AllInRange(ws) && i < |ws| && Run(props, ws).Some?
    requires ws[i].Control? && !Masked(ws[i].id) && Unspoilt(ws[i].before, ws[i].id)
    requires forall j :: i < j < |ws| ==> PropertyOf(ws[j]) != TargetOf(ws[i].id)
    ensures Stores(ws[i].id, ws[i].val, Run(props, ws).value(TargetOf(ws[i].id)))
  {
    hide Run, TargetOf, Unspoilt, Stores, Choose, NewValue, Left, Accepted, Masked;
    var w := ws[i];
    LastWriteStands(props, ws, i);
    UnspoiltValue(w.before, w.id, w.val, Run(props, ws[..i]).value(TargetOf(w.id)));
  }

  // ----- the properties of controls among the others -----

  predicate Controlled(p: Property) {
    !(p.LineInputMute? || p.RdsPsAf? || p.RdsPsMessageCount? || p.RdsPsRepeatCount? || p.GpoIen?)
  }

  /** The properties that controls and the modulator write hold the same. */
  ghost predicate SameControlled(a: Props, b: Props) {
    forall p: Property :: Controlled(p) ==> a(p) == b(p)
  }

  lemma WritesControlled(w: Write)
    requires InRange(w)
    ensures Controlled(PropertyOf(w))
  {
    hide PlaceOf, Bits, Accepted;
  }

  lemma SameApply(a: Props, b: Props, w: Write)
    requires SameControlled(a, b) && InRange(w)
    ensures Apply(a, w).Some? <==> Apply(b, w).Some?
    ensures Apply(a, w).Some? ==> SameControlled(Apply(a, w).value, Apply(b, w).value)
  {
    hide PlaceOf, ControlValue, ModulatorValue, Masked, Accepted, PropertyOf, Controlled;
    WritesControlled(w);
    assert a(PropertyOf(w)) == b(PropertyOf(w));
  }

  lemma {:induction false} SameRun(a: Props, b: Props, ws: seq<Write>)
    requires SameControlled(a, b) && AllInRange(ws)
    ensures Run(a, ws).Some? <==> Run(b, ws).Some?
    ensures Run(a, ws).Some? ==> SameControlled(Run(a, ws).value, Run(b, ws).value)
    decreases |ws|
  {
    hide Apply, InRange, SameControlled;
    if |ws| > 0 {
      SameApply(a, b, ws[0]);
      if Apply(a, ws[0]).Some? {
        SameRun(Apply(a, ws[0]).value, Apply(b, ws[0]).value, ws[1..]);
      }
    }
  }
}
