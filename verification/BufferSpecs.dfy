// The layout computed once for every `buffer` declaration.
module BufferSpecs {
  import opened Arith
  import opened Wrappers

  datatype Mode = Sliding | Fifo | OverlapAdd

  datatype Trigger = Full | Half | Quarter | Periodic

  // What evaluating an integer property of the declaration gives.
  datatype IntProperty = Absent | NotConstant | Constant(value: int)

  datatype ModeProperty = ModeUnset | ModePingPong | ModeUnknown | ModeNamed(mode: Mode)

  datatype TriggerProperty = TriggerUnset | TriggerUnknown | TriggerNamed(trigger: Trigger)

  datatype EntityProperty = NoEntity | NotAnEntity | Entity(name: string, isSwitch: bool)

  datatype Declaration = Declaration(
    name: string,
    readOnlyProperties: nat,  // how many read-only properties are declared
    capacity: IntProperty,
    mode: ModeProperty,
    hop: IntProperty,
    triggerMode: TriggerProperty,
    frameSize: IntProperty,
    trigger: EntityProperty)

  datatype Error =
    | NoDeclaration
    | ReadOnlyProperty
    | PropertyNotConstant
    | CapacityRequired
    | CapacityNotPositive
    | PingPongRemoved
    | UnknownMode
    | ModeNotImplemented
    | UnknownTrigger
    | HalfNeedsEven
    | QuarterNeedsMultipleOf4
    | HopContradictsTrigger
    | SizesOutOfOrder
    | TriggerNotAnEntity
    | TriggerNotASwitch

  datatype BufferSpec = BufferSpec(
    name: string,
    capacity: int,
    frameSize: int,
    hop: int,
    mode: Mode,
    trigger: Trigger,
    triggerEntity: string,
    mirrored: bool,
    errors: seq<Error>)
  {
    predicate IsValid() {
      errors == []
    }

    predicate HasTriggerEntity() {
      triggerEntity != ""
    }

    function StorageSize(): int {
      if mirrored then 2 * capacity else capacity
    }

    // The layouts the emitted push and view code is meant for.
    ghost predicate WellSized() {
      && capacity >= frameSize >= hop > 0
      && (!mirrored ==> frameSize == hop && capacity % hop == 0)
    }
  }

  // The trigger a declaration selects, named or implied by a `hop`.
  function SelectedTrigger(d: Declaration): Trigger {
    match d.triggerMode
    case TriggerNamed(t) => t
    case _ => if d.hop.Constant? then Periodic else Full
  }

  function SelectedFrameSize(d: Declaration): int
    requires d.capacity.Constant?
  {
    Wrap32(if d.frameSize.Constant? then d.frameSize.value else d.capacity.value)
  }

  function SelectedHop(d: Declaration): int
    requires d.capacity.Constant?
  {
    var capacity := Wrap32(d.capacity.value);
    match SelectedTrigger(d)
    case Full => capacity
    case Half => capacity / 2
    case Quarter => capacity / 4
    case Periodic => if d.hop.Constant? then Wrap32(d.hop.value) else SelectedFrameSize(d)
  }

  // A declaration the language accepts.
  ghost predicate Accepted(d: Declaration) {
    && d.readOnlyProperties == 0
    && d.capacity.Constant?
    && d.mode in {ModeUnset, ModeNamed(Sliding)}
    && !d.triggerMode.TriggerUnknown?
    && (d.trigger.NoEntity? || (d.trigger.Entity? && d.trigger.isSwitch))
    && SizesAccepted(d)
  }

  // Its sizes, with the trigger that relates them.
  ghost predicate SizesAccepted(d: Declaration)
    requires d.capacity.Constant?
  {
    && !d.hop.NotConstant?
    && !d.frameSize.NotConstant?
    && var capacity, hop, trigger := Wrap32(d.capacity.value), SelectedHop(d), SelectedTrigger(d);
       && (trigger == Half ==> capacity == 2 * hop)
       && (trigger == Quarter ==> capacity == 4 * hop)
       && (d.hop.Constant? && trigger != Periodic ==> Wrap32(d.hop.value) == hop)
       && capacity >= SelectedFrameSize(d) >= hop > 0
  }

  // The layout in the declaration's own terms: what is declared, and for what is
  // not, the trigger mode's share of the ring.
  ghost predicate LaidOut(d: Declaration, spec: BufferSpec) {
    && (d.capacity.Constant? ==> spec.capacity == Wrap32(d.capacity.value))
    && (d.frameSize.Constant? ==> spec.frameSize == Wrap32(d.frameSize.value))
    && (d.frameSize.Absent? ==> spec.frameSize == spec.capacity)
    && (d.hop.Constant? ==> spec.hop == Wrap32(d.hop.value))
    && (d.hop.Absent? ==>
          match d.triggerMode
          case TriggerNamed(Half) => spec.capacity == 2 * spec.hop
          case TriggerNamed(Quarter) => spec.capacity == 4 * spec.hop
          case TriggerNamed(Periodic) => spec.hop == spec.frameSize
          case _ => spec.hop == spec.capacity)
    && match d.triggerMode
       case TriggerNamed(trigger) => spec.trigger == trigger
       case _ => spec.trigger == if d.hop.Constant? then Periodic else Full
  }

  // The declarations whose layout test takes a remainder by zero.
  predicate TakesModuloByZero(d: Declaration) {
    && d.capacity.Constant? && Wrap32(d.capacity.value) > 0
    && d.mode in {ModeUnset, ModeNamed(Sliding)}
    && !d.triggerMode.TriggerUnknown?
    && SelectedFrameSize(d) == 0 && SelectedHop(d) == 0
  }

  // Some do: a full declaration with frame size and hop 0, and, with no hop at
  // all, a quarter of a ring of fewer than four samples.
  lemma ModuloByZeroIsReached(name: string, capacity: int)
    requires 0 < capacity < 0x8000_0000
    ensures var size, empty := Constant(capacity), Constant(0);
            var d := Declaration(name, 0, size, ModeUnset, empty, TriggerUnset, empty, NoEntity);
            && TakesModuloByZero(d)
            && (TakesModuloByZero(d.(hop := Absent, triggerMode := TriggerNamed(Quarter))) <==> capacity < 4)
  {
  }

  // It always goes with a rejected declaration.
  lemma ModuloByZeroIsRejected(d: Declaration)
    requires TakesModuloByZero(d)
    ensures !Accepted(d)
  {
  }

  // ------------------------------------------------------------ complaints

  function IntComplaints(property: IntProperty): seq<Error> {
    if property.NotConstant? then [PropertyNotConstant] else []
  }

  function SizeComplaints(trigger: Trigger, capacity: int, frameSize: int, hop: int, declared: Option<int>): seq<Error> {
    RatioComplaints(trigger, capacity) + ValueComplaints(trigger, capacity, frameSize, hop, declared)
  }

  function RatioComplaints(trigger: Trigger, capacity: int): seq<Error> {
    match trigger
    case Half => if capacity % 2 == 1 then [HalfNeedsEven] else []
    case Quarter => if capacity % 4 > 0 then [QuarterNeedsMultipleOf4] else []
    case _ => []
  }

  function ValueComplaints(trigger: Trigger, capacity: int, frameSize: int, hop: int, declared: Option<int>): seq<Error> {
    (if declared.Some? && trigger != Periodic && declared.value != hop then [HopContradictsTrigger] else [])
    + (if capacity < frameSize || frameSize < hop || hop <= 0 then [SizesOutOfOrder] else [])
  }

  function EntityComplaints(property: EntityProperty): seq<Error> {
    match property
    case NoEntity => []
    case NotAnEntity => [TriggerNotAnEntity]
    case Entity(_, isSwitch) => if isSwitch then [] else [TriggerNotASwitch]
  }

  // The properties after the mode; an unknown trigger mode ends the list.
  function LayoutComplaints(d: Declaration): seq<Error>
    requires d.capacity.Constant?
  {
    IntComplaints(d.hop)
    + if d.triggerMode.TriggerUnknown? then [UnknownTrigger]
      else
        IntComplaints(d.frameSize)
        + SizeComplaints(SelectedTrigger(d), Wrap32(d.capacity.value), SelectedFrameSize(d), SelectedHop(d),
                         if d.hop.Constant? then Some(Wrap32(d.hop.value)) else None)
        + EntityComplaints(d.trigger)
  }

  // All that is said about a declaration, in order. Capacity and mode are each
  // the last word if they are wrong.
  function Complaints(d: Declaration): seq<Error> {
    seq(d.readOnlyProperties, _ => ReadOnlyProperty)
    + match d.capacity
      case Absent => [CapacityRequired]
      case NotConstant => [PropertyNotConstant]
      case Constant(capacity) =>
        if Wrap32(capacity) <= 0 then [CapacityNotPositive]
        else
          match d.mode
          case ModePingPong => [PingPongRemoved]
          case ModeUnknown => [UnknownMode]
          case ModeNamed(Fifo) => [ModeNotImplemented]
          case ModeNamed(OverlapAdd) => [ModeNotImplemented]
          case _ => LayoutComplaints(d)
  }

  lemma SelectedLayout(d: Declaration, spec: BufferSpec)
    requires d.capacity.Constant? && SizesAccepted(d) && !d.triggerMode.TriggerUnknown?
    requires spec.capacity == Wrap32(d.capacity.value) && spec.frameSize == SelectedFrameSize(d)
    requires spec.hop == SelectedHop(d) && spec.trigger == SelectedTrigger(d)
    ensures forall mirrored :: LaidOut(d, spec.(mirrored := mirrored))
  {
    hide Wrap32;
  }

  method EvalInt(property: IntProperty, out0: int, errors0: seq<Error>)
    returns (found: bool, out: int, errors: seq<Error>)
    ensures found == property.Constant?
    ensures out == if found then Wrap32(property.value) else out0
    ensures errors == if property.NotConstant? then errors0 + [PropertyNotConstant] else errors0
  {
    found, out, errors := false, out0, errors0;
    match property {
      case Absent =>
      case NotConstant => errors := errors + [PropertyNotConstant];
      case Constant(value) => found, out := true, Wrap32(value);
    }
  }

  // The hop of a trigger, with every complaint about the three sizes.
  method HopOf(trigger: Trigger, capacity: int, frameSize: int, hasHop: bool, hopProperty: int,
               errors0: seq<Error>)
    returns (hop: int, errors: seq<Error>)
    requires capacity > 0
    ensures errors == errors0 + SizeComplaints(trigger, capacity, frameSize, hop, if hasHop then Some(hopProperty) else None)
    ensures hop == match trigger
                   case Full => capacity
                   case Half => capacity / 2
                   case Quarter => capacity / 4
                   case Periodic => if hasHop then hopProperty else frameSize
    ensures errors == [] <==>
            && errors0 == []
            && (trigger == Half ==> capacity == 2 * hop)
            && (trigger == Quarter ==> capacity == 4 * hop)
            && (hasHop && trigger != Periodic ==> hopProperty == hop)
            && capacity >= frameSize >= hop > 0
    ensures !(capacity >= frameSize >= hop > 0) ==> SizesOutOfOrder in errors
  {
    errors := errors0;
    match trigger {
      case Full =>
        hop := capacity;
      case Half =>
        if capacity % 2 != 0 {
          errors := errors + [HalfNeedsEven];
        }
        hop := capacity / 2;
      case Quarter =>
        if capacity % 4 != 0 {
          errors := errors + [QuarterNeedsMultipleOf4];
        }
        hop := capacity / 4;
      case Periodic =>
        hop := if hasHop then hopProperty else frameSize;
    }
    ghost var declared := if hasHop then Some(hopProperty) else None;
    ghost var first := RatioComplaints(trigger, capacity);
    assert errors == errors0 + first;
    if hasHop && trigger != Periodic && hopProperty != hop {
      errors := errors + [HopContradictsTrigger];
    }
    if !(capacity >= frameSize && frameSize >= hop && hop > 0) {
      errors := errors + [SizesOutOfOrder];
    }
    hide RatioComplaints;
    assert errors == errors0 + (first + ValueComplaints(trigger, capacity, frameSize, hop, declared));
    NoSizeComplaints(trigger, capacity, frameSize, hop, declared);
  }

  lemma NoSizeComplaints(trigger: Trigger, capacity: int, frameSize: int, hop: int, declared: Option<int>)
    requires trigger == Half ==> hop == capacity / 2
    requires trigger == Quarter ==> hop == capacity / 4
    ensures SizeComplaints(trigger, capacity, frameSize, hop, declared) == [] <==>
            && (trigger == Half ==> capacity == 2 * hop)
            && (trigger == Quarter ==> capacity == 4 * hop)
            && (declared.Some? && trigger != Periodic ==> declared.value == hop)
            && capacity >= frameSize >= hop > 0
    ensures !(capacity >= frameSize >= hop > 0) ==>
              SizesOutOfOrder in SizeComplaints(trigger, capacity, frameSize, hop, declared)
  {
  }

  // Hop, trigger and frame size, in the order they are evaluated; an unknown
  // trigger mode ends the declaration.
  method SizesOf(d: Declaration, capacity: int, errors0: seq<Error>)
    returns (stopped: bool, trigger: Trigger, frameSize: int, hop: int, errors: seq<Error>)
    requires d.capacity.Constant? && capacity == Wrap32(d.capacity.value) > 0
    ensures stopped <==> d.triggerMode.TriggerUnknown?
    ensures stopped ==> errors != []
    ensures !stopped ==>
              && trigger == SelectedTrigger(d) && frameSize == SelectedFrameSize(d) && hop == SelectedHop(d)
              && (errors == [] <==> errors0 == [] && SizesAccepted(d))
              && (!(capacity >= frameSize >= hop > 0) ==> SizesOutOfOrder in errors)
    ensures errors + (if stopped then [] else EntityComplaints(d.trigger)) == errors0 + LayoutComplaints(d)
  {
    hide Wrap32, SizeComplaints, EntityComplaints, LayoutComplaints, SizesAccepted, SelectedTrigger, SelectedHop,
         SelectedFrameSize;
    stopped, trigger, frameSize, hop := false, Full, 0, 0;
    var hasHop, hopProperty, found;
    hasHop, hopProperty, errors := EvalInt(d.hop, 0, errors0);
    match d.triggerMode {
      case TriggerUnknown =>
        stopped, errors := true, errors + [UnknownTrigger];
        LayoutOf(d, errors0, trigger, frameSize, hop);
        return;
      case TriggerNamed(named) =>
        trigger := named;
      case TriggerUnset =>
        if hasHop {
          trigger := Periodic;
        }
    }
    found, frameSize, errors := EvalInt(d.frameSize, capacity, errors);
    hop, errors := HopOf(trigger, capacity, frameSize, hasHop, hopProperty, errors);
    LayoutOf(d, errors0, trigger, frameSize, hop);
    AcceptedSizes(d);
  }

  lemma AcceptedSizes(d: Declaration)
    requires d.capacity.Constant?
    ensures var capacity, frameSize, hop := Wrap32(d.capacity.value), SelectedFrameSize(d), SelectedHop(d);
            SizesAccepted(d) <==>
            && !d.hop.NotConstant? && !d.frameSize.NotConstant?
            && (SelectedTrigger(d) == Half ==> capacity == 2 * hop)
            && (SelectedTrigger(d) == Quarter ==> capacity == 4 * hop)
            && (d.hop.Constant? && SelectedTrigger(d) != Periodic ==> Wrap32(d.hop.value) == hop)
            && capacity >= frameSize >= hop > 0
  {
    hide Wrap32, SelectedFrameSize, SelectedHop, SelectedTrigger;
  }

  // What the evaluated properties give, put together.
  lemma LayoutOf(d: Declaration, errors0: seq<Error>, trigger: Trigger, frameSize: int, hop: int)
    requires d.capacity.Constant? && Wrap32(d.capacity.value) > 0
    ensures d.triggerMode.TriggerUnknown? ==>
              LayoutComplaints(d) == IntComplaints(d.hop) + [UnknownTrigger]
    ensures var declared := if d.hop.Constant? then Some(Wrap32(d.hop.value)) else None;
            var capacity := Wrap32(d.capacity.value);
            (!d.triggerMode.TriggerUnknown? && trigger == (if d.triggerMode.TriggerNamed? then d.triggerMode.trigger
                                                          else if d.hop.Constant? then Periodic else Full)
             && frameSize == (if d.frameSize.Constant? then Wrap32(d.frameSize.value) else capacity)
             && hop == (match trigger
                        case Full => capacity
                        case Half => capacity / 2
                        case Quarter => capacity / 4
                        case Periodic => if declared.Some? then declared.value else frameSize))
            ==> && trigger == SelectedTrigger(d) && frameSize == SelectedFrameSize(d) && hop == SelectedHop(d)
                && LayoutComplaints(d) == IntComplaints(d.hop) + IntComplaints(d.frameSize)
                     + SizeComplaints(trigger, capacity, frameSize, hop, declared) + EntityComplaints(d.trigger)
  {
    hide SizeComplaints, EntityComplaints, Wrap32;
  }

  method EntityOf(property: EntityProperty, errors0: seq<Error>) returns (name: string, errors: seq<Error>)
    ensures name == if property.Entity? then property.name else ""
    ensures errors == [] <==> errors0 == [] && (property.NoEntity? || (property.Entity? && property.isSwitch))
    ensures errors == errors0 + EntityComplaints(property)
  {
    name, errors := "", errors0;
    match property {
      case NoEntity =>
      case NotAnEntity =>
        errors := errors + [TriggerNotAnEntity];
      case Entity(switch, isSwitch) =>
        name := switch;
        if !isSwitch {
          errors := errors + [TriggerNotASwitch];
        }
    }
  }

  // `undefinedModulo` tells that the layout test took a remainder by zero,
  // which StrideJIT does when both sizes are 0; the layout is then left at its
  // default. That only happens once an error has been recorded.
  method FromDeclaration(decl: Option<Declaration>)
    returns (spec: BufferSpec, undefinedModulo: bool)
    ensures spec.IsValid() <==> decl.Some? && Accepted(decl.value)
    ensures spec.IsValid() ==>
              && spec.WellSized() && LaidOut(decl.value, spec)
              && spec.mode == Sliding
              && spec.name == decl.value.name
              && spec.capacity == Wrap32(decl.value.capacity.value)
              && spec.frameSize == SelectedFrameSize(decl.value)
              && spec.hop == SelectedHop(decl.value)
              && spec.triggerEntity == (if decl.value.trigger.Entity? then decl.value.trigger.name else "")
              && (spec.HasTriggerEntity() <==> decl.value.trigger.Entity? && decl.value.trigger.name != "")
    // The ring is doubled exactly when some frame can cross its end.
    ensures spec.IsValid() ==>
              (spec.mirrored <==> !(spec.frameSize == spec.hop && spec.capacity % spec.hop == 0))
    ensures undefinedModulo <==> decl.Some? && TakesModuloByZero(decl.value)
    ensures undefinedModulo ==> SizesOutOfOrder in spec.errors && !spec.mirrored
    ensures spec.errors == if decl.None? then [NoDeclaration] else Complaints(decl.value)
  {
    hide Wrap32, SelectedFrameSize, SelectedHop, SelectedTrigger, LaidOut;
    undefinedModulo := false;
    spec := BufferSpec("", 0, 0, 0, Sliding, Full, "", false, []);
    if decl.None? {
      return spec.(errors := [NoDeclaration]), false;
    }
    var d := decl.value;
    var errors: seq<Error> := [];
    for i := 0 to d.readOnlyProperties
      invariant errors == seq(i, _ => ReadOnlyProperty)
    {
      errors := errors + [ReadOnlyProperty];
    }
    spec := spec.(name := d.name);
    var found, capacity;
    found, capacity, errors := EvalInt(d.capacity, 0, errors);
    if !found {
      return spec.(errors := if d.capacity.Absent? then errors + [CapacityRequired] else errors), false;
    }
    spec := spec.(capacity := capacity);
    if capacity <= 0 {
      return spec.(errors := errors + [CapacityNotPositive]), false;
    }

    match d.mode {
      case ModeUnset =>
      case ModePingPong =>
        return spec.(errors := errors + [PingPongRemoved]), false;
      case ModeUnknown =>
        return spec.(errors := errors + [UnknownMode]), false;
      case ModeNamed(mode) =>
        if mode == Fifo || mode == OverlapAdd {
          return spec.(mode := mode, errors := errors + [ModeNotImplemented]), false;
        }
    }

    var stopped, trigger, frameSize, hop;
    stopped, trigger, frameSize, hop, errors := SizesOf(d, capacity, errors);
    if stopped {
      return spec.(errors := errors), false;
    }
    var triggerEntity;
    triggerEntity, errors := EntityOf(d.trigger, errors);
    spec := spec.(frameSize := frameSize, hop := hop, trigger := trigger,
                  triggerEntity := triggerEntity, errors := errors);
    if spec.IsValid() {
      SelectedLayout(d, spec);
    }

    // Frames start at multiples of hop: they never cross the end of the ring
    // when they don't overlap and the hop divides the capacity.
    if frameSize == hop == 0 {
      undefinedModulo := true;
    } else {
      spec := spec.(mirrored := !(frameSize == hop && capacity % hop == 0));
    }
  }
}
