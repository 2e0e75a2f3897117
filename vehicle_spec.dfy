/**
 * The behaviour of a single vehicle, stated on values.
 *
 * Every operation of the five vehicle kinds is a function from the vehicle's
 * state before the call to its outcome and its state after it; the class
 * `Vehicles.Vehicle` implements these operations in place and is proved
 * against them.  Quantities the Java code keeps in `double` are `real` here.
 */
module VehicleSpec {
  import opened Outcomes

  // ---------------------------------------------------------------------
  // Fixed design parameters
  // ---------------------------------------------------------------------

  /** Mileage above which every maintainable vehicle needs maintenance. */
  const MaintenanceMileage: real := 10000.0

  const CarEfficiency: real := 15.0
  const TruckBaseEfficiency: real := 8.0
  /** A truck loaded above half its capacity runs at 90% of its base efficiency. */
  const TruckLoadedFactor: real := 0.9
  const BusEfficiency: real := 10.0
  const AirplaneEfficiency: real := 5.0
  const ShipEfficiency: real := 4.0

  const CarSeats: int := 5
  const BusSeats: int := 50
  const AirplaneSeats: int := 200

  const TruckHold: real := 5000.0
  const BusHold: real := 500.0
  const AirplaneHold: real := 10000.0
  const ShipHold: real := 50000.0

  /** Land journeys take 10% longer than distance / speed (traffic). */
  const LandFactor: real := 1.1
  /** Air journeys take 5% less than distance / speed (direct paths). */
  const AirFactor: real := 0.95

  // ---------------------------------------------------------------------
  // Vehicle kinds and their capabilities
  // ---------------------------------------------------------------------

  /** A Java `int`. */
  type Int32 = x: int | -0x8000_0000 <= x <= 0x7fff_ffff

  /** The concrete class of a vehicle with the attribute its category adds. */
  datatype Variant =
    | Car(numWheels: Int32)
    | Truck(numWheels: Int32)
    | Bus(numWheels: Int32)
    | Airplane(maxAltitude: real)
    | CargoShip(hasSail: bool)

  predicate IsLand(k: Variant) { k.Car? || k.Truck? || k.Bus? }

  predicate IsAir(k: Variant) { k.Airplane? }

  /** A cargo ship with a sail moves without fuel. */
  predicate SailPowered(k: Variant) { k.CargoShip? && k.hasSail }

  /** The kinds that implement PassengerCarrier. */
  predicate CarriesPassengers(k: Variant) { k.Car? || k.Bus? || k.Airplane? }

  /** The kinds that implement CargoCarrier. */
  predicate CarriesCargo(k: Variant) { !k.Car? }

  /** The simple class name, used as the persisted type tag and in reports. */
  function TypeName(k: Variant): string
  {
    match k
    case Car(_) => "Car"
    case Truck(_) => "Truck"
    case Bus(_) => "Bus"
    case Airplane(_) => "Airplane"
    case CargoShip(_) => "CargoShip"
  }

  /** Two vehicles have the same simple class name exactly when they are of the same class. */
  lemma TypeNamesDistinct(k: Variant, k': Variant)
    ensures TypeName(k) == TypeName(k') <==>
              (k.Car? && k'.Car?) || (k.Truck? && k'.Truck?) || (k.Bus? && k'.Bus?)
              || (k.Airplane? && k'.Airplane?) || (k.CargoShip? && k'.CargoShip?)
  {
    if TypeName(k) == TypeName(k') {
      assert TypeName(k)[0] == TypeName(k')[0];
      assert |TypeName(k)| == |TypeName(k')|;
    }
  }

  /** Seats of a passenger carrier; 0 for the kinds that carry no passengers. */
  function PassengerCapacity(k: Variant): int
  {
    match k
    case Car(_) => CarSeats
    case Bus(_) => BusSeats
    case Airplane(_) => AirplaneSeats
    case Truck(_) => 0
    case CargoShip(_) => 0
  }

  /** Hold of a cargo carrier; 0 for the kinds that carry no cargo. */
  function CargoCapacity(k: Variant): real
  {
    match k
    case Car(_) => 0.0
    case Truck(_) => TruckHold
    case Bus(_) => BusHold
    case Airplane(_) => AirplaneHold
    case CargoShip(_) => ShipHold
  }

  // ---------------------------------------------------------------------
  // Vehicle state
  // ---------------------------------------------------------------------

  /** Everything a vehicle holds: identity, category attribute and mutable state. */
  datatype VehicleValue = VehicleValue(
    id: string,
    model: string,
    maxSpeed: real,
    variant: Variant,
    mileage: real,
    fuel: real,
    passengers: int,
    cargo: real,
    flagged: bool)

  /** `String.trim`: drops every leading and trailing character up to U+0020. */
  function Trim(s: string): (r: string)
    ensures |r| <= |s|
  {
    if s != [] && s[0] <= ' ' then Trim(s[1..])
    else if s != [] && s[|s| - 1] <= ' ' then Trim(s[..|s| - 1])
    else s
  }

  /** What `id.trim().isEmpty()` tests: no character of the id is above U+0020. */
  predicate IsBlank(s: string)
  {
    forall i :: 0 <= i < |s| ==> s[i] <= ' '
  }

  /** Trimming leaves nothing exactly when the string is blank. */
  lemma {:induction false} TrimEmptyIffBlank(s: string)
    ensures Trim(s) == [] <==> IsBlank(s)
  {
    if s != [] && s[0] <= ' ' {
      TrimEmptyIffBlank(s[1..]);
      assert forall i :: 1 <= i < |s| ==> s[i] == s[1..][i - 1];
    } else if s != [] && s[|s| - 1] <= ' ' {
      TrimEmptyIffBlank(s[..|s| - 1]);
      assert forall i :: 0 <= i < |s| - 1 ==> s[i] == s[..|s| - 1][i];
    }
  }

  /** The invariant every vehicle keeps from construction on. */
  ghost predicate Inv(v: VehicleValue)
  {
    && !IsBlank(v.id)
    && v.mileage >= 0.0
    && v.fuel >= 0.0
    && (SailPowered(v.variant) ==> v.fuel == 0.0)
    && 0 <= v.passengers <= PassengerCapacity(v.variant)
    && 0.0 <= v.cargo <= CargoCapacity(v.variant)
  }

  /** Id, model, speed limit and category attribute: no operation changes them. */
  predicate SameIdentity(a: VehicleValue, b: VehicleValue)
  {
    a.id == b.id && a.model == b.model && a.maxSpeed == b.maxSpeed && a.variant == b.variant
  }

  /** The outcome of an operation together with the state it leaves. */
  datatype Step = Step(outcome: Outcome, after: VehicleValue)

  /** The outcome of `consumeFuel`, the amount it returns, and the state it leaves. */
  datatype Draw = Draw(outcome: Outcome, used: real, after: VehicleValue)

  // ---------------------------------------------------------------------
  // Construction
  // ---------------------------------------------------------------------

  /**
   * The constructor chain of every variant: a null or blank id is rejected
   * with InvalidOperation (None here); a null model becomes "Unknown".
   */
  function New(id: Option<string>, model: Option<string>, maxSpeed: real, k: Variant): (r: Option<VehicleValue>)
    ensures r.None? <==> id.None? || IsBlank(id.value)
    ensures r.Some? ==> Inv(r.value)
    ensures r.Some? ==> r.value.id == id.value && r.value.maxSpeed == maxSpeed && r.value.variant == k
    ensures r.Some? ==> r.value.model == (if model.Some? then model.value else "Unknown")
    ensures r.Some? ==> r.value.mileage == 0.0 && r.value.fuel == 0.0 && !r.value.flagged
    ensures r.Some? ==> r.value.passengers == 0 && r.value.cargo == 0.0
  {
    if id.None? || IsBlank(id.value) then None
    else
      var m := if model.None? then "Unknown" else model.value;
      Some(VehicleValue(id.value, m, maxSpeed, k, 0.0, 0.0, 0, 0.0, false))
  }

  // ---------------------------------------------------------------------
  // Pure queries
  // ---------------------------------------------------------------------

  /** `calculateFuelEfficiency`: distance per unit of fuel; 0 means sail power. */
  function Efficiency(v: VehicleValue): (e: real)
    ensures e >= 0.0
    ensures e == 0.0 <==> SailPowered(v.variant)
    ensures e <= CarEfficiency
    ensures e == 0.0 || e >= ShipEfficiency
  {
    match v.variant
    case Car(_) => CarEfficiency
    case Truck(_) =>
      if v.cargo > 0.5 * TruckHold then TruckBaseEfficiency * TruckLoadedFactor else TruckBaseEfficiency
    case Bus(_) => BusEfficiency
    case Airplane(_) => AirplaneEfficiency
    case CargoShip(sail) => if sail then 0.0 else ShipEfficiency
  }

  /** A truck's efficiency drops to 7.2 exactly when it carries more than half of its 5000 hold. */
  lemma TruckEfficiencyByLoad(v: VehicleValue)
    requires v.variant.Truck?
    ensures v.cargo > 2500.0 ==> Efficiency(v) == 7.2
    ensures v.cargo <= 2500.0 ==> Efficiency(v) == 8.0
  {
  }

  /** `compareTo`: `Double.compare` of the two efficiencies (no NaN arises). */
  function CompareEfficiency(a: VehicleValue, b: VehicleValue): (c: int)
    ensures c == -1 || c == 0 || c == 1
    ensures c < 0 <==> Efficiency(a) < Efficiency(b)
    ensures c == 0 <==> Efficiency(a) == Efficiency(b)
    ensures c > 0 <==> Efficiency(a) > Efficiency(b)
  {
    var ea, eb := Efficiency(a), Efficiency(b);
    if ea < eb then -1 else if ea > eb then 1 else 0
  }

  /** `compareTo` is antisymmetric, as `Comparable` demands. */
  lemma CompareAntisymmetric(a: VehicleValue, b: VehicleValue)
    ensures CompareEfficiency(a, b) == -CompareEfficiency(b, a)
  {
  }

  /**
   * `estimateJourneyTime` of the land and air categories; the water category
   * is not part of this model.
   */
  function EstimateJourneyTime(v: VehicleValue, distance: real): (t: real)
    requires IsLand(v.variant) || IsAir(v.variant)
    requires v.maxSpeed > 0.0
    ensures IsLand(v.variant) ==> t * v.maxSpeed == distance * LandFactor
    ensures IsAir(v.variant) ==> t * v.maxSpeed == distance * AirFactor
    ensures distance >= 0.0 ==> t >= 0.0
    ensures distance > 0.0 && IsLand(v.variant) ==> t > distance / v.maxSpeed
    ensures distance > 0.0 && IsAir(v.variant) ==> t < distance / v.maxSpeed
  {
    var baseTime := distance / v.maxSpeed;
    if IsLand(v.variant) then baseTime * LandFactor else baseTime * AirFactor
  }

  /** `getFuelLevel`: a sail-powered ship reports 0 whatever it stores. */
  function FuelLevel(v: VehicleValue): (f: real)
    ensures SailPowered(v.variant) ==> f == 0.0
    ensures !SailPowered(v.variant) ==> f == v.fuel
    ensures Inv(v) ==> f == v.fuel && f >= 0.0
  {
    if SailPowered(v.variant) then 0.0 else v.fuel
  }

  /** `needsMaintenance`: flagged, or driven beyond the mileage threshold. */
  predicate NeedsMaintenance(v: VehicleValue)
  {
    v.flagged || v.mileage > MaintenanceMileage
  }

  // ---------------------------------------------------------------------
  // State-changing operations
  // ---------------------------------------------------------------------

  /** `addMileage`: raises the mileage by exactly `d`; nothing else changes. */
  function AddMileage(v: VehicleValue, d: real): (w: VehicleValue)
    ensures w.mileage - v.mileage == d
    ensures w == v.(mileage := w.mileage)
  {
    v.(mileage := v.mileage + d)
  }

  /**
   * `move`: a negative distance is invalid; a sail-powered ship only adds
   * mileage; every other vehicle burns distance / efficiency and fails,
   * changing nothing, when that exceeds its fuel.  The extra
   * `efficiency <= 0` guard of Truck and CargoShip never fires.
   */
  function Move(v: VehicleValue, d: real): (r: Step)
    ensures r.outcome != Overload
    ensures r.outcome != Ok ==> r.after == v
    ensures r.outcome == Ok ==> r.after == v.(mileage := v.mileage + d, fuel := r.after.fuel)
  {
    if d < 0.0 then Step(InvalidOperation, v)
    else
      var eff := Efficiency(v);
      if v.variant.CargoShip? && eff == 0.0 && v.variant.hasSail then Step(Ok, AddMileage(v, d))
      else if (v.variant.Truck? || v.variant.CargoShip?) && eff <= 0.0 then Step(InvalidOperation, v)
      else
        var needed := d / eff;
        if needed > v.fuel then Step(InsufficientFuel, v)
        else Step(Ok, AddMileage(v.(fuel := v.fuel - needed), d))
  }

  /**
   * Which outcome `move` reports: invalid exactly for a negative distance,
   * insufficient fuel exactly when an engine-driven vehicle would need more
   * than its tank holds; a sail-powered ship keeps its fuel.
   */
  lemma MoveOutcome(v: VehicleValue, d: real)
    ensures Move(v, d).outcome == InvalidOperation <==> d < 0.0
    ensures Move(v, d).outcome == InsufficientFuel <==>
              0.0 <= d && !SailPowered(v.variant) && d / Efficiency(v) > v.fuel
    ensures Move(v, d).outcome == Ok && SailPowered(v.variant) ==> Move(v, d).after.fuel == v.fuel
  {
  }

  /** A journey keeps the vehicle invariant and never lowers the mileage. */
  lemma MoveKeepsInv(v: VehicleValue, d: real)
    requires Inv(v)
    ensures Inv(Move(v, d).after) && Move(v, d).after.mileage >= v.mileage
  {
  }

  /** A successful engine-driven journey burns exactly the fuel the distance needs. */
  lemma MoveBurnsFuel(v: VehicleValue, d: real)
    ensures Move(v, d).outcome == Ok && !SailPowered(v.variant) ==> (v.fuel - Move(v, d).after.fuel) * Efficiency(v) == d
  {
  }

  /**
   * `refuel`: a sail-powered ship rejects every amount (before the amount is
   * looked at); otherwise a non-positive amount is invalid and a positive one
   * is added to the tank.
   */
  function Refuel(v: VehicleValue, amount: real): (r: Step)
    ensures r.outcome == Ok || r.outcome == InvalidOperation
    ensures r.outcome == Ok <==> !SailPowered(v.variant) && amount > 0.0
    ensures r.outcome != Ok ==> r.after == v
    ensures r.outcome == Ok ==> r.after == v.(fuel := v.fuel + amount)
    ensures r.outcome == Ok ==> FuelLevel(r.after) > FuelLevel(v)
    ensures Inv(v) ==> Inv(r.after)
  {
    if SailPowered(v.variant) then Step(InvalidOperation, v)
    else if amount <= 0.0 then Step(InvalidOperation, v)
    else Step(Ok, v.(fuel := v.fuel + amount))
  }

  /**
   * `consumeFuel`: returns and removes distance / efficiency, or fails with
   * InsufficientFuel and changes nothing; a sail-powered ship always fails.
   * There is no check for a negative distance, which adds fuel.
   */
  function ConsumeFuel(v: VehicleValue, d: real): (r: Draw)
    ensures r.outcome == Ok || r.outcome == InsufficientFuel
    ensures r.outcome == InsufficientFuel <==> SailPowered(v.variant) || d / Efficiency(v) > v.fuel
    ensures r.outcome != Ok ==> r.after == v && r.used == 0.0
    ensures r.outcome == Ok ==> r.after == v.(fuel := v.fuel - r.used)
    ensures r.outcome == Ok ==> 0.0 <= r.after.fuel && r.used <= v.fuel
    ensures d >= 0.0 ==> r.used >= 0.0
    ensures Inv(v) ==> Inv(r.after)
  {
    if SailPowered(v.variant) then Draw(InsufficientFuel, 0.0, v)
    else
      var needed := d / Efficiency(v);
      if needed > v.fuel then Draw(InsufficientFuel, 0.0, v)
      else Draw(Ok, needed, v.(fuel := v.fuel - needed))
  }

  /** A successful draw is exactly the fuel the distance needs at the vehicle's efficiency. */
  lemma ConsumeFuelCoversDistance(v: VehicleValue, d: real)
    ensures ConsumeFuel(v, d).outcome == Ok ==> ConsumeFuel(v, d).used * Efficiency(v) == d
  {
  }

  /**
   * `boardPassengers`: a non-positive count is a no-op; a count that would
   * take the vehicle above its seats fails with Overload and changes nothing.
   * The capacity test is written `count > capacity - current`, which cannot
   * overflow (see BoardAsWritten).
   */
  function BoardPassengers(v: VehicleValue, count: int): (r: Step)
    requires CarriesPassengers(v.variant)
    ensures r.outcome == Ok || r.outcome == Overload
    ensures r.outcome == Overload <==> count > 0 && v.passengers + count > PassengerCapacity(v.variant)
    ensures r.outcome != Ok ==> r.after == v
    ensures r.outcome == Ok && count <= 0 ==> r.after == v
    ensures r.outcome == Ok && count > 0 ==> r.after == v.(passengers := v.passengers + count)
    ensures Inv(v) ==> Inv(r.after)
  {
    if count <= 0 then Step(Ok, v)
    else if count > PassengerCapacity(v.variant) - v.passengers then Step(Overload, v)
    else Step(Ok, v.(passengers := v.passengers + count))
  }

  /**
   * `disembarkPassengers`: a negative count, or more than are on board, is
   * invalid; otherwise that many leave.
   */
  function DisembarkPassengers(v: VehicleValue, count: int): (r: Step)
    requires CarriesPassengers(v.variant)
    ensures r.outcome == Ok || r.outcome == InvalidOperation
    ensures r.outcome == Ok <==> 0 <= count <= v.passengers
    ensures r.outcome != Ok ==> r.after == v
    ensures r.outcome == Ok ==> r.after == v.(passengers := v.passengers - count)
    ensures Inv(v) ==> Inv(r.after)
  {
    if count < 0 then Step(InvalidOperation, v)
    else if count > v.passengers then Step(InvalidOperation, v)
    else Step(Ok, v.(passengers := v.passengers - count))
  }

  /**
   * `loadCargo`: a non-positive weight is a no-op; a weight that would take
   * the vehicle above its hold fails with Overload and changes nothing.
   */
  function LoadCargo(v: VehicleValue, weight: real): (r: Step)
    requires CarriesCargo(v.variant)
    ensures r.outcome == Ok || r.outcome == Overload
    ensures r.outcome == Overload <==> weight > 0.0 && v.cargo + weight > CargoCapacity(v.variant)
    ensures r.outcome != Ok ==> r.after == v
    ensures r.outcome == Ok && weight <= 0.0 ==> r.after == v
    ensures r.outcome == Ok && weight > 0.0 ==> r.after == v.(cargo := v.cargo + weight)
    ensures Inv(v) ==> Inv(r.after)
  {
    if weight <= 0.0 then Step(Ok, v)
    else if v.cargo + weight > CargoCapacity(v.variant) then Step(Overload, v)
    else Step(Ok, v.(cargo := v.cargo + weight))
  }

  /**
   * `unloadCargo`: a negative weight, or more than is aboard, is invalid;
   * otherwise that much is removed.
   */
  function UnloadCargo(v: VehicleValue, weight: real): (r: Step)
    requires CarriesCargo(v.variant)
    ensures r.outcome == Ok || r.outcome == InvalidOperation
    ensures r.outcome == Ok <==> 0.0 <= weight <= v.cargo
    ensures r.outcome != Ok ==> r.after == v
    ensures r.outcome == Ok ==> r.after == v.(cargo := v.cargo - weight)
    ensures Inv(v) ==> Inv(r.after)
  {
    if weight < 0.0 then Step(InvalidOperation, v)
    else if weight > v.cargo then Step(InvalidOperation, v)
    else Step(Ok, v.(cargo := v.cargo - weight))
  }

  /** `scheduleMaintenance`: sets the flag, so the vehicle needs maintenance. */
  function ScheduleMaintenance(v: VehicleValue): (w: VehicleValue)
    ensures w.flagged && NeedsMaintenance(w)
    ensures w == v.(flagged := w.flagged)
    ensures Inv(v) ==> Inv(w)
  {
    v.(flagged := true)
  }

  /**
   * `performMaintenance`: clears the flag only; the mileage is not reset, so
   * a vehicle beyond the threshold still needs maintenance afterwards.
   */
  function PerformMaintenance(v: VehicleValue): (w: VehicleValue)
    ensures !w.flagged
    ensures NeedsMaintenance(w) <==> v.mileage > MaintenanceMileage
    ensures w == v.(flagged := w.flagged)
    ensures Inv(v) ==> Inv(w)
  {
    v.(flagged := false)
  }

  /**
   * The need for maintenance is not cleared by travelling or by drawing fuel,
   * and a successful journey that takes the mileage beyond the threshold
   * creates it; only `performMaintenance` clears it, below the threshold.
   */
  lemma MaintenanceNeedPersists(v: VehicleValue, d: real)
    ensures NeedsMaintenance(v) ==> NeedsMaintenance(Move(v, d).after)
    ensures Move(v, d).outcome == Ok && v.mileage + d > MaintenanceMileage ==> NeedsMaintenance(Move(v, d).after)
    ensures NeedsMaintenance(v) ==> NeedsMaintenance(ConsumeFuel(v, d).after)
    ensures NeedsMaintenance(PerformMaintenance(v)) <==> v.mileage > MaintenanceMileage
  {
    MoveOutcome(v, d);
  }

  // ---------------------------------------------------------------------
  // The passenger check as the Java code writes it
  // ---------------------------------------------------------------------

  const Int32Min: int := -0x8000_0000
  const Int32Max: int := 0x7fff_ffff

  predicate IsInt32(x: int) { Int32Min <= x <= Int32Max }

  /** Java `int` addition: the mathematical sum reduced to 32-bit two's complement. */
  function Wrap32(x: int): (w: int)
    ensures IsInt32(w)
    ensures IsInt32(x) ==> w == x
  {
    (x - Int32Min) % 0x1_0000_0000 + Int32Min
  }

  /**
   * `boardPassengers` exactly as written: `currentPassengers + count` is
   * computed in 32-bit arithmetic, both in the capacity test and in the update.
   */
  function BoardAsWritten(v: VehicleValue, count: int): (r: Step)
    requires CarriesPassengers(v.variant)
    requires IsInt32(count) && IsInt32(v.passengers)
    ensures r.outcome == Ok || r.outcome == Overload
    ensures r.outcome != Ok ==> r.after == v
    ensures r.outcome == Ok ==> r.after == v.(passengers := r.after.passengers)
  {
    if count <= 0 then Step(Ok, v)
    else
      var sum := Wrap32(v.passengers + count);
      if sum > PassengerCapacity(v.variant) then Step(Overload, v)
      else Step(Ok, v.(passengers := sum))
  }

  /**
   * Boarding Integer.MAX_VALUE passengers onto a car that already holds one
   * passes the capacity test as written and leaves a negative head count.
   */
  lemma BoardOverflowBreaksCapacity()
    ensures var car := VehicleValue("C001", "Toyota", 120.0, Car(4), 0.0, 0.0, 1, 0.0, false);
            && Inv(car)
            && BoardAsWritten(car, Int32Max).outcome == Ok
            && BoardAsWritten(car, Int32Max).after.passengers == Int32Min
            && !Inv(BoardAsWritten(car, Int32Max).after)
            && BoardPassengers(car, Int32Max).outcome == Overload
  {
    var car := VehicleValue("C001", "Toyota", 120.0, Car(4), 0.0, 0.0, 1, 0.0, false);
    assert !IsBlank(car.id) by { assert car.id[0] == 'C'; }
    assert Wrap32(1 + Int32Max) == Int32Min;
  }

  /** Where the Java sum does not overflow, the corrected check behaves identically. */
  lemma BoardAgreesWithoutOverflow(v: VehicleValue, count: int)
    requires CarriesPassengers(v.variant) && IsInt32(count) && IsInt32(v.passengers)
    requires v.passengers + count <= Int32Max
    ensures BoardAsWritten(v, count) == BoardPassengers(v, count)
  {
    if count > 0 {
      assert Wrap32(v.passengers + count) == v.passengers + count;
    }
  }
}
