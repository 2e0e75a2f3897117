/**
 * The vehicle object: identity fixed at construction, state updated in place
 * by the capability operations.  Each method is proved to do what the
 * corresponding function of VehicleSpec says.
 */
module Vehicles {
  import opened Outcomes
  import opened VehicleSpec

  class Vehicle {
    const id: string
    const model: string
    const maxSpeed: real
    /** The concrete class, with its wheels, altitude or sail attribute. */
    const variant: Variant

    var mileage: real
    var fuel: real
    var passengers: int
    var cargo: real
    var maintenanceFlag: bool

    /** The vehicle as a value. */
    function Value(): VehicleValue
      reads this
    {
      VehicleValue(id, model, maxSpeed, variant, mileage, fuel, passengers, cargo, maintenanceFlag)
    }

    ghost predicate Valid()
      reads this
    {
      Inv(Value())
    }

    /** The part of the constructor chain that runs once the id has been accepted. */
    constructor Init(id: string, model: string, maxSpeed: real, variant: Variant)
      requires !IsBlank(id)
      ensures Valid()
      ensures Value() == VehicleValue(id, model, maxSpeed, variant, 0.0, 0.0, 0, 0.0, false)
    {
      this.id := id;
      this.model := model;
      this.maxSpeed := maxSpeed;
      this.variant := variant;
      mileage := 0.0;
      fuel := 0.0;
      passengers := 0;
      cargo := 0.0;
      maintenanceFlag := false;
    }

    /**
     * `new Car(...)`, `new Truck(...)`, ...: rejects a null or blank id with
     * InvalidOperation, and otherwise yields a fresh vehicle.
     */
    static method Create(id: Option<string>, model: Option<string>, maxSpeed: real, variant: Variant)
      returns (outcome: Outcome, v: Vehicle?)
      ensures outcome == Ok || outcome == InvalidOperation
      ensures outcome == Ok <==> v != null
      ensures v == null <==> New(id, model, maxSpeed, variant).None?
      ensures v != null ==> fresh(v) && v.Valid() && New(id, model, maxSpeed, variant) == Some(v.Value())
    {
      if id.None? || IsBlank(id.value) {
        return InvalidOperation, null;
      }
      var m := if model.None? then "Unknown" else model.value;
      v := new Vehicle.Init(id.value, m, maxSpeed, variant);
      outcome := Ok;
    }

    /** `addMileage`: the only writer of the mileage. */
    method AddMileage(d: real)
      modifies this
      ensures Value() == VehicleSpec.AddMileage(old(Value()), d)
    {
      mileage := mileage + d;
    }

    method Move(d: real) returns (outcome: Outcome)
      requires Valid()
      modifies this
      ensures Valid()
      ensures Step(outcome, Value()) == VehicleSpec.Move(old(Value()), d)
    {
      if d < 0.0 {
        return InvalidOperation;
      }
      var eff := Efficiency(Value());
      if variant.CargoShip? && eff == 0.0 && variant.hasSail {
        AddMileage(d);
        return Ok;
      }
      if (variant.Truck? || variant.CargoShip?) && eff <= 0.0 {
        return InvalidOperation;
      }
      var needed := d / eff;
      if needed > fuel {
        return InsufficientFuel;
      }
      fuel := fuel - needed;
      AddMileage(d);
      outcome := Ok;
    }

    method Refuel(amount: real) returns (outcome: Outcome)
      requires Valid()
      modifies this
      ensures Valid()
      ensures Step(outcome, Value()) == VehicleSpec.Refuel(old(Value()), amount)
    {
      if SailPowered(variant) {
        return InvalidOperation;
      }
      if amount <= 0.0 {
        return InvalidOperation;
      }
      fuel := fuel + amount;
      outcome := Ok;
    }

    method ConsumeFuel(d: real) returns (outcome: Outcome, used: real)
      requires Valid()
      modifies this
      ensures Valid()
      ensures Draw(outcome, used, Value()) == VehicleSpec.ConsumeFuel(old(Value()), d)
    {
      if SailPowered(variant) {
        return InsufficientFuel, 0.0;
      }
      var needed := d / Efficiency(Value());
      if needed > fuel {
        return InsufficientFuel, 0.0;
      }
      fuel := fuel - needed;
      outcome, used := Ok, needed;
    }

    method BoardPassengers(count: int) returns (outcome: Outcome)
      requires Valid() && CarriesPassengers(variant)
      modifies this
      ensures Valid()
      ensures Step(outcome, Value()) == VehicleSpec.BoardPassengers(old(Value()), count)
    {
      if count <= 0 {
        return Ok;
      }
      if count > PassengerCapacity(variant) - passengers {
        return Overload;
      }
      passengers := passengers + count;
      outcome := Ok;
    }

    method DisembarkPassengers(count: int) returns (outcome: Outcome)
      requires Valid() && CarriesPassengers(variant)
      modifies this
      ensures Valid()
      ensures Step(outcome, Value()) == VehicleSpec.DisembarkPassengers(old(Value()), count)
    {
      if count < 0 {
        return InvalidOperation;
      }
      if count > passengers {
        return InvalidOperation;
      }
      passengers := passengers - count;
      outcome := Ok;
    }

    method LoadCargo(weight: real) returns (outcome: Outcome)
      requires Valid() && CarriesCargo(variant)
      modifies this
      ensures Valid()
      ensures Step(outcome, Value()) == VehicleSpec.LoadCargo(old(Value()), weight)
    {
      if weight <= 0.0 {
        return Ok;
      }
      if cargo + weight > CargoCapacity(variant) {
        return Overload;
      }
      cargo := cargo + weight;
      outcome := Ok;
    }

    method UnloadCargo(weight: real) returns (outcome: Outcome)
      requires Valid() && CarriesCargo(variant)
      modifies this
      ensures Valid()
      ensures Step(outcome, Value()) == VehicleSpec.UnloadCargo(old(Value()), weight)
    {
      if weight < 0.0 {
        return InvalidOperation;
      }
      if weight > cargo {
        return InvalidOperation;
      }
      cargo := cargo - weight;
      outcome := Ok;
    }

    method ScheduleMaintenance()
      requires Valid()
      modifies this
      ensures Valid()
      ensures Value() == VehicleSpec.ScheduleMaintenance(old(Value()))
    {
      maintenanceFlag := true;
    }

    method PerformMaintenance()
      requires Valid()
      modifies this
      ensures Valid()
      ensures Value() == VehicleSpec.PerformMaintenance(old(Value()))
    {
      maintenanceFlag := false;
    }
  }
}
