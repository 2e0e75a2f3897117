/**
 * The per-line layout of the persisted fleet, and how a line is read back.
 *
 * A line is a sequence of fields; each field is the token its text reads as
 * (text, a decimal number, a whole number or a boolean), so that the number
 * formatting and parsing of the Java library stay out of the model.  The
 * comma layer that turns fields into a line of text is module Csv.
 */
module Persistence {
  import opened Outcomes
  import opened VehicleSpec

  /** One field of a persisted line. */
  datatype Field = Text(text: string) | Decimal(number: real) | Whole(integer: int) | Flag(truth: bool)

  /**
   * `serializeVehicle`: the type tag, then the fields of the variant in
   * their fixed order, ending with the mileage.
   */
  function Serialize(v: VehicleValue): (line: seq<Field>)
    ensures |line| == (if v.variant.Bus? || v.variant.Airplane? then 11 else 9)
    ensures line[0] == Text(TypeName(v.variant))
    ensures line[1] == Text(v.id) && line[2] == Text(v.model) && line[3] == Decimal(v.maxSpeed)
    ensures line[|line| - 1] == Decimal(v.mileage)
  {
    var head := [Text(TypeName(v.variant)), Text(v.id), Text(v.model), Decimal(v.maxSpeed)];
    match v.variant
    case Car(wheels) =>
      head + [Whole(wheels), Decimal(FuelLevel(v)), Whole(CarSeats), Whole(v.passengers), Decimal(v.mileage)]
    case Truck(wheels) =>
      head + [Whole(wheels), Decimal(FuelLevel(v)), Decimal(TruckHold), Decimal(v.cargo), Decimal(v.mileage)]
    case Bus(wheels) =>
      head + [Whole(wheels), Decimal(FuelLevel(v)), Whole(BusSeats), Whole(v.passengers),
              Decimal(BusHold), Decimal(v.cargo), Decimal(v.mileage)]
    case Airplane(altitude) =>
      head + [Decimal(FuelLevel(v)), Decimal(altitude), Whole(AirplaneSeats), Whole(v.passengers),
              Decimal(AirplaneHold), Decimal(v.cargo), Decimal(v.mileage)]
    case CargoShip(sail) =>
      head + [Decimal(FuelLevel(v)), Flag(sail), Decimal(ShipHold), Decimal(v.cargo), Decimal(v.mileage)]
  }

  // ---------------------------------------------------------------------
  // Reading one field; a missing field is an index out of bounds
  // ---------------------------------------------------------------------

  /** The field at `i` taken as a string. */
  function TextAt(p: seq<Field>, i: nat): (r: Option<string>)
    ensures r.Some? <==> i < |p| && p[i].Text?
  {
    if i < |p| && p[i].Text? then Some(p[i].text) else None
  }

  /** `Double.parseDouble`: accepts decimal and whole numbers. */
  function RealAt(p: seq<Field>, i: nat): (r: Option<real>)
    ensures r.Some? <==> i < |p| && (p[i].Decimal? || p[i].Whole?)
  {
    if i >= |p| then None
    else match p[i]
      case Decimal(x) => Some(x)
      case Whole(n) => Some(n as real)
      case _ => None
  }

  /** `Integer.parseInt`: accepts whole numbers within the 32-bit range. */
  function IntAt(p: seq<Field>, i: nat): (r: Option<Int32>)
    ensures r.Some? <==> i < |p| && p[i].Whole? && IsInt32(p[i].integer)
  {
    if i < |p| && p[i].Whole? && IsInt32(p[i].integer) then Some(p[i].integer) else None
  }

  /** `Boolean.parseBoolean`: never fails; only "true" reads as true. */
  function BoolAt(p: seq<Field>, i: nat): (r: Option<bool>)
    ensures r.Some? <==> i < |p|
    ensures r == Some(true) <==> i < |p| && p[i] == Flag(true)
  {
    if i >= |p| then None else Some(p[i] == Flag(true))
  }

  /**
   * Each reader gives back the value the writer's token holds: a string, a
   * decimal (or a whole number read as a decimal), a whole number within 32
   * bits, a boolean.  Any other token, and a field past the end of the line
   * (the index error that makes the line be skipped), reads as nothing;
   * only the boolean reader never rejects a present field.
   */
  lemma FieldsReadBack(p: seq<Field>, i: nat)
    ensures i < |p| && p[i].Text? ==> TextAt(p, i) == Some(p[i].text)
    ensures i < |p| && p[i].Decimal? ==> RealAt(p, i) == Some(p[i].number)
    ensures i < |p| && p[i].Whole? ==> RealAt(p, i) == Some(p[i].integer as real)
    ensures i < |p| && p[i].Whole? && IsInt32(p[i].integer) ==> IntAt(p, i) == Some(p[i].integer as Int32)
    ensures i < |p| && p[i].Flag? ==> BoolAt(p, i) == Some(p[i].truth)
    ensures i < |p| && !p[i].Text? ==> TextAt(p, i).None?
    ensures i < |p| && (p[i].Text? || p[i].Flag?) ==> RealAt(p, i).None? && IntAt(p, i).None?
    ensures i >= |p| ==> TextAt(p, i).None? && RealAt(p, i).None? && IntAt(p, i).None? && BoolAt(p, i).None?
  {
  }

  /** A replayed operation: any exception it raises makes the line be skipped. */
  function Replay(s: Step): (r: Option<VehicleValue>)
    ensures r.Some? <==> s.outcome == Ok
    ensures r.Some? ==> r.value == s.after
  {
    if s.outcome == Ok then Some(s.after) else None
  }

  // ---------------------------------------------------------------------
  // `deserializeVehicle`, one variant at a time
  // ---------------------------------------------------------------------

  /** What a line holds once read: a fresh vehicle with mileage 0 and no flag. */
  ghost predicate Restored(v: VehicleValue)
  {
    Inv(v) && v.mileage == 0.0 && !v.flagged
  }

  function ParseCar(p: seq<Field>): (r: Option<VehicleValue>)
    ensures r.Some? ==> Restored(r.value) && r.value.variant.Car?
  {
    var id :- TextAt(p, 1);
    var model :- TextAt(p, 2);
    var maxSpeed :- RealAt(p, 3);
    var wheels :- IntAt(p, 4);
    var car :- New(Some(id), Some(model), maxSpeed, Car(wheels));
    var fuel :- RealAt(p, 5);
    var fuelled :- if fuel > 0.0 then Replay(Refuel(car, fuel)) else Some(car);
    var _ :- IntAt(p, 6);  // the seat count is parsed, and may fail, but not used
    var onBoard :- IntAt(p, 7);
    if onBoard > 0 then Replay(BoardPassengers(fuelled, onBoard)) else Some(fuelled)
  }

  function ParseTruck(p: seq<Field>): (r: Option<VehicleValue>)
    ensures r.Some? ==> Restored(r.value) && r.value.variant.Truck?
  {
    var id :- TextAt(p, 1);
    var model :- TextAt(p, 2);
    var maxSpeed :- RealAt(p, 3);
    var wheels :- IntAt(p, 4);
    var truck :- New(Some(id), Some(model), maxSpeed, Truck(wheels));
    var fuel :- RealAt(p, 5);
    var fuelled :- if fuel > 0.0 then Replay(Refuel(truck, fuel)) else Some(truck);
    var load :- RealAt(p, 7);
    if load > 0.0 then Replay(LoadCargo(fuelled, load)) else Some(fuelled)
  }

  function ParseBus(p: seq<Field>): (r: Option<VehicleValue>)
    ensures r.Some? ==> Restored(r.value) && r.value.variant.Bus?
  {
    var id :- TextAt(p, 1);
    var model :- TextAt(p, 2);
    var maxSpeed :- RealAt(p, 3);
    var wheels :- IntAt(p, 4);
    var bus :- New(Some(id), Some(model), maxSpeed, Bus(wheels));
    var fuel :- RealAt(p, 5);
    var fuelled :- if fuel > 0.0 then Replay(Refuel(bus, fuel)) else Some(bus);
    var onBoard :- IntAt(p, 7);
    var boarded :- if onBoard > 0 then Replay(BoardPassengers(fuelled, onBoard)) else Some(fuelled);
    var load :- RealAt(p, 9);
    if load > 0.0 then Replay(LoadCargo(boarded, load)) else Some(boarded)
  }

  function ParseAirplane(p: seq<Field>): (r: Option<VehicleValue>)
    ensures r.Some? ==> Restored(r.value) && r.value.variant.Airplane?
  {
    var id :- TextAt(p, 1);
    var model :- TextAt(p, 2);
    var maxSpeed :- RealAt(p, 3);
    var fuel :- RealAt(p, 4);
    var altitude :- RealAt(p, 5);
    var plane :- New(Some(id), Some(model), maxSpeed, Airplane(altitude));
    var fuelled :- if fuel > 0.0 then Replay(Refuel(plane, fuel)) else Some(plane);
    var onBoard :- IntAt(p, 7);
    var boarded :- if onBoard > 0 then Replay(BoardPassengers(fuelled, onBoard)) else Some(fuelled);
    var load :- RealAt(p, 9);
    if load > 0.0 then Replay(LoadCargo(boarded, load)) else Some(boarded)
  }

  function ParseCargoShip(p: seq<Field>): (r: Option<VehicleValue>)
    ensures r.Some? ==> Restored(r.value) && r.value.variant.CargoShip?
  {
    var id :- TextAt(p, 1);
    var model :- TextAt(p, 2);
    var maxSpeed :- RealAt(p, 3);
    var fuel :- RealAt(p, 4);
    var sail :- BoolAt(p, 5);
    var ship :- New(Some(id), Some(model), maxSpeed, CargoShip(sail));
    var fuelled :- if !sail && fuel > 0.0 then Replay(Refuel(ship, fuel)) else Some(ship);
    var load :- RealAt(p, 7);
    if load > 0.0 then Replay(LoadCargo(fuelled, load)) else Some(fuelled)
  }

  /**
   * `deserializeVehicle`: dispatch on the type tag; an unknown tag, a missing
   * or unreadable field, a blank id or a replay that raises gives None
   * (the line is skipped).
   */
  function ParseLine(p: seq<Field>): (r: Option<VehicleValue>)
    ensures r.Some? ==> Restored(r.value)
    ensures r.Some? ==> |p| > 0 && p[0] == Text(TypeName(r.value.variant))
    ensures |p| == 0 ==> r.None?
    // a malformed line is skipped: a missing or unreadable id, model or
    // speed, a blank id, fewer fields than the tag's parser reads, or saved
    // passengers or cargo beyond what the class holds (the replay overloads)
    ensures TextAt(p, 1).None? || TextAt(p, 2).None? || RealAt(p, 3).None? ==> r.None?
    ensures TextAt(p, 1).Some? && IsBlank(TextAt(p, 1).value) ==> r.None?
    ensures |p| > 0 && p[0] in {Text("Car"), Text("Truck"), Text("CargoShip")} && |p| < 8 ==> r.None?
    ensures |p| > 0 && p[0] in {Text("Bus"), Text("Airplane")} && |p| < 10 ==> r.None?
    ensures |p| > 0 && p[0] == Text("Car") && IntAt(p, 7).Some? && IntAt(p, 7).value > CarSeats ==> r.None?
    ensures |p| > 0 && p[0] == Text("Bus") && IntAt(p, 7).Some? && IntAt(p, 7).value > BusSeats ==> r.None?
    ensures |p| > 0 && p[0] == Text("Airplane") && IntAt(p, 7).Some? && IntAt(p, 7).value > AirplaneSeats ==> r.None?
    ensures |p| > 0 && p[0] == Text("Truck") && RealAt(p, 7).Some? && RealAt(p, 7).value > TruckHold ==> r.None?
    ensures |p| > 0 && p[0] == Text("Bus") && RealAt(p, 9).Some? && RealAt(p, 9).value > BusHold ==> r.None?
    ensures |p| > 0 && p[0] == Text("Airplane") && RealAt(p, 9).Some? && RealAt(p, 9).value > AirplaneHold ==> r.None?
    ensures |p| > 0 && p[0] == Text("CargoShip") && RealAt(p, 7).Some? && RealAt(p, 7).value > ShipHold ==> r.None?
  {
    if |p| == 0 then None
    else if p[0] == Text("Car") then ParseCar(p)
    else if p[0] == Text("Truck") then ParseTruck(p)
    else if p[0] == Text("Bus") then ParseBus(p)
    else if p[0] == Text("Airplane") then ParseAirplane(p)
    else if p[0] == Text("CargoShip") then ParseCargoShip(p)
    else None
  }

  /** The fields every layout starts with read back as written. */
  lemma {:induction false} HeadReadsBack(v: VehicleValue)
    ensures TextAt(Serialize(v), 1) == Some(v.id) && TextAt(Serialize(v), 2) == Some(v.model)
    ensures RealAt(Serialize(v), 3) == Some(v.maxSpeed)
  {
  }

  /** The vehicle a replay starts from: the written identity, nothing aboard. */
  function Fresh(v: VehicleValue): (w: VehicleValue)
    requires !IsBlank(v.id)
    ensures Inv(w) && w == v.(mileage := 0.0, fuel := 0.0, passengers := 0, cargo := 0.0, flagged := false)
  {
    New(Some(v.id), Some(v.model), v.maxSpeed, v.variant).value
  }

  /** Replaying the written fuel level restores the fuel. */
  lemma {:induction false} RefuelReplay(v: VehicleValue)
    requires Inv(v) && !SailPowered(v.variant)
    ensures (if v.fuel > 0.0 then Replay(Refuel(Fresh(v), v.fuel)) else Some(Fresh(v)))
            == Some(v.(mileage := 0.0, passengers := 0, cargo := 0.0, flagged := false))
  {
  }

  lemma {:induction false} RoundTripCar(v: VehicleValue)
    requires Inv(v) && v.variant.Car?
    ensures ParseCar(Serialize(v)) == Some(v.(mileage := 0.0, flagged := false))
  {
    var p := Serialize(v);
    HeadReadsBack(v);
    assert IntAt(p, 4) == Some(v.variant.numWheels);
    assert RealAt(p, 5) == Some(v.fuel);
    RefuelReplay(v);
    assert IntAt(p, 6) == Some(CarSeats) && IntAt(p, 7) == Some(v.passengers);
  }

  lemma {:induction false} RoundTripTruck(v: VehicleValue)
    requires Inv(v) && v.variant.Truck?
    ensures ParseTruck(Serialize(v)) == Some(v.(mileage := 0.0, flagged := false))
  {
    var p := Serialize(v);
    HeadReadsBack(v);
    assert IntAt(p, 4) == Some(v.variant.numWheels);
    assert RealAt(p, 5) == Some(v.fuel) && RealAt(p, 7) == Some(v.cargo);
    RefuelReplay(v);
  }

  lemma {:induction false} RoundTripBus(v: VehicleValue)
    requires Inv(v) && v.variant.Bus?
    ensures ParseBus(Serialize(v)) == Some(v.(mileage := 0.0, flagged := false))
  {
    var p := Serialize(v);
    HeadReadsBack(v);
    assert IntAt(p, 4) == Some(v.variant.numWheels);
    assert RealAt(p, 5) == Some(v.fuel);
    RefuelReplay(v);
    assert IntAt(p, 7) == Some(v.passengers) && RealAt(p, 9) == Some(v.cargo);
    var boarded := v.(mileage := 0.0, cargo := 0.0, flagged := false);
    assert (if v.passengers > 0 then Replay(BoardPassengers(v.(mileage := 0.0, passengers := 0, cargo := 0.0, flagged := false), v.passengers))
            else Some(v.(mileage := 0.0, passengers := 0, cargo := 0.0, flagged := false))) == Some(boarded);
  }

  lemma {:induction false} RoundTripAirplane(v: VehicleValue)
    requires Inv(v) && v.variant.Airplane?
    ensures ParseAirplane(Serialize(v)) == Some(v.(mileage := 0.0, flagged := false))
  {
    var p := Serialize(v);
    HeadReadsBack(v);
    assert RealAt(p, 4) == Some(v.fuel) && RealAt(p, 5) == Some(v.variant.maxAltitude);
    RefuelReplay(v);
    assert IntAt(p, 7) == Some(v.passengers) && RealAt(p, 9) == Some(v.cargo);
    var boarded := v.(mileage := 0.0, cargo := 0.0, flagged := false);
    assert (if v.passengers > 0 then Replay(BoardPassengers(v.(mileage := 0.0, passengers := 0, cargo := 0.0, flagged := false), v.passengers))
            else Some(v.(mileage := 0.0, passengers := 0, cargo := 0.0, flagged := false))) == Some(boarded);
  }

  lemma {:induction false} RoundTripCargoShip(v: VehicleValue)
    requires Inv(v) && v.variant.CargoShip?
    ensures ParseCargoShip(Serialize(v)) == Some(v.(mileage := 0.0, flagged := false))
  {
    var p := Serialize(v);
    HeadReadsBack(v);
    assert RealAt(p, 4) == Some(v.fuel) && BoolAt(p, 5) == Some(v.variant.hasSail);
    assert RealAt(p, 7) == Some(v.cargo);
    if !v.variant.hasSail {
      RefuelReplay(v);
    }
  }

  /**
   * Reading back a written vehicle restores its variant, identity, fuel,
   * passengers and cargo; its mileage comes back as 0 and its maintenance
   * flag as cleared.
   */
  lemma {:induction false} RoundTrip(v: VehicleValue)
    requires Inv(v)
    ensures ParseLine(Serialize(v)) == Some(v.(mileage := 0.0, flagged := false))
  {
    var p := Serialize(v);
    match v.variant
    case Car(_) =>
      RoundTripCar(v);
    case Truck(_) =>
      assert p[0] != Text("Car");
      RoundTripTruck(v);
    case Bus(_) =>
      assert p[0] != Text("Car") && p[0] != Text("Truck");
      RoundTripBus(v);
    case Airplane(_) =>
      assert p[0] != Text("Car") && p[0] != Text("Truck") && p[0] != Text("Bus");
      RoundTripAirplane(v);
    case CargoShip(_) =>
      assert p[0] != Text("Car") && p[0] != Text("Truck") && p[0] != Text("Bus") && p[0] != Text("Airplane");
      RoundTripCargoShip(v);
  }

  /** A line whose type tag is not one of the five classes is skipped. */
  lemma UnknownTagSkipped(p: seq<Field>)
    requires |p| > 0
    requires p[0] !in {Text("Car"), Text("Truck"), Text("Bus"), Text("Airplane"), Text("CargoShip")}
    ensures ParseLine(p) == None
  {
  }

  // ---------------------------------------------------------------------
  // Whole files
  // ---------------------------------------------------------------------

  /** The lines `saveToFile` writes, one per vehicle in fleet order. */
  function SaveAll(vs: seq<VehicleValue>): (lines: seq<seq<Field>>)
    ensures |lines| == |vs|
    ensures forall i :: 0 <= i < |vs| ==> lines[i] == Serialize(vs[i])
  {
    if vs == [] then [] else SaveAll(vs[..|vs| - 1]) + [Serialize(vs[|vs| - 1])]
  }

  /** A vehicle as reading it back leaves it: mileage 0 and no maintenance flag. */
  function Reloaded(vs: seq<VehicleValue>): (r: seq<VehicleValue>)
    ensures |r| == |vs|
    ensures forall i :: 0 <= i < |vs| ==> r[i] == vs[i].(mileage := 0.0, flagged := false)
  {
    if vs == [] then [] else Reloaded(vs[..|vs| - 1]) + [vs[|vs| - 1].(mileage := 0.0, flagged := false)]
  }

  /** What one line contributes: its vehicle, or nothing when it is skipped. */
  function Loaded(line: seq<Field>): (r: seq<VehicleValue>)
    ensures |r| <= 1
    ensures r == [] <==> ParseLine(line).None?
  {
    match ParseLine(line)
    case Some(v) => [v]
    case None => []
  }

  /** The vehicles `loadFromFile` appends: the lines that parse, in file order. */
  function LoadAll(lines: seq<seq<Field>>): (vs: seq<VehicleValue>)
    ensures |vs| <= |lines|
    ensures forall i :: 0 <= i < |vs| ==> Restored(vs[i])
  {
    if lines == [] then [] else LoadAll(lines[..|lines| - 1]) + Loaded(lines[|lines| - 1])
  }

  /** Reading one more line appends what that line yields. */
  lemma LoadAllAppend(lines: seq<seq<Field>>, line: seq<Field>)
    ensures LoadAll(lines + [line]) == LoadAll(lines) + Loaded(line)
  {
    assert (lines + [line])[..|lines|] == lines;
  }

  /** Reading the lines one at a time. */
  lemma LoadAllStep(lines: seq<seq<Field>>, i: nat)
    requires i < |lines|
    ensures LoadAll(lines[..i + 1]) == LoadAll(lines[..i]) + Loaded(lines[i])
  {
    assert lines[..i + 1] == lines[..i] + [lines[i]];
    LoadAllAppend(lines[..i], lines[i]);
  }

  /**
   * Saving a fleet and loading the file gives the same vehicles in the same
   * order, each with its mileage reset and its flag cleared.
   */
  lemma {:induction false} SaveThenLoad(vs: seq<VehicleValue>)
    requires forall i :: 0 <= i < |vs| ==> Inv(vs[i])
    ensures LoadAll(SaveAll(vs)) == Reloaded(vs)
  {
    if vs != [] {
      var n := |vs| - 1;
      SaveThenLoad(vs[..n]);
      LoadAllAppend(SaveAll(vs[..n]), Serialize(vs[n]));
      RoundTrip(vs[n]);
    }
  }

  /** Loading does not check ids: a file with a line twice yields two vehicles with one id. */
  lemma LoadKeepsDuplicateIds(v: VehicleValue)
    requires Inv(v)
    ensures |LoadAll([Serialize(v), Serialize(v)])| == 2
    ensures LoadAll([Serialize(v), Serialize(v)])[0].id == LoadAll([Serialize(v), Serialize(v)])[1].id
  {
    RoundTrip(v);
    assert [Serialize(v), Serialize(v)][..1] == [Serialize(v)];
    assert [Serialize(v)][..0] == [];
  }
}
