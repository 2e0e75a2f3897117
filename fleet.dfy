/**
 * The fleet manager: an ordered list of vehicle objects, changed in place by
 * add, remove, sort and load, with batch operations that update the
 * vehicles one by one.  Every method is proved against the functions of
 * FleetSpec, Sorting and Persistence.
 */
module Fleet {
  import opened Outcomes
  import opened VehicleSpec
  import opened Vehicles
  import opened Sequences
  import opened Sorting
  import opened Persistence
  import opened FleetSpec

  /** The values of a list of vehicles, in order. */
  function Values(vs: seq<Vehicle>): (r: seq<VehicleValue>)
    reads vs
    ensures |r| == |vs|
  {
    if vs == [] then [] else Values(vs[..|vs| - 1]) + [vs[|vs| - 1].Value()]
  }

  /** Position `i` of the values is the value of vehicle `i`. */
  lemma {:induction false} ValuesAt(vs: seq<Vehicle>)
    ensures forall i :: 0 <= i < |vs| ==> Values(vs)[i] == vs[i].Value()
  {
    if vs != [] {
      ValuesAt(vs[..|vs| - 1]);
    }
  }

  /** Position `i` of the values is the value of vehicle `i`. */
  lemma ValueAt(vs: seq<Vehicle>, i: nat)
    requires i < |vs|
    ensures Values(vs)[i] == vs[i].Value()
  {
    ValuesAt(vs);
  }

  /** Position `i` of the type filter's mask is the type test on vehicle `i`. */
  lemma KindAt(vs: seq<Vehicle>, q: TypeQuery, i: nat)
    requires i < |vs|
    ensures KindMask(Values(vs), q)[i] == IsInstance(q, vs[i].variant)
  {
    ValueAt(vs, i);
  }

  /** Position `i` of the maintenance filter's mask is vehicle `i`'s need. */
  lemma NeedsAt(vs: seq<Vehicle>, i: nat)
    requires i < |vs|
    ensures NeedsMask(Values(vs))[i] == NeedsMaintenance(vs[i].Value())
  {
    ValueAt(vs, i);
  }

  lemma ValuesSnoc(vs: seq<Vehicle>, v: Vehicle)
    ensures Values(vs + [v]) == Values(vs) + [v.Value()]
  {
    assert (vs + [v])[..|vs|] == vs;
  }

  /** A vehicle not yet in the list, appended, keeps the fleet invariant. */
  lemma AppendKeepsValid(vs: seq<Vehicle>, v: Vehicle)
    requires Distinct(vs) && v !in vs && v.Valid() && forall j :: 0 <= j < |vs| ==> vs[j].Valid()
    ensures Distinct(vs + [v])
    ensures forall j :: 0 <= j < |vs| + 1 ==> (vs + [v])[j].Valid()
  {
    var r := vs + [v];
    forall a, b | 0 <= a < b < |r|
      ensures r[a] != r[b]
    {
      if b == |vs| {
        assert r[a] == vs[a];
      }
    }
  }

  /** Closing over a position of the list closes over it in the values. */
  lemma ValuesRemoveAt(vs: seq<Vehicle>, i: nat)
    requires i < |vs|
    ensures Values(RemoveAt(vs, i)) == RemoveAt(Values(vs), i)
  {
    ValuesAt(vs);
    ValuesAt(RemoveAt(vs, i));
  }

  /** What is left after closing over a position keeps the fleet invariant. */
  lemma RemoveAtKeepsValid(vs: seq<Vehicle>, i: nat)
    requires i < |vs| && Distinct(vs) && forall j :: 0 <= j < |vs| ==> vs[j].Valid()
    ensures Distinct(RemoveAt(vs, i))
    ensures forall j :: 0 <= j < |vs| - 1 ==> RemoveAt(vs, i)[j].Valid()
  {
    var r := RemoveAt(vs, i);
    forall a, b | 0 <= a < b < |r|
      ensures r[a] != r[b]
    {
      var a', b' := if a < i then a else a + 1, if b < i then b else b + 1;
      assert r[a] == vs[a'] && r[b] == vs[b'];
    }
  }

  /** The fleet keyed by fuel efficiency, the order `compareTo` sorts by. */
  function EfficiencyKeys(vs: seq<Vehicle>): (r: seq<Keyed<Vehicle>>)
    reads vs
    ensures |r| == |vs|
    ensures forall i :: 0 <= i < |vs| ==> r[i] == Keyed(Efficiency(vs[i].Value()), vs[i])
  {
    if vs == [] then [] else EfficiencyKeys(vs[..|vs| - 1]) + [Keyed(Efficiency(vs[|vs| - 1].Value()), vs[|vs| - 1])]
  }

  /** The vehicles in the order `Collections.sort` leaves them: stable, by efficiency. */
  function SortedByEfficiency(vs: seq<Vehicle>): (r: seq<Vehicle>)
    reads vs
    ensures |r| == |vs|
    ensures multiset(r) == multiset(vs)
  {
    var keyed := EfficiencyKeys(vs);
    ItemsPermutation(InsertionSort(keyed), keyed);
    assert Items(keyed) == vs;
    Items(InsertionSort(keyed))
  }

  class FleetManager {
    var fleet: seq<Vehicle>

    /** Each vehicle is held once and keeps its own invariant. */
    ghost predicate Valid()
      reads this, fleet
    {
      && Distinct(fleet)
      && (forall i :: 0 <= i < |fleet| ==> fleet[i].Valid())
    }

    /** The fleet as a list of values. */
    function Contents(): seq<VehicleValue>
      reads this, fleet
    {
      Values(fleet)
    }

    constructor ()
      ensures Valid() && fleet == []
    {
      fleet := [];
    }

    /** `addVehicle`: scans for the id, then appends. */
    method AddVehicle(v: Vehicle) returns (outcome: Outcome)
      requires Valid() && v.Valid()
      modifies this
      ensures Valid()
      ensures fleet == (if outcome == Ok then old(fleet) + [v] else old(fleet))
      ensures Update(outcome, Contents()) == Add(old(Contents()), v.Value())
    {
      ValuesAt(fleet);
      var i := 0;
      while i < |fleet|
        invariant 0 <= i <= |fleet|
        invariant forall j :: 0 <= j < i ==> fleet[j].id != v.id
      {
        if fleet[i].id == v.id {
          return InvalidOperation;
        }
        i := i + 1;
      }
      fleet := fleet + [v];
      outcome := Ok;
    }

    /** `removeVehicle`: finds the first vehicle with the id and removes it. */
    method RemoveVehicle(id: string) returns (outcome: Outcome)
      requires Valid()
      modifies this
      ensures Valid()
      ensures outcome == Ok ==> exists i :: 0 <= i < |old(fleet)| && fleet == RemoveAt(old(fleet), i)
      ensures outcome != Ok ==> fleet == old(fleet)
      ensures Update(outcome, Contents()) == Remove(old(Contents()), id)
    {
      ValuesAt(fleet);
      var i := 0;
      while i < |fleet|
        invariant 0 <= i <= |fleet|
        invariant forall j :: 0 <= j < i ==> fleet[j].id != id
      {
        if fleet[i].id == id {
          assert FirstWithId(Contents(), id) == Some(i);
          DeleteAt(i);
          return Ok;
        }
        i := i + 1;
      }
      outcome := InvalidOperation;
    }

    /** `fleet.remove(i)`: the list closes over position `i`. */
    method DeleteAt(i: nat)
      requires Valid() && i < |fleet|
      modifies this
      ensures Valid()
      ensures fleet == RemoveAt(old(fleet), i)
      ensures Contents() == RemoveAt(old(Contents()), i)
    {
      ValuesRemoveAt(fleet, i);
      RemoveAtKeepsValid(fleet, i);
      fleet := RemoveAt(fleet, i);
    }

    /** `startAllJourneys`: moves every vehicle; each failure is reported and the loop goes on. */
    method StartAllJourneys(d: real) returns (outcomes: seq<Outcome>)
      requires Valid()
      modifies fleet
      ensures Valid()
      ensures fleet == old(fleet)
      ensures outcomes == OutcomesOf(Journeys(old(Contents()), d))
      ensures Contents() == States(Journeys(old(Contents()), d))
    {
      ghost var before := Contents();
      outcomes := [];
      var i := 0;
      assert before[..0] == [] && before[0..] == before;
      while i < |fleet|
        invariant 0 <= i <= |fleet| == |before|
        invariant Valid()
        invariant Contents() == States(Journeys(before[..i], d)) + before[i..]
        invariant outcomes == OutcomesOf(Journeys(before[..i], d))
      {
        outcomes := JourneyNext(i, d, before, outcomes);
        i := i + 1;
      }
      assert before[..i] == before && before[i..] == [];
    }

    /** One turn of the journey loop: the next vehicle travels and its outcome is recorded. */
    method JourneyNext(i: nat, d: real, ghost before: seq<VehicleValue>, outcomes: seq<Outcome>)
      returns (outcomes': seq<Outcome>)
      requires Valid() && i < |fleet| == |before|
      requires outcomes == OutcomesOf(Journeys(before[..i], d))
      requires Contents() == States(Journeys(before[..i], d)) + before[i..]
      modifies fleet
      ensures Valid()
      ensures outcomes' == OutcomesOf(Journeys(before[..i + 1], d))
      ensures Contents() == States(Journeys(before[..i + 1], d)) + before[i + 1..]
    {
      JourneyStep(before, d, i);
      var outcome := MoveAt(i, d);
      outcomes' := outcomes + [outcome];
    }

    /** One vehicle of the fleet travels `d`; the others are untouched. */
    method MoveAt(i: nat, d: real) returns (outcome: Outcome)
      requires Valid() && i < |fleet|
      modifies fleet[i]
      ensures Valid()
      ensures Contents() == old(Contents())[i := Move(old(Contents())[i], d).after]
      ensures outcome == Move(old(Contents())[i], d).outcome
    {
      ValuesAt(fleet);
      ghost var vs := Contents();
      outcome := fleet[i].Move(d);
      ValuesAt(fleet);
      assert forall j :: 0 <= j < |fleet| && j != i ==> fleet[j] != fleet[i];
      assert forall j :: 0 <= j < |fleet| ==> Contents()[j] == vs[i := Move(vs[i], d).after][j];
    }

    /** `getTotalFuelConsumption`: draws fuel for `d` from every vehicle and sums what it got. */
    method TotalFuelConsumption(d: real) returns (total: real)
      requires Valid()
      modifies fleet
      ensures Valid()
      ensures fleet == old(fleet)
      ensures total == TotalDrawn(Draws(old(Contents()), d))
      ensures Contents() == Drained(Draws(old(Contents()), d))
    {
      ghost var before := Contents();
      total := 0.0;
      var i := 0;
      assert before[..0] == [] && before[0..] == before;
      while i < |fleet|
        invariant 0 <= i <= |fleet| == |before|
        invariant Valid()
        invariant Contents() == Drained(Draws(before[..i], d)) + before[i..]
        invariant total == TotalDrawn(Draws(before[..i], d))
      {
        total := DrainNext(i, d, before, total);
        i := i + 1;
      }
      assert before[..i] == before && before[i..] == [];
      assert Contents() == Drained(Draws(before, d));
    }

    /** One turn of the fuel loop: the next vehicle draws and the total grows by what it got. */
    method DrainNext(i: nat, d: real, ghost before: seq<VehicleValue>, total: real) returns (total': real)
      requires Valid() && i < |fleet| == |before|
      requires Contents() == Drained(Draws(before[..i], d)) + before[i..]
      requires total == TotalDrawn(Draws(before[..i], d))
      modifies fleet
      ensures Valid()
      ensures Contents() == Drained(Draws(before[..i + 1], d)) + before[i + 1..]
      ensures total' == TotalDrawn(Draws(before[..i + 1], d))
    {
      DrainStep(before, d, i);
      var used := DrainAt(i, d);
      total' := total + used;
    }

    /** One vehicle of the fleet draws fuel for `d`; the others are untouched. */
    method DrainAt(i: nat, d: real) returns (used: real)
      requires Valid() && i < |fleet|
      modifies fleet[i]
      ensures Valid()
      ensures Contents() == old(Contents())[i := ConsumeFuel(old(Contents())[i], d).after]
      ensures used == ConsumeFuel(old(Contents())[i], d).used
    {
      ValuesAt(fleet);
      ghost var vs := Contents();
      var outcome;
      outcome, used := fleet[i].ConsumeFuel(d);
      ValuesAt(fleet);
      assert forall j :: 0 <= j < |fleet| && j != i ==> fleet[j] != fleet[i];
      assert forall j :: 0 <= j < |fleet| ==> Contents()[j] == vs[i := ConsumeFuel(vs[i], d).after][j];
    }

    /** `maintainAll`: maintains each vehicle that needs it. */
    method MaintainAll()
      requires Valid()
      modifies fleet
      ensures Valid()
      ensures fleet == old(fleet)
      ensures Contents() == Maintained(old(Contents()))
    {
      ghost var before := Contents();
      var i := 0;
      assert before[..0] == [] && before[0..] == before;
      while i < |fleet|
        invariant 0 <= i <= |fleet| == |before|
        invariant Valid()
        invariant Contents() == Maintained(before[..i]) + before[i..]
      {
        MaintainNext(i, before);
        i := i + 1;
      }
      assert before[..i] == before && before[i..] == [];
    }

    /** One turn of the maintenance loop: the serviced prefix grows by one. */
    method MaintainNext(i: nat, ghost before: seq<VehicleValue>)
      requires Valid() && i < |fleet| == |before|
      requires Contents() == Maintained(before[..i]) + before[i..]
      modifies fleet
      ensures Valid()
      ensures Contents() == Maintained(before[..i + 1]) + before[i + 1..]
    {
      MaintainStep(before, i);
      MaintainAt(i);
    }

    /** One vehicle of the fleet is serviced; the others are untouched. */
    method MaintainAt(i: nat)
      requires Valid() && i < |fleet|
      modifies fleet[i]
      ensures Valid()
      ensures Contents() == old(Contents())[i := Serviced(old(Contents())[i])]
    {
      ValuesAt(fleet);
      ghost var vs := Contents();
      if NeedsMaintenance(fleet[i].Value()) {
        fleet[i].PerformMaintenance();
      }
      ValuesAt(fleet);
      assert forall j :: 0 <= j < |fleet| && j != i ==> fleet[j] != fleet[i];
      assert forall j :: 0 <= j < |fleet| ==> Contents()[j] == vs[i := Serviced(vs[i])][j];
    }

    /** `searchByType`: the vehicles of the queried type, in fleet order. */
    method SearchByType(q: TypeQuery) returns (results: seq<Vehicle>)
      ensures results == Select(fleet, KindMask(Contents(), q))
    {
      ghost var keep := KindMask(Contents(), q);
      results := [];
      var i := 0;
      while i < |fleet|
        invariant 0 <= i <= |fleet|
        invariant results == Select(fleet[..i], keep[..i])
      {
        KindAt(fleet, q, i);
        results := SelectNext(fleet, keep, i, IsInstance(q, fleet[i].variant), results);
        i := i + 1;
      }
      assert fleet[..i] == fleet && keep[..i] == keep;
    }

    /** `getVehiclesNeedingMaintenance`: the vehicles that need maintenance, in fleet order. */
    method VehiclesNeedingMaintenance() returns (needs: seq<Vehicle>)
      ensures needs == Select(fleet, NeedsMask(Contents()))
    {
      ghost var keep := NeedsMask(Contents());
      needs := [];
      var i := 0;
      while i < |fleet|
        invariant 0 <= i <= |fleet|
        invariant needs == Select(fleet[..i], keep[..i])
      {
        NeedsAt(fleet, i);
        needs := SelectNext(fleet, keep, i, NeedsMaintenance(fleet[i].Value()), needs);
        i := i + 1;
      }
      assert fleet[..i] == fleet && keep[..i] == keep;
    }

    /**
     * `sortFleetByEfficiency`: `Collections.sort` with `compareTo`, a stable
     * sort by efficiency; SortedFleet says what the new order is.
     */
    method SortFleetByEfficiency()
      requires Valid()
      modifies this
      ensures Valid()
      ensures fleet == old(SortedByEfficiency(fleet))
    {
      ghost var before := fleet;
      SortedFleet(before);
      var sorted := InsertionSort(EfficiencyKeys(fleet));
      fleet := Items(sorted);
      VehiclesValid(fleet);
    }

    /** `generateReport`, as a record: three passes over the fleet and the maintenance filter. */
    method GenerateReport() returns (r: Report)
      ensures r == ReportOf(Contents())
    {
      var counts := CountByClass();
      var totalEff, countEff := EfficiencyTotals();
      var average := if countEff > 0 then Some(totalEff / countEff as real) else None;
      var totalMileage := MileageTotal();
      var needs := VehiclesNeedingMaintenance();
      r := Report(|fleet|, counts, average, totalMileage, |needs|);
      ReportFromParts(Contents(), counts, totalEff, countEff, totalMileage, |needs|);
    }

    /** The first pass of the report: the count per class name. */
    method CountByClass() returns (counts: map<string, nat>)
      ensures counts == Tally(Contents())
    {
      ValuesAt(fleet);
      ghost var vs := Contents();
      counts := map[];
      var i := 0;
      while i < |fleet|
        invariant 0 <= i <= |fleet|
        invariant counts == Tally(vs[..i])
      {
        assert vs[..i + 1][..i] == vs[..i] && vs[i].variant == fleet[i].variant;
        var t := TypeName(fleet[i].variant);
        counts := counts[t := CountOf(counts, t) + 1];
        i := i + 1;
      }
      assert vs[..i] == vs;
    }

    /** The second pass: the sum and number of the positive efficiencies. */
    method EfficiencyTotals() returns (totalEff: real, countEff: nat)
      ensures totalEff == EfficiencySum(Contents()) && countEff == EfficiencyCount(Contents())
    {
      ValuesAt(fleet);
      ghost var vs := Contents();
      totalEff, countEff := 0.0, 0;
      var i := 0;
      while i < |fleet|
        invariant 0 <= i <= |fleet|
        invariant totalEff == EfficiencySum(vs[..i]) && countEff == EfficiencyCount(vs[..i])
      {
        assert vs[..i + 1][..i] == vs[..i];
        var eff := Efficiency(fleet[i].Value());
        if eff > 0.0 {
          totalEff := totalEff + eff;
          countEff := countEff + 1;
        }
        i := i + 1;
      }
      assert vs[..i] == vs;
    }

    /** The third pass: the summed mileage. */
    method MileageTotal() returns (totalMileage: real)
      ensures totalMileage == TotalMileage(Contents())
    {
      ValuesAt(fleet);
      ghost var vs := Contents();
      totalMileage := 0.0;
      var i := 0;
      while i < |fleet|
        invariant 0 <= i <= |fleet|
        invariant totalMileage == TotalMileage(vs[..i])
      {
        assert vs[..i + 1][..i] == vs[..i];
        totalMileage := totalMileage + fleet[i].mileage;
        i := i + 1;
      }
      assert vs[..i] == vs;
    }

    /** `saveToFile` without the file: the line written for each vehicle, in fleet order. */
    method Save() returns (lines: seq<seq<Field>>)
      ensures lines == SaveAll(Contents())
    {
      ValuesAt(fleet);
      ghost var vs := Contents();
      lines := [];
      var i := 0;
      while i < |fleet|
        invariant 0 <= i <= |fleet|
        invariant lines == SaveAll(vs[..i])
      {
        assert vs[..i + 1][..i] == vs[..i];
        lines := lines + [Serialize(fleet[i].Value())];
        i := i + 1;
      }
      assert vs[..i] == vs;
    }

    /**
     * `loadFromFile` without the file: clears the fleet, then appends the
     * vehicle each line yields and skips the lines that yield none.
     */
    method Load(lines: seq<seq<Field>>)
      modifies this
      ensures Valid()
      ensures Contents() == LoadAll(lines)
      ensures forall v :: v in fleet ==> fresh(v)
    {
      fleet := [];
      var i := 0;
      assert lines[..0] == [];
      while i < |lines|
        invariant 0 <= i <= |lines|
        invariant Valid()
        invariant Contents() == LoadAll(lines[..i])
        invariant forall v :: v in fleet ==> fresh(v)
      {
        LoadAllStep(lines, i);
        LoadLine(lines[i]);
        i := i + 1;
      }
      assert lines[..i] == lines;
    }

    /** One line of `loadFromFile`: the vehicle it yields, if any, is appended. */
    method LoadLine(line: seq<Field>)
      requires Valid()
      modifies this
      ensures Valid()
      ensures Contents() == old(Contents()) + Loaded(line)
      ensures forall v :: v in fleet ==> v in old(fleet) || fresh(v)
    {
      ghost var prev := Contents();
      var v := DeserializeVehicle(line);
      assert Contents() == prev;
      if v != null {
        assert Loaded(line) == [v.Value()];
        Append(v);
      } else {
        assert Loaded(line) == [];
      }
    }

    /** `fleet.add`: the list grows by one vehicle at its end. */
    method Append(v: Vehicle)
      requires Valid() && v.Valid() && v !in fleet
      modifies this
      ensures Valid()
      ensures fleet == old(fleet) + [v]
      ensures Contents() == old(Contents()) + [v.Value()]
    {
      ValuesSnoc(fleet, v);
      AppendKeepsValid(fleet, v);
      fleet := fleet + [v];
    }

    /**
     * `deserializeVehicle`: builds the vehicle the line names and replays
     * refuel, boarding and loading on it; null when the tag is unknown or
     * anything fails.
     */
    static method DeserializeVehicle(p: seq<Field>) returns (v: Vehicle?)
      ensures v == null <==> ParseLine(p).None?
      ensures v != null ==> fresh(v) && v.Valid() && ParseLine(p) == Some(v.Value())
    {
      if |p| == 0 {
        return null;
      }
      if p[0] == Text("Car") {
        v := DeserializeCar(p);
      } else if p[0] == Text("Truck") {
        v := DeserializeTruck(p);
      } else if p[0] == Text("Bus") {
        v := DeserializeBus(p);
      } else if p[0] == Text("Airplane") {
        v := DeserializeAirplane(p);
      } else if p[0] == Text("CargoShip") {
        v := DeserializeCargoShip(p);
      } else {
        v := null;
      }
    }

    static method DeserializeCar(p: seq<Field>) returns (v: Vehicle?)
      ensures v == null <==> ParseCar(p).None?
      ensures v != null ==> fresh(v) && v.Valid() && ParseCar(p) == Some(v.Value())
    {
      var id, model, maxSpeed, wheels := TextAt(p, 1), TextAt(p, 2), RealAt(p, 3), IntAt(p, 4);
      if id.None? || model.None? || maxSpeed.None? || wheels.None? {
        return null;
      }
      var outcome, c := Vehicle.Create(id, model, maxSpeed.value, Car(wheels.value));
      if c == null {
        return null;
      }
      var fuel := RealAt(p, 5);
      if fuel.None? {
        return null;
      }
      if fuel.value > 0.0 {
        outcome := c.Refuel(fuel.value);
        if outcome != Ok {
          return null;
        }
      }
      var seats, onBoard := IntAt(p, 6), IntAt(p, 7);
      if seats.None? || onBoard.None? {
        return null;
      }
      if onBoard.value > 0 {
        outcome := c.BoardPassengers(onBoard.value);
        if outcome != Ok {
          return null;
        }
      }
      v := c;
    }

    static method DeserializeTruck(p: seq<Field>) returns (v: Vehicle?)
      ensures v == null <==> ParseTruck(p).None?
      ensures v != null ==> fresh(v) && v.Valid() && ParseTruck(p) == Some(v.Value())
    {
      var id, model, maxSpeed, wheels := TextAt(p, 1), TextAt(p, 2), RealAt(p, 3), IntAt(p, 4);
      if id.None? || model.None? || maxSpeed.None? || wheels.None? {
        return null;
      }
      var outcome, t := Vehicle.Create(id, model, maxSpeed.value, Truck(wheels.value));
      if t == null {
        return null;
      }
      var fuel := RealAt(p, 5);
      if fuel.None? {
        return null;
      }
      if fuel.value > 0.0 {
        outcome := t.Refuel(fuel.value);
        if outcome != Ok {
          return null;
        }
      }
      var load := RealAt(p, 7);
      if load.None? {
        return null;
      }
      if load.value > 0.0 {
        outcome := t.LoadCargo(load.value);
        if outcome != Ok {
          return null;
        }
      }
      v := t;
    }

    static method DeserializeBus(p: seq<Field>) returns (v: Vehicle?)
      ensures v == null <==> ParseBus(p).None?
      ensures v != null ==> fresh(v) && v.Valid() && ParseBus(p) == Some(v.Value())
    {
      var id, model, maxSpeed, wheels := TextAt(p, 1), TextAt(p, 2), RealAt(p, 3), IntAt(p, 4);
      if id.None? || model.None? || maxSpeed.None? || wheels.None? {
        return null;
      }
      var outcome, b := Vehicle.Create(id, model, maxSpeed.value, Bus(wheels.value));
      if b == null {
        return null;
      }
      var fuel := RealAt(p, 5);
      if fuel.None? {
        return null;
      }
      if fuel.value > 0.0 {
        outcome := b.Refuel(fuel.value);
        if outcome != Ok {
          return null;
        }
      }
      var onBoard := IntAt(p, 7);
      if onBoard.None? {
        return null;
      }
      if onBoard.value > 0 {
        outcome := b.BoardPassengers(onBoard.value);
        if outcome != Ok {
          return null;
        }
      }
      var load := RealAt(p, 9);
      if load.None? {
        return null;
      }
      if load.value > 0.0 {
        outcome := b.LoadCargo(load.value);
        if outcome != Ok {
          return null;
        }
      }
      v := b;
    }

    static method DeserializeAirplane(p: seq<Field>) returns (v: Vehicle?)
      ensures v == null <==> ParseAirplane(p).None?
      ensures v != null ==> fresh(v) && v.Valid() && ParseAirplane(p) == Some(v.Value())
    {
      var id, model, maxSpeed := TextAt(p, 1), TextAt(p, 2), RealAt(p, 3);
      var fuel, altitude := RealAt(p, 4), RealAt(p, 5);
      if id.None? || model.None? || maxSpeed.None? || fuel.None? || altitude.None? {
        return null;
      }
      var outcome, a := Vehicle.Create(id, model, maxSpeed.value, Airplane(altitude.value));
      if a == null {
        return null;
      }
      if fuel.value > 0.0 {
        outcome := a.Refuel(fuel.value);
        if outcome != Ok {
          return null;
        }
      }
      var onBoard := IntAt(p, 7);
      if onBoard.None? {
        return null;
      }
      if onBoard.value > 0 {
        outcome := a.BoardPassengers(onBoard.value);
        if outcome != Ok {
          return null;
        }
      }
      var load := RealAt(p, 9);
      if load.None? {
        return null;
      }
      if load.value > 0.0 {
        outcome := a.LoadCargo(load.value);
        if outcome != Ok {
          return null;
        }
      }
      v := a;
    }

    static method DeserializeCargoShip(p: seq<Field>) returns (v: Vehicle?)
      ensures v == null <==> ParseCargoShip(p).None?
      ensures v != null ==> fresh(v) && v.Valid() && ParseCargoShip(p) == Some(v.Value())
    {
      var id, model, maxSpeed := TextAt(p, 1), TextAt(p, 2), RealAt(p, 3);
      var fuel, sail := RealAt(p, 4), BoolAt(p, 5);
      if id.None? || model.None? || maxSpeed.None? || fuel.None? || sail.None? {
        return null;
      }
      var outcome, s := Vehicle.Create(id, model, maxSpeed.value, CargoShip(sail.value));
      if s == null {
        return null;
      }
      if !sail.value && fuel.value > 0.0 {
        outcome := s.Refuel(fuel.value);
        if outcome != Ok {
          return null;
        }
      }
      var load := RealAt(p, 7);
      if load.None? {
        return null;
      }
      if load.value > 0.0 {
        outcome := s.LoadCargo(load.value);
        if outcome != Ok {
          return null;
        }
      }
      v := s;
    }
  }

  // ---------------------------------------------------------------------
  // Helpers for the sort and the report
  // ---------------------------------------------------------------------

  /** Sorting distinct valid vehicles by efficiency rearranges the same vehicles, each still valid. */
  lemma SortedFleet(vs: seq<Vehicle>)
    requires Distinct(vs) && forall i :: 0 <= i < |vs| ==> vs[i].Valid()
    ensures multiset(SortedByEfficiency(vs)) == multiset(vs)
    ensures Distinct(SortedByEfficiency(vs))
    ensures forall i :: 0 <= i < |vs| ==> SortedByEfficiency(vs)[i].Valid()
  {
    var keyed := EfficiencyKeys(vs);
    var sorted := InsertionSort(keyed);
    var s := Items(sorted);
    ItemsPermutation(sorted, keyed);
    assert Items(keyed) == vs;
    DistinctPermutation(vs, s);
    forall i | 0 <= i < |s|
      ensures s[i].Valid()
    {
      assert s[i] in multiset(vs);
    }
  }

  /**
   * The sorted vehicles are ordered by efficiency, and vehicles of equal
   * efficiency keep their previous order.
   */
  lemma SortedFleetOrder(vs: seq<Vehicle>)
    ensures forall i, j :: 0 <= i < j < |vs| ==>
              Efficiency(SortedByEfficiency(vs)[i].Value()) <= Efficiency(SortedByEfficiency(vs)[j].Value())
    ensures forall k :: WithKey(EfficiencyKeys(SortedByEfficiency(vs)), k) == WithKey(EfficiencyKeys(vs), k)
  {
    var keyed := EfficiencyKeys(vs);
    SortedKeys(vs);
    InsertionSortSorted(keyed);
    forall k {
      InsertionSortStable(keyed, k);
    }
  }

  /** Vehicles whose fields did not change keep their invariants. */
  twostate lemma VehiclesValid(vs: seq<Vehicle>)
    requires forall i :: 0 <= i < |vs| ==> unchanged(vs[i]) && old(vs[i].Valid())
    ensures forall i :: 0 <= i < |vs| ==> vs[i].Valid()
  {
  }

  /** The keys of the sorted entries are still the efficiencies of their vehicles. */
  lemma SortedKeys(vs: seq<Vehicle>)
    ensures EfficiencyKeys(Items(InsertionSort(EfficiencyKeys(vs)))) == InsertionSort(EfficiencyKeys(vs))
  {
    var keyed := EfficiencyKeys(vs);
    var sorted := InsertionSort(keyed);
    KeysFollowItems(keyed, sorted);
    var items := Items(sorted);
    forall i | 0 <= i < |sorted|
      ensures EfficiencyKeys(items)[i] == sorted[i]
    {
      assert items[i] == sorted[i].item;
    }
  }

  lemma KeysFollowItems(keyed: seq<Keyed<Vehicle>>, sorted: seq<Keyed<Vehicle>>)
    requires multiset(sorted) == multiset(keyed)
    requires forall i :: 0 <= i < |keyed| ==> keyed[i].key == Efficiency(keyed[i].item.Value())
    ensures forall i :: 0 <= i < |sorted| ==> sorted[i].key == Efficiency(sorted[i].item.Value())
  {
    forall i | 0 <= i < |sorted|
      ensures sorted[i].key == Efficiency(sorted[i].item.Value())
    {
      assert sorted[i] in multiset(keyed);
    }
  }
}
