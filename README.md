# Transportation fleet management, modelled in Dafny

This project models the core of a transportation fleet manager: five kinds of
vehicle and the manager that keeps them in an ordered list.

- **Vehicle kinds.** The kinds are Car, Truck, Bus, Airplane and CargoShip.
  They belong to the land, air and water categories.
- **What a vehicle holds.** Each vehicle has an immutable identity: id, model and
  top speed, plus the attribute its category adds (wheels, altitude or sail).
  It also has mutable state: mileage, fuel, passengers, cargo and a
  maintenance flag.
- **What a vehicle can do.** It can move, be refuelled, have fuel drawn from
  it, take on and drop passengers or cargo, and be scheduled for or given
  maintenance.
  - Every operation either succeeds or fails with InvalidOperation,
    InsufficientFuel or Overload.
  - A failing operation changes nothing.
- **What the manager does.**
  - It adds and removes vehicles by unique id.
  - It runs batch journeys, fuel draws and maintenance rounds. One failing
    vehicle never stops the batch.
  - It filters by type and by maintenance need.
  - It sorts stably by fuel efficiency.
  - It builds a summary report.
  - It writes the fleet out one line per vehicle and reads it back.

The model has these modules:

- `Outcomes` holds the outcome of an operation and an `Option` standing for Java's `null`.
- `VehicleSpec` states each vehicle operation as a function. The function maps the
  vehicle's value before the call to the outcome and the value after it. The
  module also proves the per-vehicle properties.
- `Vehicles` holds the class `Vehicle`. Its fields are updated in place by methods.
  Each method is proved equal to the corresponding `VehicleSpec` function.
- `FleetSpec` states the fleet operations on the list of vehicle values. It proves
  several properties:
  - unique ids;
  - mileage gained per journey;
  - fuel conservation;
  - maintenance;
  - filters;
  - the report.
- `Fleet` holds the class `FleetManager`. It keeps a `seq` of `Vehicle` objects.
  - Its methods loop over the fleet and change the list or the vehicles in place.
  - Each method is proved against the `FleetSpec`, `Sorting` and `Persistence` functions.
- `Sequences` holds order-preserving filtering by a mask, used by the two filters.
- `Sorting` is a stable insertion sort by a real key. It is proved to be a
  sorted permutation that keeps equal keys in their order, which is what
  `Collections.sort` guarantees.
- `Persistence` holds the per-kind field layout of a saved line and the line parser.
  The parser replays refuel, boarding and loading on a freshly constructed vehicle.
  The module also proves that writing a fleet and reading it back gives the
  same fleet, except for mileage and the maintenance flag.
- `Csv` holds the comma join and split of a line, with its round trip. It also
  holds the counterexample for a field that contains a comma.

Java `double` quantities are `real`. Java `int` fields are mathematical integers,
except where 32-bit wrap-around matters; see Findings.

`loadFromFile` calls no mileage setter, so a loaded vehicle starts at
mileage 0 with its flag cleared. The model follows the code: `Persistence.RoundTrip`
and `Persistence.SaveThenLoad` state exactly that.

## Model

| member | source | states |
|---|---|---|
| VehicleSpec.New | vehicles/Vehicle.java:11-19 | construction fails exactly when the id is null or blank. Otherwise it keeps the id, speed and kind, turns a null model into "Unknown", and starts with zero mileage, fuel, passengers and cargo and no flag; the new vehicle satisfies the invariant |
| Vehicles.Vehicle.Create | vehicles/Vehicle.java:11-19 | reports InvalidOperation and yields null exactly when `New` rejects. Otherwise it yields a fresh valid object whose value is what `New` builds |
| Vehicles.Vehicle.Init | vehicles/Car.java:12-17 | a vehicle starts with mileage, fuel, passengers and cargo at 0 and the flag clear |
| VehicleSpec.TrimEmptyIffBlank | vehicles/Vehicle.java:12 | `trim()` leaves nothing exactly when every character is at most U+0020, which is the blank-id test the constructor and the invariant use |
| VehicleSpec.TypeNamesDistinct | fleet/FleetManager.java:101 | two vehicles have the same simple class name exactly when they are of the same class, so the name identifies the class in the report and the saved tag |
| VehicleSpec.AddMileage | vehicles/Vehicle.java:50-52 | the mileage rises by exactly `d` and nothing else changes |
| Vehicles.Vehicle.AddMileage | vehicles/Vehicle.java:50-52 | the in-place update equals `VehicleSpec.AddMileage` on the old value |
| VehicleSpec.Efficiency | vehicles/CargoShip.java:37-40 | efficiency is 0 exactly for a sail ship. Otherwise it lies between 4 and 15 |
| VehicleSpec.TruckEfficiencyByLoad | vehicles/Truck.java:32-38 | a truck runs at 7.2 when it carries more than 2500 and at 8.0 otherwise |
| VehicleSpec.CompareEfficiency | vehicles/Vehicle.java:55-57 | the comparison is -1, 0 or 1, and its sign agrees with comparing the two efficiencies |
| VehicleSpec.CompareAntisymmetric | vehicles/Vehicle.java:55-57 | comparing in the other order negates the result |
| VehicleSpec.EstimateJourneyTime | vehicles/LandVehicle.java:14-17 | a land journey's time times the speed is 1.1 times the distance, and an air journey's (AirVehicle.java lines 14-17) is 0.95 times it; for a positive distance the land estimate is above distance / speed and the air estimate below it |
| VehicleSpec.FuelLevel | vehicles/CargoShip.java:94-97 | a sail ship reports 0. Any other vehicle reports its stored fuel, which is non-negative under the invariant |
| VehicleSpec.Move | vehicles/Car.java:20-27 | never Overload. A failure leaves the vehicle unchanged; a success adds `d` to the mileage and may change only the fuel besides |
| VehicleSpec.MoveOutcome | vehicles/CargoShip.java:20-34 | InvalidOperation exactly for a negative distance. InsufficientFuel exactly when an engine-driven vehicle needs more than its fuel. A sail ship's successful journey keeps its fuel |
| VehicleSpec.MoveBurnsFuel | vehicles/Bus.java:23-29 | a successful engine-driven journey burns exactly distance / efficiency |
| VehicleSpec.MoveKeepsInv | vehicles/Truck.java:20-29 | a journey keeps the vehicle invariant (fuel stays non-negative) and never lowers the mileage |
| Vehicles.Vehicle.Move | vehicles/CargoShip.java:20-34 | the in-place `move` yields exactly the outcome and state of `VehicleSpec.Move`, and keeps the invariant |
| VehicleSpec.Refuel | vehicles/CargoShip.java:87-91 | succeeds exactly when the vehicle is not sail-powered and the amount is positive. It then adds the amount and nothing else; a failure changes nothing |
| Vehicles.Vehicle.Refuel | vehicles/Car.java:36-39 | the in-place `refuel` equals `VehicleSpec.Refuel`, and keeps the invariant |
| VehicleSpec.ConsumeFuel | vehicles/CargoShip.java:100-107 | InsufficientFuel exactly for a sail ship or when distance / efficiency exceeds the fuel, with no change. Otherwise it removes exactly what it returns and touches nothing else |
| VehicleSpec.ConsumeFuelCoversDistance | vehicles/Truck.java:53-59 | a successful draw times the efficiency is the distance |
| Vehicles.Vehicle.ConsumeFuel | vehicles/Car.java:47-52 | the in-place `consumeFuel` equals `VehicleSpec.ConsumeFuel`, and keeps the invariant |
| VehicleSpec.BoardPassengers | vehicles/Car.java:56-61 | a non-positive count is a no-op. Overload, with no change, happens exactly when the count would exceed the seats; otherwise the count is added and the seat bound is kept |
| Vehicles.Vehicle.BoardPassengers | vehicles/Bus.java:61-66 | the in-place `boardPassengers` equals `VehicleSpec.BoardPassengers`, and keeps the invariant |
| VehicleSpec.DisembarkPassengers | vehicles/Car.java:64-68 | succeeds exactly for 0 <= count <= on board, and then subtracts it. Otherwise it is InvalidOperation with no change |
| Vehicles.Vehicle.DisembarkPassengers | vehicles/Airplane.java:69-73 | the in-place `disembarkPassengers` equals `VehicleSpec.DisembarkPassengers`, and keeps the invariant |
| VehicleSpec.LoadCargo | vehicles/Truck.java:63-68 | a non-positive weight is a no-op. Overload, with no change, happens exactly when the hold would be exceeded; otherwise the weight is added and the hold bound is kept |
| Vehicles.Vehicle.LoadCargo | vehicles/Airplane.java:87-92 | the in-place `loadCargo` equals `VehicleSpec.LoadCargo`, and keeps the invariant |
| VehicleSpec.UnloadCargo | vehicles/Truck.java:71-75 | succeeds exactly for 0 <= weight <= cargo, and then subtracts it. Otherwise it is InvalidOperation with no change |
| Vehicles.Vehicle.UnloadCargo | vehicles/CargoShip.java:52-56 | the in-place `unloadCargo` equals `VehicleSpec.UnloadCargo`, and keeps the invariant |
| VehicleSpec.ScheduleMaintenance | vehicles/Car.java:82-89 | sets the flag, so afterwards the vehicle needs maintenance; nothing else changes |
| Vehicles.Vehicle.ScheduleMaintenance | vehicles/Truck.java:89-91 | the in-place update equals `VehicleSpec.ScheduleMaintenance` |
| VehicleSpec.PerformMaintenance | vehicles/Bus.java:117-126 | the maintenance flag is cleared and nothing else changes, so afterwards the vehicle needs maintenance exactly when its mileage is above 10000 |
| Vehicles.Vehicle.PerformMaintenance | vehicles/Airplane.java:122-126 | the in-place update equals `VehicleSpec.PerformMaintenance` |
| VehicleSpec.MaintenanceNeedPersists | vehicles/Car.java:86-89 | a vehicle that needs maintenance still needs it after any journey or fuel draw, and a successful journey past 10000 creates the need. Only `performMaintenance` clears it, and only at or below 10000 |
| VehicleSpec.BoardAsWritten | vehicles/Car.java:58-60 | boarding with the 32-bit sum: Ok or Overload, no change on Overload, and only the head count changes on Ok |
| VehicleSpec.BoardOverflowBreaksCapacity | vehicles/Car.java:58-60 | a car with one passenger accepts 2147483647 more as written and ends with -2147483648 on board. The corrected check reports Overload |
| VehicleSpec.BoardAgreesWithoutOverflow | vehicles/Car.java:58-60 | where the 32-bit sum does not overflow, the written check and the corrected one agree |
| FleetSpec.FirstWithId | fleet/FleetManager.java:32-40 | finds the first position holding the id, or none exactly when no vehicle has it |
| FleetSpec.Add | fleet/FleetManager.java:21-28 | succeeds exactly when no vehicle has the id, and then appends at the end. Otherwise it is InvalidOperation with no change; unique ids are preserved |
| Fleet.FleetManager.AddVehicle | fleet/FleetManager.java:21-28 | the scan-then-append updates the list of objects and its values as `FleetSpec.Add` says, keeping every vehicle valid and held once |
| FleetSpec.Remove | fleet/FleetManager.java:30-42 | succeeds exactly when some vehicle has the id, and then deletes the first such vehicle, keeping the others in order. Otherwise it is InvalidOperation with no change; unique ids are preserved and the id is gone afterwards |
| Fleet.FleetManager.RemoveVehicle | fleet/FleetManager.java:30-42 | the iterator scan deletes one position of the object list, and its values follow `FleetSpec.Remove` |
| Fleet.FleetManager.DeleteAt | fleet/FleetManager.java:36 | the list, and its values, close over the removed position |
| FleetSpec.AddThenRemove | fleet/FleetManager.java:21-42 | removing the id just added gives back the original list |
| FleetSpec.RejectedUpdatesChangeNothing | fleet/FleetManager.java:21-42 | adding a present id, or removing an absent one, fails and leaves the list as it was |
| FleetSpec.JourneysAt | fleet/FleetManager.java:45-47 | step `i` of a round of journeys is vehicle `i`'s own `move`, from its own state |
| Fleet.FleetManager.StartAllJourneys | fleet/FleetManager.java:44-56 | the list itself is unchanged. Each vehicle ends as its own `move` leaves it, and the outcomes are those moves' outcomes in fleet order |
| Fleet.FleetManager.MoveAt | fleet/FleetManager.java:47 | moving one vehicle changes only that position of the fleet |
| FleetSpec.JourneysAddMileage | fleet/FleetManager.java:44-56 | the fleet's total mileage grows by the distance once for every successful journey |
| FleetSpec.GainedIsProduct | fleet/FleetManager.java:44-56 | counting the distance once per success is the distance times the number of successes |
| FleetSpec.JourneysKeepFleetShape | fleet/FleetManager.java:44-56 | journeys keep every vehicle's identity and invariant, and keep the ids unique |
| FleetSpec.FuelConservation | fleet/FleetManager.java:58-70 | the reported total is exactly the fuel that left the tanks, so every tank stays non-negative. For a non-negative distance the total lies between 0 and the fleet's fuel |
| FleetSpec.DrawsAt | fleet/FleetManager.java:60-67 | draw `i` of a round is vehicle `i`'s own `consumeFuel`, from its own state |
| Fleet.FleetManager.TotalFuelConsumption | fleet/FleetManager.java:58-70 | the list itself is unchanged. Each vehicle ends as its own `consumeFuel` leaves it, and the result is the sum of what the successful draws returned |
| Fleet.FleetManager.DrainAt | fleet/FleetManager.java:63 | drawing fuel from one vehicle changes only that position of the fleet |
| FleetSpec.Serviced | fleet/FleetManager.java:73-78 | one turn of the loop leaves the vehicle unflagged and otherwise as it was |
| FleetSpec.MaintainedAt | fleet/FleetManager.java:73-79 | position `i` after a round is vehicle `i` serviced |
| FleetSpec.MaintainAllClearsFlags | fleet/FleetManager.java:72-80 | after a round every flag is clear, so a vehicle needs maintenance exactly when its mileage is above 10000. A second round changes nothing |
| Fleet.FleetManager.MaintainAll | fleet/FleetManager.java:72-80 | the list itself is unchanged, and each vehicle is serviced in place |
| Fleet.FleetManager.MaintainAt | fleet/FleetManager.java:74-77 | servicing one vehicle changes only that position of the fleet |
| Sequences.SelectNext | fleet/FleetManager.java:84-86 | one turn of a filtering loop extends the filtered prefix by the next element exactly when it is kept |
| Sequences.SelectMembership | fleet/FleetManager.java:84-86 | the filtered list holds exactly the elements at kept positions |
| FleetSpec.IsInstanceHierarchy | fleet/FleetManager.java:85 | every vehicle is an instance of `Vehicle` and of its own class, and of exactly one of the land, air and water categories. It is a passenger or cargo carrier exactly when its class has that kind of room; nothing is an instance of a class outside the vehicles package (`Object` and `Comparable` answer as `Vehicle`) |
| FleetSpec.ClassOf | fleet/FleetManager.java:101 | a vehicle's own class matches exactly the vehicles with the same simple class name |
| FleetSpec.SearchByTypeFinds | fleet/FleetManager.java:82-88 | a vehicle is in the search result exactly when it is in the fleet and of the queried type |
| FleetSpec.SearchByTypeExtremes | fleet/FleetManager.java:82-88 | searching for `Vehicle` returns the whole fleet in order; a class no vehicle is an instance of returns nothing |
| Fleet.FleetManager.SearchByType | fleet/FleetManager.java:82-88 | without changing anything, returns the fleet's objects filtered in order by `KindMask` |
| FleetSpec.NeedingMaintenanceFinds | fleet/FleetManager.java:128-136 | a vehicle is reported exactly when it is in the fleet and needs maintenance. A maintenance round never raises the count |
| Fleet.FleetManager.VehiclesNeedingMaintenance | fleet/FleetManager.java:128-136 | without changing anything, returns the fleet's objects filtered in order by `NeedsMask` |
| Sorting.InsertionSort | fleet/FleetManager.java:91 | the sorted list is a permutation of the input |
| Sorting.InsertionSortSorted | fleet/FleetManager.java:91 | the sorted list is ascending by key |
| Sorting.InsertionSortStable | fleet/FleetManager.java:91 | for every key, the entries with that key keep their relative order |
| Fleet.SortedByEfficiency | fleet/FleetManager.java:91 | the sorted list has the same length and the same vehicles, each as many times as before |
| Fleet.SortedFleet | fleet/FleetManager.java:90-92 | sorting by efficiency rearranges the same vehicles, each still held once and valid |
| Fleet.SortedFleetOrder | fleet/FleetManager.java:90-92 | the sorted vehicles are ascending by efficiency, and vehicles of equal efficiency keep their previous order |
| Fleet.FleetManager.SortFleetByEfficiency | fleet/FleetManager.java:90-92 | the list becomes the stable efficiency order of the old list, and the fleet stays valid |
| FleetSpec.TallyCountsAll | fleet/FleetManager.java:99-103 | only the five class names are counted, each with a positive count, and the counts sum to the fleet size |
| FleetSpec.TallyCountsClasses | fleet/FleetManager.java:99-103 | the count under each class's name is the number of vehicles a search for that class finds; any other name has no count |
| FleetSpec.EfficienciesOfEngines | fleet/FleetManager.java:108-116 | the efficiency sum and count range over exactly the vehicles that are not sail ships, all of which have a positive efficiency |
| FleetSpec.MileageOfUpdates | fleet/FleetManager.java:119-120 | the total mileage counts each vehicle once: adding a vehicle adds its mileage, removing one takes it away, and over valid vehicles the total is never negative |
| FleetSpec.EfficiencyBounds | fleet/FleetManager.java:108-116 | no efficiency is counted exactly when every vehicle is a sail ship. The positive efficiencies sum to between 4 and 15 times their count |
| FleetSpec.ReportOf | fleet/FleetManager.java:94-126 | the report has the fleet size, and under each class name the number of vehicles of that class, summing to the size. The average is the sum of the efficiencies of the vehicles that are not sail ships divided by their number; it lies between 4 and 15 and is absent exactly when every vehicle is a sail ship. It also has the summed mileage and the size of the maintenance filter |
| Fleet.FleetManager.GenerateReport | fleet/FleetManager.java:94-126 | without changing anything, the three passes and the filter produce `ReportOf` of the fleet |
| Fleet.FleetManager.CountByClass | fleet/FleetManager.java:99-103 | the counting loop builds the per-class map `Tally` |
| Fleet.FleetManager.EfficiencyTotals | fleet/FleetManager.java:108-116 | the efficiency loop builds the sum and count of the positive efficiencies |
| Fleet.FleetManager.MileageTotal | fleet/FleetManager.java:119-120 | the mileage loop builds the fleet's total mileage |
| Persistence.Serialize | fleet/FleetManager.java:165-223 | a line has 11 fields for a bus or an airplane and 9 otherwise. It starts with the class name, id, model and speed and ends with the mileage |
| Persistence.SaveAll | fleet/FleetManager.java:138-147 | one line per vehicle, in fleet order, each that vehicle's serialization |
| Fleet.FleetManager.Save | fleet/FleetManager.java:138-147 | without changing anything, the save loop produces `SaveAll` of the fleet |
| Csv.PiecesJoin | fleet/FleetManager.java:167-176 | a joined line holds exactly its fields: cutting it at every comma gives them back when none holds a comma |
| Csv.JoinPieces | fleet/FleetManager.java:227 | cutting a line at every comma and joining the pieces again gives the line |
| Csv.Split | fleet/FleetManager.java:227 | no piece holds a comma, and joining the pieces gives the line without its trailing commas. A line without a comma splits into itself |
| Csv.SplitJoin | fleet/FleetManager.java:227 | splitting a joined line gives back its fields when none holds a comma and the last is non-empty |
| Csv.CommaInFieldBreaksRoundTrip | fleet/FleetManager.java:167-176 | a model name holding a comma reads back as two fields |
| Persistence.FieldsReadBack | fleet/FleetManager.java:231-235 | each field reader returns the value the written token holds: text, a decimal or whole number, a 32-bit whole number, a boolean. A field of another kind, or one past the end of the line, reads as nothing |
| Persistence.ParseCar | fleet/FleetManager.java:230-242 | a car line that parses yields a valid car with mileage 0 and no flag |
| Persistence.ParseTruck | fleet/FleetManager.java:243-254 | a truck line that parses yields a valid truck with mileage 0 and no flag |
| Persistence.ParseBus | fleet/FleetManager.java:255-268 | a bus line that parses yields a valid bus with mileage 0 and no flag |
| Persistence.ParseAirplane | fleet/FleetManager.java:269-282 | an airplane line that parses yields a valid airplane with mileage 0 and no flag |
| Persistence.ParseCargoShip | fleet/FleetManager.java:283-295 | a ship line that parses yields a valid ship with mileage 0 and no flag |
| Persistence.ParseLine | fleet/FleetManager.java:225-303 | an empty line is skipped, and so is a malformed one: a missing or wrongly typed id, model or speed, a blank id, fewer fields than the tag's layout, or saved passengers or cargo beyond the class's capacity (the replayed boarding or loading overloads). A parsed vehicle is valid, has mileage 0 and no flag, and its class is the line's tag |
| Persistence.UnknownTagSkipped | fleet/FleetManager.java:295-297 | a line whose tag is none of the five classes is skipped |
| Persistence.RoundTripCar | fleet/FleetManager.java:230-242 | a written car reads back with everything but mileage and flag |
| Persistence.RoundTripTruck | fleet/FleetManager.java:243-254 | a written truck reads back with everything but mileage and flag |
| Persistence.RoundTripBus | fleet/FleetManager.java:255-268 | a written bus reads back with everything but mileage and flag |
| Persistence.RoundTripAirplane | fleet/FleetManager.java:269-282 | a written airplane reads back with everything but mileage and flag |
| Persistence.RoundTripCargoShip | fleet/FleetManager.java:283-295 | a written ship reads back with everything but mileage and flag |
| Persistence.RoundTrip | fleet/FleetManager.java:165-303 | reading back a written vehicle restores its kind, identity, fuel, passengers and cargo. The mileage comes back as 0 and the flag cleared |
| Fleet.FleetManager.DeserializeVehicle | fleet/FleetManager.java:225-303 | returns null exactly when `ParseLine` skips the line. Otherwise it returns a fresh valid vehicle whose value is what `ParseLine` yields |
| Fleet.FleetManager.DeserializeCar | fleet/FleetManager.java:230-242 | constructing and replaying in place yields exactly `ParseCar` |
| Fleet.FleetManager.DeserializeTruck | fleet/FleetManager.java:243-254 | constructing and replaying in place yields exactly `ParseTruck` |
| Fleet.FleetManager.DeserializeBus | fleet/FleetManager.java:255-268 | constructing and replaying in place yields exactly `ParseBus` |
| Fleet.FleetManager.DeserializeAirplane | fleet/FleetManager.java:269-282 | constructing and replaying in place yields exactly `ParseAirplane` |
| Fleet.FleetManager.DeserializeCargoShip | fleet/FleetManager.java:283-295 | constructing and replaying in place yields exactly `ParseCargoShip` |
| Persistence.Loaded | fleet/FleetManager.java:154-155 | a line adds nothing exactly when it is skipped, and at most one vehicle otherwise |
| Persistence.LoadAll | fleet/FleetManager.java:151-156 | the loaded vehicles number at most the lines, and each is valid with mileage 0 and no flag |
| Persistence.SaveThenLoad | fleet/FleetManager.java:138-163 | saving a fleet and loading the lines gives the same vehicles in order, each with mileage 0 and flag cleared |
| Persistence.LoadKeepsDuplicateIds | fleet/FleetManager.java:151-155 | loading does not check ids: a line given twice yields two vehicles with one id |
| Fleet.FleetManager.Load | fleet/FleetManager.java:149-163 | the list is cleared and rebuilt from fresh objects whose values are `LoadAll` of the lines, in order |
| Fleet.FleetManager.LoadLine | fleet/FleetManager.java:153-156 | one line appends the vehicle it yields, or nothing |
| Fleet.FleetManager.Append | fleet/FleetManager.java:155 | the list grows by the new vehicle at its end and stays valid |
| Fleet.FleetManager.constructor | fleet/FleetManager.java:13-15 | a new manager holds an empty fleet |

## Left out

- File and console I/O are not modelled.
  - `saveToFile` is modelled as the lines it writes, and `loadFromFile` takes the lines it reads.
  - The I/O error paths are left out: opening, writing or reading failures and their messages.
  - Every `System.out.println` diagnostic, `displayInfo` and the menu program `Main.java` are left out.
- Text formatting and parsing of numbers is not modelled.
  - A persisted field is a typed token (`Persistence.Field`), so `String.valueOf`, `Double.parseDouble` and `Integer.parseInt` on text are out.
  - An id or model is a text token. The comma layer is modelled separately in `Csv`, where a field holding a comma is shown to break the round trip.
- Floating point is modelled as exact `real` arithmetic. Rounding, NaN and infinity are not modelled.
- `VehicleSpec.EstimateJourneyTime` requires a positive top speed. Java would divide by zero at speed 0, and for a negative speed, which the constructor accepts, it returns a negative time; the model covers neither.
- The report is a record, not text. HashMap iteration order and the report's line layout are not modelled.
- `Collections.sort` is modelled by its result, a stable sort by efficiency, through an insertion sort on values. The library's merge steps on the list are not modelled.
- `WaterVehicle` is not part of this model. The sail attribute is taken as an immutable constructor argument, and the water category's `estimateJourneyTime` is not modelled.
- The interfaces and exception classes are not part of this model. Exceptions are `Outcome` values.
  - The catch-all branch in `startAllJourneys` is not reachable: `move` raises only the two modelled kinds.
- Passenger and cargo operations require a kind that has them. In Java they exist only on those classes.
- Loading does not establish unique ids, matching the code (`Persistence.LoadKeepsDuplicateIds`). Unique ids are an invariant of add and remove only, proved on values by `FleetSpec.Add` and `FleetSpec.Remove`. `FleetManager.Valid` itself does not demand unique ids.
- The `efficiency <= 0` guards of the truck's and the ship's `move` are modelled as written. They can never fire.
- Getters, such as `getId` and `getNumWheels`, are the class's constant and mutable fields.
- `VehicleSpec.Move`'s own contract does not name the outcome of each branch. That characterisation is stated by the lemmas beside it: `VehicleSpec.MoveOutcome`, `VehicleSpec.MoveBurnsFuel` and `VehicleSpec.MoveKeepsInv`.
- `FleetSpec.JourneysAddMileage` states the mileage gained as the distance counted once per success. `FleetSpec.GainedIsProduct` turns that into the product.

## Findings

| source | as written | input that shows it | evidently intended | confidence | as-written member | corrected member |
|---|---|---|---|---|---|---|
| vehicles/Car.java:58-60 | The capacity test `currentPassengers + count > passengerCapacity` and the update use 32-bit `int` addition, which wraps. Bus.java:63-65 and Airplane.java:63-65 are the same. | A car with 1 passenger boards 2147483647: the sum wraps to -2147483648, the test passes, and the head count becomes -2147483648 | reject with Overload whenever the count exceeds the free seats | not executed | VehicleSpec.BoardOverflowBreaksCapacity | VehicleSpec.BoardPassengers |
