/** Per-kilometre rates and cost figures of the copy that prices its routes.
    A vehicle's rate is read with Python's `value or default`: a null and a
    zero rate are both falsy and fall back to the default, any other value,
    negative ones included, is kept. The money arithmetic itself is floating
    point and rounds to two decimals; the rounding enters as the parameter
    `round2`. */
module CostRates {

  import opened Wrappers
  import opened Domain

  const DefaultFuelRate: real := 5.0
  const DefaultDriverRate: real := 7.0

  /** `x or default` for an optional float. */
  function OrDefault(x: Option<real>, default: real): (r: real)
    ensures r == default || x == Some(r)
    ensures x.Some? && x.value != 0.0 ==> r == x.value
    ensures x.None? || x == Some(0.0) ==> r == default
  {
    match x
    case Some(v) => if v != 0.0 then v else default
    case None => default
  }

  /** The fuel and driver rates used for a vehicle's route. */
  function SelectRates(v: Vehicle): (r: Rates)
    ensures r.fuel != 0.0 && r.driver != 0.0
    ensures r.fuel == DefaultFuelRate <==> v.fuelCostPerKm in {None, Some(0.0), Some(DefaultFuelRate)}
    ensures r.driver == DefaultDriverRate <==> v.driverCostPerKm in {None, Some(0.0), Some(DefaultDriverRate)}
  {
    Rates(OrDefault(v.fuelCostPerKm, DefaultFuelRate), OrDefault(v.driverCostPerKm, DefaultDriverRate))
  }

  /** A vehicle without rates, or with rates of zero, is priced at 5.0 and
      7.0 per km; a negative rate is not replaced. */
  lemma DefaultsAndNegatives(v: Vehicle)
    ensures v.fuelCostPerKm in {None, Some(0.0)} && v.driverCostPerKm in {None, Some(0.0)} ==>
      SelectRates(v) == Rates(5.0, 7.0)
    ensures v.fuelCostPerKm.Some? && v.fuelCostPerKm.value < 0.0 ==> SelectRates(v).fuel == v.fuelCostPerKm.value
    ensures v.driverCostPerKm.Some? && v.driverCostPerKm.value < 0.0 ==> SelectRates(v).driver == v.driverCostPerKm.value
  {
  }

  /** The money figures of a route: distance in km, fuel, driver and total cost. */
  datatype Figures = Figures(km: real, fuel: real, driver: real, total: real)

  /** `distance_km = round(meters / 1000, 2)`, each cost `round(km * rate, 2)`,
      and the total the unrounded sum of the two costs. */
  function CostFigures(meters: nat, rates: Rates, round2: real -> real): (f: Figures)
    ensures f.total == f.fuel + f.driver
  {
    var km := round2(meters as real / 1000.0);
    Figures(km, round2(km * rates.fuel), round2(km * rates.driver), round2(km * rates.fuel) + round2(km * rates.driver))
  }

  /** A route of a vehicle that brought no rates, or zero rates, is priced
      exactly as one at 5.0 and 7.0 per km. */
  lemma DefaultPricing(v: Vehicle, meters: nat, round2: real -> real)
    requires v.fuelCostPerKm in {None, Some(0.0)} && v.driverCostPerKm in {None, Some(0.0)}
    ensures CostFigures(meters, SelectRates(v), round2) == CostFigures(meters, Rates(5.0, 7.0), round2)
  {
  }
}
