/** Coordinates and distances. The routers compute great-circle distance in
    floating point (an `atan2` Haversine in JavaScript, an `acos` formula in
    SQL); the model takes that computation as a parameter `dist`, JavaScript's
    `parseFloat` as a parameter `parse` and the database's `::numeric` cast as
    a parameter `cast`, and states every filter relative to them. */
module Geo {
  import opened Common

  datatype Coord = Coord(lat: real, lon: real)

  /** A distance in kilometres between two points. */
  type Metric = (Coord, Coord) -> real

  /** `parseFloat`: `None` stands for `NaN`. */
  type Parser = string -> Option<real>

  /** What the `::numeric` cast makes of a text: a number, or the numeric
      `NaN` (from the text "NaN"). */
  datatype Numeric = Number(value: real) | NotANumber

  /** The `::numeric` cast: `None` when the text is not a numeric literal, so
      the cast raises an error. */
  type Cast = string -> Option<Numeric>

  /** The SQL distance `6371 * acos(LEAST(1.0, ...))` between two points, a
      point being `None` when one of its coordinates is `NaN`. PostgreSQL
      orders `NaN` above every number, so a `NaN` operand makes `LEAST` yield
      1.0 and the distance 0. */
  function SqlDistance(dist: Metric, from: Option<Coord>, to: Option<Coord>): real
  {
    if from.Some? && to.Some? then dist(from.value, to.value) else 0.0
  }

  /** A coordinate pair read from two strings; `None` when either is `NaN`
      (the check `isNaN(lat) || isNaN(lon)`). */
  function ParseCoord(parse: Parser, lat: string, lon: string): Option<Coord>
  {
    if parse(lat).Some? && parse(lon).Some? then Some(Coord(parse(lat).value, parse(lon).value))
    else None
  }
}
