/**
 * The validated request body `CarFeatures` and the one-row frame the handler
 * builds from it with `pd.DataFrame([car.dict()])`.
 */
module Request {
  import opened Frame

  /** The request body after validation: six strings, two integers, one float. */
  datatype CarFeatures = CarFeatures(
    make: string,
    model: string,
    trim: string,
    bodyType: string,
    drivetrain: string,
    transmission: string,
    miles: int,
    carAge: int,
    engineSize: real)

  /** The column names of the frame, in the order the schema declares its fields. */
  const SchemaFields: seq<string> :=
    ["make", "model", "trim", "body_type", "drivetrain", "transmission", "miles", "car_age", "engine_size"]

  /** The six text fields of a request, in schema order. */
  function TextFields(car: CarFeatures): seq<string> {
    [car.make, car.model, car.trim, car.bodyType, car.drivetrain, car.transmission]
  }

  /**
   * The frame of one request: exactly the nine schema columns, each holding
   * its own request field, the six text fields as strings, `miles` and
   * `car_age` as integers, `engine_size` as a float.
   */
  function ToRecord(car: CarFeatures): (r: Record)
    ensures r.Keys == set f | f in SchemaFields
    ensures forall i :: 0 <= i < |TextFields(car)| ==> r[SchemaFields[i]] == Str(TextFields(car)[i])
    ensures r["miles"] == Int(car.miles) && r["car_age"] == Int(car.carAge)
    ensures r["engine_size"] == Float(car.engineSize)
  {
    map[
      "make" := Str(car.make),
      "model" := Str(car.model),
      "trim" := Str(car.trim),
      "body_type" := Str(car.bodyType),
      "drivetrain" := Str(car.drivetrain),
      "transmission" := Str(car.transmission),
      "miles" := Int(car.miles),
      "car_age" := Int(car.carAge),
      "engine_size" := Float(car.engineSize)]
  }
}
