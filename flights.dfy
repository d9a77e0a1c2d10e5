/** The typed flight record that every node of the connection graph carries. */
module Flights {

  /** A three-letter airport code. */
  type Airport = string

  /** Timestamps and durations are whole seconds; the layover and stay bounds are in hours. */
  const Hour: int := 3600

  datatype Option<T> = None | Some(value: T)

  /** One flight segment: the fields `Node.__init__` copies from an input row. */
  datatype Flight = Flight(
    flightNo: string,
    origin: Airport,
    destination: Airport,
    departure: int,
    arrival: int,
    basePrice: int,
    bagPrice: int,
    bagsAllowed: int)
}
