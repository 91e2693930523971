/** The records the forms read and send, shaped after the GraphQL service types. */
module Types {
  import opened Wrappers

  /**
   * An existing airplane type. Its family only preselects the family input
   * and its seat count only pre-fills the seat-count input, which is
   * rendering, so neither is part of this record.
   */
  datatype AirplaneType = AirplaneType(
    id: string,
    seatsDistribution: string
  )

  datatype AirplaneTypePayload = AirplaneTypePayload(
    id: string,
    typeId: int,
    maxSeats: int,
    seatsDistribution: string
  )

  /**
   * An existing flight, with its nested airports, flight type and airplane
   * type reduced to the identifiers the flight form reads.
   */
  datatype Flight = Flight(
    flightNumber: string,
    originIata: string,
    destinationIata: string,
    price: real,
    taxPercentage: real,
    surchargePercentage: real,
    flightTypeId: string,
    airplaneTypeId: string
  )

  /**
   * The flight sent to the mutation. A time is None when the date-time text
   * it is cut from holds no "T" (JavaScript's `undefined`).
   */
  datatype FlightPayload = FlightPayload(
    flightNumber: string,
    originIata: string,
    destinationIata: string,
    departureDate: string,
    arrivalDate: string,
    departureTime: Option<string>,
    arrivalTime: Option<string>,
    price: real,
    taxPercentage: real,
    surchargePercentage: real,
    flightTypeId: string,
    airplaneTypeId: string,
    statusId: string
  )
}
