/**
 * The shared flight form (create and edit): ten state cells replaced by their
 * setters, the save gate, and the payload sent on submit.
 */
module FlightForm {
  import opened Wrappers
  import opened Types
  import opened FlightFields

  class FlightForm {
    var flightNumber: string
    var airplaneTypeId: string
    var flightTypeId: string
    var price: real
    var surchargePercentage: real
    var taxPercentage: real
    var departureDate: string
    var arrivalDate: string
    var originIata: string
    var destinationIata: string

    /** The ten state cells as one value. */
    function Fields(): FormFields
      reads this
    {
      FormFields(
        flightNumber, airplaneTypeId, flightTypeId,
        price, surchargePercentage, taxPercentage,
        departureDate, arrivalDate, originIata, destinationIata)
    }

    /**
     * A form opened on a flight takes its fields, with `departure` and `arrival`
     * as the UTC date-time texts, cut to `datetime-local` form, of its stored
     * dates and times read as local time;
     * without a flight every text is empty, every number 0 and the type "1".
     */
    constructor (flight: Option<Flight>, departure: string, arrival: string)
      ensures flight.None? ==> Fields() == Defaults()
      ensures flight.Some? ==> Fields() == FromFlight(flight.value, departure, arrival)
    {
      if flight.Some? {
        var f := flight.value;
        flightNumber := f.flightNumber;
        airplaneTypeId := f.airplaneTypeId;
        flightTypeId := f.flightTypeId;
        price := f.price;
        surchargePercentage := f.surchargePercentage;
        taxPercentage := f.taxPercentage;
        departureDate := departure;
        arrivalDate := arrival;
        originIata := f.originIata;
        destinationIata := f.destinationIata;
      } else {
        flightNumber := "";
        airplaneTypeId := "";
        flightTypeId := "1";
        price := 0.0;
        surchargePercentage := 0.0;
        taxPercentage := 0.0;
        departureDate := "";
        arrivalDate := "";
        originIata := "";
        destinationIata := "";
      }
    }

    /** The `onChange` setter of `flightNumber`; the other cells keep their values. */
    method SetFlightNumber(value: string)
      modifies this
      ensures Fields() == old(Fields()).(flightNumber := value)
    {
      flightNumber := value;
    }

    /** The `onChange` setter of `airplaneTypeId`; the other cells keep their values. */
    method SetAirplaneTypeId(value: string)
      modifies this
      ensures Fields() == old(Fields()).(airplaneTypeId := value)
    {
      airplaneTypeId := value;
    }

    /** The `onChange` setter of `flightTypeId`; the other cells keep their values. */
    method SetFlightTypeId(value: string)
      modifies this
      ensures Fields() == old(Fields()).(flightTypeId := value)
    {
      flightTypeId := value;
    }

    /** The `onChange` setter of `price`; the other cells keep their values. */
    method SetPrice(value: real)
      modifies this
      ensures Fields() == old(Fields()).(price := value)
    {
      price := value;
    }

    /** The `onChange` setter of `surchargePercentage`; the other cells keep their values. */
    method SetSurchargePercentage(value: real)
      modifies this
      ensures Fields() == old(Fields()).(surchargePercentage := value)
    {
      surchargePercentage := value;
    }

    /** The `onChange` setter of `taxPercentage`; the other cells keep their values. */
    method SetTaxPercentage(value: real)
      modifies this
      ensures Fields() == old(Fields()).(taxPercentage := value)
    {
      taxPercentage := value;
    }

    /** The `onChange` setter of `departureDate`; the other cells keep their values. */
    method SetDepartureDate(value: string)
      modifies this
      ensures Fields() == old(Fields()).(departureDate := value)
    {
      departureDate := value;
    }

    /** The `onChange` setter of `arrivalDate`; the other cells keep their values. */
    method SetArrivalDate(value: string)
      modifies this
      ensures Fields() == old(Fields()).(arrivalDate := value)
    {
      arrivalDate := value;
    }

    /** The `onChange` setter of `originIata`; the other cells keep their values. */
    method SetOriginIata(value: string)
      modifies this
      ensures Fields() == old(Fields()).(originIata := value)
    {
      originIata := value;
    }

    /** The `onChange` setter of `destinationIata`; the other cells keep their values. */
    method SetDestinationIata(value: string)
      modifies this
      ensures Fields() == old(Fields()).(destinationIata := value)
    {
      destinationIata := value;
    }

    /**
     * Submit sends the payload built from the current state, with status "1",
     * without checking the gate again; the form state can be read back from it
     * when each date-time text holds at most one "T".
     */
    method HandleSubmit() returns (payload: FlightPayload)
      ensures payload.statusId == "1"
      ensures payload == BuildPayload(Fields())
      ensures multiset(departureDate)['T'] <= 1 && multiset(arrivalDate)['T'] <= 1 ==>
                FieldsOf(payload) == Fields()
    {
      payload := FlightPayload(
        flightNumber,
        originIata,
        destinationIata,
        DatePart(departureDate),
        DatePart(arrivalDate),
        TimePart(departureDate),
        TimePart(arrivalDate),
        price,
        taxPercentage,
        surchargePercentage,
        flightTypeId,
        airplaneTypeId,
        "1");
      if multiset(departureDate)['T'] <= 1 && multiset(arrivalDate)['T'] <= 1 {
        PayloadKeepsFields(Fields());
      }
    }

    /** The save button is disabled while loading or while a text field is empty. */
    function SaveButtonDisabled(loading: bool): (disabled: bool)
      reads this
      ensures disabled <==>
                || loading
                || flightNumber == "" || airplaneTypeId == "" || flightTypeId == ""
                || departureDate == "" || arrivalDate == ""
                || originIata == "" || destinationIata == ""
    {
      SaveDisabledIff(loading, Fields());
      loading || !AllFieldsFilled(Fields())
    }
  }
}
