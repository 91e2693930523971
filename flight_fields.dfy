/**
 * What the flight form and the flight create page share: the ten form fields,
 * the `allFieldsFilled` gate, and the payload built on submit, where each
 * `datetime-local` text is cut at "T" into a date and a time.
 */
module FlightFields {
  import opened Wrappers
  import opened Strings
  import opened Types

  /** The ten state cells of a flight form; the three numbers come from `Number(...)`. */
  datatype FormFields = FormFields(
    flightNumber: string,
    airplaneTypeId: string,
    flightTypeId: string,
    price: real,
    surchargePercentage: real,
    taxPercentage: real,
    departureDate: string,
    arrivalDate: string,
    originIata: string,
    destinationIata: string
  )

  /** An element of the array `allFieldsFilled` scans: some text, or a number. */
  datatype FieldValue = Text(text: string) | Number(number: real)

  /** The fields in the order the `allFieldsFilled` array lists them. */
  function FieldList(f: FormFields): seq<FieldValue> {
    [ Text(f.flightNumber), Text(f.airplaneTypeId), Text(f.flightTypeId),
      Number(f.price), Number(f.surchargePercentage), Number(f.taxPercentage),
      Text(f.departureDate), Text(f.arrivalDate),
      Text(f.originIata), Text(f.destinationIata) ]
  }

  /** `fields.every(field => field !== "")`; a number is never the empty text. */
  predicate AllFieldsFilled(f: FormFields) {
    forall i :: 0 <= i < |FieldList(f)| ==> FieldList(f)[i] != Text("")
  }

  /** The save button is disabled while the mutation is loading or a field is empty. */
  predicate SaveDisabled(loading: bool, f: FormFields) {
    loading || !AllFieldsFilled(f)
  }

  /** The state of a form opened without a flight. */
  function Defaults(): FormFields {
    FormFields("", "", "1", 0.0, 0.0, 0.0, "", "", "", "")
  }

  /**
   * The state of a form opened on an existing flight. `departure` and `arrival`
   * are the UTC date-time texts, cut to `datetime-local` form, of the stored
   * date and time read as local time.
   */
  function FromFlight(flight: Flight, departure: string, arrival: string): FormFields {
    FormFields(
      flight.flightNumber, flight.airplaneTypeId, flight.flightTypeId,
      flight.price, flight.surchargePercentage, flight.taxPercentage,
      departure, arrival, flight.originIata, flight.destinationIata)
  }

  /** `dt.split("T")[0]`: the text before the first "T", all of it when there is none. */
  function DatePart(dt: string): (d: string)
    ensures 'T' !in d && d <= dt
    ensures d == dt || dt[|d|] == 'T'
    ensures 'T' !in dt ==> d == dt
  {
    var parts := Split(dt, 'T');
    JoinSplit(dt, 'T');
    JoinStartsWithFirst(parts, 'T');
    assert 'T' !in dt ==> parts == [dt] by {
      if 'T' !in dt {
        SplitWithoutSeparator(dt, 'T');
      }
    }
    parts[0]
  }

  /** `dt.split("T")[1]`: the text between the first and second "T"; `undefined` without one. */
  function TimePart(dt: string): (t: Option<string>)
    ensures t.Some? <==> 'T' in dt
    ensures t.Some? ==> 'T' !in t.value
  {
    var parts := Split(dt, 'T');
    SplitCount(dt, 'T');
    assert 'T' in dt <==> multiset(dt)['T'] > 0;
    if |parts| > 1 then Some(parts[1]) else None
  }

  /** The flight sent on submit; the status is always "1". */
  function BuildPayload(f: FormFields): FlightPayload {
    FlightPayload(
      f.flightNumber,
      f.originIata,
      f.destinationIata,
      DatePart(f.departureDate),
      DatePart(f.arrivalDate),
      TimePart(f.departureDate),
      TimePart(f.arrivalDate),
      f.price,
      f.taxPercentage,
      f.surchargePercentage,
      f.flightTypeId,
      f.airplaneTypeId,
      "1")
  }

  /** A date and a time put back together as one date-time text. */
  function Rejoin(date: string, time: Option<string>): string {
    match time
    case None => date
    case Some(t) => date + "T" + t
  }

  /** The form state a payload was built from, when its date-times had at most one "T". */
  function FieldsOf(p: FlightPayload): FormFields {
    FormFields(
      p.flightNumber, p.airplaneTypeId, p.flightTypeId,
      p.price, p.surchargePercentage, p.taxPercentage,
      Rejoin(p.departureDate, p.departureTime), Rejoin(p.arrivalDate, p.arrivalTime),
      p.originIata, p.destinationIata)
  }

  // ---------------------------------------------------------------------------
  // Properties
  // ---------------------------------------------------------------------------

  /** `allFieldsFilled` holds exactly when none of the seven text fields is empty. */
  lemma AllFieldsFilledIff(f: FormFields)
    ensures AllFieldsFilled(f) <==>
              && f.flightNumber != "" && f.airplaneTypeId != "" && f.flightTypeId != ""
              && f.departureDate != "" && f.arrivalDate != ""
              && f.originIata != "" && f.destinationIata != ""
  {
    var fs := FieldList(f);
    if !AllFieldsFilled(f) {
      var i :| 0 <= i < |fs| && fs[i] == Text("");
      assert i != 3 && i != 4 && i != 5;
    } else {
      assert fs[0] != Text("") && fs[1] != Text("") && fs[2] != Text("");
      assert fs[6] != Text("") && fs[7] != Text("");
      assert fs[8] != Text("") && fs[9] != Text("");
    }
  }

  /** The numeric fields never decide `allFieldsFilled`, whatever their values. */
  lemma NumbersNeverBlock(f: FormFields, price: real, surcharge: real, tax: real)
    ensures AllFieldsFilled(f.(price := price, surchargePercentage := surcharge, taxPercentage := tax))
        <==> AllFieldsFilled(f)
  {
    AllFieldsFilledIff(f);
    AllFieldsFilledIff(f.(price := price, surchargePercentage := surcharge, taxPercentage := tax));
  }

  /** Save is disabled exactly when loading or some text field is empty. */
  lemma SaveDisabledIff(loading: bool, f: FormFields)
    ensures SaveDisabled(loading, f) <==>
              || loading
              || f.flightNumber == "" || f.airplaneTypeId == "" || f.flightTypeId == ""
              || f.departureDate == "" || f.arrivalDate == ""
              || f.originIata == "" || f.destinationIata == ""
  {
    AllFieldsFilledIff(f);
  }

  /** A form opened without a flight starts national, at zero, and cannot be saved yet. */
  lemma DefaultsDisableSave(loading: bool)
    ensures Defaults().flightTypeId == "1"
    ensures Defaults().price == 0.0 && Defaults().taxPercentage == 0.0
    ensures Defaults().surchargePercentage == 0.0
    ensures SaveDisabled(loading, Defaults())
  {
    assert FieldList(Defaults())[0] == Text("");
  }

  /**
   * Submit does not check the gate itself: on the default state it builds a
   * payload with an empty flight number, empty dates and no times.
   */
  lemma SubmitDoesNotRecheck()
    ensures var p := BuildPayload(Defaults());
            && p.flightNumber == "" && p.departureDate == "" && p.arrivalDate == ""
            && p.departureTime == None && p.arrivalTime == None && p.statusId == "1"
  {
  }

  /**
   * The date and the time rejoined with "T" are a prefix of the date-time text,
   * and all of it exactly when the text holds at most one "T".
   */
  lemma {:induction false} RejoinIff(dt: string)
    ensures Rejoin(DatePart(dt), TimePart(dt)) <= dt
    ensures Rejoin(DatePart(dt), TimePart(dt)) == dt <==> multiset(dt)['T'] <= 1
  {
    var parts := Split(dt, 'T');
    JoinSplit(dt, 'T');
    SplitCount(dt, 'T');
    if |parts| > 1 {
      var rest := Join(parts[1..], 'T');
      assert dt == parts[0] + ['T'] + rest;
      JoinStartsWithFirst(parts[1..], 'T');
      assert Rejoin(DatePart(dt), TimePart(dt)) == parts[0] + ['T'] + parts[1];
      if |parts| > 2 {
        assert rest == parts[1] + ['T'] + Join(parts[2..], 'T') by {
          assert parts[1..][1..] == parts[2..];
        }
        assert |Rejoin(DatePart(dt), TimePart(dt))| < |dt|;
      } else {
        assert parts[1..] == [parts[1]];
      }
    }
  }

  /** A `datetime-local` text with one "T" is cut into exactly its date and its time. */
  lemma SplitDateTime(dt: string)
    requires multiset(dt)['T'] == 1
    ensures TimePart(dt).Some?
    ensures DatePart(dt) + "T" + TimePart(dt).value == dt
  {
    RejoinIff(dt);
  }

  /**
   * The payload keeps everything the form held, apart from the status: when each
   * date-time text holds at most one "T", the form state can be read back from it.
   */
  lemma PayloadKeepsFields(f: FormFields)
    requires multiset(f.departureDate)['T'] <= 1 && multiset(f.arrivalDate)['T'] <= 1
    ensures BuildPayload(f).statusId == "1"
    ensures FieldsOf(BuildPayload(f)) == f
  {
    RejoinIff(f.departureDate);
    RejoinIff(f.arrivalDate);
  }

  /**
   * Conversely, every payload of status "1" whose dates and times hold no "T"
   * is the one built from some form state, namely the one read back from it.
   */
  lemma PayloadFromFields(p: FlightPayload)
    requires p.statusId == "1"
    requires 'T' !in p.departureDate && 'T' !in p.arrivalDate
    requires p.departureTime.Some? ==> 'T' !in p.departureTime.value
    requires p.arrivalTime.Some? ==> 'T' !in p.arrivalTime.value
    ensures BuildPayload(FieldsOf(p)) == p
  {
    RejoinSplits(p.departureDate, p.departureTime);
    RejoinSplits(p.arrivalDate, p.arrivalTime);
  }

  lemma RejoinSplits(date: string, time: Option<string>)
    requires 'T' !in date
    requires time.Some? ==> 'T' !in time.value
    ensures DatePart(Rejoin(date, time)) == date
    ensures TimePart(Rejoin(date, time)) == time
  {
    if time.Some? {
      var dt := date + "T" + time.value;
      assert dt == date + ['T'] + time.value;
      SplitAtFirstSeparator(date, time.value, 'T');
      SplitWithoutSeparator(time.value, 'T');
      assert Split(dt, 'T') == [date, time.value];
    } else {
      SplitWithoutSeparator(date, 'T');
    }
  }
}
