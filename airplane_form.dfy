/**
 * The shared airplane-type form (create and edit): its seats-distribution
 * state cell, the handlers that replace it, and the payload its submit builds.
 */
module AirplaneForm {
  import opened Wrappers
  import opened Decimal
  import opened SeatsLayout
  import opened Types

  /**
   * The initial parse of a stored distribution: a reduce over the dash-separated
   * tokens that writes token i at position i of an accumulator. None when a
   * token is not an integer literal.
   */
  method ParseDistribution(s: string) returns (r: Option<Layout>)
    ensures r == ParseLayout(s)
  {
    var cells := ParsedTokens(s);
    var acc: Layout := map[];
    var i := 0;
    while i < |cells|
      invariant 0 <= i <= |cells|
      invariant None !in cells[..i]
      invariant acc == Rows(cells[..i])
    {
      var cur := cells[i];
      if cur.None? {
        assert None in cells;
        return None;
      }
      assert cells[..i + 1] == cells[..i] + [cur];
      acc := acc[i := cur];
      i := i + 1;
    }
    assert cells[..i] == cells;
    r := Some(acc);
  }

  class AirplaneForm {
    /** The airplane type being edited; None when the form creates one. */
    const airplane: Option<AirplaneType>
    var seatsDistribution: Layout

    /** The editor always holds at least one row. */
    ghost predicate Valid()
      reads this
    {
      seatsDistribution != map[]
    }

    /**
     * Editing starts from the stored distribution parsed position by position;
     * creating starts from one row of one seat.
     */
    constructor (airplane: Option<AirplaneType>)
      requires airplane.Some? ==> ParseLayout(airplane.value.seatsDistribution).Some?
      ensures Valid()
      ensures this.airplane == airplane
      ensures airplane.None? ==> seatsDistribution == DefaultLayout()
      ensures airplane.Some? ==>
                Some(seatsDistribution) == ParseLayout(airplane.value.seatsDistribution)
    {
      this.airplane := airplane;
      if airplane.Some? {
        var parsed := ParseDistribution(airplane.value.seatsDistribution);
        ParsedRows(airplane.value.seatsDistribution);
        seatsDistribution := parsed.value;
      } else {
        seatsDistribution := DefaultLayout();
      }
    }

    /** Adds a row of one seat after the last position, unless the limit is reached. */
    method HandleSeatsDistributionAdd()
      requires Valid()
      modifies this
      ensures Valid()
      ensures seatsDistribution == AddRow(old(seatsDistribution))
    {
      if |seatsDistribution| >= MaxAllowedSeatsRows {
        return;
      }
      seatsDistribution := seatsDistribution[Greatest(seatsDistribution.Keys) + 1 := Some(1)];
    }

    /** Stores the input of the row at `index`: null when cleared, else its integer. */
    method HandleSeatsDistributionChange(index: nat, value: string)
      requires Valid() && AcceptedInput(value)
      modifies this
      ensures Valid()
      ensures seatsDistribution == ChangeRow(old(seatsDistribution), index, value)
    {
      var cell := if value == "" then None else ParseInt(value);
      seatsDistribution := seatsDistribution[index := cell];
    }

    /** Deletes the row at `index` from a copy of the map, unless one row is left. */
    method HandleSeatsDistributionRemove(index: nat)
      requires Valid()
      modifies this
      ensures Valid()
      ensures seatsDistribution == RemoveRow(old(seatsDistribution), index)
    {
      if |seatsDistribution| == 1 {
        return;
      }
      var next := seatsDistribution;
      next := next - {index};
      assert next == RemoveRow(seatsDistribution, index);
      seatsDistribution := next;
    }

    /**
     * Submit: nothing is sent while a row is unfilled. Otherwise the payload
     * carries the edited airplane's id (the entered name when creating), the
     * family and seat count read from the form, and the rows in position order
     * joined by dashes, which parse back to the same rows renumbered from 0.
     */
    method HandleSubmit(name: string, family: string, maxSeats: string)
      returns (payload: Option<AirplaneTypePayload>)
      requires Valid()
      requires !HasUnfilled(seatsDistribution) ==> ParseInt(family).Some? && ParseInt(maxSeats).Some?
      ensures payload.None? <==> HasUnfilled(seatsDistribution)
      ensures payload.Some? ==>
                && payload.value.id == (if airplane.Some? then airplane.value.id else name)
                && payload.value.typeId == ParseInt(family).value
                && payload.value.maxSeats == ParseInt(maxSeats).value
                && payload.value.seatsDistribution == Serialize(seatsDistribution)
      ensures payload.Some? && NonNegative(seatsDistribution) ==>
                ParseLayout(payload.value.seatsDistribution) == Some(Compacted(seatsDistribution))
    {
      if HasUnfilled(seatsDistribution) {
        return None;
      }
      var id := if airplane.Some? then airplane.value.id else name;
      payload := Some(AirplaneTypePayload(
        id,
        ParseInt(family).value,
        ParseInt(maxSeats).value,
        Serialize(seatsDistribution)));
      if NonNegative(seatsDistribution) {
        ParseSerialize(seatsDistribution);
      }
    }

    /** The text shown beside the label: the rows joined by dashes, null as "X". */
    function DisplayText(): (t: string)
      reads this
      ensures t == Serialize(seatsDistribution) <==> !HasUnfilled(seatsDistribution)
    {
      DisplayIsSerializedIff(seatsDistribution);
      Display(seatsDistribution)
    }
  }
}
