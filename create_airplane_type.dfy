/**
 * The older create page for airplane types, which carries its own copy of the
 * seats-distribution editor: it always starts from one row of one seat and
 * sends the entered name as the id.
 */
module CreateAirplaneTypePage {
  import opened Wrappers
  import opened Decimal
  import opened SeatsLayout
  import opened Types

  class CreateAirplaneTypePage {
    var seatsDistribution: Layout

    /** The editor always holds at least one row. */
    ghost predicate Valid()
      reads this
    {
      seatsDistribution != map[]
    }

    /** The page opens with one row of one seat. */
    constructor ()
      ensures Valid()
      ensures seatsDistribution == DefaultLayout()
    {
      seatsDistribution := DefaultLayout();
    }

    /** Submit: blocked while a row is unfilled; otherwise the id is the entered name. */
    method HandleSubmit(name: string, family: string, maxSeats: string)
      returns (payload: Option<AirplaneTypePayload>)
      requires Valid()
      requires !HasUnfilled(seatsDistribution) ==> ParseInt(family).Some? && ParseInt(maxSeats).Some?
      ensures payload.None? <==> HasUnfilled(seatsDistribution)
      ensures payload.Some? ==>
                payload.value == AirplaneTypePayload(
                  name, ParseInt(family).value, ParseInt(maxSeats).value,
                  Serialize(seatsDistribution))
      ensures payload.Some? && NonNegative(seatsDistribution) ==>
                ParseLayout(payload.value.seatsDistribution) == Some(Compacted(seatsDistribution))
    {
      if HasUnfilled(seatsDistribution) {
        return None;
      }
      payload := Some(AirplaneTypePayload(
        name,
        ParseInt(family).value,
        ParseInt(maxSeats).value,
        Serialize(seatsDistribution)));
      if NonNegative(seatsDistribution) {
        ParseSerialize(seatsDistribution);
      }
    }

    /** Adds a row of one seat after the last position, unless the limit is reached. */
    method HandleSeatsDistributionAdd()
      requires Valid()
      modifies this
      ensures Valid()
      ensures seatsDistribution == AddRow(old(seatsDistribution))
    {
      if |seatsDistribution| >= MaxAllowedSeatsRows {
        return;
      }
      seatsDistribution := seatsDistribution[Greatest(seatsDistribution.Keys) + 1 := Some(1)];
    }

    /** Stores the input of the row at `index`: null when cleared, else its integer. */
    method HandleSeatsDistributionChange(index: nat, value: string)
      requires Valid() && AcceptedInput(value)
      modifies this
      ensures Valid()
      ensures seatsDistribution == ChangeRow(old(seatsDistribution), index, value)
    {
      var cell := if value == "" then None else ParseInt(value);
      seatsDistribution := seatsDistribution[index := cell];
    }

    /** Deletes the row at `index` from a copy of the map, unless one row is left. */
    method HandleSeatsDistributionRemove(index: nat)
      requires Valid()
      modifies this
      ensures Valid()
      ensures seatsDistribution == RemoveRow(old(seatsDistribution), index)
    {
      if |seatsDistribution| == 1 {
        return;
      }
      var next := seatsDistribution;
      next := next - {index};
      assert next == RemoveRow(seatsDistribution, index);
      seatsDistribution := next;
    }

    /** The text shown beside the label: the rows joined by dashes, null as "X". */
    function DisplayText(): (t: string)
      reads this
      ensures t == Serialize(seatsDistribution) <==> !HasUnfilled(seatsDistribution)
    {
      DisplayIsSerializedIff(seatsDistribution);
      Display(seatsDistribution)
    }
  }
}
