/** The accommodation list page: the available / occupied / total cards and the status
    badge of each row. */
module AccommodationList {
  import opened Lists

  /** The fields of an accommodation that the page reads. */
  datatype Accommodation = Accommodation(name: string, address: string, availability: bool)

  /** `accommodations.filter((a) => a.availability).length` */
  function AvailableCount(items: seq<Accommodation>): (n: nat)
    ensures n <= |items|
  {
    |Filter(items, (a: Accommodation) => a.availability)|
  }

  /** `accommodations.filter((a) => !a.availability).length` */
  function OccupiedCount(items: seq<Accommodation>): (n: nat)
    ensures n <= |items|
  {
    |Filter(items, (a: Accommodation) => !a.availability)|
  }

  function TotalCount(items: seq<Accommodation>): nat {
    |items|
  }

  /** Every accommodation is either available or occupied: the two cards add up to the
      total, and neither exceeds it. */
  lemma CountsPartitionTotal(items: seq<Accommodation>)
    ensures AvailableCount(items) + OccupiedCount(items) == TotalCount(items)
    ensures AvailableCount(items) <= TotalCount(items) && OccupiedCount(items) <= TotalCount(items)
  {
    FilterSplit(items, (a: Accommodation) => a.availability, (a: Accommodation) => !a.availability);
  }

  /** The counts are the numbers of rows with `availability` true and false. */
  lemma CountsAreExact(items: seq<Accommodation>)
    ensures AvailableCount(items) == |set i: nat | i < |items| && items[i].availability|
    ensures OccupiedCount(items) == |set i: nat | i < |items| && !items[i].availability|
  {
    var p := (a: Accommodation) => a.availability;
    var q := (a: Accommodation) => !a.availability;
    FilterLengthCountsPositions(items, p);
    FilterLengthCountsPositions(items, q);
    assert Positions(items, p) == set i: nat | i < |items| && items[i].availability;
    assert Positions(items, q) == set i: nat | i < |items| && !items[i].availability;
  }

  /** The status badge of a row. */
  function Badge(a: Accommodation): (text: string)
    ensures text == "Available" <==> a.availability
    ensures text == "Occupied" <==> !a.availability
  {
    if a.availability then "Available" else "Occupied"
  }
}
