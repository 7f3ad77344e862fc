/** Operations on the occurrence and location tables: the option lists of
    the new-occurrence form, logging an occurrence, and mapping a location
    to coordinates.

    The program carries two copies of this module under different spellings.
    `occurences.py` defines the option lists and `add_occurence`;
    `occurrences.py` defines the same functions (as `add_occurrence`) plus
    `map_location`, but builds its rows from `models.Occurrence`, a class the
    models file does not define (it defines only `Occurence`). The web layer
    imports the first spelling yet calls `map_location`, which only the
    second defines. Here both operations act on one store. */
module Occurrences {
  import opened Results
  import opened Models
  import opened Distinct

  /** History for the location field: the stored labels without repeats,
      in the order they are first met. */
  function LocationOptions(s: Store): (r: seq<string>)
    ensures NoDup(r)
    ensures forall i :: 0 <= i < |s.locations| ==> s.locations[i].name in r
    ensures forall i :: 0 <= i < |r| ==> r[i] in Labels(s)
    ensures forall i, j :: 0 <= i < j < |r| ==> FirstIndex(Labels(s), r[i]) < FirstIndex(Labels(s), r[j])
  {
    var labels := Labels(s);
    assert forall i :: 0 <= i < |s.locations| ==> labels[i] == s.locations[i].name;
    DedupFirstOccurrenceOrder(labels);
    Dedup(labels)
  }

  /** History for the target field: the logged targets without repeats, in
      the order they are first met. */
  function TargetOptions(s: Store): (r: seq<string>)
    ensures NoDup(r)
    ensures forall i :: 0 <= i < |s.occurrences| ==> s.occurrences[i].target in r
    ensures forall i :: 0 <= i < |r| ==> r[i] in Targets(s)
    ensures forall i, j :: 0 <= i < j < |r| ==> FirstIndex(Targets(s), r[i]) < FirstIndex(Targets(s), r[j])
  {
    var targets := Targets(s);
    assert forall i :: 0 <= i < |s.occurrences| ==> targets[i] == s.occurrences[i].target;
    DedupFirstOccurrenceOrder(targets);
    Dedup(targets)
  }

  /** Labels are a primary key, so in a valid store the location history is
      the label column itself, row for row. */
  lemma LocationOptionsOfValid(s: Store)
    requires Valid(s)
    ensures LocationOptions(s) == Labels(s)
  {
    DedupOfDistinct(Labels(s));
  }

  /** Logs an occurrence. A label not yet among the locations first gets a
      location row with both coordinates null; the occurrence row is then
      added and both are committed together. */
  function AddOccurrence(s: Store, time: int, location: string, target: string, context: string)
    : (r: Result<Store, StoreError>)
    ensures Valid(s) ==>
      (r.Success? <==>
        (forall i :: 0 <= i < |s.occurrences| ==> s.occurrences[i].time != time)
        && |location| <= LabelWidth && |target| <= TargetWidth)
    ensures r.Failure? ==> r.error == ConstraintViolation
    ensures r.Success? ==> Valid(r.value)
    ensures r.Success? ==> r.value.occurrences == s.occurrences + [Occurrence(time, location, target, context)]
    ensures r.Success? && location in Labels(s) ==> r.value.locations == s.locations
    ensures r.Success? && location !in Labels(s) ==>
      r.value.locations == s.locations + [Location(location, None, None)]
    ensures r.Success? ==> location in Labels(r.value)
    ensures r.Success? ==> r.value.users == s.users
  {
    var occurrence := Occurrence(time, location, target, context);
    var options := LocationOptions(s);
    var locations :=
      if location !in options then s.locations + [Location(location, None, None)] else s.locations;
    var candidate := Store(locations, s.occurrences + [occurrence], s.users);
    AddOccurrenceCommit(s, location, candidate);
    Commit(candidate)
  }

  lemma AddOccurrenceCommit(s: Store, location: string, candidate: Store)
    requires candidate.users == s.users
    requires |candidate.occurrences| == |s.occurrences| + 1
    requires candidate.occurrences[..|s.occurrences|] == s.occurrences
    requires candidate.occurrences[|s.occurrences|].locationLabel == location
    requires location in Labels(s) ==> candidate.locations == s.locations
    requires location !in Labels(s) ==> candidate.locations == s.locations + [Location(location, None, None)]
    ensures location in Labels(candidate)
    ensures Valid(s) ==>
      (Valid(candidate) <==>
        (forall i :: 0 <= i < |s.occurrences| ==> s.occurrences[i].time != candidate.occurrences[|s.occurrences|].time)
        && |location| <= LabelWidth && |candidate.occurrences[|s.occurrences|].target| <= TargetWidth)
  {
    var n := |s.occurrences|;
    var locs := candidate.locations;
    assert forall i :: 0 <= i < n ==> candidate.occurrences[i] == s.occurrences[i];
    assert forall j :: 0 <= j < |s.locations| ==> locs[j] == s.locations[j];
    if location in Labels(s) {
      var j :| 0 <= j < |s.locations| && Labels(s)[j] == location;
      assert Labels(candidate)[j] == location;
    } else {
      assert Labels(candidate)[|s.locations|] == location;
      forall j | 0 <= j < |s.locations|
        ensures s.locations[j].name != location
      {
        assert Labels(s)[j] == s.locations[j].name;
      }
    }
    if Valid(s) {
      forall k | 0 <= k < n
        ensures exists j :: 0 <= j < |locs| && locs[j].name == s.occurrences[k].locationLabel
      {
        var j := LocationOfOccurrence(s, k);
        assert locs[j].name == s.occurrences[k].locationLabel;
      }
    }
  }

  /** `query.filter_by(label=name).first()`: the first location row with
      that label, if any. */
  function FindLocation(s: Store, name: string): (r: Option<nat>)
    ensures r.Some? <==> name in Labels(s)
    ensures r.Some? ==> r.value < |s.locations| && s.locations[r.value].name == name
  {
    if name in Labels(s) then Some(FirstIndex(Labels(s), name)) else None
  }

  /** The latitude and longitude stored for a label, if the label exists. */
  function Coordinates(s: Store, name: string): Option<(Option<Coordinate>, Option<Coordinate>)>
  {
    match FindLocation(s, name)
    case None => None
    case Some(i) => Some((s.locations[i].latitude, s.locations[i].longitude))
  }

  /** Sets the coordinates of the location with the given label. With no
      such row `first()` yields nothing and assigning to it raises, which
      is the `NoSuchLocation` failure here. */
  function MapLocation(s: Store, location: string, latitude: Coordinate, longitude: Coordinate)
    : (r: Result<Store, StoreError>)
    ensures location !in Labels(s) ==> r == Failure(NoSuchLocation)
    ensures Valid(s) && location in Labels(s) ==> r.Success?
    ensures r.Success? ==> Valid(r.value)
    ensures r.Success? ==> Coordinates(r.value, location) == Some((Some(latitude), Some(longitude)))
    ensures r.Success? ==> Labels(r.value) == Labels(s)
    ensures r.Success? ==> forall name :: name != location ==> Coordinates(r.value, name) == Coordinates(s, name)
    ensures r.Success? ==> r.value.occurrences == s.occurrences && r.value.users == s.users
  {
    match FindLocation(s, location)
    case None => Failure(NoSuchLocation)
    case Some(i) =>
      var updated := s.(locations := s.locations[i := Location(location, Some(latitude), Some(longitude))]);
      MapLocationFacts(s, updated, i);
      Commit(updated)
  }

  lemma MapLocationFacts(s: Store, updated: Store, i: nat)
    requires i < |s.locations| && |updated.locations| == |s.locations|
    requires updated.locations[i].name == s.locations[i].name
    requires forall j :: 0 <= j < |s.locations| && j != i ==> updated.locations[j] == s.locations[j]
    requires updated.occurrences == s.occurrences && updated.users == s.users
    ensures Labels(updated) == Labels(s)
    ensures Valid(s) ==> Valid(updated)
    ensures forall name :: FindLocation(updated, name) == FindLocation(s, name)
  {
    assert forall j :: 0 <= j < |s.locations| ==> updated.locations[j].name == s.locations[j].name;
    assert Labels(updated) == Labels(s);
    if Valid(s) {
      forall k | 0 <= k < |s.occurrences|
        ensures exists j :: 0 <= j < |updated.locations| && updated.locations[j].name == s.occurrences[k].locationLabel
      {
        var j := LocationOfOccurrence(s, k);
        assert updated.locations[j].name == s.occurrences[k].locationLabel;
      }
    }
  }

  /** A label that has just been logged can be mapped: after a successful
      `AddOccurrence` in a valid store, mapping its label succeeds and
      leaves the new occurrence in place. */
  lemma AddThenMap(
    s: Store, time: int, location: string, target: string, context: string,
    latitude: Coordinate, longitude: Coordinate)
    requires Valid(s) && AddOccurrence(s, time, location, target, context).Success?
    ensures var added := AddOccurrence(s, time, location, target, context).value;
      var mapped := MapLocation(added, location, latitude, longitude);
      mapped.Success?
      && Coordinates(mapped.value, location) == Some((Some(latitude), Some(longitude)))
      && mapped.value.occurrences == s.occurrences + [Occurrence(time, location, target, context)]
  {
  }

  /** The foreign key of the occurrence table: in a valid store the
      location of every logged occurrence can be looked up by its label. */
  lemma OccurrenceLocationExists(s: Store, k: nat)
    requires Valid(s) && k < |s.occurrences|
    ensures Coordinates(s, s.occurrences[k].locationLabel).Some?
  {
    var j := LocationOfOccurrence(s, k);
    assert Labels(s)[j] == s.locations[j].name;
  }

  /** The row the foreign key of an occurrence points at. */
  lemma LocationOfOccurrence(s: Store, k: nat) returns (j: nat)
    requires Valid(s) && k < |s.occurrences|
    ensures j < |s.locations| && s.locations[j].name == s.occurrences[k].locationLabel
  {
    assert OccurrencesValid(s.occurrences, s.locations);
    var occ := s.occurrences[k];
    assert exists i :: 0 <= i < |s.locations| && s.locations[i].name == occ.locationLabel;
    j :| 0 <= j < |s.locations| && s.locations[j].name == occ.locationLabel;
  }
}
