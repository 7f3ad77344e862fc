/** The three tables of the application and the constraints their column
    declarations impose, taken together as the invariant of the store. */
module Models {
  import opened Results

  /** Latitude or longitude as stored in a double-precision column. No
      arithmetic is done on them, so any real stands in for a double. */
  type Coordinate = real

  /** Width limits of the character columns. */
  const LabelWidth := 80
  const TargetWidth := 80
  const UsernameWidth := 80
  const EmailWidth := 120
  const PasswordWidth := 300

  /** A place, identified by its label `name`, optionally mapped to
      coordinates; each coordinate is nullable on its own. */
  datatype Location = Location(name: string, latitude: Option<Coordinate>, longitude: Option<Coordinate>)

  /** One logged event. The timestamp is the primary key and is kept as an
      opaque instant. The label column is nullable in the schema, but the
      model always carries a label. */
  datatype Occurrence = Occurrence(time: int, locationLabel: string, target: string, context: string)

  /** An application account; `password` holds the stored hash. */
  datatype User = User(id: int, username: string, email: string, password: string, admin: bool)

  /** The rows of the three tables. A full-table query has no `ORDER BY`,
      so the database promises no row order; the model fixes one: rows
      stay where they are when updated and new rows go at the end. */
  datatype Store = Store(locations: seq<Location>, occurrences: seq<Occurrence>, users: seq<User>)

  /** The label column of the location table. */
  function Labels(s: Store): seq<string>
  {
    seq(|s.locations|, i requires 0 <= i < |s.locations| => s.locations[i].name)
  }

  /** The target column of the occurrence table. */
  function Targets(s: Store): seq<string>
  {
    seq(|s.occurrences|, i requires 0 <= i < |s.occurrences| => s.occurrences[i].target)
  }

  /** Location rows: the label is the primary key and fits its column. */
  predicate LocationsValid(locs: seq<Location>)
  {
    && (forall i :: 0 <= i < |locs| ==> |locs[i].name| <= LabelWidth)
    && (forall i, j :: 0 <= i < j < |locs| ==> locs[i].name != locs[j].name)
  }

  /** Occurrence rows: the timestamp is the primary key, the label and the
      target fit their columns, and the label refers to a stored location.
      The context column is unbounded and non-null by its type here. */
  predicate OccurrencesValid(occs: seq<Occurrence>, locs: seq<Location>)
  {
    && (forall i, j :: 0 <= i < j < |occs| ==> occs[i].time != occs[j].time)
    && (forall i :: 0 <= i < |occs| ==>
          |occs[i].locationLabel| <= LabelWidth && |occs[i].target| <= TargetWidth)
    && (forall i :: 0 <= i < |occs| ==> exists j :: 0 <= j < |locs| && locs[j].name == occs[i].locationLabel)
  }

  /** User rows: the id is the primary key, username and email are each
      unique, and the character columns fit their widths. */
  predicate UsersValid(users: seq<User>)
  {
    && (forall i, j :: 0 <= i < j < |users| ==>
          users[i].id != users[j].id
          && users[i].username != users[j].username
          && users[i].email != users[j].email)
    && (forall i :: 0 <= i < |users| ==>
          |users[i].username| <= UsernameWidth
          && |users[i].email| <= EmailWidth
          && |users[i].password| <= PasswordWidth)
  }

  /** Every constraint of the schema holds. */
  predicate Valid(s: Store)
  {
    LocationsValid(s.locations) && OccurrencesValid(s.occurrences, s.locations) && UsersValid(s.users)
  }

  /** Why the store refused a change. */
  datatype StoreError =
    | ConstraintViolation   // the commit broke a key, width or reference constraint
    | NoSuchLocation        // the lookup by label found no row

  /** A commit: the new state is accepted only if it satisfies the schema. */
  function Commit(candidate: Store): (r: Result<Store, StoreError>)
    ensures r.Success? ==> Valid(r.value) && r.value == candidate
    ensures r.Failure? ==> !Valid(candidate) && r.error == ConstraintViolation
  {
    if Valid(candidate) then Success(candidate) else Failure(ConstraintViolation)
  }
}
