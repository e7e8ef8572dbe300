/**
 * The patient table and the five operations the service runs on it: view
 * one patient, sort all of them, create, update and delete.
 *
 * The table is a dictionary from patient id to stored record. Python
 * dictionaries remember insertion order, which is the order the sort
 * endpoint receives the records in, so the store keeps that order next to
 * the map: a new id goes to the end, an update keeps an id's place, and a
 * delete closes the gap.
 */
module Store {
  import opened Metrics
  import opened Records
  import opened Sorting

  /** The failures the endpoints report. */
  datatype Error =
    | Invalid(fields: seq<Field>)   // a body failed validation; every violated field
    | NotFound                      // no patient with that id
    | AlreadyExists                 // create with an id already in the table
    | InvalidSortField              // sort_by not one of height, weight, bmi
    | InvalidOrder                  // order not one of asc, desc

  datatype Outcome = Done | Failed(error: Error)

  /** `ids` with `id` taken out, the others keeping their order. */
  function Without(ids: seq<string>, id: string): (r: seq<string>)
    ensures forall x :: x in r <==> x in ids && x != id
    ensures Distinct(ids) ==> Distinct(r)
    ensures id !in ids ==> r == ids
  {
    if ids == [] then []
    else
      var rest := Without(ids[1..], id);
      assert Distinct(ids) ==> ids[0] !in ids[1..];
      assert id !in ids ==> ids == [ids[0]] + ids[1..];
      (if ids[0] == id then [] else [ids[0]]) + rest
  }

  /** Deleting the id at position `i` closes the gap and keeps every other id in place. */
  lemma {:induction false} WithoutAt(ids: seq<string>, id: string, i: int)
    requires Distinct(ids) && 0 <= i < |ids| && ids[i] == id
    ensures Without(ids, id) == ids[..i] + ids[i + 1..]
  {
    if i == 0 {
      assert id !in ids[1..];
      assert ids[1..] == ids[i + 1..];
    } else {
      WithoutAt(ids[1..], id, i - 1);
      assert ids[..i] == [ids[0]] + ids[1..][..i - 1];
      assert ids[i + 1..] == ids[1..][i..];
    }
  }

  /** The records of `table` listed in the order of `ids`: `list(data.values())`. */
  function ValuesOf(ids: seq<string>, table: map<string, Record>): (vs: seq<Record>)
    requires forall id :: id in ids ==> id in table
    ensures |vs| == |ids|
    ensures forall i :: 0 <= i < |ids| ==> vs[i] == table[ids[i]]
  {
    if ids == [] then [] else [table[ids[0]]] + ValuesOf(ids[1..], table)
  }

  /**
   * Each id is listed once, the listed ids are the keys of the table, and
   * every record satisfies the patient constraints with up-to-date bmi and
   * verdict.
   */
  ghost predicate TableValid(ids: seq<string>, table: map<string, Record>) {
    && Distinct(ids)
    && (forall id :: id in ids <==> id in table)
    && (forall id :: id in table ==> RecordValid(table[id]))
  }

  /** Replacing the record of a present id by a valid one keeps the table valid. */
  lemma ReplaceKeepsValid(ids: seq<string>, table: map<string, Record>, id: string, rec: Record)
    requires TableValid(ids, table) && id in table && RecordValid(rec)
    ensures TableValid(ids, table[id := rec])
  {
  }

  class PatientStore {
    /** The ids of the table, in insertion order. */
    var ids: seq<string>
    /** The stored record of each id. */
    var table: map<string, Record>

    /** The table invariant over the current state. */
    ghost predicate Valid()
      reads this
    {
      TableValid(ids, table)
    }

    constructor ()
      ensures Valid() && ids == [] && table == map[]
    {
      ids := [];
      table := map[];
    }

    /** The stored records in insertion order. */
    function Values(): (vs: seq<Record>)
      reads this
      requires Valid()
      ensures |vs| == |ids|
    {
      ValuesOf(ids, table)
    }

    /** `view_patient`: the stored record of `id`, or not found. */
    method View(id: string) returns (r: Result<Record, Error>)
      ensures id in table ==> r == Ok(table[id])
      ensures id !in table ==> r == Err(NotFound)
    {
      if id in table {
        r := Ok(table[id]);
      } else {
        r := Err(NotFound);
      }
    }

    /**
     * `sort_patient`: check the key, then the direction, then return every
     * stored record ordered by that key, stably.
     */
    method Sort(sortBy: string, order: string) returns (r: Result<seq<Record>, Error>)
      requires Valid()
      ensures ParseSortKey(sortBy).None? ==> r == Err(InvalidSortField)
      ensures ParseSortKey(sortBy).Some? && ParseDirection(order).None? ==> r == Err(InvalidOrder)
      ensures ParseSortKey(sortBy).Some? && ParseDirection(order).Some? ==>
                var k, d := ParseSortKey(sortBy).value, ParseDirection(order).value;
                && r.Ok?
                && multiset(r.value) == multiset(Values())
                && Sorted(r.value, k, d)
                && SameTies(r.value, Values(), k)
    {
      var key := ParseSortKey(sortBy);
      if key.None? {
        return Err(InvalidSortField);
      }
      var direction := ParseDirection(order);
      if direction.None? {
        return Err(InvalidOrder);
      }
      var records := Values();
      SortStable(records, key.value, direction.value);
      r := Ok(SortRecords(records, key.value, direction.value));
    }

    /**
     * `create_patient`: validate the body, refuse an id already present,
     * otherwise add the dumped patient under its id at the end of the table.
     */
    method Create(body: Candidate) returns (r: Outcome)
      requires Valid()
      modifies this
      ensures Valid()
      ensures Validate(body).Err? ==>
                r == Failed(Invalid(Validate(body).error)) && unchanged(this)
      ensures Validate(body).Ok? && body.id.value in old(table) ==>
                r == Failed(AlreadyExists) && unchanged(this)
      ensures Validate(body).Ok? && body.id.value !in old(table) ==>
                && r == Done
                && ids == old(ids) + [body.id.value]
                && table == old(table)[body.id.value := Dump(Validate(body).value)]
    {
      var v := Validate(body);
      if v.Err? {
        return Failed(Invalid(v.error));
      }
      var patient := v.value;
      if patient.id in table {
        return Failed(AlreadyExists);
      }
      DumpValid(patient);
      ids := ids + [patient.id];
      table := table[patient.id := Dump(patient)];
      r := Done;
    }

    /**
     * `update_patient`: validate the update body, look the id up, copy the
     * given fields over the stored ones, rebuild the patient (which
     * re-validates it and recomputes bmi and verdict) and store it in place.
     */
    method Update(id: string, u: PatientUpdate) returns (r: Outcome)
      requires Valid()
      modifies this
      ensures Valid()
      ensures UpdateViolations(u) != [] ==>
                r == Failed(Invalid(UpdateViolations(u))) && unchanged(this)
      ensures UpdateViolations(u) == [] && id !in old(table) ==>
                r == Failed(NotFound) && unchanged(this)
      ensures UpdateViolations(u) == [] && id in old(table) && NullFields(u) != [] ==>
                && r.Failed? && r.error.Invalid?
                && (forall f :: f in r.error.fields <==> f in NullFields(u))
                && unchanged(this)
      ensures UpdateViolations(u) == [] && id in old(table) && NullFields(u) == [] ==>
                && r == Done
                && ids == old(ids)
                && table == old(table)[id := Updated(old(table)[id], u)]
    {
      var errs := UpdateViolations(u);
      if errs != [] {
        return Failed(Invalid(errs));
      }
      if id !in table {
        return Failed(NotFound);
      }
      var info := MergeUpdate(Current(table[id]), u);
      info := info.(id := Some(id));
      RevalidateMerged(table[id], id, u);
      var v := Validate(info);
      if v.Err? {
        return Failed(Invalid(v.error));
      }
      UpdatedValid(table[id], u);
      ReplaceKeepsValid(ids, table, id, Dump(v.value));
      table := table[id := Dump(v.value)];
      r := Done;
    }

    /** `delete_patient`: remove `id` and its record, or report not found. */
    method Delete(id: string) returns (r: Outcome)
      requires Valid()
      modifies this
      ensures Valid()
      ensures id !in old(table) ==> r == Failed(NotFound) && unchanged(this)
      ensures id in old(table) ==>
                && r == Done
                && id !in table
                && ids == Without(old(ids), id)
                && table == old(table) - {id}
    {
      if id !in table {
        return Failed(NotFound);
      }
      ids := Without(ids, id);
      table := table - {id};
      r := Done;
    }
  }

  /** What a client can rely on: create, view and a second create of the same id. */
  method ClientCreateView() returns (store: PatientStore)
    ensures store.Valid() && "P001" in store.table
  {
    store := new PatientStore();
    var p := Patient("P001", "Ana", "Pune", 30, "female", 1.75, 70.0);
    assert PatientValid(p);
    ValidateRoundTrip(p);
    var created := store.Create(AsCandidate(p));
    assert created == Done;
    var again := store.Create(AsCandidate(p));
    assert again == Failed(AlreadyExists);
    var seen := store.View("P001");
    BmiExamples();
    assert seen == Ok(Dump(p));
    assert seen.value.bmi == 22.86 && seen.value.verdict == Normal;
  }

  /** What a client can rely on: update one field, sort, then delete. */
  method ClientUpdateDelete(store: PatientStore)
    requires store.Valid() && "P001" in store.table
    modifies store
  {
    var old_record := store.table["P001"];
    var heavier := PatientUpdate(Unset, Unset, Unset, Unset, Unset, Set(Some(90.0)));
    assert UpdateViolations(heavier) == [];
    assert NullFields(heavier) == [];
    var updated := store.Update("P001", heavier);
    assert updated == Done;
    var seen := store.View("P001");
    assert seen == Ok(Updated(old_record, heavier));
    assert seen.value.weight == 90.0 && seen.value.name == old_record.name;
    assert seen.value.bmi == Bmi(old_record.height, 90.0);

    var bad := store.Sort("age", "asc");
    assert bad == Err(InvalidSortField);
    var sorted := store.Sort("bmi", "desc");
    assert sorted.Ok?;

    var deleted := store.Delete("P001");
    assert deleted == Done;
    seen := store.View("P001");
    assert seen == Err(NotFound);
    deleted := store.Delete("P001");
    assert deleted == Failed(NotFound);
  }
}
